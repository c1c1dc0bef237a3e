/**
 * The client's form validators (`frontend/src/utils/validators.js`). A rule
 * maps a field's value to an error message or to nothing; `validate` runs a
 * list of rules and reports the first message.
 *
 * A form value is JavaScript's `undefined`, `null`, a string or a number, and
 * the rules look at it through `String(value)` and `Number(value)`.
 */
module Validators {
  import opened Common
  import opened Text

  /** A form value. Numbers are whole; fractional amounts reach the rules as text. */
  datatype Value = Missing | Null | Str(s: string) | Num(n: int)

  /** JavaScript truthiness of a value: `undefined`, `null`, `''` and `0` are falsy. */
  predicate Truthy(v: Value) {
    match v
    case Missing => false
    case Null => false
    case Str(s) => s != ""
    case Num(n) => n != 0
  }

  /** `value === '' || value === null || value === undefined`. */
  predicate Blank(v: Value) {
    v == Missing || v == Null || v == Str("")
  }

  /** `String(value)`. */
  function AsString(v: Value): (r: string)
    ensures v.Str? ==> r == v.s
  {
    match v
    case Missing => "undefined"
    case Null => "null"
    case Str(s) => s
    case Num(n) => IntToString(n)
  }

  function Pow10(k: nat): (p: nat)
    ensures p >= 1
  {
    if k == 0 then 1 else 10 * Pow10(k - 1)
  }

  /** Digits with at most one decimal point and at least one digit: `12`, `3.14`, `.5`, `5.`. */
  function ParseUnsigned(u: string): (r: Option<real>)
    ensures r.Some? ==> r.value >= 0.0
  {
    var i := if '.' in u then IndexOf(u, '.') else |u|;
    var whole := u[..i];
    var frac := if i < |u| then u[i + 1..] else "";
    if AllDigits(whole) && AllDigits(frac) && |whole| + |frac| > 0 then Some(DecimalValue(whole, frac))
    else None
  }

  /** The value of a numeral with whole part `whole` and decimals `frac`. */
  function DecimalValue(whole: string, frac: string): (x: real)
    requires AllDigits(whole) && AllDigits(frac)
    ensures x >= 0.0
  {
    DigitsValue(whole) as real + DigitsValue(frac) as real / Pow10(|frac|) as real
  }

  /** A run of digits reads as its decimal value. */
  lemma ParseWhole(u: string)
    requires AllDigits(u) && u != ""
    ensures ParseUnsigned(u) == Some(DigitsValue(u) as real)
  {
    forall k | 0 <= k < |u| ensures u[k] != '.' {
      assert IsDigit(u[k]);
    }
    assert '.' !in u;
    assert u[..|u|] == u;
    assert AllDigits("") && Pow10(0) == 1 && DigitsValue("") == 0;
    assert DecimalValue(u, "") == DigitsValue(u) as real;
  }

  /** Digits, a point and digits read as the whole part plus the fraction. */
  lemma ParseFraction(whole: string, frac: string)
    requires AllDigits(whole) && AllDigits(frac) && |whole| + |frac| > 0
    ensures ParseUnsigned(whole + "." + frac) == Some(DecimalValue(whole, frac))
  {
    var u := whole + "." + frac;
    forall k | 0 <= k < |whole| ensures u[k] != '.' {
      assert u[k] == whole[k];
      assert IsDigit(whole[k]);
    }
    IndexOfFirst(u, '.', |whole|);
    var i := IndexOf(u, '.');
    assert u[..i] == whole;
    assert u[i + 1..] == frac;
  }

  /** A decimal numeral with an optional sign; anything else is not a number. */
  function ParseDecimal(t: string): Option<real> {
    if |t| > 0 && (t[0] == '-' || t[0] == '+') then
      var u := ParseUnsigned(t[1..]);
      if u.Some? && t[0] == '-' then Some(-u.value) else u
    else ParseUnsigned(t)
  }

  /** A numeral that starts with a digit reads the same unsigned, and negated behind a minus sign. */
  lemma SignedNumeral(u: string)
    requires |u| > 0 && IsDigit(u[0])
    ensures ParseDecimal(u) == ParseUnsigned(u)
    ensures ParseUnsigned(u).Some? ==> ParseDecimal("-" + u) == Some(-ParseUnsigned(u).value)
  {
    assert ("-" + u)[1..] == u;
  }

  /**
   * `Number(value)`, with `None` for `NaN`: `undefined` is not a number,
   * `null` and blank text are 0, and text is trimmed before it is read.
   */
  function ToNumber(v: Value): (r: Option<real>)
    ensures v == Missing ==> r.None?
    ensures v == Null || v == Str("") ==> r == Some(0.0)
    ensures v.Num? ==> r == Some(v.n as real)
  {
    match v
    case Missing => None
    case Null => Some(0.0)
    case Num(n) => Some(n as real)
    case Str(s) =>
      var t := Trim(s);
      if t == "" then Some(0.0) else ParseDecimal(t)
  }

  /** A rendered whole number has no white space at either end, so `trim` keeps it. */
  lemma TrimRendered(n: int)
    ensures Trim(IntToString(n)) == IntToString(n)
  {
    var s := IntToString(n);
    assert !IsSpace(s[0]);
    assert !IsSpace(s[|s| - 1]) by {
      if n < 0 {
        assert s[|s| - 1] == NatToString(-n)[|NatToString(-n)| - 1];
      }
    }
  }

  /** `Number(String(n)) === n`: reading back a rendered whole number gives the number. */
  lemma NumberOfString(n: int)
    ensures ToNumber(Str(AsString(Num(n)))) == ToNumber(Num(n)) == Some(n as real)
  {
    var s := IntToString(n);
    TrimRendered(n);
    if n < 0 {
      DigitsValueNatToString(-n);
      assert s[1..] == NatToString(-n);
      ParseWhole(s[1..]);
    } else {
      DigitsValueNatToString(n);
      ParseWhole(s);
      assert !(s[0] == '-' || s[0] == '+');
    }
  }

  /** None of `\s` and no `@`. */
  predicate NoSpaceOrAt(s: string) {
    forall k :: 0 <= k < |s| ==> s[k] != '@' && !IsSpace(s[k])
  }

  /**
   * `/^[^\s@]+@[^\s@]+\.[^\s@]+$/`: one `@` with something before it, and a
   * dot after it that is neither right after the `@` nor last, and no white
   * space anywhere.
   */
  predicate EmailShape(s: string) {
    exists i, j :: 0 < i && i + 1 < j < |s| - 1 && s[i] == '@' && s[j] == '.'
                   && NoSpaceOrAt(s[..i]) && NoSpaceOrAt(s[i + 1..])
  }

  /** The rules of `validators`, each with its message as built by its factory. */
  datatype Rule =
    | Required(msg: string)                    // `msg` defaults to "Campo obrigatorio"
    | MinLength(min: int, custom: Option<string>)
    | MaxLength(max: int, custom: Option<string>)
    | Email(msg: string)                       // `msg` defaults to "Email invalido"
    | Numeric(msg: string)                     // `msg` defaults to "Deve ser um numero"
    | AtLeast(minVal: int, custom: Option<string>)
    | AtMost(maxVal: int, custom: Option<string>)
    | PositivePrice(msg: string)               // `msg` defaults to "Preco deve ser maior que zero"
    | MinQuantity(min: int, custom: Option<string>)

  /** Running one rule on a value: the message when the rule fails. */
  function Check(rule: Rule, v: Value): Option<string> {
    match rule
    case Required(msg) =>
      if v == Missing || v == Null || Trim(AsString(v)) == "" then Some(msg) else None
    case MinLength(min, custom) =>
      if Truthy(v) && |AsString(v)| < min then Some(StrOr(custom, "Minimo de " + IntToString(min) + " caracteres"))
      else None
    case MaxLength(max, custom) =>
      if Truthy(v) && |AsString(v)| > max then Some(StrOr(custom, "Maximo de " + IntToString(max) + " caracteres"))
      else None
    case Email(msg) =>
      if Truthy(v) && !EmailShape(AsString(v)) then Some(msg) else None
    case Numeric(msg) =>
      if !Blank(v) && ToNumber(v).None? then Some(msg) else None
    case AtLeast(minVal, custom) =>
      if !Blank(v) && ToNumber(v).Some? && ToNumber(v).value < minVal as real
      then Some(StrOr(custom, "Valor minimo: " + IntToString(minVal)))
      else None
    case AtMost(maxVal, custom) =>
      if !Blank(v) && ToNumber(v).Some? && ToNumber(v).value > maxVal as real
      then Some(StrOr(custom, "Valor maximo: " + IntToString(maxVal)))
      else None
    case PositivePrice(msg) =>
      var num := ToNumber(v);
      if num.None? || num.value <= 0.0 then Some(msg) else None
    case MinQuantity(min, custom) =>
      var num := ToNumber(v);
      if num.None? || num.value < min as real then Some(StrOr(custom, "Quantidade minima: " + IntToString(min)))
      else None
  }

  /** `required` fails exactly for `undefined`, `null` and text that is all white space; a number, even 0, passes. */
  lemma RequiredSpec(msg: string, v: Value)
    ensures Check(Required(msg), v).Some? <==>
      v == Missing || v == Null || (v.Str? && forall k :: 0 <= k < |v.s| ==> IsSpace(v.s[k]))
    ensures v.Num? ==> Check(Required(msg), v).None?
  {
    TrimEmptyIff(AsString(v));
    if v.Num? {
      TrimRendered(v.n);
    }
  }

  /** The length rules and `email` let every falsy value through and judge only the others. */
  lemma FalsyPassesShapeRules(v: Value, n: int, custom: Option<string>, msg: string)
    requires !Truthy(v)
    ensures Check(MinLength(n, custom), v).None?
    ensures Check(MaxLength(n, custom), v).None?
    ensures Check(Email(msg), v).None?
  {
  }

  /** The numeric rules let blank values through; `min` and `max` also let through what is not a number. */
  lemma BlankPassesNumericRules(v: Value, n: int, custom: Option<string>, msg: string)
    ensures Blank(v) ==> Check(Numeric(msg), v).None? && Check(AtLeast(n, custom), v).None?
                         && Check(AtMost(n, custom), v).None?
    ensures ToNumber(v).None? ==> Check(AtLeast(n, custom), v).None? && Check(AtMost(n, custom), v).None?
  {
  }

  /** `positivePrice` and `minQuantity` have no blank exemption: a value that is not a number always fails them. */
  lemma NotANumberFails(v: Value, min: int, custom: Option<string>, msg: string)
    requires ToNumber(v).None?
    ensures Check(PositivePrice(msg), v) == Some(msg)
    ensures Check(MinQuantity(min, custom), v).Some?
  {
  }

  /** A rule's outcome as `validate` reads it: an empty message is falsy and counts as a pass. */
  predicate Passes(rule: Rule, v: Value) {
    Check(rule, v).None? || Check(rule, v) == Some("")
  }

  /** The first message of a failing rule, in list order. */
  function FirstError(v: Value, rules: seq<Rule>): (r: Option<string>)
    ensures r.Some? ==> r.value != ""
  {
    if rules == [] then None
    else if !Passes(rules[0], v) then Check(rules[0], v)
    else FirstError(v, rules[1..])
  }

  /**
   * `validate` reports nothing exactly when every rule passes, and otherwise
   * the message of the first rule that fails, every earlier rule passing.
   */
  lemma {:induction false} FirstErrorSpec(v: Value, rules: seq<Rule>)
    ensures FirstError(v, rules).None? <==> forall k :: 0 <= k < |rules| ==> Passes(rules[k], v)
    ensures FirstError(v, rules).Some? ==>
      exists k :: 0 <= k < |rules| && !Passes(rules[k], v) && Check(rules[k], v) == FirstError(v, rules)
                  && forall m :: 0 <= m < k ==> Passes(rules[m], v)
  {
    if rules != [] && Passes(rules[0], v) {
      FirstErrorSpec(v, rules[1..]);
      if FirstError(v, rules).Some? {
        var k :| 0 <= k < |rules[1..]| && !Passes(rules[1..][k], v) && Check(rules[1..][k], v) == FirstError(v, rules)
                 && forall m :: 0 <= m < k ==> Passes(rules[1..][m], v);
        assert rules[k + 1] == rules[1..][k];
        assert forall m :: 0 <= m < k + 1 ==> Passes(rules[m], v) by {
          forall m | 0 <= m < k + 1 ensures Passes(rules[m], v) {
            if m > 0 {
              assert rules[m] == rules[1..][m - 1];
            }
          }
        }
      }
      assert forall k :: 1 <= k < |rules| ==> rules[k] == rules[1..][k - 1];
    }
  }

  /** `validate(value, rules)`: scans the rules in order and stops at the first truthy message. */
  method Validate(v: Value, rules: seq<Rule>) returns (r: Option<string>)
    ensures r == FirstError(v, rules)
  {
    var k := 0;
    while k < |rules|
      invariant 0 <= k <= |rules|
      invariant FirstError(v, rules) == FirstError(v, rules[k..])
    {
      assert rules[k..][1..] == rules[k + 1..];
      var error := Check(rules[k], v);
      if error.Some? && error.value != "" {
        return error;
      }
      k := k + 1;
    }
    return None;
  }

  // ---------------------------------------------------------------- the client's examples

  /** A non-empty string with no white space at either end is its own trim. */
  lemma TrimKeeps(s: string)
    requires s != [] && !IsSpace(s[0]) && !IsSpace(s[|s| - 1])
    ensures Trim(s) == s
  {
  }

  /** Lower-case letters and dots are neither white space nor `@`. */
  lemma PlainText(s: string)
    requires forall k :: 0 <= k < |s| ==> 'a' <= s[k] <= 'z' || s[k] == '.'
    ensures NoSpaceOrAt(s)
  {
  }

  /** The `required` cases of the client's checks: blank values fail, text and the number 0 pass. */
  lemma RequiredExamples()
    ensures Check(Required("Campo obrigatorio"), Str("")).Some?
    ensures Check(Required("Campo obrigatorio"), Null).Some?
    ensures Check(Required("Campo obrigatorio"), Missing).Some?
    ensures Check(Required("Campo obrigatorio"), Str("   ")).Some?
    ensures Check(Required("Campo obrigatorio"), Str("hello")).None?
    ensures Check(Required("Campo obrigatorio"), Num(0)).None?
    ensures Check(Required("Preencha o campo"), Str("")) == Some("Preencha o campo")
  {
    RequiredSpec("Campo obrigatorio", Str("   "));
    RequiredSpec("Campo obrigatorio", Str("hello"));
    RequiredSpec("Campo obrigatorio", Num(0));
    assert !IsSpace("hello"[0]);
  }

  /** The length cases: too short fails with the built message, exact and empty pass, too long fails. */
  lemma LengthExamples()
    ensures Check(MinLength(3, None), Str("ab")) == Some("Minimo de " + IntToString(3) + " caracteres")
    ensures Check(MinLength(3, None), Str("abc")).None?
    ensures Check(MinLength(3, None), Str("")).None?
    ensures Check(MaxLength(5, None), Str("123456")).Some?
    ensures Check(MaxLength(5, None), Str("12345")).None?
  {
  }

  /** The `email` cases: no `@`, nothing after it, a well-formed address, and the empty string. */
  lemma EmailExamples()
    ensures Check(Email("Email invalido"), Str("invalido")).Some?
    ensures Check(Email("Email invalido"), Str("user@")).Some?
    ensures Check(Email("Email invalido"), Str("")).None?
  {
    assert forall k :: 0 <= k < |"invalido"| ==> "invalido"[k] != '@';
  }

  /** A well-formed address passes `email`. */
  lemma AddressExample(s: string)
    requires s == "user@example.com"
    ensures Check(Email("Email invalido"), Str(s)).None?
  {
    assert s[4] == '@' && s[12] == '.';
    PlainText(s[..4]);
    PlainText(s[5..]);
  }

  /** `Number` on the texts the client's checks use. */
  lemma ParseExamples()
    ensures ToNumber(Str("abc")).None?
    ensures ToNumber(Str("42")) == Some(42.0)
    ensures ToNumber(Str("3.14")) == Some(3.14)
    ensures ToNumber(Str("25.90")) == Some(25.9)
  {
    NotANumeral("abc");
    FortyTwo("42");
    ThreePointFourteen("3.14");
    TwentyFiveNinety("25.90");
  }

  lemma NotANumeral(s: string)
    requires s == "abc"
    ensures ToNumber(Str(s)).None?
  {
    TrimKeeps(s);
    assert !IsDigit(s[0]);
  }

  lemma FortyTwo(s: string)
    requires s == "42"
    ensures ToNumber(Str(s)) == Some(42.0)
  {
    TrimKeeps(s);
    assert AllDigits(s);
    assert s[..1] == "4" && DigitsValue(s[..1]) == 4;
    assert DigitsValue(s) == 42;
    ParseWhole(s);
  }

  lemma ThreePointFourteen(s: string)
    requires s == "3.14"
    ensures ToNumber(Str(s)) == Some(3.14)
  {
    TrimKeeps(s);
    assert s == "3" + "." + "14";
    assert DigitsValue("14") == 14 by { assert "14"[..1] == "1"; }
    assert DigitsValue("3") == 3;
    assert Pow10(2) == 100;
    assert DecimalValue("3", "14") == 3.14;
    ParseFraction("3", "14");
  }

  lemma TwentyFiveNinety(s: string)
    requires s == "25.90"
    ensures ToNumber(Str(s)) == Some(25.9)
  {
    TrimKeeps(s);
    assert s == "25" + "." + "90";
    assert DigitsValue("25") == 25 by { assert "25"[..1] == "2"; }
    assert DigitsValue("90") == 90 by { assert "90"[..1] == "9"; }
    assert Pow10(2) == 100;
    assert DecimalValue("25", "90") == 25.9;
    ParseFraction("25", "90");
  }

  /** `numeric`: text that is not a number fails; an integer or a decimal as text, and blank text, pass. */
  lemma NumericExamples()
    ensures Check(Numeric("Deve ser um numero"), Str("abc")).Some?
    ensures Check(Numeric("Deve ser um numero"), Str("42")).None?
    ensures Check(Numeric("Deve ser um numero"), Str("3.14")).None?
    ensures Check(Numeric("Deve ser um numero"), Str("")).None?
  {
    ParseExamples();
  }

  /** `min(10)` and `max(100)` are inclusive bounds. */
  lemma BoundExamples()
    ensures Check(AtLeast(10, None), Num(5)) == Some("Valor minimo: " + IntToString(10))
    ensures Check(AtLeast(10, None), Num(10)).None?
    ensures Check(AtMost(100, None), Num(150)).Some?
    ensures Check(AtMost(100, None), Num(100)).None?
  {
  }

  /** `positivePrice` refuses 0, negatives and text that is not a number; `minQuantity(1)` refuses 0. */
  lemma PriceAndQuantityExamples()
    ensures Check(PositivePrice("Preco deve ser maior que zero"), Num(0)).Some?
    ensures Check(PositivePrice("Preco deve ser maior que zero"), Num(-5)).Some?
    ensures Check(PositivePrice("Preco deve ser maior que zero"), Str("abc")).Some?
    ensures Check(PositivePrice("Preco deve ser maior que zero"), Str("25.90")).None?
    ensures Check(MinQuantity(1, None), Num(0)) == Some("Quantidade minima: " + IntToString(1))
    ensures Check(MinQuantity(1, None), Num(1)).None?
  {
    ParseExamples();
  }

  /** The `validate` cases: the first failing rule wins, and a later rule speaks when the first passes. */
  lemma ValidateExamples()
    ensures FirstError(Str(""), [Required("Obrigatorio"), MinLength(3, Some("Curto demais"))]) == Some("Obrigatorio")
    ensures FirstError(Str("ab"), [Required("Campo obrigatorio"), MinLength(5, Some("Minimo 5"))]) == Some("Minimo 5")
  {
    RequiredSpec("Campo obrigatorio", Str("ab"));
    assert !IsSpace("ab"[0]);
    var rules := [Required("Campo obrigatorio"), MinLength(5, Some("Minimo 5"))];
    assert rules[1..] == [MinLength(5, Some("Minimo 5"))];
  }

  /** When every rule passes, `validate` gives nothing. */
  lemma ValidAddressPasses(s: string)
    requires s == "hello@test.com"
    ensures FirstError(Str(s), [Required("Campo obrigatorio"), Email("Email invalido")]).None?
  {
    RequiredSpec("Campo obrigatorio", Str(s));
    assert !IsSpace(s[0]);
    assert s[5] == '@' && s[10] == '.';
    PlainText(s[..5]);
    PlainText(s[6..]);
    assert EmailShape(s);
    assert Passes(Email("Email invalido"), Str(s));
    var rules := [Required("Campo obrigatorio"), Email("Email invalido")];
    assert rules[1..] == [Email("Email invalido")];
    assert FirstError(Str(s), rules[1..]) == FirstError(Str(s), []);
  }

  /** A rule built with an empty message reports `''`, which `validate` skips as if the rule had passed. */
  lemma EmptyMessageIsSkipped()
    ensures Check(Required(""), Str("")) == Some("")
    ensures FirstError(Str(""), [Required("")]).None?
  {
  }
}
