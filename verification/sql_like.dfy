/**
 * The `LIKE` and `ILIKE` patterns the listing routes build from a search
 * term, `'%' + busca + '%'`. In a pattern `%` matches any run of characters
 * and `_` any one character. PostgreSQL also reads a backslash as an escape
 * that makes the next character literal; SQLite (under Workers) has no
 * default escape. Both searches ignore the case of ASCII letters: PostgreSQL
 * through `ILIKE`, SQLite because its `LIKE` folds ASCII case.
 */
module SqlLike {
  import opened Schema
  import opened Text

  /** One element of a parsed pattern. */
  datatype Token = AnyRun | AnyOne | Lit(c: char)

  /** The pattern read as tokens, each literal already case-folded. */
  function Tokens(dep: Deployment, p: string): (ts: seq<Token>)
    ensures |ts| <= |p|
  {
    if p == [] then []
    else if p[0] == '%' then [AnyRun] + Tokens(dep, p[1..])
    else if p[0] == '_' then [AnyOne] + Tokens(dep, p[1..])
    else if dep == Backend && p[0] == '\\' && |p| >= 2 then [Lit(LowerChar(p[1]))] + Tokens(dep, p[2..])
    else [Lit(LowerChar(p[0]))] + Tokens(dep, p[1..])
  }

  /** Whether the tokens match the whole (case-folded) text. */
  predicate Match(ts: seq<Token>, t: string)
    decreases |ts| + |t|
  {
    if ts == [] then t == []
    else match ts[0]
      case AnyRun => Match(ts[1..], t) || (t != [] && Match(ts, t[1..]))
      case AnyOne => t != [] && Match(ts[1..], t[1..])
      case Lit(c) => t != [] && t[0] == c && Match(ts[1..], t[1..])
  }

  /** `text LIKE pattern` (or `ILIKE`), ignoring ASCII case. */
  predicate Like(dep: Deployment, pattern: string, text: string) {
    Match(Tokens(dep, pattern), Lower(text))
  }

  /** The route's search: the column matches `'%' + busca + '%'`. */
  predicate LikeSearch(dep: Deployment, busca: string, text: string) {
    Like(dep, "%" + busca + "%", text)
  }

  /** A term with no pattern character: no `%`, no `_` and no backslash. */
  predicate Plain(s: string) {
    forall i :: 0 <= i < |s| ==> s[i] != '%' && s[i] != '_' && s[i] != '\\'
  }

  function Lits(s: string): (ts: seq<Token>)
    ensures |ts| == |s|
  {
    if s == [] then [] else [Lit(s[0])] + Lits(s[1..])
  }

  /** A first character that is not a pattern character is read as itself. */
  lemma TokensPlainHead(dep: Deployment, p: string)
    requires p != [] && p[0] != '%' && p[0] != '_' && p[0] != '\\'
    ensures Tokens(dep, p) == [Lit(LowerChar(p[0]))] + Tokens(dep, p[1..])
  {
  }

  /** A plain prefix is read character by character, whatever follows it. */
  lemma {:induction false} TokensPlainThen(dep: Deployment, b: string, rest: string)
    requires Plain(b)
    ensures Tokens(dep, b + rest) == Lits(Lower(b)) + Tokens(dep, rest)
  {
    if b != [] {
      assert (b + rest)[0] == b[0] && (b + rest)[1..] == b[1..] + rest;
      TokensPlainHead(dep, b + rest);
      assert Lower(b) == [LowerChar(b[0])] + Lower(b[1..]);
      assert Lits(Lower(b)) == [Lit(LowerChar(b[0]))] + Lits(Lower(b[1..]));
      TokensPlainThen(dep, b[1..], rest);
    } else {
      assert b + rest == rest;
    }
  }

  /** A leading `%` matches exactly when the rest matches some suffix of the text. */
  lemma {:induction false} MatchRun(rest: seq<Token>, t: string)
    ensures Match([AnyRun] + rest, t) <==> exists i :: 0 <= i <= |t| && Match(rest, t[i..])
    decreases |t|
  {
    var ts := [AnyRun] + rest;
    assert ts[1..] == rest;
    assert t[0..] == t;
    if t != [] {
      MatchRun(rest, t[1..]);
      forall i | 0 <= i <= |t[1..]| ensures t[1..][i..] == t[i + 1..] { }
      if exists i :: 0 <= i <= |t| && Match(rest, t[i..]) {
        var i :| 0 <= i <= |t| && Match(rest, t[i..]);
        if i > 0 {
          assert Match(rest, t[1..][i - 1..]);
        }
      }
    }
  }

  /** Literals followed by `%` match exactly the texts that start with those characters. */
  lemma {:induction false} MatchLitsRun(s: string, t: string)
    ensures Match(Lits(s) + [AnyRun], t) <==> StartsWith(t, s)
  {
    if s == [] {
      assert Lits(s) + [AnyRun] == [AnyRun] + [];
      MatchRun([], t);
      assert t[|t|..] == [];
    } else {
      var ts := Lits(s) + [AnyRun];
      assert ts[0] == Lit(s[0]) && ts[1..] == Lits(s[1..]) + [AnyRun];
      if t != [] {
        MatchLitsRun(s[1..], t[1..]);
        if |s| <= |t| {
          assert t[..|s|] == [t[0]] + t[1..][..|s| - 1];
          assert s == [s[0]] + s[1..];
        }
      }
    }
  }

  /**
   * Without pattern characters in the term, the SQL search is exactly
   * case-insensitive containment, on both databases.
   */
  lemma PlainSearchIsContainment(dep: Deployment, busca: string, text: string)
    requires Plain(busca)
    ensures LikeSearch(dep, busca, text) <==> ContainsIgnoreCase(text, busca)
  {
    var t := Lower(text);
    var b := Lower(busca);
    TokensPlainThen(dep, busca, "%");
    assert ("%" + busca + "%")[0] == '%' && ("%" + busca + "%")[1..] == busca + "%";
    assert Tokens(dep, "%") == [AnyRun];
    var rest := Lits(b) + [AnyRun];
    assert Tokens(dep, "%" + busca + "%") == [AnyRun] + rest;
    MatchRun(rest, t);
    forall i | 0 <= i <= |t| ensures Match(rest, t[i..]) <==> OccursAt(t, b, i) {
      MatchLitsRun(b, t[i..]);
      if |b| <= |t[i..]| {
        assert t[i..][..|b|] == t[i..i + |b|];
      }
    }
  }

  /** A `%` typed as the term matches every text. */
  lemma PercentMatchesAll(dep: Deployment, text: string)
    ensures LikeSearch(dep, "%", text)
  {
    var t := Lower(text);
    assert "%" + "%" + "%" == "%%%";
    assert Tokens(dep, "%%%") == [AnyRun] + [AnyRun, AnyRun];
    MatchRun([AnyRun, AnyRun], t);
    assert t[|t|..] == [];
    assert Match([AnyRun], []) by {
      assert [AnyRun][1..] == [];
    }
    assert Match([AnyRun, AnyRun], []) by {
      assert [AnyRun, AnyRun][1..] == [AnyRun];
    }
  }

  /** `_` matches any one character: "a_b" finds "axb", which does not contain the text "a_b". */
  lemma UnderscoreMatchesAnyChar(dep: Deployment)
    ensures LikeSearch(dep, "a_b", "axb")
    ensures !ContainsIgnoreCase("axb", "a_b")
  {
    assert Lower("axb") == "axb";
    assert "%" + "a_b" + "%" == "%a_b%";
    assert Tokens(dep, "%a_b%") == [AnyRun, Lit('a'), AnyOne, Lit('b'), AnyRun];
    var ts := [AnyRun, Lit('a'), AnyOne, Lit('b'), AnyRun];
    assert Match(ts[4..], []);
    assert Match(ts[3..], "b");
    assert Match(ts[2..], "xb");
    assert Match(ts[1..], "axb");
    assert Match(ts, "axb");
    assert Lower("a_b") == "a_b";
    forall i | 0 <= i <= 3 ensures !OccursAt("axb", "a_b", i) {
      if i == 0 {
        assert "axb"[1] != "a_b"[1];
      }
    }
  }

  /**
   * The backslash escape of PostgreSQL: there the term "\_" is a literal
   * underscore, which "x" lacks, while SQLite reads the backslash as itself
   * and the `_` as a wildcard.
   */
  lemma BackslashEscapesOnPostgres()
    ensures !LikeSearch(Backend, "\\_", "x")
    ensures LikeSearch(Cloudflare, "\\_", "\\x")
  {
    assert "%" + "\\_" + "%" == "%\\_%";
    assert Tokens(Backend, "%\\_%") == [AnyRun, Lit('_'), AnyRun];
    assert Tokens(Cloudflare, "%\\_%") == [AnyRun, Lit('\\'), AnyOne, AnyRun];
    assert Lower("x") == "x";
    assert Lower("\\x") == "\\x";
    var tb := [AnyRun, Lit('_'), AnyRun];
    MatchRun(tb[1..], "x");
    assert tb == [AnyRun] + tb[1..];
    forall i | 0 <= i <= 1 ensures !Match(tb[1..], "x"[i..]) {
      if i == 1 {
        assert "x"[1..] == [];
      }
    }
    var tc := [AnyRun, Lit('\\'), AnyOne, AnyRun];
    assert Match(tc[3..], []) by {
      assert tc[3..][1..] == [];
    }
    assert Match(tc[2..], "x");
    assert Match(tc[1..], "\\x");
  }
}
