/** Shared value types: optional values, and the integer helpers the handlers use. */
module Common {
  datatype Option<T> = None | Some(value: T)

  /** A handler's answer: a value, or the error that decides its HTTP status. */
  datatype Result<T, E> = Ok(value: T) | Err(error: E)

  /**
   * A member of a JSON request body: left out (`undefined`), or present with
   * a value that may be `null`. Handlers that test `!== undefined` tell the two apart.
   */
  datatype Field<T> = Undefined | Defined(value: Option<T>)

  /** A destructuring default, `{ x = d }`: it applies only when `x` is left out, not when it is null. */
  function DefaultTo<T>(f: Field<T>, d: T): (r: Option<T>)
    ensures f.Undefined? ==> r == Some(d)
    ensures f.Defined? ==> r == f.value
  {
    if f.Defined? then f.value else Some(d)
  }

  /** JavaScript truthiness of a number: only 0 is falsy. */
  predicate TruthyInt(n: Option<int>) { n.Some? && n.value != 0 }

  /** JavaScript truthiness of a string: only the empty string is falsy. */
  predicate TruthyStr(s: Option<string>) { s.Some? && s.value != "" }

  /** `x || d` for an optional string: the default replaces a missing or empty value. */
  function StrOr(s: Option<string>, d: string): (r: string)
    ensures TruthyStr(s) ==> r == s.value
    ensures !TruthyStr(s) ==> r == d
  {
    if TruthyStr(s) then s.value else d
  }

  /** `x || d` for an optional number: the default replaces a missing or zero value. */
  function IntOr(n: Option<int>, d: int): (r: int)
    ensures TruthyInt(n) ==> r == n.value
    ensures !TruthyInt(n) ==> r == d
  {
    if TruthyInt(n) then n.value else d
  }

  /** `x || null` for an optional string: an empty string is stored as null. */
  function NullIfEmpty(s: Option<string>): (r: Option<string>)
    ensures r.Some? <==> TruthyStr(s)
    ensures r.Some? ==> r == s
  {
    if TruthyStr(s) then s else None
  }

  function Max(a: int, b: int): (r: int)
    ensures r >= a && r >= b && (r == a || r == b)
  {
    if a >= b then a else b
  }

  function Min(a: int, b: int): (r: int)
    ensures r <= a && r <= b && (r == a || r == b)
  {
    if a <= b then a else b
  }
}
