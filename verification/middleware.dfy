/**
 * The two servers' authentication middleware: the Bearer-token decision chain,
 * the role check, and on Workers the hand-written JWT pieces (base64url
 * decoding and encoding, the structure and expiry check, the lifetime parser
 * of `signJWT`). HMAC, base64 itself, JSON parsing and the clock are
 * parameters.
 */
module Middleware {
  import opened Common
  import opened Schema
  import opened Text

  // ---------------------------------------------------------------- the Authorization header

  /**
   * The token of an `Authorization` header: none when the header is missing or
   * does not start with `Bearer `, otherwise the second space-separated word.
   */
  function BearerToken(header: Option<string>): (t: Option<string>)
    ensures t.Some? <==> header.Some? && StartsWith(header.value, "Bearer ")
  {
    if header.None? || !StartsWith(header.value, "Bearer ") then None
    else
      SplitHasTwoParts(header.value);
      Some(Split(header.value, ' ')[1])
  }

  lemma SplitHasTwoParts(s: string)
    requires StartsWith(s, "Bearer ")
    ensures |Split(s, ' ')| >= 2
  {
    assert s[6] == ' ';
  }

  /** A header built as `Bearer <t>` from a token without spaces yields that token back. */
  lemma BearerTokenRoundTrip(t: string)
    requires ' ' !in t
    ensures BearerToken(Some("Bearer " + t)) == Some(t)
  {
    var h := "Bearer " + t;
    assert h[..7] == "Bearer ";
    assert IndexOf(h, ' ') == 6 by {
      assert h[6] == ' ' && ' ' !in h[..6];
    }
    assert h[7..] == t && h[..6] == "Bearer";
    assert Split(t, ' ') == [t];
    assert Split(h, ' ') == [h[..6]] + Split(h[7..], ' ');
  }

  /** The active user a token's `id` names, without the password hash; the SELECT of both middlewares. */
  function ActiveUser(users: map<int, User>, id: int): (a: Option<Actor>)
    ensures a.Some? <==> id in users && users[id].ativo == Some(true)
    ensures a.Some? ==> a.value.id == id && a.value.perfil == users[id].perfil && a.value.email == users[id].email
  {
    if id in users && users[id].ativo == Some(true) then
      Some(Actor(id, users[id].nome, users[id].email, users[id].perfil))
    else None
  }

  // ---------------------------------------------------------------- Express

  /** What `jwt.verify` does with a token: its decoded `id`, or the kind of error it throws. */
  datatype TokenOutcome = Decoded(id: int) | TokenExpiredError | OtherTokenError

  datatype AuthFailure = NoToken | UserMissing | TokenExpired | TokenInvalid

  /** Every failure is a 401; the message tells them apart. */
  function AuthMessage(f: AuthFailure): string {
    match f
    case NoToken => "Token não fornecido"
    case UserMissing => "Usuário não encontrado ou inativo"
    case TokenExpired => "Token expirado"
    case TokenInvalid => "Token inválido"
  }

  /**
   * `authMiddleware` on Express: the user a request is made by, or why it is
   * refused. `jwtVerify` stands for `jwt.verify` with the server's secret.
   */
  function Authenticate(users: map<int, User>, header: Option<string>, jwtVerify: string -> TokenOutcome)
    : (r: Result<Actor, AuthFailure>)
    ensures r == Err(NoToken) <==> BearerToken(header).None?
    ensures r == Err(TokenExpired) <==> BearerToken(header).Some? && jwtVerify(BearerToken(header).value).TokenExpiredError?
    ensures r == Err(TokenInvalid) <==> BearerToken(header).Some? && jwtVerify(BearerToken(header).value).OtherTokenError?
    ensures r.Ok? <==>
      BearerToken(header).Some? && jwtVerify(BearerToken(header).value).Decoded?
      && ActiveUser(users, jwtVerify(BearerToken(header).value).id).Some?
    ensures r.Ok? ==> r == Ok(ActiveUser(users, jwtVerify(BearerToken(header).value).id).value)
  {
    match BearerToken(header)
    case None => Err(NoToken)
    case Some(token) =>
      match jwtVerify(token)
      case TokenExpiredError => Err(TokenExpired)
      case OtherTokenError => Err(TokenInvalid)
      case Decoded(id) =>
        match ActiveUser(users, id)
        case None => Err(UserMissing)
        case Some(a) => Ok(a)
  }

  datatype RoleFailure = NotAuthenticated | RoleDenied

  /** `roleMiddleware(...roles)` on Express: no user is a 401, a profile outside the roles a 403. */
  function RoleCheck(user: Option<Actor>, roles: seq<string>): (r: Option<RoleFailure>)
    ensures r == Some(NotAuthenticated) <==> user.None?
    ensures r == Some(RoleDenied) <==> user.Some? && user.value.perfil !in roles
    ensures r.None? <==> RoleAllowed(user, roles)
  {
    if user.None? then Some(NotAuthenticated)
    else if user.value.perfil !in roles then Some(RoleDenied)
    else None
  }

  /** The profiles that manage the catalogue, the tables and the areas. */
  const Managers: seq<string> := ["admin", "gerente"]

  /**
   * A route's role gate on either server: Express answers 401 without a user
   * and 403 for a profile outside the roles; Workers answers 403 for both.
   */
  function RoleGate(dep: Deployment, user: Option<Actor>, roles: seq<string>): (r: Option<RoleFailure>)
    ensures r.None? <==> RoleAllowed(user, roles)
    ensures dep == Backend ==> r == RoleCheck(user, roles)
    ensures dep == Cloudflare ==> r.None? || r == Some(RoleDenied)
  {
    if dep == Backend then RoleCheck(user, roles)
    else if RoleAllowed(user, roles) then None
    else Some(RoleDenied)
  }

  // ---------------------------------------------------------------- Workers: base64url

  /** The first step of `base64urlDecode`: `-` becomes `+` and `_` becomes `/`. */
  function ToStandardAlphabet(s: string): (r: string)
    ensures |r| == |s|
  {
    seq(|s|, i requires 0 <= i < |s| => if s[i] == '-' then '+' else if s[i] == '_' then '/' else s[i])
  }

  /** The encoder's mapping: `+` becomes `-` and `/` becomes `_`. */
  function FromStandardAlphabet(s: string): (r: string)
    ensures |r| == |s|
  {
    seq(|s|, i requires 0 <= i < |s| => if s[i] == '+' then '-' else if s[i] == '/' then '_' else s[i])
  }

  /** `replace(/=+$/, '')`: the trailing run of `=` is dropped. */
  function StripPadding(s: string): (r: string)
    ensures |r| <= |s|
  {
    if s != [] && s[|s| - 1] == '=' then StripPadding(s[..|s| - 1]) else s
  }

  /** The base64url form the encoder of `signJWT` makes of a standard base64 string. */
  function ToBase64Url(b64: string): string {
    StripPadding(FromStandardAlphabet(b64))
  }

  function Padding(k: nat): (r: string)
    ensures |r| == k && forall i :: 0 <= i < k ==> r[i] == '='
  {
    if k == 0 then "" else Padding(k - 1) + "="
  }

  /** How many `=` the padding loop appends to a string of length `n`. */
  function PadCount(n: nat): (k: nat)
    ensures k < 4 && (n + k) % 4 == 0
  {
    (4 - n % 4) % 4
  }

  /**
   * `base64urlDecode` on Workers: the alphabet is mapped back, `=` is appended
   * until the length is a multiple of 4, and the characters of `atob`'s
   * result are stored in a `Uint8Array`, which keeps each code modulo 256.
   */
  method Base64UrlDecode(s: string, atob: string -> string) returns (bytes: array<int>)
    ensures var str := ToStandardAlphabet(s) + Padding(PadCount(|s|));
      |str| % 4 == 0 && bytes[..] == Bytes(atob(str))
  {
    var str := ToStandardAlphabet(s);
    var t := str;
    while |str| % 4 != 0
      invariant |t| <= |str| <= |t| + PadCount(|t|)
      invariant str == t + Padding(|str| - |t|)
      decreases |t| + PadCount(|t|) - |str|
    {
      str := str + "=";
    }
    var binary := atob(str);
    bytes := new int[|binary|];
    for i := 0 to |binary|
      invariant forall j :: 0 <= j < i ==> bytes[j] == binary[j] as int % 256
    {
      bytes[i] := binary[i] as int % 256;
    }
  }

  /** The byte values of a binary string, as a `Uint8Array` stores them. */
  function Bytes(binary: string): (r: seq<int>)
    ensures |r| == |binary| && forall i :: 0 <= i < |r| ==> 0 <= r[i] < 256
  {
    seq(|binary|, i requires 0 <= i < |binary| => binary[i] as int % 256)
  }

  /** `atob` yields one character per byte, so the stored bytes are exactly its character codes. */
  lemma BytesOfBinary(binary: string)
    requires forall i :: 0 <= i < |binary| ==> binary[i] as int < 256
    ensures forall i :: 0 <= i < |binary| ==> Bytes(binary)[i] == binary[i] as int
  {
  }

  lemma StripPaddingOf(body: string, k: nat)
    requires body == [] || body[|body| - 1] != '='
    ensures StripPadding(body + Padding(k)) == body
  {
    if k > 0 {
      var shorter := body + Padding(k - 1);
      assert body + Padding(k) == shorter + "=";
      StripOne(shorter);
      StripPaddingOf(body, k - 1);
    } else {
      assert body + Padding(0) == body;
    }
  }

  /** One trailing `=` is dropped by stripping. */
  lemma StripOne(x: string)
    ensures StripPadding(x + "=") == StripPadding(x)
  {
    var s := x + "=";
    assert s[|s| - 1] == '=';
    assert s[..|s| - 1] == x;
  }

  /**
   * Decoding undoes the encoder: a standard base64 string (a body with no
   * `=`, `-` or `_`, then fewer than four `=` making the length a multiple of
   * four) comes back exactly, before `atob`, from its base64url form.
   */
  lemma {:induction false} DecodeUndoesEncode(body: string, k: nat)
    requires '=' !in body && '-' !in body && '_' !in body
    requires k < 4 && (|body| + k) % 4 == 0
    ensures var u := ToBase64Url(body + Padding(k));
      ToStandardAlphabet(u) + Padding(PadCount(|u|)) == body + Padding(k)
  {
    var mapped := FromStandardAlphabet(body);
    MapKeepsPadding(body, k);
    MappedEndsClean(body);
    StripPaddingOf(mapped, k);
    MapBack(body);
    PadCountOf(|body|, k);
  }

  /** The encoder's mapping leaves the padding alone. */
  lemma MapKeepsPadding(body: string, k: nat)
    ensures FromStandardAlphabet(body + Padding(k)) == FromStandardAlphabet(body) + Padding(k)
  {
    var l, r := FromStandardAlphabet(body + Padding(k)), FromStandardAlphabet(body) + Padding(k);
    forall i | 0 <= i < |l|
      ensures l[i] == r[i]
    {
      if i < |body| {
        assert (body + Padding(k))[i] == body[i];
      } else {
        assert (body + Padding(k))[i] == Padding(k)[i - |body|];
      }
    }
  }

  /** A body without `=` still ends in something other than `=` once mapped. */
  lemma MappedEndsClean(body: string)
    requires '=' !in body
    ensures FromStandardAlphabet(body) == [] || FromStandardAlphabet(body)[|body| - 1] != '='
  {
    if body != [] {
      assert body[|body| - 1] in body;
    }
  }

  /** The decoder's mapping undoes the encoder's on a body without `-` or `_`. */
  lemma MapBack(body: string)
    requires '-' !in body && '_' !in body
    ensures ToStandardAlphabet(FromStandardAlphabet(body)) == body
  {
    forall i | 0 <= i < |body|
      ensures ToStandardAlphabet(FromStandardAlphabet(body))[i] == body[i]
    {
      assert body[i] in body;
    }
  }

  /** The padding loop appends exactly the `k` characters that complete a multiple of four. */
  lemma PadCountOf(n: nat, k: nat)
    requires k < 4 && (n + k) % 4 == 0
    ensures PadCount(n) == k
  {
  }

  // ---------------------------------------------------------------- Workers: JWT

  /** The claims of a token: `{id, perfil}` with the `iat` and `exp` that `signJWT` adds. */
  datatype Claims = Claims(id: int, perfil: string, iat: Option<int>, exp: Option<int>)

  datatype JwtError = Malformed | BadSignature | Expired

  /** The expiry test: only a truthy `exp` strictly below the current second expires a token. */
  predicate IsExpired(c: Claims, nowMs: int) {
    TruthyInt(c.exp) && c.exp.value < nowMs / 1000
  }

  /**
   * `verifyJWT`: exactly three dot-separated parts, a valid HMAC over the
   * first two (`hmacOk`), a payload that decodes (`decodePayload` stands for
   * base64url decoding and `JSON.parse`), and no expiry.
   */
  function VerifyJwt(token: string, hmacOk: (string, string) -> bool, decodePayload: string -> Option<Claims>,
                     nowMs: int): (r: Result<Claims, JwtError>)
    ensures |Split(token, '.')| != 3 ==> r == Err(Malformed)
    ensures r.Ok? <==>
      var parts := Split(token, '.');
      |parts| == 3 && hmacOk(parts[0] + "." + parts[1], parts[2])
      && decodePayload(parts[1]).Some? && !IsExpired(decodePayload(parts[1]).value, nowMs)
    ensures r.Ok? ==> r.value == decodePayload(Split(token, '.')[1]).value
    ensures r == Err(Expired) ==>
      |Split(token, '.')| == 3 && decodePayload(Split(token, '.')[1]).Some?
      && IsExpired(decodePayload(Split(token, '.')[1]).value, nowMs)
  {
    var parts := Split(token, '.');
    if |parts| != 3 then Err(Malformed)
    else if !hmacOk(parts[0] + "." + parts[1], parts[2]) then Err(BadSignature)
    else
      match decodePayload(parts[1])
      case None => Err(Malformed)
      case Some(c) => if IsExpired(c, nowMs) then Err(Expired) else Ok(c)
  }

  /** A token assembled as `header.payload.signature` verifies whenever its signature and payload do and it has not expired. */
  lemma SignedTokenVerifies(h: string, p: string, sig: string, hmacOk: (string, string) -> bool,
                            decodePayload: string -> Option<Claims>, nowMs: int)
    requires '.' !in h && '.' !in p && '.' !in sig
    requires hmacOk(h + "." + p, sig) && decodePayload(p).Some? && !IsExpired(decodePayload(p).value, nowMs)
    ensures VerifyJwt(h + "." + p + "." + sig, hmacOk, decodePayload, nowMs) == Ok(decodePayload(p).value)
  {
    SplitJoin([h, p, sig], '.');
    JoinOfThree(h, p, sig);
    var parts := Split(h + "." + p + "." + sig, '.');
    assert parts == [h, p, sig];
    assert parts[0] == h && parts[1] == p && parts[2] == sig;
  }

  lemma JoinOfThree(h: string, p: string, sig: string)
    ensures Join([h, p, sig], '.') == h + "." + p + "." + sig
  {
    JoinCons(p, [sig], '.');
    assert [p] + [sig] == [p, sig];
    JoinCons(h, [p, sig], '.');
    assert [h] + [p, sig] == [h, p, sig];
    assert h + "." + (p + "." + sig) == h + "." + p + "." + sig;
  }

  /** `^(\d+)(h|m|s|d)$`. */
  predicate IsLifetime(s: string) {
    |s| >= 2 && s[|s| - 1] in "hmsd" && AllDigits(s[..|s| - 1])
  }

  function UnitSeconds(u: char): int {
    if u == 'h' then 3600 else if u == 'm' then 60 else if u == 's' then 1 else 86400
  }

  /** The `expiresIn` parser of `signJWT`: a count and a unit, or 28800 (8 hours) for anything else. */
  function LifetimeSeconds(expiresIn: string): (seconds: int)
    ensures seconds >= 0
    ensures !IsLifetime(expiresIn) ==> seconds == 28800
  {
    if IsLifetime(expiresIn) then
      DigitsValue(expiresIn[..|expiresIn| - 1]) * UnitSeconds(expiresIn[|expiresIn| - 1])
    else 28800
  }

  /** `<n>h`, `<n>m`, `<n>s` and `<n>d` read back as n hours, minutes, seconds and days. */
  lemma LifetimeOf(n: nat, u: char)
    requires u in "hmsd"
    ensures LifetimeSeconds(NatToString(n) + [u]) == n * UnitSeconds(u)
  {
    var s := NatToString(n) + [u];
    assert s[..|s| - 1] == NatToString(n);
    DigitsValueNatToString(n);
  }

  /** The default `'8h'` agrees with the fallback. */
  lemma DefaultLifetime()
    ensures LifetimeSeconds("8h") == 28800
  {
    LifetimeOf(8, 'h');
    assert NatToString(8) + ['h'] == "8h";
  }

  /** The claims `signJWT` signs at time `nowMs`: `iat` is the current second, `exp` that plus the lifetime. */
  function SignClaims(id: int, perfil: string, expiresIn: string, nowMs: int): Claims {
    var iat := nowMs / 1000;
    Claims(id, perfil, Some(iat), Some(iat + LifetimeSeconds(expiresIn)))
  }

  /**
   * A freshly signed token lasts its lifetime: it is not expired at any time
   * up to the end of its `exp` second, and is expired from the next second
   * on (unless `exp` happens to be 0, which never expires).
   */
  lemma SignedClaimsLifetime(id: int, perfil: string, expiresIn: string, nowMs: int, laterMs: int)
    requires nowMs <= laterMs
    ensures var c := SignClaims(id, perfil, expiresIn, nowMs);
      && c.exp.value - c.iat.value == LifetimeSeconds(expiresIn)
      && !IsExpired(c, nowMs)
      && (IsExpired(c, laterMs) <==> c.exp.value != 0 && laterMs / 1000 > c.exp.value)
  {
  }

  /** A token whose payload has no `exp` verifies at every time or at none. */
  lemma NoExpiryNeverExpires(token: string, hmacOk: (string, string) -> bool, decodePayload: string -> Option<Claims>,
                             t1: int, t2: int)
    requires var parts := Split(token, '.');
      |parts| == 3 ==> decodePayload(parts[1]).Some? ==> decodePayload(parts[1]).value.exp.None?
    ensures VerifyJwt(token, hmacOk, decodePayload, t1) == VerifyJwt(token, hmacOk, decodePayload, t2)
  {
  }

  /**
   * `authMiddleware` on Workers: the active user of a valid token, or null for
   * a missing or non-Bearer header, any verification error, or a missing or
   * inactive user.
   */
  function AuthenticateWorker(users: map<int, User>, header: Option<string>, hmacOk: (string, string) -> bool,
                              decodePayload: string -> Option<Claims>, nowMs: int): (a: Option<Actor>)
    ensures a.Some? <==>
      BearerToken(header).Some? && VerifyJwt(BearerToken(header).value, hmacOk, decodePayload, nowMs).Ok?
      && ActiveUser(users, VerifyJwt(BearerToken(header).value, hmacOk, decodePayload, nowMs).value.id).Some?
  {
    match BearerToken(header)
    case None => None
    case Some(token) =>
      match VerifyJwt(token, hmacOk, decodePayload, nowMs)
      case Err(_) => None
      case Ok(c) => ActiveUser(users, c.id)
  }

  /** How `jwt.verify` would report the Workers verifier's answer. */
  function AsOutcome(r: Result<Claims, JwtError>): TokenOutcome {
    match r
    case Ok(c) => Decoded(c.id)
    case Err(Expired) => TokenExpiredError
    case Err(_) => OtherTokenError
  }

  /**
   * The two middlewares admit the same users: with a verifier that agrees,
   * Workers yields a user exactly when Express does, and the same one.
   */
  lemma MiddlewaresAgree(users: map<int, User>, header: Option<string>, hmacOk: (string, string) -> bool,
                         decodePayload: string -> Option<Claims>, nowMs: int)
    ensures var express := Authenticate(users, header, t => AsOutcome(VerifyJwt(t, hmacOk, decodePayload, nowMs)));
      var worker := AuthenticateWorker(users, header, hmacOk, decodePayload, nowMs);
      (worker.Some? <==> express.Ok?) && (worker.Some? ==> worker.value == express.value)
  {
  }

  /**
   * `roleMiddleware(user, ...roles)` on Workers: no user is refused, otherwise
   * the user's profile must be one of the roles.
   */
  predicate RoleAllowed(user: Option<Actor>, roles: seq<string>) {
    user.Some? && user.value.perfil in roles
  }
}
