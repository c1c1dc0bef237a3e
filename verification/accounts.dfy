/**
 * User accounts: the password storage format of the Workers server, login,
 * registration, `/me` and the partial user update. Both servers share the
 * route logic; they differ only in the password function they use (bcrypt on
 * the Express server, the salted SHA-256 format below on Workers), which the
 * handlers take as a parameter. Hash functions are parameters: the model does
 * not compute SHA-256 or bcrypt.
 */
module Accounts {
  import opened Common
  import opened Text
  import opened Schema

  /** The profiles registration accepts. */
  const Perfis: seq<string> := ["admin", "gerente", "garcom", "cozinheiro", "caixa"]

  // ---------------------------------------------------------------- password storage (Workers)

  predicate IsHex(s: string) {
    forall i :: 0 <= i < |s| ==> ('0' <= s[i] <= '9' || 'a' <= s[i] <= 'f')
  }

  /** `hashPassword`: `$cf$<salt hex>$<SHA-256 hex of salt + password>`; the random salt is a parameter. */
  function HashPassword(password: string, saltHex: string, sha256Hex: string -> string): string {
    "$cf$" + saltHex + "$" + sha256Hex(saltHex + password)
  }

  /** The prefixes of bcrypt hashes left by the seed script. */
  predicate IsBcrypt(stored: string) {
    StartsWith(stored, "$2b$") || StartsWith(stored, "$2a$")
  }

  /**
   * `comparePassword`, as intended: a bcrypt hash accepts only the seeded
   * administrator's password, a `$cf$` value compares the SHA-256 of salt plus
   * password with its last field, anything else is refused.
   */
  predicate ComparePassword(password: string, stored: string, sha256Hex: string -> string) {
    if IsBcrypt(stored) then password == "admin123"
    else if StartsWith(stored, "$cf$") then
      var parts := Split(stored, '$');
      |parts| >= 4 && sha256Hex(parts[2] + password) == parts[3]
    else false
  }

  lemma HashPasswordParts(password: string, saltHex: string, sha256Hex: string -> string)
    requires IsHex(saltHex) && IsHex(sha256Hex(saltHex + password))
    ensures Split(HashPassword(password, saltHex, sha256Hex), '$') == ["", "cf", saltHex, sha256Hex(saltHex + password)]
  {
    var d := sha256Hex(saltHex + password);
    var parts := ["", "cf", saltHex, d];
    assert Join(parts, '$') == HashPassword(password, saltHex, sha256Hex) by {
      assert Join(parts[3..], '$') == d;
      assert Join(parts[2..], '$') == saltHex + "$" + d;
      assert Join(parts[1..], '$') == "cf$" + saltHex + "$" + d;
    }
    assert forall i :: 0 <= i < |saltHex| ==> saltHex[i] != '$';
    assert forall i :: 0 <= i < |d| ==> d[i] != '$';
    SplitJoin(parts, '$');
  }

  /**
   * A value written by `hashPassword` accepts exactly the passwords whose
   * salted digest equals the stored one; in particular it accepts the password
   * it was made from.
   */
  lemma HashThenCompare(password: string, attempt: string, saltHex: string, sha256Hex: string -> string)
    requires IsHex(saltHex) && IsHex(sha256Hex(saltHex + password))
    ensures ComparePassword(attempt, HashPassword(password, saltHex, sha256Hex), sha256Hex)
      <==> sha256Hex(saltHex + attempt) == sha256Hex(saltHex + password)
    ensures ComparePassword(password, HashPassword(password, saltHex, sha256Hex), sha256Hex)
  {
    var stored := HashPassword(password, saltHex, sha256Hex);
    HashPasswordParts(password, saltHex, sha256Hex);
    assert stored[..4] == "$cf$";
    assert stored[1] == 'c';
  }

  /** Names every plain JavaScript object inherits from `Object.prototype`; looking one up is truthy. */
  const PrototypeKeys: set<string> := {
    "constructor", "hasOwnProperty", "isPrototypeOf", "propertyIsEnumerable", "toString",
    "toLocaleString", "valueOf", "__proto__", "__defineGetter__", "__defineSetter__",
    "__lookupGetter__", "__lookupSetter__"}

  /** `knownPasswords[password]` on the literal `{ 'admin123': true }`, as JavaScript evaluates it. */
  predicate KnownPasswordAsWritten(password: string) {
    password == "admin123" || password in PrototypeKeys
  }

  /** `comparePassword` exactly as written: the bcrypt branch uses the object lookup above. */
  predicate ComparePasswordAsWritten(password: string, stored: string, sha256Hex: string -> string) {
    if IsBcrypt(stored) then KnownPasswordAsWritten(password)
    else ComparePassword(password, stored, sha256Hex)
  }

  /** As written, any inherited property name unlocks an account whose hash is a seeded bcrypt hash. */
  lemma PrototypeNameUnlocksBcryptAccount(stored: string, sha256Hex: string -> string)
    requires IsBcrypt(stored)
    ensures ComparePasswordAsWritten("constructor", stored, sha256Hex)
    ensures ComparePasswordAsWritten("toString", stored, sha256Hex)
    ensures !ComparePassword("constructor", stored, sha256Hex)
  {
  }

  /** Apart from those inherited names the written and the intended check agree. */
  lemma AsWrittenAgreesElsewhere(password: string, stored: string, sha256Hex: string -> string)
    requires password !in PrototypeKeys
    ensures ComparePasswordAsWritten(password, stored, sha256Hex) == ComparePassword(password, stored, sha256Hex)
  {
  }

  /** The intended check opens a seeded bcrypt account with the seeded password and nothing else. */
  lemma IntendedBcryptCheck(password: string, stored: string, sha256Hex: string -> string)
    requires IsBcrypt(stored)
    ensures ComparePassword(password, stored, sha256Hex) <==> password == "admin123"
    ensures forall k :: k in PrototypeKeys ==> !ComparePassword(k, stored, sha256Hex)
  {
  }

  // ---------------------------------------------------------------- login

  datatype LoginError = MissingCredentials | UnknownEmail | Deactivated | WrongPassword

  function LoginStatus(e: LoginError): int {
    if e == MissingCredentials then 400 else 401
  }

  function LoginMessage(e: LoginError): string {
    match e
    case MissingCredentials => "Email e senha são obrigatórios"
    case Deactivated => "Usuário desativado. Contate o administrador."
    case _ => "Email ou senha inválidos"
  }

  /** An unknown e-mail and a wrong password give the client the same answer. */
  lemma UnknownAndWrongLookAlike()
    ensures LoginStatus(UnknownEmail) == LoginStatus(WrongPassword) == 401
    ensures LoginMessage(UnknownEmail) == LoginMessage(WrongPassword)
  {
  }

  /** What a successful login hands back: the signed claims `{id, perfil}` and the user without its hash. */
  datatype Session = Session(claimId: int, claimPerfil: string, usuario: Actor)

  function ViewOf(id: int, u: User): (a: Actor)
    ensures a.id == id && a.nome == u.nome && a.email == u.email && a.perfil == u.perfil
  {
    Actor(id, u.nome, u.email, u.perfil)
  }

  ghost predicate HasEmail(users: map<int, User>, e: string) {
    exists uid :: uid in users && users[uid].email == e
  }

  /**
   * POST /login. Checks run in this order: both fields present, a user with
   * the normalised address exists, the user is active, the password matches.
   * `passwordOk` is `bcrypt.compare` on the Express server and
   * `ComparePassword` with SHA-256 on Workers.
   */
  method Login(db: Database, email: Option<string>, senha: Option<string>, passwordOk: (string, string) -> bool)
    returns (r: Result<Session, LoginError>)
    ensures (!TruthyStr(email) || !TruthyStr(senha)) <==> r == Err(MissingCredentials)
    ensures r == Err(UnknownEmail) <==>
      TruthyStr(email) && TruthyStr(senha) && !HasEmail(db.users, NormalizeEmail(email.value))
    ensures r == Err(Deactivated) ==>
      (exists uid :: uid in db.users && db.users[uid].email == NormalizeEmail(email.value) && db.users[uid].ativo != Some(true))
    ensures r == Err(WrongPassword) ==>
      (exists uid :: uid in db.users && db.users[uid].email == NormalizeEmail(email.value) && db.users[uid].ativo == Some(true)
        && !passwordOk(senha.value, db.users[uid].senhaHash))
    ensures r.Ok? ==>
      (TruthyStr(email) && TruthyStr(senha)
       && var uid := r.value.claimId;
       uid in db.users && db.users[uid].email == NormalizeEmail(email.value) && db.users[uid].ativo == Some(true)
       && passwordOk(senha.value, db.users[uid].senhaHash)
       && r.value == Session(uid, db.users[uid].perfil, ViewOf(uid, db.users[uid])))
  {
    if !TruthyStr(email) || !TruthyStr(senha) {
      return Err(MissingCredentials);
    }
    var e := NormalizeEmail(email.value);
    if !exists uid :: uid in db.users && db.users[uid].email == e {
      return Err(UnknownEmail);
    }
    var uid :| uid in db.users && db.users[uid].email == e;
    var u := db.users[uid];
    if u.ativo != Some(true) {
      return Err(Deactivated);
    }
    if !passwordOk(senha.value, u.senhaHash) {
      return Err(WrongPassword);
    }
    return Ok(Session(uid, u.perfil, ViewOf(uid, u)));
  }

  // ---------------------------------------------------------------- registration, /me, update

  datatype AccountError = Unauthenticated | Forbidden | MissingFields | InvalidPerfil | EmailTaken
                        | NothingToUpdate | UserNotFound

  function AccountStatus(e: AccountError): int {
    match e
    case Unauthenticated => 401
    case Forbidden => 403
    case MissingFields => 400
    case InvalidPerfil => 400
    case EmailTaken => 409
    case NothingToUpdate => 400
    case UserNotFound => 404
  }

  predicate IsAdmin(actor: Option<Actor>) {
    actor.Some? && actor.value.perfil == "admin"
  }

  /** The account registration stores: trimmed name, normalised address, hashed password, default profile. */
  function NewUser(nome: string, email: string, senha: string, perfil: Option<string>, hashOf: string -> string): (u: User)
    ensures u.nome == Trim(nome) && u.email == NormalizeEmail(email) && u.senhaHash == hashOf(senha)
    ensures u.perfil == if TruthyStr(perfil) then perfil.value else "garcom"
    ensures u.ativo == Some(true)
  {
    User(Trim(nome), NormalizeEmail(email), hashOf(senha), StrOr(perfil, "garcom"), Some(true))
  }

  /**
   * POST /registro, admin only. `hashOf` is `bcrypt.hash` or `hashPassword`.
   * A duplicate is judged on the normalised address.
   */
  method Register(db: Database, actor: Option<Actor>, nome: Option<string>, email: Option<string>,
                  senha: Option<string>, perfil: Option<string>, hashOf: string -> string)
    returns (r: Result<int, AccountError>)
    requires db.Valid()
    modifies db`users, db`nextUser
    ensures db.Valid()
    ensures actor.None? <==> r == Err(Unauthenticated)
    ensures (actor.Some? && !IsAdmin(actor)) <==> r == Err(Forbidden)
    ensures r == Err(MissingFields) <==>
      IsAdmin(actor) && (!TruthyStr(nome) || !TruthyStr(email) || !TruthyStr(senha))
    ensures r == Err(InvalidPerfil) <==>
      IsAdmin(actor) && TruthyStr(nome) && TruthyStr(email) && TruthyStr(senha)
      && TruthyStr(perfil) && perfil.value !in Perfis
    ensures r == Err(EmailTaken) <==>
      IsAdmin(actor) && TruthyStr(nome) && TruthyStr(email) && TruthyStr(senha)
      && !(TruthyStr(perfil) && perfil.value !in Perfis)
      && HasEmail(old(db.users), NormalizeEmail(email.value))
    ensures r.Ok? <==>
      IsAdmin(actor) && TruthyStr(nome) && TruthyStr(email) && TruthyStr(senha)
      && !(TruthyStr(perfil) && perfil.value !in Perfis)
      && !HasEmail(old(db.users), NormalizeEmail(email.value))
    ensures r.Err? ==> db.users == old(db.users) && db.nextUser == old(db.nextUser)
    ensures r.Ok? ==>
      (r.value == old(db.nextUser) && db.nextUser == old(db.nextUser) + 1
       && db.users == old(db.users)[r.value := NewUser(nome.value, email.value, senha.value, perfil, hashOf)])
  {
    if actor.None? {
      return Err(Unauthenticated);
    }
    if actor.value.perfil != "admin" {
      return Err(Forbidden);
    }
    if !TruthyStr(nome) || !TruthyStr(email) || !TruthyStr(senha) {
      return Err(MissingFields);
    }
    if TruthyStr(perfil) && perfil.value !in Perfis {
      return Err(InvalidPerfil);
    }
    var e := NormalizeEmail(email.value);
    if exists uid :: uid in db.users && db.users[uid].email == e {
      return Err(EmailTaken);
    }
    var id := InsertUser(db, NewUser(nome.value, email.value, senha.value, perfil, hashOf));
    return Ok(id);
  }

  /** `INSERT INTO usuarios … RETURNING id`: the next serial id. */
  method InsertUser(db: Database, u: User) returns (id: int)
    requires db.Valid()
    modifies db`users, db`nextUser
    ensures db.Valid()
    ensures id == old(db.nextUser) && id !in old(db.users)
    ensures db.nextUser == id + 1 && db.users == old(db.users)[id := u]
  {
    id := db.nextUser;
    db.users, db.nextUser := db.users[id := u], id + 1;
  }

  /** GET /me: the caller's own row, only while it is active. */
  method Me(db: Database, actor: Actor) returns (r: Result<Actor, AccountError>)
    ensures r.Ok? <==> actor.id in db.users && db.users[actor.id].ativo == Some(true)
    ensures r.Ok? ==> r.value == ViewOf(actor.id, db.users[actor.id])
    ensures r.Err? ==> r.error == UserNotFound
  {
    if actor.id in db.users && db.users[actor.id].ativo == Some(true) {
      return Ok(ViewOf(actor.id, db.users[actor.id]));
    }
    return Err(UserNotFound);
  }

  /** Whether the update body names at least one column (`fields.length > 0`). */
  predicate HasUpdate(nome: Option<string>, email: Option<string>, senha: Option<string>,
                      perfil: Option<string>, ativo: Field<bool>) {
    TruthyStr(nome) || TruthyStr(email) || TruthyStr(perfil) || ativo.Defined? || TruthyStr(senha)
  }

  /**
   * The `ativo` column an update writes for a field that is not `undefined`:
   * Express binds the value as sent (a null becomes NULL), Workers binds
   * `ativo ? 1 : 0` (a null becomes false).
   */
  function StoredAtivo(dep: Deployment, ativo: Option<bool>): (b: Option<bool>)
    ensures dep == Backend ==> b == ativo
    ensures dep == Cloudflare ==> b == Some(ativo == Some(true))
  {
    if dep == Backend then ativo else Some(ativo == Some(true))
  }

  /** The row after `UPDATE usuarios SET …` with only the columns the body supplied. */
  function PatchUser(dep: Deployment, u: User, nome: Option<string>, email: Option<string>, senha: Option<string>,
                     perfil: Option<string>, ativo: Field<bool>, hashOf: string -> string): (v: User)
    ensures v.nome == if TruthyStr(nome) then Trim(nome.value) else u.nome
    ensures v.email == if TruthyStr(email) then NormalizeEmail(email.value) else u.email
    ensures v.perfil == if TruthyStr(perfil) then perfil.value else u.perfil
    ensures v.ativo == if ativo.Defined? then StoredAtivo(dep, ativo.value) else u.ativo
    ensures v.senhaHash == if TruthyStr(senha) then hashOf(senha.value) else u.senhaHash
  {
    User(
      if TruthyStr(nome) then Trim(nome.value) else u.nome,
      if TruthyStr(email) then NormalizeEmail(email.value) else u.email,
      if TruthyStr(senha) then hashOf(senha.value) else u.senhaHash,
      if TruthyStr(perfil) then perfil.value else u.perfil,
      if ativo.Defined? then StoredAtivo(dep, ativo.value) else u.ativo)
  }

  /** An update that supplies nothing would leave the row as it was; the handler refuses it instead. */
  lemma EmptyPatchIsIdentity(dep: Deployment, u: User, nome: Option<string>, email: Option<string>, senha: Option<string>,
                             perfil: Option<string>, ativo: Field<bool>, hashOf: string -> string)
    requires !HasUpdate(nome, email, senha, perfil, ativo)
    ensures PatchUser(dep, u, nome, email, senha, perfil, ativo, hashOf) == u
  {
  }

  /**
   * An `ativo` sent as null still counts as a field to update: Workers
   * deactivates the user, Express stores NULL, which no active-user check accepts.
   */
  lemma NullAtivoUpdates(u: User, hashOf: string -> string)
    ensures HasUpdate(None, None, None, None, Defined(None))
    ensures PatchUser(Cloudflare, u, None, None, None, None, Defined(None), hashOf).ativo == Some(false)
    ensures PatchUser(Backend, u, None, None, None, None, Defined(None), hashOf).ativo == None
  {
  }

  /**
   * PUT /usuarios/:id, admin only. A profile given here is not checked against
   * the list registration uses, and a new address is not checked for duplicates.
   */
  method UpdateUser(db: Database, dep: Deployment, actor: Option<Actor>, uid: int, nome: Option<string>,
                    email: Option<string>, senha: Option<string>, perfil: Option<string>, ativo: Field<bool>,
                    hashOf: string -> string)
    returns (r: Result<User, AccountError>)
    requires db.Valid()
    modifies db`users
    ensures db.Valid()
    ensures actor.None? <==> r == Err(Unauthenticated)
    ensures (actor.Some? && !IsAdmin(actor)) <==> r == Err(Forbidden)
    ensures r == Err(NothingToUpdate) <==> IsAdmin(actor) && !HasUpdate(nome, email, senha, perfil, ativo)
    ensures r == Err(UserNotFound) <==>
      IsAdmin(actor) && HasUpdate(nome, email, senha, perfil, ativo) && uid !in old(db.users)
    ensures r.Err? ==> db.users == old(db.users)
    ensures r.Ok? ==>
      (uid in old(db.users)
       && r.value == PatchUser(dep, old(db.users)[uid], nome, email, senha, perfil, ativo, hashOf)
       && db.users == old(db.users)[uid := r.value])
  {
    if actor.None? {
      return Err(Unauthenticated);
    }
    if actor.value.perfil != "admin" {
      return Err(Forbidden);
    }
    if !HasUpdate(nome, email, senha, perfil, ativo) {
      return Err(NothingToUpdate);
    }
    if uid !in db.users {
      return Err(UserNotFound);
    }
    var v := PatchUser(dep, db.users[uid], nome, email, senha, perfil, ativo, hashOf);
    db.users := db.users[uid := v];
    return Ok(v);
  }

  /**
   * Registering an account and then logging in with the same address, typed
   * with any case or surrounding spaces that normalise to it, and the same
   * password, signs in as the new account.
   */
  method RegisterThenLogin(db: Database, admin: Actor, nome: string, email: string, typed: string, senha: string,
                           hashOf: string -> string, passwordOk: (string, string) -> bool)
    returns (reg: Result<int, AccountError>, session: Result<Session, LoginError>)
    requires db.Valid() && admin.perfil == "admin"
    requires nome != "" && email != "" && senha != "" && typed != ""
    requires NormalizeEmail(typed) == NormalizeEmail(email)
    requires passwordOk(senha, hashOf(senha))
    modifies db`users, db`nextUser
    ensures reg.Ok? <==> !HasEmail(old(db.users), NormalizeEmail(email))
    ensures reg.Ok? ==> session.Ok? && session.value.claimId == reg.value && session.value.claimPerfil == "garcom"
  {
    reg := Register(db, Some(admin), Some(nome), Some(email), Some(senha), None, hashOf);
    session := Login(db, Some(typed), Some(senha), passwordOk);
    if reg.Ok? {
      var u := db.users[reg.value];
      assert u.email == NormalizeEmail(email) && u.ativo == Some(true) && u.senhaHash == hashOf(senha) && u.perfil == "garcom";
      assert forall uid :: uid in db.users && db.users[uid].email == NormalizeEmail(email) ==> uid == reg.value;
      assert HasEmail(db.users, NormalizeEmail(typed));
      if session.Err? {
        match session.error
        case MissingCredentials => assert false;
        case UnknownEmail => assert false;
        case Deactivated => assert false;
        case WrongPassword => assert false;
      }
      assert session.value.claimId == reg.value;
    }
  }
}
