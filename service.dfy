/**
 * The user service of service/impl/UserServiceInterfaceImpl.java: registration
 * (`saveUser`), update (`updateUser`), listing (`getUsers`) and the response view
 * (`setResponse`), over an in-memory users table.
 *
 * The service's collaborators are parameters: the two configured patterns (each a
 * whole-string match), the password encoder, the token issuer, the fresh identifier
 * `UUID.randomUUID()` would produce and the date `LocalDate.now()` would return.
 */
module UserService {
  import opened Wrappers
  import opened Model
  import opened Errors
  import Constants
  import Request

  /** The collaborators injected through the service's constructor. */
  datatype Config = Config(
    emailPattern: string -> bool,     // the configured email regex, matched against the whole string
    passwordPattern: string -> bool,  // the configured password regex, matched against the whole string
    encode: string -> string,         // the password encoder's one-way hash
    generateToken: string -> string)  // the token issued for an email

  /** The service configured with the patterns of Constants. */
  function StandardConfig(encode: string -> string, generateToken: string -> string): Config {
    Config(Constants.EmailRegex, Constants.PwdRegex, encode, generateToken)
  }

  // ---------------------------------------------------------------------------
  // The response view
  // ---------------------------------------------------------------------------

  datatype PhoneResponse = PhoneResponse(number: string, citycode: string, countrycode: string)

  /** The outward view of a user; the password is the stored hash. */
  datatype UserResponse = UserResponse(
    id: string,
    name: Option<string>,
    email: Option<string>,
    password: Option<string>,
    phones: seq<PhoneResponse>,
    created: Option<Date>,
    modified: Option<Date>,
    lastLogin: Option<Date>,
    token: Option<string>,
    isActive: bool)

  function PhoneView(p: Phone): PhoneResponse {
    PhoneResponse(p.number, p.citycode, p.countrycode)
  }

  /** The user's id reads as a UUID (`UUID.fromString` would throw otherwise). */
  predicate HasUuid(u: User) {
    u.id.Some? && IsUuid(u.id.value)
  }

  /**
   * The response view of `u`. A missing phone list gives an empty one, a missing
   * `isActive` reads as false and a missing `lastLogin` falls back to `created`.
   */
  function ToResponse(u: User): (r: UserResponse)
    requires HasUuid(u)
    ensures r.id == u.id.value && r.name == u.name && r.email == u.email
    ensures r.password == u.password && r.token == u.token
    ensures r.created == u.created && r.modified == u.modified
    ensures r.lastLogin == (if u.lastLogin.Some? then u.lastLogin else u.created)
    ensures r.isActive <==> u.isActive == Some(true)
    ensures u.phones.None? ==> r.phones == []
    ensures u.phones.Some? ==> |r.phones| == |u.phones.value|
    ensures u.phones.Some? ==> forall i :: 0 <= i < |r.phones| ==> r.phones[i] == PhoneView(u.phones.value[i])
  {
    var phones := if u.phones.Some? then u.phones.value else [];
    UserResponse(
      id := u.id.value,
      name := u.name,
      email := u.email,
      password := u.password,
      phones := seq(|phones|, i requires 0 <= i < |phones| => PhoneView(phones[i])),
      created := u.created,
      modified := u.modified,
      lastLogin := if u.lastLogin.Some? then u.lastLogin else u.created,
      token := u.token,
      isActive := u.isActive.Some? && u.isActive.value)
  }

  /** `setResponse`: builds the phone list one phone at a time, then the view. */
  method SetResponse(u: User) returns (r: UserResponse)
    requires HasUuid(u)
    ensures r == ToResponse(u)
  {
    var phones: seq<PhoneResponse> := [];
    if u.phones.Some? {
      var ps := u.phones.value;
      var i := 0;
      while i < |ps|
        invariant 0 <= i <= |ps|
        invariant |phones| == i
        invariant forall k :: 0 <= k < i ==> phones[k] == PhoneView(ps[k])
      {
        phones := phones + [PhoneView(ps[i])];
        i := i + 1;
      }
    }
    r := UserResponse(
      id := u.id.value,
      name := u.name,
      email := u.email,
      password := u.password,
      phones := phones,
      created := u.created,
      modified := u.modified,
      lastLogin := if u.lastLogin.Some? then u.lastLogin else u.created,
      token := u.token,
      isActive := u.isActive.Some? && u.isActive.value);
  }

  // ---------------------------------------------------------------------------
  // The users table
  // ---------------------------------------------------------------------------

  /** At most one stored user per email. */
  ghost predicate UniqueEmails(users: map<string, User>) {
    forall a, b :: a in users && b in users && users[a].email.Some? && users[a].email == users[b].email ==> a == b
  }

  /** Each id is listed once. */
  ghost predicate ListedOnce(order: seq<string>) {
    forall i, j :: 0 <= i < j < |order| ==> order[i] != order[j]
  }

  /** Every stored user is stored under its own id, a UUID. */
  ghost predicate KeyedById(users: map<string, User>) {
    forall k :: k in users ==> users[k].id == Some(k) && IsUuid(k)
  }

  /** Every stored user has an email. */
  ghost predicate EmailsPresent(users: map<string, User>) {
    forall k :: k in users ==> users[k].email.Some?
  }

  /**
   * The table: `users` by id, `order` the order in which `findAll` lists them. Each id
   * is listed once, each user is stored under its own UUID id and has an email, and
   * emails are unique.
   */
  ghost predicate StoreInv(users: map<string, User>, order: seq<string>) {
    && ListedOnce(order)
    && (forall k :: k in order <==> k in users)
    && KeyedById(users)
    && EmailsPresent(users)
    && UniqueEmails(users)
  }

  /** Some stored user has this email (a null email is nobody's). */
  ghost predicate HasEmail(users: map<string, User>, email: Option<string>) {
    exists k :: k in users && users[k].email == email
  }

  /** `userRepository.findAll()`: the stored users in table order. */
  function FindAll(users: map<string, User>, order: seq<string>): (rows: seq<User>)
    requires forall k :: k in order ==> k in users
    ensures |rows| == |order|
    ensures forall i :: 0 <= i < |order| ==> rows[i] == users[order[i]]
  {
    if order == [] then [] else [users[order[0]]] + FindAll(users, order[1..])
  }

  /**
   * `userRepository.findByEmail(email)`: the first listed user with this email, if any;
   * a null email looks for a user whose email is null.
   */
  function FindByEmail(rows: seq<User>, email: Option<string>): (r: Option<User>)
    ensures r.Some? ==> r.value in rows && r.value.email == email
    ensures r.None? <==> forall i :: 0 <= i < |rows| ==> rows[i].email != email
  {
    if rows == [] then None
    else if rows[0].email == email then Some(rows[0])
    else FindByEmail(rows[1..], email)
  }

  /** On a well-formed table, `findByEmail` finds exactly the stored users, under their own ids. */
  lemma FindByEmailInStore(users: map<string, User>, order: seq<string>, email: Option<string>)
    requires StoreInv(users, order)
    ensures var found := FindByEmail(FindAll(users, order), email);
      && (found.Some? <==> HasEmail(users, email))
      && (found.Some? ==> found.value.id.Some? && found.value.id.value in users
                          && users[found.value.id.value] == found.value)
  {
    var rows := FindAll(users, order);
    var found := FindByEmail(rows, email);
    if found.Some? {
      var i :| 0 <= i < |rows| && rows[i] == found.value;
      assert users[order[i]] == found.value;
    }
    if HasEmail(users, email) {
      var k :| k in users && users[k].email == email;
      assert k in order;
      var i :| 0 <= i < |order| && order[i] == k;
      assert rows[i].email == email;
    }
  }

  lemma {:induction false} DistinctCard(s: seq<string>)
    requires forall i, j :: 0 <= i < j < |s| ==> s[i] != s[j]
    ensures |set x | x in s| == |s|
  {
    if s != [] {
      DistinctCard(s[1..]);
      assert (set x | x in s) == {s[0]} + (set x | x in s[1..]);
      assert s[0] !in (set x | x in s[1..]);
    }
  }

  /** The table lists as many ids as it stores users. */
  lemma StoreSize(users: map<string, User>, order: seq<string>)
    requires StoreInv(users, order)
    ensures |users| == |order|
  {
    DistinctCard(order);
    assert users.Keys == set x | x in order;
  }

  // ---------------------------------------------------------------------------
  // saveUser
  // ---------------------------------------------------------------------------

  /** `validateFormatEmail`: the email pattern first, then no stored user may have the email. */
  function ValidateFormatEmail(cfg: Config, rows: seq<User>, email: string): (r: Option<ServiceError>)
    ensures r.None? <==> cfg.emailPattern(email) && forall i :: 0 <= i < |rows| ==> rows[i].email != Some(email)
    ensures r == Some(InvalidEmail) <==> !cfg.emailPattern(email)
    ensures r == Some(EmailAlreadyExists(email)) <==>
      cfg.emailPattern(email) && exists i :: 0 <= i < |rows| && rows[i].email == Some(email)
  {
    if !cfg.emailPattern(email) then Some(InvalidEmail)
    else if FindByEmail(rows, Some(email)).Some? then Some(EmailAlreadyExists(email))
    else None
  }

  /** `validatePassword`: only the configured pattern decides. */
  function ValidatePassword(cfg: Config, password: string): (r: Option<ServiceError>)
    ensures r.None? <==> cfg.passwordPattern(password)
    ensures r.Some? ==> r.value == InvalidPassword
  {
    if !cfg.passwordPattern(password) then Some(InvalidPassword) else None
  }

  /** `saveUser` dereferences the email, then the password, then the phones, as far as it gets. */
  predicate SaveDefined(cfg: Config, rows: seq<User>, u: User) {
    && u.email.Some?
    && (ValidateFormatEmail(cfg, rows, u.email.value).None? ==>
          && u.password.Some?
          && (cfg.passwordPattern(u.password.value) ==> u.phones.Some?))
  }

  /** The user `saveUser` stores: the input with its derived fields filled in. */
  function Registered(cfg: Config, u: User, freshId: string, today: Date): User
    requires u.email.Some? && u.password.Some?
  {
    u.(id := Some(freshId),
       password := Some(cfg.encode(u.password.value)),
       created := Some(today),
       lastLogin := if u.lastLogin.Some? then u.lastLogin else Some(today),
       token := Some(cfg.generateToken(u.email.value)),
       isActive := Some(true))
  }

  /** What `saveUser` does with `u`: the first failing check, or the user to store. */
  function SaveOutcome(cfg: Config, rows: seq<User>, u: User, freshId: string, today: Date): Result<User, ServiceError>
    requires SaveDefined(cfg, rows, u)
  {
    match ValidateFormatEmail(cfg, rows, u.email.value)
    case Some(e) => Failure(e)
    case None =>
      match ValidatePassword(cfg, u.password.value)
      case Some(e) => Failure(e)
      case None => Success(Registered(cfg, u, freshId, today))
  }

  /**
   * The checks of `saveUser` run in a fixed order and the first that fails decides:
   * a bad email format, then an email already stored, then a bad password format.
   */
  lemma SaveChecksInOrder(cfg: Config, users: map<string, User>, order: seq<string>, u: User, freshId: string, today: Date)
    requires StoreInv(users, order)
    requires SaveDefined(cfg, FindAll(users, order), u)
    ensures var out := SaveOutcome(cfg, FindAll(users, order), u, freshId, today);
      var email := u.email.value;
      && (!cfg.emailPattern(email) ==> out == Failure(InvalidEmail))
      && (cfg.emailPattern(email) && HasEmail(users, Some(email)) ==> out == Failure(EmailAlreadyExists(email)))
      && (cfg.emailPattern(email) && !HasEmail(users, Some(email)) && !cfg.passwordPattern(u.password.value) ==>
            out == Failure(InvalidPassword))
      && (out.Success? <==>
            cfg.emailPattern(email) && !HasEmail(users, Some(email)) && cfg.passwordPattern(u.password.value))
  {
    FindByEmailInStore(users, order, u.email);
  }

  /**
   * A successful `saveUser` stores the input's name, email, phones and `modified` as they
   * are, under the fresh id, with the hashed password, `created` today, the supplied
   * `lastLogin` or else `created`, the token issued for the email, and active.
   */
  lemma SaveRecord(cfg: Config, rows: seq<User>, u: User, freshId: string, today: Date)
    requires SaveDefined(cfg, rows, u)
    requires SaveOutcome(cfg, rows, u, freshId, today).Success?
    ensures var rec := SaveOutcome(cfg, rows, u, freshId, today).value;
      && rec.id == Some(freshId)
      && rec.name == u.name && rec.email == u.email && rec.phones == u.phones
      && rec.password == Some(cfg.encode(u.password.value))
      && rec.created == Some(today)
      && rec.modified == u.modified
      && rec.lastLogin == (if u.lastLogin.Some? then u.lastLogin else rec.created)
      && rec.token == Some(cfg.generateToken(u.email.value))
      && rec.isActive == Some(true)
      && u.phones.Some?
  {
  }

  /** A successful `saveUser` under a fresh UUID keeps the table well formed, emails unique. */
  lemma SavePreservesStoreInv(cfg: Config, users: map<string, User>, order: seq<string>, u: User, freshId: string, today: Date)
    requires StoreInv(users, order)
    requires SaveDefined(cfg, FindAll(users, order), u)
    requires freshId !in users && IsUuid(freshId)
    requires SaveOutcome(cfg, FindAll(users, order), u, freshId, today).Success?
    ensures var rec := SaveOutcome(cfg, FindAll(users, order), u, freshId, today).value;
      StoreInv(users[freshId := rec], order + [freshId])
  {
    var rec := SaveOutcome(cfg, FindAll(users, order), u, freshId, today).value;
    FindByEmailInStore(users, order, u.email);
    InsertKeepsUniqueEmails(users, freshId, rec);
    var users' := users[freshId := rec];
    var order' := order + [freshId];
    assert ListedOnce(order');
    assert forall k :: k in order' <==> k in users';
    assert KeyedById(users');
    assert EmailsPresent(users');
    assert UniqueEmails(users');
  }

  /** Adding a user whose email no stored user has keeps emails unique. */
  lemma InsertKeepsUniqueEmails(users: map<string, User>, k: string, rec: User)
    requires UniqueEmails(users) && k !in users
    requires rec.email.Some? ==> !HasEmail(users, rec.email)
    ensures UniqueEmails(users[k := rec])
  {
    var users' := users[k := rec];
    forall a, b | a in users' && b in users' && users'[a].email.Some? && users'[a].email == users'[b].email
      ensures a == b
    {
    }
  }

  /** Replacing a user by one with the same email keeps emails unique. */
  lemma OverwriteKeepsUniqueEmails(users: map<string, User>, k: string, rec: User)
    requires UniqueEmails(users) && k in users && rec.email == users[k].email
    ensures UniqueEmails(users[k := rec])
  {
    var users' := users[k := rec];
    forall a, b | a in users' && b in users' && users'[a].email.Some? && users'[a].email == users'[b].email
      ensures a == b
    {
      assert users'[a].email == users[a].email && users'[b].email == users[b].email;
    }
  }

  /**
   * A request that passed validation never makes `saveUser` dereference a null: its
   * email, password and phones are all present.
   */
  lemma ValidRequestIsSaveDefined(cfg: Config, rows: seq<User>, req: Request.UserRequest, emailSyntax: string -> bool)
    requires Request.IsValid(req, emailSyntax)
    ensures SaveDefined(cfg, rows, Request.ToModel(req))
  {
  }

  /**
   * A POST body that passed validation reaches `saveUser` through `toModel`, which leaves
   * `lastLogin`, `modified` and `isActive` null: the user it registers has
   * `lastLogin == created == today`, no `modified`, and is active.
   */
  lemma RequestRegistration(
    cfg: Config, rows: seq<User>, req: Request.UserRequest, emailSyntax: string -> bool,
    freshId: string, today: Date)
    requires Request.IsValid(req, emailSyntax)
    ensures SaveDefined(cfg, rows, Request.ToModel(req))
    ensures var out := SaveOutcome(cfg, rows, Request.ToModel(req), freshId, today);
      out.Success? ==>
        var rec := out.value;
        && rec.created == Some(today) && rec.lastLogin == rec.created
        && rec.modified.None? && rec.isActive == Some(true)
        && (IsUuid(freshId) ==> ToResponse(rec).lastLogin == Some(today) && ToResponse(rec).isActive)
  {
    ValidRequestIsSaveDefined(cfg, rows, req, emailSyntax);
  }

  /** With the standard patterns, the email `invalid` fails registration with InvalidEmail. */
  lemma StandardRejectsInvalidEmail(
    encode: string -> string, generateToken: string -> string,
    rows: seq<User>, u: User, freshId: string, today: Date)
    requires u.email == Some("invalid")
    ensures var cfg := StandardConfig(encode, generateToken);
      SaveDefined(cfg, rows, u) && SaveOutcome(cfg, rows, u, freshId, today) == Failure(InvalidEmail)
  {
    Constants.InvalidEmailRejected();
  }

  /**
   * With the standard patterns, the password `bad` fails registration with
   * InvalidPassword once the email has passed its checks.
   */
  lemma StandardRejectsBadPassword(
    encode: string -> string, generateToken: string -> string,
    users: map<string, User>, order: seq<string>, u: User, freshId: string, today: Date)
    requires StoreInv(users, order)
    requires u.email.Some? && Constants.EmailRegex(u.email.value) && !HasEmail(users, u.email)
    requires u.password == Some("bad")
    ensures var cfg := StandardConfig(encode, generateToken);
      SaveDefined(cfg, FindAll(users, order), u)
      && SaveOutcome(cfg, FindAll(users, order), u, freshId, today) == Failure(InvalidPassword)
  {
    FindByEmailInStore(users, order, u.email);
    Constants.PwdRegexRejectsLength("bad");
  }

  // ---------------------------------------------------------------------------
  // updateUser
  // ---------------------------------------------------------------------------

  /**
   * `updateUser` dereferences the password and the phones once the user is found; the
   * email itself is only passed to the lookup, so it may be null.
   */
  predicate UpdateDefined(rows: seq<User>, u: User) {
    FindByEmail(rows, u.email).Some? ==> u.password.Some? && u.phones.Some?
  }

  /** The user `updateUser` stores in place of `found`. */
  function Updated(encode: string -> string, found: User, u: User, today: Date): User
    requires u.password.Some?
  {
    u.(id := found.id,
       password := Some(encode(u.password.value)),
       created := found.created,
       modified := Some(today),
       lastLogin := found.lastLogin,
       token := found.token)
  }

  /**
   * What `updateUser` does with `u`: UserNotFound, or the user to store. Neither pattern
   * is consulted: only the encoder is a parameter.
   */
  function UpdateOutcome(encode: string -> string, rows: seq<User>, u: User, today: Date): Result<User, ServiceError>
    requires UpdateDefined(rows, u)
  {
    match FindByEmail(rows, u.email)
    case None => Failure(UserNotFound(u.email))
    case Some(found) => Success(Updated(encode, found, u, today))
  }

  /** `updateUser` fails, with UserNotFound, exactly when no stored user has the email. */
  lemma UpdateNotFound(encode: string -> string, users: map<string, User>, order: seq<string>, u: User, today: Date)
    requires StoreInv(users, order)
    requires UpdateDefined(FindAll(users, order), u)
    ensures var out := UpdateOutcome(encode, FindAll(users, order), u, today);
      && (out.Failure? <==> !HasEmail(users, u.email))
      && (out.Failure? ==> out == Failure(UserNotFound(u.email)))
  {
    FindByEmailInStore(users, order, u.email);
  }

  /**
   * A successful `updateUser` keeps the stored user's id, email, `created`, `lastLogin`
   * and token; takes name, phones and `isActive` from the input; stores the hash of the
   * new password; and sets `modified` to today.
   */
  lemma UpdateRecord(encode: string -> string, users: map<string, User>, order: seq<string>, u: User, today: Date)
    requires StoreInv(users, order)
    requires UpdateDefined(FindAll(users, order), u)
    requires HasEmail(users, u.email)
    ensures UpdateOutcome(encode, FindAll(users, order), u, today).Success?
    ensures var rec := UpdateOutcome(encode, FindAll(users, order), u, today).value;
      && (forall k :: k in users && users[k].email == u.email ==>
            && rec.id == Some(k) && rec.email == users[k].email
            && rec.created == users[k].created && rec.lastLogin == users[k].lastLogin
            && rec.token == users[k].token)
      && rec.name == u.name && rec.phones == u.phones && rec.isActive == u.isActive
      && rec.password == Some(encode(u.password.value))
      && rec.modified == Some(today)
  {
    FindByEmailInStore(users, order, u.email);
  }

  /**
   * A PUT body is not validated, so its email may be null. `updateUser` passes it to the
   * lookup as it is; no stored user has a null email, so the update fails with
   * UserNotFound and the handler answers 404 naming the email `null`.
   */
  lemma UpdateWithoutEmail(encode: string -> string, users: map<string, User>, order: seq<string>, u: User, today: Date)
    requires StoreInv(users, order)
    requires u.email.None?
    ensures UpdateDefined(FindAll(users, order), u)
    ensures UpdateOutcome(encode, FindAll(users, order), u, today) == Failure(UserNotFound(None))
    ensures Handle(UserNotFoundException(None))
      == ErrorResponse(NotFound, map[MessageKey := "No se encontró ningún usuario con el email: null"])
  {
    FindByEmailInStore(users, order, None);
    var message := UserNotFoundMessage(None);
    assert message == "No se encontró ningún usuario con el email: " + "null";
    assert message == "No se encontró ningún usuario con el email: null";
  }

  /** A successful `updateUser` overwrites a stored user and keeps the table well formed. */
  lemma UpdatePreservesStoreInv(encode: string -> string, users: map<string, User>, order: seq<string>, u: User, today: Date)
    requires StoreInv(users, order)
    requires UpdateDefined(FindAll(users, order), u)
    requires UpdateOutcome(encode, FindAll(users, order), u, today).Success?
    ensures var rec := UpdateOutcome(encode, FindAll(users, order), u, today).value;
      && HasUuid(rec) && rec.id.value in users
      && StoreInv(users[rec.id.value := rec], order)
  {
    FindByEmailInStore(users, order, u.email);
    var rec := UpdateOutcome(encode, FindAll(users, order), u, today).value;
    var k := rec.id.value;
    assert users[k].email == rec.email;
    OverwriteKeepsUniqueEmails(users, k, rec);
    var users' := users[k := rec];
    assert forall j :: j in order <==> j in users';
    assert KeyedById(users');
    assert EmailsPresent(users');
  }

  /**
   * Update does not re-check formats: with the standard patterns, a password that
   * registration rejects is accepted by update for any stored email.
   */
  lemma UpdateSkipsFormatChecks(
    encode: string -> string, generateToken: string -> string,
    users: map<string, User>, order: seq<string>, u: User, today: Date)
    requires StoreInv(users, order)
    requires HasEmail(users, u.email)
    requires u.password == Some("bad") && u.phones.Some?
    ensures ValidatePassword(StandardConfig(encode, generateToken), "bad") == Some(InvalidPassword)
    ensures UpdateDefined(FindAll(users, order), u)
    ensures UpdateOutcome(encode, FindAll(users, order), u, today).Success?
  {
    Constants.PwdRegexRejectsLength("bad");
    FindByEmailInStore(users, order, u.email);
  }

  /**
   * A request that passed through `toModel` carries no `isActive`, so the user an update
   * stores from it is no longer marked active and its view reads `isActive == false`.
   */
  lemma RequestUpdateClearsActive(encode: string -> string, users: map<string, User>, order: seq<string>, req: Request.UserRequest, today: Date)
    requires StoreInv(users, order)
    requires UpdateDefined(FindAll(users, order), Request.ToModel(req))
    requires UpdateOutcome(encode, FindAll(users, order), Request.ToModel(req), today).Success?
    ensures var rec := UpdateOutcome(encode, FindAll(users, order), Request.ToModel(req), today).value;
      && rec.isActive.None?
      && HasUuid(rec) && !ToResponse(rec).isActive
  {
    UpdatePreservesStoreInv(encode, users, order, Request.ToModel(req), today);
  }

  // ---------------------------------------------------------------------------
  // The service
  // ---------------------------------------------------------------------------

  /** UserServiceInterfaceImpl with its users table. */
  class UserServiceImpl {
    const cfg: Config
    var users: map<string, User>
    var order: seq<string>

    ghost predicate Valid()
      reads this
    {
      StoreInv(users, order)
    }

    constructor (cfg: Config)
      ensures Valid()
      ensures this.cfg == cfg && users == map[] && order == []
    {
      this.cfg := cfg;
      users := map[];
      order := [];
    }

    /** `getUsers`: one view per stored user, in table order. */
    function GetUsers(): (r: seq<UserResponse>)
      reads this
      requires Valid()
      ensures |r| == |order| == |users|
      ensures forall i :: 0 <= i < |r| ==> HasUuid(users[order[i]]) && r[i] == ToResponse(users[order[i]])
      ensures forall k :: k in users ==> exists i :: 0 <= i < |r| && order[i] == k
    {
      StoreSize(users, order);
      var rows := FindAll(users, order);
      seq(|rows|, i requires 0 <= i < |rows| && HasUuid(rows[i]) => ToResponse(rows[i]))
    }

    /**
     * `saveUser`: on the first failing check nothing is written; otherwise exactly one
     * user is added, under the fresh id, and its view returned.
     */
    method SaveUser(u: User, freshId: string, today: Date) returns (r: Result<UserResponse, ServiceError>)
      requires Valid()
      requires SaveDefined(cfg, FindAll(users, order), u)
      requires freshId !in users && IsUuid(freshId)
      modifies this
      ensures Valid()
      ensures match SaveOutcome(cfg, FindAll(old(users), old(order)), u, freshId, today)
        case Failure(e) => r == Failure(e) && users == old(users) && order == old(order)
        case Success(rec) =>
          && HasUuid(rec) && r == Success(ToResponse(rec))
          && users == old(users)[freshId := rec] && order == old(order) + [freshId]
    {
      var email := u.email.value;
      var emailCheck := ValidateFormatEmail(cfg, FindAll(users, order), email);
      if emailCheck.Some? {
        return Failure(emailCheck.value);
      }
      var passwordCheck := ValidatePassword(cfg, u.password.value);
      if passwordCheck.Some? {
        return Failure(passwordCheck.value);
      }
      SavePreservesStoreInv(cfg, users, order, u, freshId, today);

      var user := u;
      user := user.(id := Some(freshId));
      user := user.(password := Some(cfg.encode(user.password.value)));
      user := user.(created := Some(today));
      user := user.(lastLogin := if user.lastLogin.Some? then user.lastLogin else user.created);
      user := user.(token := Some(cfg.generateToken(user.email.value)));
      user := user.(isActive := Some(true));

      users := users[freshId := user];
      order := order + [freshId];
      var response := SetResponse(user);
      r := Success(response);
    }

    /**
     * `updateUser`: an unknown email writes nothing; otherwise the stored user with that
     * email is overwritten under its own id and the new view returned.
     */
    method UpdateUser(u: User, today: Date) returns (r: Result<UserResponse, ServiceError>)
      requires Valid()
      requires UpdateDefined(FindAll(users, order), u)
      modifies this
      ensures Valid()
      ensures match UpdateOutcome(cfg.encode, FindAll(old(users), old(order)), u, today)
        case Failure(e) => r == Failure(e) && users == old(users) && order == old(order)
        case Success(rec) =>
          && HasUuid(rec) && rec.id.value in old(users) && r == Success(ToResponse(rec))
          && users == old(users)[rec.id.value := rec] && order == old(order)
    {
      var searchUser := FindByEmail(FindAll(users, order), u.email);
      if searchUser.None? {
        return Failure(UserNotFound(u.email));
      }
      UpdatePreservesStoreInv(cfg.encode, users, order, u, today);
      var found := searchUser.value;

      // name, email and phones are set to their own values: they stay as in the input
      var user := u;
      user := user.(id := found.id);
      user := user.(password := Some(cfg.encode(user.password.value)));
      user := user.(created := found.created);
      user := user.(modified := Some(today));
      user := user.(lastLogin := found.lastLogin);
      user := user.(token := found.token);

      users := users[user.id.value := user];
      var response := SetResponse(user);
      r := Success(response);
    }
  }
}
