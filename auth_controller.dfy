/** The account handlers of server/src/controllers/authController.js:
    registering an account, logging in (which stamps `lastLogin` and logs a
    login event), reading the current account, and the token response. bcrypt
    and JWT signing are parameters: `compare`/`compareFails` answer the
    password check and `tokenOk` says whether signing succeeds. */
module AuthController {

  import opened Common
  import opened UserModel
  import opened AnalyticsModel
  import opened Store
  import opened UserController

  // ---------------------------------------------------------------------------
  // register

  /** `register`: like `createUser` without a `collections` field: 400 for a
      taken username, 500 for an invalid record, else 201 with the account,
      whose role defaults to 'user', and its generated password. */
  method Register(db: Database, username: Option<string>, role: Option<string>,
                  draws: seq<real>, now: int, hash: string -> string) returns (status: Status, created: Option<NewUser>)
    requires db.Valid()
    requires |draws| == DefaultPasswordLength && ValidDraws(draws)
    modifies db`users, db`nextId
    ensures db.Valid()
    ensures status in {Created, BadRequest, ServerError}
    ensures status == BadRequest <==> UsernameTaken(old(db.users), username)
    ensures status == ServerError <==>
      !UsernameTaken(old(db.users), username) && (!Truthy(username) || (Truthy(role) && ParseRole(role.value).None?))
    ensures status != Created ==> created.None? && db.users == old(db.users)
    ensures status == Created ==>
      var record := NewRecord(username, RandomPassword(draws), role, None, now, hash).value;
      && created.Some? && created.value.password == RandomPassword(draws)
      && created.value.user == PublicUser(created.value.user.id, username.value, record.role)
      && record.role == (if Truthy(role) then ParseRole(role.value).value else Regular)
      && record.collections == []
      && created.value.user.id !in old(db.users)
      && db.users == old(db.users)[created.value.user.id := record]
    ensures UniqueUsernames(old(db.users)) ==> UniqueUsernames(db.users)
  {
    var out := AddUser(db, username, role, None, draws, now, hash);
    match out
    case Taken => status, created := BadRequest, None;
    case Invalid(_) => status, created := ServerError, None;
    case Added(account) => status, created := Created, Some(account);
  }

  // ---------------------------------------------------------------------------
  // sendTokenResponse

  /** What a successful authentication answers with. */
  datatype Session = Session(token: TokenPayload, user: PublicUser)

  /** `sendTokenResponse`: a signing failure is a 500; otherwise the token
      and a user object holding only id, username and role, which agree
      with each other. */
  function SendTokenResponse(id: UserId, u: User, tokenOk: bool): (r: (Status, Option<Session>))
    ensures r.0 in {Ok, ServerError}
    ensures r.0 == Ok <==> tokenOk
    ensures r.1.Some? <==> tokenOk
    ensures tokenOk ==>
      && r.1.value.user == PublicUser(id, u.username, u.role)
      && r.1.value.token.id == r.1.value.user.id
      && r.1.value.token.username == r.1.value.user.username
      && r.1.value.token.role == r.1.value.user.role
  {
    if !tokenOk then (ServerError, None)
    else (Ok, Some(Session(TokenPayloadOf(id, u), PublicUser(id, u.username, u.role))))
  }

  // ---------------------------------------------------------------------------
  // login

  /** The login event `Analytics.create` stores: the user, 'login', no image
      or collection, the request's address and agent, stamped now. */
  function LoginEvent(id: UserId, now: int, ip: Option<string>, userAgent: Option<string>): (e: Event)
    ensures e == Event(id, ActionType.Login, None, None, now, ip, userAgent)
  {
    var data := EventData(Some(id), Some("login"), None, None, None, ip, userAgent);
    AnalyticsModel.Create(data, now).value
  }

  /** `login`: 400 unless both username and password are non-empty; 401
      "Invalid credentials" for an unknown username or a wrong password,
      with nothing changed. Otherwise `lastLogin` is stamped and saved (the
      password is not modified, so it is not rehashed), a login event is
      appended unless writing it fails (which is ignored), and the token
      response follows: a signing failure is a 500 after those writes.
      `found` is the account `findOne({username})` returned. */
  method Login(db: Database, username: Option<string>, password: Option<string>,
               compare: (string, string) -> bool, compareFails: bool, hash: string -> string,
               now: int, ip: Option<string>, userAgent: Option<string>, eventOk: bool, tokenOk: bool)
    returns (status: Status, session: Option<Session>, ghost found: Option<UserId>)
    requires db.Valid()
    modifies db`users, db`events
    ensures db.Valid()
    ensures status in {Ok, BadRequest, Unauthorized, ServerError}
    ensures status == BadRequest <==> !Truthy(username) || !Truthy(password)
    ensures found.Some? <==> Truthy(username) && Truthy(password) && UsernameTaken(old(db.users), username)
    ensures found.Some? ==> found.value in old(db.users) && old(db.users)[found.value].username == username.value
    ensures status == Unauthorized <==>
      Truthy(username) && Truthy(password) &&
      (found.None? || !MatchPassword(old(db.users)[found.value], password.value, compare, compareFails))
    ensures status in {BadRequest, Unauthorized} ==>
      session.None? && db.users == old(db.users) && db.events == old(db.events)
    ensures status in {Ok, ServerError} ==>
      && found.Some?
      && var id := found.value;
      && MatchPassword(old(db.users)[id], password.value, compare, compareFails)
      && db.users == old(db.users)[id := old(db.users)[id].(lastLogin := Some(now))]
      && db.events == old(db.events) + (if eventOk then [LoginEvent(id, now, ip, userAgent)] else [])
      && status == SendTokenResponse(id, db.users[id], tokenOk).0
      && session == SendTokenResponse(id, db.users[id], tokenOk).1
    ensures status == ServerError <==>
      Truthy(username) && Truthy(password) && found.Some? &&
      MatchPassword(old(db.users)[found.value], password.value, compare, compareFails) && !tokenOk
  {
    found := None;
    if !Truthy(username) || !Truthy(password) {
      return BadRequest, None, None;
    }
    if !UsernameTaken(db.users, username) {
      return Unauthorized, None, None;
    }
    var id :| id in db.users && db.users[id].username == username.value;
    found := Some(id);
    var u := db.users[id];
    if !MatchPassword(u, password.value, compare, compareFails) {
      return Unauthorized, None, found;
    }
    var stamped := PreSave(u.(lastLogin := Some(now)), false, hash);
    db.users := db.users[id := stamped];
    if eventOk {
      db.events := db.events + [LoginEvent(id, now, ip, userAgent)];
    }
    var response := SendTokenResponse(id, stamped, tokenOk);
    status, session := response.0, response.1;
  }

  // ---------------------------------------------------------------------------
  // getMe

  /** `getMe`: the acting account's public fields; an account that no longer
      exists dereferences null, so 500. */
  function GetMe(db: Database, actor: Actor): (r: (Status, Option<PublicUser>))
    reads db
    ensures r.0 == Ok <==> actor.id in db.users
    ensures r.0 != Ok ==> r.0 == ServerError && r.1.None?
    ensures r.0 == Ok ==> r.1 == Some(PublicUser(actor.id, db.users[actor.id].username, db.users[actor.id].role))
  {
    if actor.id !in db.users then (ServerError, None)
    else
      var u := db.users[actor.id];
      (Ok, Some(PublicUser(actor.id, u.username, u.role)))
  }
}
