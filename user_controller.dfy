/** The user administration handlers of server/src/controllers/userController.js:
    creating a user with a generated password, updating and deleting one,
    and the bulk variants. The `Math.random()` values behind each generated
    password and bcrypt's `hash` are parameters. A username that is already
    taken is refused before any record is made, which keeps usernames
    unique. */
module UserController {

  import opened Common
  import opened UserModel
  import opened Store

  /** The `unique: true` index on `username`. */
  ghost predicate UniqueUsernames(users: map<UserId, User>) {
    forall a, b :: a in users && b in users && users[a].username == users[b].username ==> a == b
  }

  /** A created account as the handlers report it: the public fields and
      the generated password in clear, shown this once. */
  datatype NewUser = NewUser(user: PublicUser, password: string)

  /** The record `User.create({username, password, role: role || 'user',
      collections: collections || []})` makes: an absent or empty role is
      'user', absent collections are []. */
  function NewRecord(username: Option<string>, password: string, role: Option<string>,
                     collections: Option<seq<CollectionId>>, now: int, hash: string -> string): (r: Result<User, string>)
    ensures r.Success? <==>
      Truthy(username) && |password| >= MinPasswordLength && (!Truthy(role) || ParseRole(role.value).Some?)
    ensures r.Success? ==>
      && r.value.username == username.value && r.value.password == hash(password)
      && r.value.role == (if Truthy(role) then ParseRole(role.value).value else Regular)
      && r.value.collections == collections.GetOr([])
      && r.value.lastLogin == None && r.value.createdAt == now
  {
    UserModel.Create(username, password, Some(if Truthy(role) then role.value else "user"), collections.GetOr([]), now, hash)
  }

  /** How one attempt to add a user ends. */
  datatype AddOutcome = Taken | Invalid(error: string) | Added(account: NewUser)

  /** The shared sequence of `createUser`, `register` and one step of
      `bulkCreateUsers`: `findOne({username})`, then a generated password,
      then `User.create`. */
  method AddUser(db: Database, username: Option<string>, role: Option<string>, collections: Option<seq<CollectionId>>,
                 draws: seq<real>, now: int, hash: string -> string) returns (out: AddOutcome)
    requires db.Valid()
    requires |draws| == DefaultPasswordLength && ValidDraws(draws)
    modifies db`users, db`nextId
    ensures db.Valid()
    ensures out.Taken? <==> UsernameTaken(old(db.users), username)
    ensures out.Invalid? <==>
      !UsernameTaken(old(db.users), username) && NewRecord(username, RandomPassword(draws), role, collections, now, hash).Failure?
    ensures !out.Added? ==> db.users == old(db.users)
    ensures out.Added? ==>
      NewRecord(username, RandomPassword(draws), role, collections, now, hash).Success? &&
      var record := NewRecord(username, RandomPassword(draws), role, collections, now, hash).value;
      && out.account.password == RandomPassword(draws)
      && out.account.user == PublicUser(out.account.user.id, record.username, record.role)
      && out.account.user.id !in old(db.users)
      && db.users == old(db.users)[out.account.user.id := record]
    ensures UniqueUsernames(old(db.users)) ==> UniqueUsernames(db.users)
  {
    if UsernameTaken(db.users, username) {
      return Taken;
    }
    var password := GenerateRandomPassword(DefaultPasswordLength, draws);
    var record := NewRecord(username, password, role, collections, now, hash);
    if record.Failure? {
      return Invalid(record.error);
    }
    ghost var before := db.users;
    var id := db.InsertUser(record.value);
    out := Added(NewUser(PublicUser(id, record.value.username, record.value.role), password));
    assert forall o :: o in before ==> before[o].username != record.value.username;
  }

  // ---------------------------------------------------------------------------
  // createUser

  /** `createUser`: 400 for a taken username, 500 when the record is
      invalid, else 201 with the account and its generated password. */
  method CreateUser(db: Database, username: Option<string>, role: Option<string>, collections: Option<seq<CollectionId>>,
                    draws: seq<real>, now: int, hash: string -> string) returns (status: Status, created: Option<NewUser>)
    requires db.Valid()
    requires |draws| == DefaultPasswordLength && ValidDraws(draws)
    modifies db`users, db`nextId
    ensures db.Valid()
    ensures status in {Created, BadRequest, ServerError}
    ensures status == BadRequest <==> UsernameTaken(old(db.users), username)
    ensures status == ServerError <==>
      !UsernameTaken(old(db.users), username) && (!Truthy(username) || (Truthy(role) && ParseRole(role.value).None?))
    ensures status != Created ==> created.None? && db.users == old(db.users)
    ensures status == Created ==>
      var record := NewRecord(username, RandomPassword(draws), role, collections, now, hash).value;
      && created.Some? && created.value.password == RandomPassword(draws)
      && created.value.user == PublicUser(created.value.user.id, username.value, record.role)
      && record.role == (if Truthy(role) then ParseRole(role.value).value else Regular)
      && record.collections == collections.GetOr([])
      && created.value.user.id !in old(db.users)
      && db.users == old(db.users)[created.value.user.id := record]
    ensures UniqueUsernames(old(db.users)) ==> UniqueUsernames(db.users)
  {
    var out := AddUser(db, username, role, collections, draws, now, hash);
    match out
    case Taken => status, created := BadRequest, None;
    case Invalid(_) => status, created := ServerError, None;
    case Added(account) => status, created := Created, Some(account);
  }

  // ---------------------------------------------------------------------------
  // updateUser

  /** The fields of an update body the schema knows; absent ones are `None`.
      `lastLogin` may be set to a time or to null (`Some(None)`). */
  datatype UserUpdate = UserUpdate(
    username: Option<string>,
    password: Option<string>,
    role: Option<string>,
    collections: Option<seq<CollectionId>>,
    lastLogin: Option<Option<int>>,
    createdAt: Option<int>)

  /** `if (req.body.password) delete req.body.password`: a non-empty password
      is dropped; an empty one stays, and the required validator will refuse
      it. */
  function StripPassword(body: UserUpdate): (r: UserUpdate)
    ensures r.(password := body.password) == body
    ensures r.password.Some? ==> r.password.value == ""
    ensures !Truthy(body.password) ==> r == body
  {
    if Truthy(body.password) then body.(password := None) else body
  }

  /** The update validators (`runValidators: true`) on the fields the body
      sets: username and password are required, the role must be one of
      the enum. */
  predicate UpdateValid(body: UserUpdate) {
    && (body.username.Some? ==> body.username.value != "")
    && (body.password.Some? ==> |body.password.value| >= MinPasswordLength)
    && (body.role.Some? ==> ParseRole(body.role.value).Some?)
  }

  /** The `$set` of a valid, stripped body: the fields it carries replace the
      stored ones, and nothing else of the record changes. */
  function ApplyUpdate(u: User, body: UserUpdate): (r: User)
    requires UpdateValid(body) && body.password.None?
    ensures r.(username := u.username, role := u.role, collections := u.collections,
               lastLogin := u.lastLogin, createdAt := u.createdAt) == u
    ensures r.password == u.password
    ensures r.username == body.username.GetOr(u.username)
    ensures r.role == (if body.role.Some? then ParseRole(body.role.value).value else u.role)
    ensures r.collections == body.collections.GetOr(u.collections)
    ensures r.lastLogin == body.lastLogin.GetOr(u.lastLogin)
    ensures r.createdAt == body.createdAt.GetOr(u.createdAt)
  {
    u.(username := body.username.GetOr(u.username),
       role := if body.role.Some? then ParseRole(body.role.value).value else u.role,
       collections := body.collections.GetOr(u.collections),
       lastLogin := body.lastLogin.GetOr(u.lastLogin),
       createdAt := body.createdAt.GetOr(u.createdAt))
  }

  /** Another user than `id` already has `name` (the unique index refuses
      the update). */
  predicate NameHeldByOther(users: map<UserId, User>, id: UserId, name: string) {
    exists o | o in users :: o != id && users[o].username == name
  }

  /** A user without the password (`select('-password')`). */
  datatype Profile = Profile(id: UserId, username: string, role: Role, collections: seq<CollectionId>,
                             lastLogin: Option<int>, createdAt: int)

  function ProfileOf(id: UserId, u: User): Profile {
    Profile(id, u.username, u.role, u.collections, u.lastLogin, u.createdAt)
  }

  /** `updateUser`: the password is removed from the body first, so it
      never changes. The validators run before the lookup: an invalid body
      is a 500 even for a missing id. Then a missing id is 404, a username
      another user holds is a 500, and otherwise the fields are set. */
  method UpdateUser(db: Database, id: UserId, body: UserUpdate) returns (status: Status, profile: Option<Profile>)
    requires db.Valid()
    modifies db`users
    ensures db.Valid()
    ensures status in {Ok, NotFound, ServerError}
    ensures status == NotFound <==> UpdateValid(StripPassword(body)) && id !in old(db.users)
    ensures status == ServerError <==>
      !UpdateValid(StripPassword(body))
      || (id in old(db.users) && body.username.Some? && NameHeldByOther(old(db.users), id, body.username.value))
    ensures status != Ok ==> profile.None? && db.users == old(db.users)
    ensures status == Ok ==>
      && StripPassword(body).password.None?
      && db.users == old(db.users)[id := ApplyUpdate(old(db.users[id]), StripPassword(body))]
      && db.users[id].password == old(db.users[id].password)
      && profile == Some(ProfileOf(id, db.users[id]))
    ensures UniqueUsernames(old(db.users)) ==> UniqueUsernames(db.users)
    ensures forall u :: u in old(db.users) ==> u in db.users && db.users[u].password == old(db.users[u].password)
  {
    var b := StripPassword(body);
    if !UpdateValid(b) {
      return ServerError, None;
    }
    if id !in db.users {
      return NotFound, None;
    }
    if b.username.Some? && NameHeldByOther(db.users, id, b.username.value) {
      return ServerError, None;
    }
    assert b.password.None?;
    var updated := ApplyUpdate(db.users[id], b);
    db.users := db.users[id := updated];
    status, profile := Ok, Some(ProfileOf(id, updated));
  }

  // ---------------------------------------------------------------------------
  // deleteUser

  /** `deleteUser`: 404 for a missing id, else the record is removed. The
      collections that list the user in `accessibleBy` keep the id. */
  method DeleteUser(db: Database, id: UserId) returns (status: Status)
    requires db.Valid()
    modifies db`users
    ensures db.Valid()
    ensures status in {Ok, NotFound}
    ensures status == NotFound <==> id !in old(db.users)
    ensures status == NotFound ==> db.users == old(db.users)
    ensures status == Ok ==> db.users == old(db.users) - {id}
  {
    if id !in db.users {
      return NotFound;
    }
    db.users := db.users - {id};
    status := Ok;
  }

  // ---------------------------------------------------------------------------
  // bulkCreateUsers

  /** One element of the `users` array. */
  datatype UserData = UserData(username: Option<string>, role: Option<string>, collections: Option<seq<CollectionId>>)

  /** An entry of `errors`: the username as given and the reason. */
  datatype FailedUser = FailedUser(username: Option<string>, error: string)

  /** What happened to one input, in input order: it was created or it
      failed. `createdUsers` and `errors` are the two halves of this list. */
  datatype Entry = CreatedEntry(account: NewUser) | FailedEntry(failure: FailedUser)

  function CreatedOf(entries: seq<Entry>): (r: seq<NewUser>)
    ensures |r| <= |entries|
  {
    if entries == [] then []
    else (if entries[0].CreatedEntry? then [entries[0].account] else []) + CreatedOf(entries[1..])
  }

  function FailedOf(entries: seq<Entry>): (r: seq<FailedUser>)
    ensures |r| <= |entries|
  {
    if entries == [] then []
    else (if entries[0].FailedEntry? then [entries[0].failure] else []) + FailedOf(entries[1..])
  }

  lemma CreatedOfAppend(entries: seq<Entry>, e: Entry)
    ensures CreatedOf(entries + [e]) == CreatedOf(entries) + (if e.CreatedEntry? then [e.account] else [])
    ensures FailedOf(entries + [e]) == FailedOf(entries) + (if e.FailedEntry? then [e.failure] else [])
  {
    if entries != [] {
      assert (entries + [e])[1..] == entries[1..] + [e];
      CreatedOfAppend(entries[1..], e);
    }
  }

  /** Every input lands in exactly one of the two lists, so
      `totalCreated + totalFailed` is the number of inputs. */
  lemma {:induction false} EntriesPartition(entries: seq<Entry>)
    ensures |CreatedOf(entries)| + |FailedOf(entries)| == |entries|
  {
    if entries != [] {
      EntriesPartition(entries[1..]);
    }
  }

  /** An entry describes its input against the store: a failure carries
      the username as given; a created account holds the generated
      password, a fresh id, the record `NewRecord` makes from the input, and
      a username no user had before the batch. */
  ghost predicate Recorded(users: map<UserId, User>, users0: map<UserId, User>, data: UserData, draws: seq<real>,
                           e: Entry, now: int, hash: string -> string)
    requires ValidDraws(draws)
  {
    match e
    case FailedEntry(f) => f.username == data.username
    case CreatedEntry(a) =>
      var r := NewRecord(data.username, a.password, data.role, data.collections, now, hash);
      && a.password == RandomPassword(draws) && r.Success?
      && a.user.id in users && a.user.id !in users0 && users[a.user.id] == r.value
      && a.user == PublicUser(a.user.id, r.value.username, r.value.role)
      && !UsernameTaken(users0, data.username)
  }

  predicate ValidDrawsEach(draws: seq<seq<real>>) {
    forall i :: 0 <= i < |draws| ==> |draws[i]| == DefaultPasswordLength && ValidDraws(draws[i])
  }

  /** `bulkCreateUsers`: 400 for an absent or empty list; otherwise each
      input in order goes through the same steps as `createUser`, a taken
      username or an invalid record giving an error entry, and the answer is
      201 in every case. Inputs created earlier in the batch count as taken
      for later ones. */
  method BulkCreateUsers(db: Database, users: Option<seq<UserData>>, draws: seq<seq<real>>, now: int, hash: string -> string)
    returns (status: Status, createdUsers: seq<NewUser>, errors: seq<FailedUser>, ghost entries: seq<Entry>)
    requires db.Valid()
    requires users.Some? ==> |draws| == |users.value|
    requires ValidDrawsEach(draws)
    modifies db`users, db`nextId
    ensures db.Valid()
    ensures status in {Created, BadRequest}
    ensures status == BadRequest <==> users.None? || users.value == []
    ensures status == BadRequest ==> db.users == old(db.users) && createdUsers == [] && errors == []
    ensures status == Created ==>
      && |entries| == |users.value|
      && createdUsers == CreatedOf(entries) && errors == FailedOf(entries)
      && |createdUsers| + |errors| == |users.value|
    ensures status == Created ==> forall j :: 0 <= j < |entries| ==>
      Recorded(db.users, old(db.users), users.value[j], draws[j], entries[j], now, hash)
    ensures status == Created ==> forall j1, j2 :: (0 <= j1 < j2 < |entries| && entries[j1].CreatedEntry? &&
      users.value[j1].username == users.value[j2].username) ==> entries[j2].FailedEntry?
    ensures forall u :: u in old(db.users) ==> u in db.users && db.users[u] == old(db.users[u])
    ensures UniqueUsernames(old(db.users)) ==> UniqueUsernames(db.users)
  {
    createdUsers, errors, entries := [], [], [];
    if users.None? || users.value == [] {
      return BadRequest, [], [], [];
    }
    var list := users.value;
    ghost var users0 := db.users;
    var i := 0;
    while i < |list|
      invariant 0 <= i <= |list|
      invariant db.Valid()
      invariant |entries| == i
      invariant createdUsers == CreatedOf(entries) && errors == FailedOf(entries)
      invariant forall u :: u in users0 ==> u in db.users && db.users[u] == users0[u]
      invariant UniqueUsernames(users0) ==> UniqueUsernames(db.users)
      invariant forall j :: 0 <= j < i ==> Recorded(db.users, users0, list[j], draws[j], entries[j], now, hash)
      invariant forall j1, j2 :: (0 <= j1 < j2 < i && entries[j1].CreatedEntry? &&
        list[j1].username == list[j2].username) ==> entries[j2].FailedEntry?
    {
      var data := list[i];
      ghost var before := db.users;
      var out := AddUser(db, data.username, data.role, data.collections, draws[i], now, hash);
      var entry: Entry;
      match out {
        case Taken =>
          entry := FailedEntry(FailedUser(data.username, "Username already exists"));
        case Invalid(message) =>
          entry := FailedEntry(FailedUser(data.username, message));
        case Added(account) =>
          entry := CreatedEntry(account);
      }
      BulkStep(users0, before, db.users, list, draws, entries, out, entry, i, now, hash);
      CreatedOfAppend(entries, entry);
      createdUsers := createdUsers + (if entry.CreatedEntry? then [entry.account] else []);
      errors := errors + (if entry.FailedEntry? then [entry.failure] else []);
      entries := entries + [entry];
      i := i + 1;
    }
    status := Created;
    EntriesPartition(entries);
  }

  /** One step of the bulk loop keeps its invariants: the earlier entries
      still describe the store, and a name created earlier is taken now. */
  lemma BulkStep(users0: map<UserId, User>, before: map<UserId, User>, after: map<UserId, User>,
                 list: seq<UserData>, draws: seq<seq<real>>, entries: seq<Entry>, out: AddOutcome, entry: Entry,
                 i: nat, now: int, hash: string -> string)
    requires i < |list| && |draws| == |list| && |entries| == i
    requires ValidDrawsEach(draws)
    requires forall u :: u in users0 ==> u in before && before[u] == users0[u]
    requires forall j :: 0 <= j < i ==> Recorded(before, users0, list[j], draws[j], entries[j], now, hash)
    requires forall j1, j2 :: (0 <= j1 < j2 < i && entries[j1].CreatedEntry? &&
      list[j1].username == list[j2].username) ==> entries[j2].FailedEntry?
    requires out.Taken? <==> UsernameTaken(before, list[i].username)
    requires !out.Added? ==> after == before
    requires out.Added? ==>
      NewRecord(list[i].username, RandomPassword(draws[i]), list[i].role, list[i].collections, now, hash).Success? &&
      var record := NewRecord(list[i].username, RandomPassword(draws[i]), list[i].role, list[i].collections, now, hash).value;
      && out.account.password == RandomPassword(draws[i])
      && out.account.user == PublicUser(out.account.user.id, record.username, record.role)
      && out.account.user.id !in before
      && after == before[out.account.user.id := record]
    requires entry == (match out
      case Taken => FailedEntry(FailedUser(list[i].username, "Username already exists"))
      case Invalid(message) => FailedEntry(FailedUser(list[i].username, message))
      case Added(account) => CreatedEntry(account))
    ensures forall u :: u in users0 ==> u in after && after[u] == users0[u]
    ensures forall j :: 0 <= j < i + 1 ==> Recorded(after, users0, list[j], draws[j], (entries + [entry])[j], now, hash)
    ensures forall j1, j2 :: (0 <= j1 < j2 < i + 1 && (entries + [entry])[j1].CreatedEntry? &&
      list[j1].username == list[j2].username) ==> (entries + [entry])[j2].FailedEntry?
  {
    var es := entries + [entry];
    forall j | 0 <= j < i
      ensures Recorded(after, users0, list[j], draws[j], es[j], now, hash)
    {
      assert es[j] == entries[j];
      assert Recorded(before, users0, list[j], draws[j], entries[j], now, hash);
      if es[j].CreatedEntry? && out.Added? {
        assert es[j].account.user.id in before;
      }
    }
    forall j1 | 0 <= j1 < i && es[j1].CreatedEntry? && list[j1].username == list[i].username
      ensures es[i].FailedEntry?
    {
      var a := es[j1].account;
      assert es[j1] == entries[j1];
      assert Recorded(before, users0, list[j1], draws[j1], entries[j1], now, hash);
      assert before[a.user.id].username == list[i].username.value;
      assert UsernameTaken(before, list[i].username);
    }
    if out.Added? {
      assert !UsernameTaken(users0, list[i].username) by {
        if list[i].username.Some? {
          forall o | o in users0
            ensures users0[o].username != list[i].username.value
          {
            assert o in before && before[o] == users0[o];
          }
        }
      }
    }
  }

  // ---------------------------------------------------------------------------
  // bulkDeleteUsers

  /** `bulkDeleteUsers`: 400 for an absent or empty list; otherwise
      `deleteMany({_id: {$in: userIds}})` removes exactly the listed users
      that exist and reports how many that were. */
  method BulkDeleteUsers(db: Database, userIds: Option<seq<UserId>>) returns (status: Status, deletedCount: nat)
    requires db.Valid()
    modifies db`users
    ensures db.Valid()
    ensures status in {Ok, BadRequest}
    ensures status == BadRequest <==> userIds.None? || userIds.value == []
    ensures status == BadRequest ==> db.users == old(db.users) && deletedCount == 0
    ensures status == Ok ==>
      && (forall u :: u in db.users <==> u in old(db.users) && u !in userIds.value)
      && (forall u :: u in db.users ==> db.users[u] == old(db.users[u]))
      && deletedCount == |old(db.users).Keys - db.users.Keys|
      && old(db.users).Keys - db.users.Keys == UsersAmong(old(db.users), userIds.value)
  {
    if userIds.None? || userIds.value == [] {
      return BadRequest, 0;
    }
    var ids := userIds.value;
    var removed := UsersAmong(db.users, ids);
    UsersAmongMembers(db.users, ids);
    db.users := map u | u in db.users && u !in ids :: db.users[u];
    status, deletedCount := Ok, |removed|;
    assert old(db.users).Keys - db.users.Keys == removed;
  }
}
