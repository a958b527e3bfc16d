/** The User schema of server/src/models/User.js: its fields, validation and
    defaults, the pre-save password hashing, password comparison and the
    random password generator. bcrypt is a pair of function parameters: its
    salt is folded into `hash`. */
module UserModel {

  import opened Common

  /** The `role` enum: 'admin' or 'user' (here `Regular`). */
  datatype Role = Admin | Regular

  /** The role as stored. */
  function RoleName(r: Role): string {
    match r
    case Admin => "admin"
    case Regular => "user"
  }

  /** The enum validator: only 'admin' and 'user' are roles. */
  function ParseRole(s: string): (r: Option<Role>)
    ensures r.Some? <==> (s == "admin" || s == "user")
    ensures r.Some? ==> RoleName(r.value) == s
  {
    if s == "admin" then Some(Admin)
    else if s == "user" then Some(Regular)
    else None
  }

  /** A stored role name reads back as the same role, and only it does. */
  lemma RoleNameRoundTrip(r: Role, s: string)
    ensures ParseRole(s) == Some(r) <==> s == RoleName(r)
  {
  }

  /** `minlength: 6` of the password. */
  const MinPasswordLength: nat := 6

  /** The default length of `generateRandomPassword`. */
  const DefaultPasswordLength: nat := 12

  /** The characters `generateRandomPassword` draws from. */
  const Alphabet: string := "ABCDEFGHIJKLMNOPQRSTUVWXYZabcdefghijklmnopqrstuvwxyz0123456789!@#$%^&*()"

  /** `Math.floor(Math.random() * chars.length)` for one draw. */
  function CharIndex(draw: real): (i: nat)
    requires 0.0 <= draw < 1.0
    ensures i < |Alphabet|
  {
    assert |Alphabet| == 72;
    (draw * 72.0).Floor
  }

  /** Draws of `Math.random()`: each in [0, 1). */
  predicate ValidDraws(draws: seq<real>) {
    forall i :: 0 <= i < |draws| ==> 0.0 <= draws[i] < 1.0
  }

  /** The password a sequence of draws produces: one character of the
      alphabet per draw. */
  function RandomPassword(draws: seq<real>): (p: string)
    requires ValidDraws(draws)
    ensures |p| == |draws|
    ensures forall i :: 0 <= i < |p| ==> p[i] in Alphabet
  {
    seq(|draws|, i requires 0 <= i < |draws| => Alphabet[CharIndex(draws[i])])
  }

  /** `generateRandomPassword(length)`, with the values of `Math.random()` as
      `draws`: the string of `length` alphabet characters they select. */
  method GenerateRandomPassword(length: nat, draws: seq<real>) returns (password: string)
    requires |draws| == length
    requires ValidDraws(draws)
    ensures |password| == length
    ensures forall i :: 0 <= i < length ==> password[i] == Alphabet[CharIndex(draws[i])]
    ensures password == RandomPassword(draws)
  {
    password := "";
    var i := 0;
    while i < length
      invariant 0 <= i <= length
      invariant |password| == i
      invariant forall k :: 0 <= k < i ==> password[k] == Alphabet[CharIndex(draws[k])]
    {
      password := password + [Alphabet[CharIndex(draws[i])]];
      i := i + 1;
    }
  }

  /** A stored user. `password` holds the bcrypt hash; `lastLogin` is null
      until the first login. */
  datatype User = User(
    username: string,
    password: string,
    role: Role,
    collections: seq<CollectionId>,
    lastLogin: Option<int>,
    createdAt: int)

  /** The fields of a user the handlers return: id, username and role. */
  datatype PublicUser = PublicUser(id: UserId, username: string, role: Role)

  /** `User.create({...})` for a new document: `username` is required (an
      empty string fails), the password is required with at least 6
      characters, a given role must be one of the enum, the role defaults to
      'user'; the pre-save hook then stores the hash of the new password. */
  function Create(username: Option<string>, password: string, role: Option<string>,
                  collections: seq<CollectionId>, now: int, hash: string -> string): (r: Result<User, string>)
    ensures r.Success? <==>
      Truthy(username) && |password| >= MinPasswordLength && (role.None? || ParseRole(role.value).Some?)
    ensures r.Success? ==>
      && r.value.username == username.value
      && r.value.password == hash(password)
      && r.value.role == (if role.Some? then ParseRole(role.value).value else Regular)
      && r.value.collections == collections
      && r.value.lastLogin == None
      && r.value.createdAt == now
  {
    if !Truthy(username) then Failure("Please provide a username")
    else if |password| < MinPasswordLength then Failure("password is shorter than the minimum allowed length (6)")
    else
      var parsed := if role.None? then Some(Regular) else ParseRole(role.value);
      if parsed.None? then Failure("role is not a valid enum value")
      else Success(PreSave(User(username.value, password, parsed.value, collections, None, now), true, hash))
  }

  /** The pre-save hook: the password is hashed only when it was modified. */
  function PreSave(u: User, passwordModified: bool, hash: string -> string): (r: User)
    ensures r.(password := u.password) == u
    ensures r.password == if passwordModified then hash(u.password) else u.password
  {
    if passwordModified then u.(password := hash(u.password)) else u
  }

  /** `matchPassword`: bcrypt's comparison of the entered password with the
      stored hash; a comparison error (`compareFails`) counts as no match. */
  function MatchPassword(u: User, entered: string, compare: (string, string) -> bool, compareFails: bool): (ok: bool)
    ensures ok ==> compare(entered, u.password)
    ensures compare(entered, u.password) && !compareFails ==> ok
  {
    !compareFails && compare(entered, u.password)
  }

  /** The payload of `getSignedJwtToken`: the user's id, role and username. */
  datatype TokenPayload = TokenPayload(id: UserId, role: Role, username: string)

  function TokenPayloadOf(id: UserId, u: User): TokenPayload {
    TokenPayload(id, u.role, u.username)
  }
}
