/** The MongoDB database the handlers work on, as an in-memory store: one map
    per model from id to record and the analytics log in insertion order.
    Ids come from one counter, so a fresh id is new to every map. */
module Store {

  import opened Common
  import opened UserModel
  import opened ImageModel
  import opened CollectionModel
  import opened AnalyticsModel

  class Database {
    var users: map<UserId, User>
    var collections: map<CollectionId, Collection>
    var images: map<ImageId, Image>
    var events: seq<Event>
    var nextId: nat

    /** Every id in use is below the counter. */
    ghost predicate Valid()
      reads this
    {
      && (forall id :: id in users ==> id < nextId)
      && (forall id :: id in collections ==> id < nextId)
      && (forall id :: id in images ==> id < nextId)
    }

    constructor ()
      ensures Valid()
      ensures users == map[] && collections == map[] && images == map[] && events == []
    {
      users := map[];
      collections := map[];
      images := map[];
      events := [];
      nextId := 0;
    }

    /** A new ObjectId: used by no record of any kind. */
    method NewId() returns (id: nat)
      requires Valid()
      modifies this`nextId
      ensures Valid()
      ensures id !in users && id !in collections && id !in images
      ensures old(nextId) <= id < nextId
    {
      id := nextId;
      nextId := nextId + 1;
    }

    /** `Image.create`: store a record under a fresh id. */
    method InsertImage(record: Image) returns (id: ImageId)
      requires Valid()
      modifies this`images, this`nextId
      ensures Valid()
      ensures id !in old(images) && images == old(images)[id := record]
      ensures old(nextId) <= id < nextId
    {
      id := NewId();
      images := images[id := record];
    }

    /** `User.create`: store a record under a fresh id. */
    method InsertUser(record: User) returns (id: UserId)
      requires Valid()
      modifies this`users, this`nextId
      ensures Valid()
      ensures id !in old(users) && users == old(users)[id := record]
      ensures old(nextId) <= id < nextId
    {
      id := NewId();
      users := users[id := record];
    }

    /** `Collection.create`: store a record under a fresh id. */
    method InsertCollection(record: Collection) returns (id: CollectionId)
      requires Valid()
      modifies this`collections, this`nextId
      ensures Valid()
      ensures id !in old(collections) && collections == old(collections)[id := record]
      ensures old(nextId) <= id < nextId
    {
      id := NewId();
      collections := collections[id := record];
    }
  }

  /** The user a request acts for (`req.user`): its id and role. */
  datatype Actor = Actor(id: UserId, role: Role)

  /** Whether `User.findOne({username})` finds a user. Mongoose drops a filter
      key whose value is undefined, so an absent username matches any user. */
  predicate UsernameTaken(users: map<UserId, User>, username: Option<string>) {
    if username.None? then users != map[]
    else exists id | id in users :: users[id].username == username.value
  }

  /** The users `{_id: {$in: ids}}` selects: existing users only, and never
      more of them than ids were listed. */
  function UsersAmong(users: map<UserId, User>, ids: seq<UserId>): (s: set<UserId>)
    ensures s <= users.Keys
    ensures |s| <= |ids|
  {
    if ids == [] then {}
    else (if ids[0] in users then {ids[0]} else {}) + UsersAmong(users, ids[1..])
  }

  /** The selection holds exactly the listed ids that name a user. */
  lemma {:induction false} UsersAmongMembers(users: map<UserId, User>, ids: seq<UserId>)
    ensures forall id :: id in UsersAmong(users, ids) <==> id in users && id in ids
  {
    if ids != [] {
      UsersAmongMembers(users, ids[1..]);
      assert forall id :: id in ids <==> id == ids[0] || id in ids[1..];
    }
  }
}
