/** The collection handlers of server/src/controllers/collectionController.js:
    listing the collections an actor sees, reading one with its references
    populated, creating, updating and deleting one, and replacing the users
    it is shared with while keeping each user's own `collections` list in
    step. The acting user is a parameter. */
module CollectionController {

  import opened Common
  import opened Seqs
  import opened UserModel
  import opened ImageModel
  import opened CollectionModel
  import opened Store
  import opened AccessPolicy

  // ---------------------------------------------------------------------------
  // getCollections

  /** `getCollections`: an admin's query has no filter; anyone else's is
      `$or` of "listed in `accessibleBy`" and "is `createdBy`". */
  function GetCollections(db: Database, actor: Actor): (ids: set<CollectionId>)
    reads db
    ensures ids <= db.collections.Keys
    ensures IsAdmin(actor) ==> ids == db.collections.Keys
    ensures forall id :: id in db.collections ==> (id in ids <==> CanRead(actor, db.collections[id]))
  {
    if actor.role == Admin then db.collections.Keys
    else set id | id in db.collections &&
                  (actor.id in db.collections[id].accessibleBy || db.collections[id].createdBy == actor.id)
  }

  // ---------------------------------------------------------------------------
  // getCollection

  /** A user reference populated with `'username'`. */
  datatype UserRef = UserRef(id: UserId, username: string)

  /** `populate('accessibleBy', 'username')`: the users of `ids` that still
      exist, in the order listed and as often as listed, with their
      usernames. */
  function UserRefs(ids: seq<UserId>, users: map<UserId, User>): (r: seq<UserRef>)
    ensures |r| == |Present(ids, users)|
    ensures forall k :: 0 <= k < |r| ==> r[k].id == Present(ids, users)[k]
    ensures forall k :: 0 <= k < |r| ==> r[k].id in users && r[k].id in ids && r[k].username == users[r[k].id].username
    ensures forall id :: id in ids && id in users ==> UserRef(id, users[id].username) in r
  {
    var present := Present(ids, users);
    var r := seq(|present|, k requires 0 <= k < |present| => UserRef(present[k], users[present[k]].username));
    UserRefsFacts(ids, users, present, r);
    r
  }

  lemma UserRefsFacts(ids: seq<UserId>, users: map<UserId, User>, present: seq<UserId>, r: seq<UserRef>)
    requires forall i :: 0 <= i < |present| ==> present[i] in users && present[i] in ids
    requires forall i :: 0 <= i < |ids| && ids[i] in users ==> ids[i] in present
    requires |r| == |present|
    requires forall k :: 0 <= k < |r| ==> r[k] == UserRef(present[k], users[present[k]].username)
    ensures forall k :: 0 <= k < |r| ==> r[k].id in users && r[k].id in ids && r[k].username == users[r[k].id].username
    ensures forall id :: id in ids && id in users ==> UserRef(id, users[id].username) in r
  {
    forall id | id in ids && id in users
      ensures UserRef(id, users[id].username) in r
    {
      var j :| 0 <= j < |ids| && ids[j] == id;
      var k :| 0 <= k < |present| && present[k] == id;
      assert r[k] == UserRef(id, users[id].username);
    }
  }

  /** `populate('images')` without options: the referenced images that
      still exist, in reference order and as often as referenced. */
  function ImagesOf(refs: seq<ImageId>, imgs: map<ImageId, Image>): (r: seq<Image>)
    ensures |r| == |Present(refs, imgs)|
    ensures forall k :: 0 <= k < |r| ==> Present(refs, imgs)[k] in imgs && r[k] == imgs[Present(refs, imgs)[k]]
    ensures forall id :: id in refs && id in imgs ==> imgs[id] in r
  {
    var present := Present(refs, imgs);
    var r := seq(|present|, k requires 0 <= k < |present| => imgs[present[k]]);
    ImagesOfFacts(refs, imgs, present, r);
    r
  }

  lemma ImagesOfFacts(refs: seq<ImageId>, imgs: map<ImageId, Image>, present: seq<ImageId>, r: seq<Image>)
    requires forall i :: 0 <= i < |present| ==> present[i] in imgs
    requires forall i :: 0 <= i < |refs| && refs[i] in imgs ==> refs[i] in present
    requires |r| == |present|
    requires forall k :: 0 <= k < |r| ==> r[k] == imgs[present[k]]
    ensures forall id :: id in refs && id in imgs ==> imgs[id] in r
  {
    forall id | id in refs && id in imgs
      ensures imgs[id] in r
    {
      var j :| 0 <= j < |refs| && refs[j] == id;
      var k :| 0 <= k < |present| && present[k] == id;
      assert r[k] == imgs[id];
    }
  }

  /** A reference listed twice populates twice. */
  lemma RepeatedReferencesKept(id: UserId, users: map<UserId, User>, img: ImageId, imgs: map<ImageId, Image>)
    requires id in users && img in imgs
    ensures UserRefs([id, id], users) == [UserRef(id, users[id].username), UserRef(id, users[id].username)]
    ensures ImagesOf([img, img], imgs) == [imgs[img], imgs[img]]
  {
  }

  /** What `getCollection` answers with: the collection with its images,
      members and creator populated. A creator that no longer exists
      populates as null. */
  datatype CollectionView = CollectionView(
    collection: Collection,
    images: seq<Image>,
    members: seq<UserRef>,
    creator: Option<UserRef>)

  function ViewOf(db: Database, c: Collection): CollectionView
    reads db
  {
    CollectionView(c, ImagesOf(c.images, db.images), UserRefs(c.accessibleBy, db.users),
                   if c.createdBy in db.users then Some(UserRef(c.createdBy, db.users[c.createdBy].username)) else None)
  }

  /** `getCollection`: 404 for a missing collection. The read test runs on
      the populated document: membership is decided on the members that
      still exist, and for a non-admin who is not such a member a deleted
      creator makes `createdBy._id` a null dereference, so 500. */
  function GetCollection(db: Database, actor: Actor, id: CollectionId): (r: (Status, Option<CollectionView>))
    reads db
    ensures r.0 in {Ok, NotFound, Forbidden, ServerError}
    ensures r.0 == NotFound <==> id !in db.collections
    ensures r.1.Some? <==> r.0 == Ok
    ensures r.0 == Ok ==> r.1.value == ViewOf(db, db.collections[id])
    ensures id in db.collections ==>
      var c := db.collections[id];
      && (r.0 == Ok <==> IsAdmin(actor) || (actor.id in c.accessibleBy && actor.id in db.users) || (c.createdBy == actor.id && c.createdBy in db.users))
      && (r.0 == ServerError <==> !IsAdmin(actor) && !(actor.id in c.accessibleBy && actor.id in db.users) && c.createdBy !in db.users)
  {
    if id !in db.collections then (NotFound, None)
    else
      var c := db.collections[id];
      var view := ViewOf(db, c);
      if actor.role == Admin then (Ok, Some(view))
      else if exists k :: 0 <= k < |view.members| && view.members[k].id == actor.id then (Ok, Some(view))
      else if view.creator.None? then (ServerError, None)
      else if view.creator.value.id != actor.id then (Forbidden, None)
      else (Ok, Some(view))
  }

  /** For an actor whose account exists, `getCollection` admits exactly the
      actors `CanRead` admits, so exactly on the collections
      `getCollections` lists; refusing is 403, or 500 when the creator is
      gone. */
  lemma GetCollectionAgreesWithListing(db: Database, actor: Actor, id: CollectionId)
    requires actor.id in db.users && id in db.collections
    ensures GetCollection(db, actor, id).0 == Ok <==> id in GetCollections(db, actor)
    ensures GetCollection(db, actor, id).0 == Ok <==> CanRead(actor, db.collections[id])
    ensures !CanRead(actor, db.collections[id]) ==>
      GetCollection(db, actor, id).0 == (if db.collections[id].createdBy in db.users then Forbidden else ServerError)
  {
  }

  // ---------------------------------------------------------------------------
  // createCollection

  /** `createCollection`: `createdBy` is overwritten with the actor before
      `Collection.create`; an invalid body is a 500. The references the
      body carries are stored as given: no user's `collections` list is
      updated. */
  method CreateCollection(db: Database, actor: Actor, body: CollectionBody, now: int)
    returns (status: Status, created: Option<CollectionId>)
    requires db.Valid()
    modifies db`collections, db`nextId
    ensures db.Valid()
    ensures status in {Created, ServerError}
    ensures status == Created <==> CollectionModel.Create(body.(createdBy := Some(actor.id)), now).Some?
    ensures status == ServerError ==> created.None? && db.collections == old(db.collections)
    ensures status == Created ==>
      && created.Some? && created.value !in old(db.collections)
      && db.collections == old(db.collections)[created.value := CollectionModel.Create(body.(createdBy := Some(actor.id)), now).value]
      && db.collections[created.value].createdBy == actor.id
  {
    var record := CollectionModel.Create(body.(createdBy := Some(actor.id)), now);
    if record.None? {
      return ServerError, None;
    }
    var id := db.InsertCollection(record.value);
    status, created := Created, Some(id);
  }

  /** Whatever creator the body names, the stored collection is the actor's,
      and the actor may then modify it. */
  lemma CreatedCollectionIsActors(actor: Actor, body: CollectionBody, now: int)
    requires ValidName(body.name).Some?
    ensures var r := CollectionModel.Create(body.(createdBy := Some(actor.id)), now);
      r.Some? && r.value.createdBy == actor.id && CanModify(actor, r.value)
  {
  }

  // ---------------------------------------------------------------------------
  // updateCollection

  /** `updateCollection`: 404, then 403 unless the actor may modify, then
      `findByIdAndUpdate` with validation: a name that trims to "" is a 500
      and nothing is written. */
  method UpdateCollection(db: Database, actor: Actor, id: CollectionId, body: CollectionBody)
    returns (status: Status, updated: Option<Collection>)
    requires db.Valid()
    modifies db`collections
    ensures db.Valid()
    ensures status in {Ok, NotFound, Forbidden, ServerError}
    ensures status == NotFound <==> id !in old(db.collections)
    ensures status == Forbidden <==> id in old(db.collections) && !CanModify(actor, old(db.collections[id]))
    ensures status == ServerError <==>
      id in old(db.collections) && CanModify(actor, old(db.collections[id])) && CollectionModel.Update(old(db.collections[id]), body).None?
    ensures status != Ok ==> updated.None? && db.collections == old(db.collections)
    ensures status == Ok ==>
      && updated == CollectionModel.Update(old(db.collections[id]), body) && updated.Some?
      && db.collections == old(db.collections)[id := updated.value]
  {
    if id !in db.collections {
      return NotFound, None;
    }
    var c := db.collections[id];
    if !CanModify(actor, c) {
      return Forbidden, None;
    }
    updated := CollectionModel.Update(c, body);
    if updated.None? {
      return ServerError, None;
    }
    db.collections := db.collections[id := updated.value];
    status := Ok;
  }

  // ---------------------------------------------------------------------------
  // deleteCollection

  /** `deleteCollection`: 404, then 403 unless the actor may modify, then the
      collection record alone is removed: its images and every user's
      `collections` list keep their references. */
  method DeleteCollection(db: Database, actor: Actor, id: CollectionId) returns (status: Status)
    requires db.Valid()
    modifies db`collections
    ensures db.Valid()
    ensures status in {Ok, NotFound, Forbidden}
    ensures status == NotFound <==> id !in old(db.collections)
    ensures status == Forbidden <==> id in old(db.collections) && !CanModify(actor, old(db.collections[id]))
    ensures status == Ok ==> db.collections == old(db.collections) - {id}
    ensures status != Ok ==> db.collections == old(db.collections)
  {
    if id !in db.collections {
      return NotFound;
    }
    if !CanModify(actor, db.collections[id]) {
      return Forbidden;
    }
    db.collections := db.collections - {id};
    status := Ok;
  }

  // ---------------------------------------------------------------------------
  // updateCollectionAccess

  /** The first `updateMany`: every listed user that exists gets the
      collection by `$addToSet`. */
  function GrantPass(users: map<UserId, User>, c: CollectionId, ids: seq<UserId>): (r: map<UserId, User>)
    ensures r.Keys == users.Keys
    ensures forall u :: u in r ==> r[u] == users[u].(collections := r[u].collections)
    ensures forall u :: u in r && u in ids ==>
      && users[u].collections <= r[u].collections && c in r[u].collections
      && multiset(r[u].collections) == multiset(users[u].collections)[c := if c in users[u].collections then multiset(users[u].collections)[c] else 1]
    ensures forall u :: u in r && u !in ids ==> r[u] == users[u]
  {
    map u | u in users :: if u in ids then users[u].(collections := AddToSet(users[u].collections, c)) else users[u]
  }

  /** The second `updateMany`: every unlisted user that holds the collection
      loses every occurrence of it by `$pull`. */
  function RevokePass(users: map<UserId, User>, c: CollectionId, ids: seq<UserId>): (r: map<UserId, User>)
    ensures r.Keys == users.Keys
    ensures forall u :: u in r ==> r[u] == users[u].(collections := r[u].collections)
    ensures forall u :: u in r && u !in ids ==>
      c !in r[u].collections && multiset(r[u].collections) == multiset(users[u].collections)[c := 0]
    ensures forall u :: u in r && u in ids ==> r[u] == users[u]
  {
    map u | u in users :: if u !in ids && c in users[u].collections then users[u].(collections := Pull(users[u].collections, c)) else users[u]
  }

  /** The two passes together: afterwards a user lists the collection iff
      the user is listed in `ids`; a listed user holds it as often as
      before, or once if it was absent; and no other entry of any user's
      `collections` changes. */
  lemma AccessSynced(users: map<UserId, User>, c: CollectionId, ids: seq<UserId>)
    ensures var r := RevokePass(GrantPass(users, c, ids), c, ids);
      && r.Keys == users.Keys
      && (forall u :: u in r ==> r[u] == users[u].(collections := r[u].collections))
      && (forall u :: u in r ==> (c in r[u].collections <==> u in ids))
      && (forall u :: u in r && u in ids ==>
            multiset(r[u].collections)[c] == if c in users[u].collections then multiset(users[u].collections)[c] else 1)
      && (forall u, d :: u in r && d != c ==> multiset(r[u].collections)[d] == multiset(users[u].collections)[d])
  {
    var g := GrantPass(users, c, ids);
    var r := RevokePass(g, c, ids);
    forall u, d | u in r && d != c
      ensures multiset(r[u].collections)[d] == multiset(users[u].collections)[d]
    {
      if u in ids {
        assert r[u] == g[u];
      } else {
        assert g[u] == users[u];
      }
    }
  }

  /** `updateCollectionAccess`: 400 unless `userIds` is an array, before any
      lookup; then 404, then 403 unless the actor may modify; then
      `accessibleBy` becomes `userIds` exactly as given and the two user
      passes run. */
  method UpdateCollectionAccess(db: Database, actor: Actor, id: CollectionId, userIds: Option<seq<UserId>>)
    returns (status: Status)
    requires db.Valid()
    modifies db`collections, db`users
    ensures db.Valid()
    ensures status in {Ok, BadRequest, NotFound, Forbidden}
    ensures status == BadRequest <==> userIds.None?
    ensures status == NotFound <==> userIds.Some? && id !in old(db.collections)
    ensures status == Forbidden <==>
      userIds.Some? && id in old(db.collections) && !CanModify(actor, old(db.collections[id]))
    ensures status != Ok ==> db.collections == old(db.collections) && db.users == old(db.users)
    ensures status == Ok ==>
      && db.collections == old(db.collections)[id := old(db.collections[id]).(accessibleBy := userIds.value)]
      && db.users == RevokePass(GrantPass(old(db.users), id, userIds.value), id, userIds.value)
  {
    if userIds.None? {
      return BadRequest;
    }
    if id !in db.collections {
      return NotFound;
    }
    var c := db.collections[id];
    if !CanModify(actor, c) {
      return Forbidden;
    }
    var users := RevokePass(GrantPass(db.users, id, userIds.value), id, userIds.value);
    assert users.Keys == db.users.Keys;
    db.collections := db.collections[id := c.(accessibleBy := userIds.value)];
    db.users := users;
    status := Ok;
  }
}
