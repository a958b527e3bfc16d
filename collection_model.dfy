/** The Collection schema of server/src/models/Collection.js: a named album of
    images with the users it is shared with, its validation (a required,
    trimmed name) and defaults, and how a request body creates or updates
    one. */
module CollectionModel {

  import opened Common
  import opened Text

  datatype Collection = Collection(
    name: string,
    description: string,
    images: seq<ImageId>,
    accessibleBy: seq<UserId>,
    createdBy: UserId,
    createdAt: int)

  /** The schema fields a request body may carry, `createdAt` included;
      absent fields are `None`. Fields outside the schema are dropped by
      Mongoose's strict mode and have no place here. */
  datatype CollectionBody = CollectionBody(
    name: Option<string>,
    description: Option<string>,
    images: Option<seq<ImageId>>,
    accessibleBy: Option<seq<UserId>>,
    createdBy: Option<UserId>,
    createdAt: Option<int>)

  /** The name setter `trim: true` followed by the `required` validator:
      a missing name, or one that trims to "", is rejected. */
  function ValidName(name: Option<string>): (r: Option<string>)
    ensures r.Some? <==> name.Some? && Trim(name.value) != ""
    ensures r.Some? ==> r.value == Trim(name.value) && exists i: nat :: TrimmedSlice(name.value, r.value, i)
  {
    if name.None? then None
    else
      TrimShape(name.value);
      var t := Trim(name.value);
      if t == "" then None else Some(t)
  }

  /** `Collection.create(body)`: name trimmed and required, `createdBy`
      required, description "" and both arrays empty by default, and the
      creation time `Date.now` unless the body gives one. */
  function Create(body: CollectionBody, now: int): (r: Option<Collection>)
    ensures r.Some? <==> ValidName(body.name).Some? && body.createdBy.Some?
    ensures r.Some? ==>
      && r.value.name == Trim(body.name.value)
      && r.value.description == body.description.GetOr("")
      && r.value.images == body.images.GetOr([])
      && r.value.accessibleBy == body.accessibleBy.GetOr([])
      && r.value.createdBy == body.createdBy.value
      && r.value.createdAt == body.createdAt.GetOr(now)
  {
    var name := ValidName(body.name);
    if name.None? || body.createdBy.None? then None
    else Some(Collection(name.value, body.description.GetOr(""), body.images.GetOr([]),
                         body.accessibleBy.GetOr([]), body.createdBy.value, body.createdAt.GetOr(now)))
  }

  /** `findByIdAndUpdate(id, body, {runValidators: true})`: every field the
      body carries is `$set` (the name through the trim setter and the
      required validator); the other fields keep their values. */
  function Update(c: Collection, body: CollectionBody): (r: Option<Collection>)
    ensures r.None? <==> body.name.Some? && Trim(body.name.value) == ""
    ensures r.Some? ==>
      && r.value.name == (if body.name.Some? then Trim(body.name.value) else c.name)
      && r.value.description == body.description.GetOr(c.description)
      && r.value.images == body.images.GetOr(c.images)
      && r.value.accessibleBy == body.accessibleBy.GetOr(c.accessibleBy)
      && r.value.createdBy == body.createdBy.GetOr(c.createdBy)
      && r.value.createdAt == body.createdAt.GetOr(c.createdAt)
  {
    var name := if body.name.None? then Some(c.name) else ValidName(body.name);
    if name.None? then None
    else Some(Collection(name.value, body.description.GetOr(c.description), body.images.GetOr(c.images),
                         body.accessibleBy.GetOr(c.accessibleBy), body.createdBy.GetOr(c.createdBy),
                         body.createdAt.GetOr(c.createdAt)))
  }

  /** An empty body changes nothing, and an update is idempotent. */
  lemma UpdateIdempotent(c: Collection, body: CollectionBody)
    requires Update(c, body).Some?
    ensures Update(c, CollectionBody(None, None, None, None, None, None)) == Some(c)
    ensures Update(Update(c, body).value, body) == Update(c, body)
  {
    if body.name.Some? {
      TrimIdempotent(body.name.value);
    }
  }
}
