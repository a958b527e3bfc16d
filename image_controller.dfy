/** The gallery handlers of server/src/controllers/imageController.js:
    single and batch upload into a collection, listing a collection's
    images, viewing, deleting and downloading one image. The acting user is
    a parameter; whether each storage or save call succeeds is a parameter
    too. The read and download handlers perform no access check, as in the
    source, so they take no actor at all. */
module ImageController {

  import opened Common
  import opened Text
  import opened Seqs
  import opened Storage
  import opened ImageModel
  import opened CollectionModel
  import opened Store
  import opened AccessPolicy

  /** The Image record `Image.create` makes for a stored file: `filename` is
      the basename of the key, name, size and type come from the file, and
      the record belongs to the collection and the uploader. */
  function RecordFor(up: Uploaded, file: StagedFile, collection: CollectionId, uploader: UserId, now: int): (r: Option<Image>)
    ensures r.Some? <==> Basename(up.key) != "" && file.originalname != "" && up.key != "" && file.mimetype != ""
    ensures r.Some? ==>
      && r.value.filename == Basename(up.key) && r.value.key == up.key && r.value.path == up.url
      && r.value.originalName == file.originalname && r.value.size == file.size && r.value.mimetype == file.mimetype
      && r.value.collection == collection && r.value.uploadedBy == uploader
      && r.value.uploadedAt == now && r.value.views == 0 && r.value.downloads == 0
  {
    ImageModel.Create(Basename(up.key), file.originalname, up.url, up.key, file.size, file.mimetype, collection, uploader, now)
  }

  /** For a file multer staged, the record's `filename` is the generated
      staged name in both storage modes, and the record can only fail on an
      empty original name or mimetype. */
  lemma StagedRecordFilename(configured: bool, file: StagedFile, collection: CollectionId, uploader: UserId, now: int)
    requires '/' !in file.filename && file.filename != ""
    ensures var up := StoredAs(configured, file, collection);
      && Basename(up.key) == file.filename
      && (RecordFor(up, file, collection, uploader, now).Some? <==> file.originalname != "" && file.mimetype != "")
  {
    BasenameOfChild(UploadDir, file.filename);
  }

  // ---------------------------------------------------------------------------
  // uploadImage

  /** `uploadImage`: 404 for a missing collection, 403 unless the actor may
      modify it, 400 without a file, 500 when storage fails or the record is
      invalid, else 201 with one new Image whose id is appended to the
      collection's `images`. A record that fails validation after a
      successful put leaves the object in the bucket. */
  method UploadImage(db: Database, backend: Backend, actor: Actor, collectionId: CollectionId,
                     file: Option<StagedFile>, remoteOk: bool, now: int)
    returns (status: Status, created: Option<ImageId>)
    requires db.Valid()
    modifies db, backend
    ensures db.Valid()
    ensures db.users == old(db.users) && db.events == old(db.events)
    ensures status == NotFound <==> collectionId !in old(db.collections)
    ensures status == Forbidden <==>
      collectionId in old(db.collections) && !CanModify(actor, old(db.collections[collectionId]))
    ensures status == BadRequest <==>
      collectionId in old(db.collections) && CanModify(actor, old(db.collections[collectionId])) && file.None?
    ensures status in {NotFound, Forbidden, BadRequest} ==> backend.State() == old(backend.State())
    ensures status == Created <==>
      && collectionId in old(db.collections) && CanModify(actor, old(db.collections[collectionId])) && file.Some?
      && var step := UploadStep(backend.configured, old(backend.State()), file.value, collectionId, remoteOk);
         step.0.Success? && RecordFor(step.0.value, file.value, collectionId, actor.id, now).Some?
    ensures status in {Created, NotFound, Forbidden, BadRequest, ServerError}
    ensures status != Created ==>
      created.None? && db.images == old(db.images) && db.collections == old(db.collections)
    ensures status in {Created, ServerError} ==>
      backend.State() == UploadStep(backend.configured, old(backend.State()), file.value, collectionId, remoteOk).1
    ensures status == Created ==>
      var up := UploadStep(backend.configured, old(backend.State()), file.value, collectionId, remoteOk).0.value;
      var c := old(db.collections[collectionId]);
      && created.Some? && created.value !in old(db.images)
      && db.images == old(db.images)[created.value := RecordFor(up, file.value, collectionId, actor.id, now).value]
      && db.collections == old(db.collections)[collectionId := c.(images := c.images + [created.value])]
  {
    created := None;
    if collectionId !in db.collections {
      return NotFound, None;
    }
    var c := db.collections[collectionId];
    if !CanModify(actor, c) {
      return Forbidden, None;
    }
    if file.None? {
      return BadRequest, None;
    }
    var result := backend.UploadToB2(file.value, collectionId, remoteOk);
    if result.Failure? {
      return ServerError, None;
    }
    var record := RecordFor(result.value, file.value, collectionId, actor.id, now);
    if record.None? {
      return ServerError, None;
    }
    var id := db.InsertImage(record.value);
    db.collections := db.collections[collectionId := c.(images := c.images + [id])];
    status, created := Created, Some(id);
  }

  // ---------------------------------------------------------------------------
  // uploadMultipleImages

  /** The records a batch creates, in input order, and the store it leaves:
      each file is stored in turn, and one whose storage call or record
      fails is skipped. */
  function BatchPlan(configured: bool, s: StoreState, files: seq<StagedFile>, oks: seq<bool>,
                     collection: CollectionId, uploader: UserId, now: int): (plan: (seq<Image>, StoreState))
    requires |oks| == |files|
    ensures |plan.0| <= |files|
    ensures forall k :: 0 <= k < |plan.0| ==>
      && plan.0[k].collection == collection && plan.0[k].uploadedBy == uploader
      && plan.0[k].uploadedAt == now && plan.0[k].views == 0 && plan.0[k].downloads == 0
    decreases |files|
  {
    if files == [] then ([], s)
    else
      var step := UploadStep(configured, s, files[0], collection, oks[0]);
      var rest := BatchPlan(configured, step.1, files[1..], oks[1..], collection, uploader, now);
      if step.0.Success? && RecordFor(step.0.value, files[0], collection, uploader, now).Some? then
        ([RecordFor(step.0.value, files[0], collection, uploader, now).value] + rest.0, rest.1)
      else rest
  }

  /** One step of the plan: the file at `i` is stored, then the rest follow. */
  lemma PlanUnfold(configured: bool, s: StoreState, fs: seq<StagedFile>, oks: seq<bool>, i: nat,
                   collection: CollectionId, uploader: UserId, now: int)
    requires |oks| == |fs| && i < |fs|
    ensures var step := UploadStep(configured, s, fs[i], collection, oks[i]);
      var rest := BatchPlan(configured, step.1, fs[i + 1..], oks[i + 1..], collection, uploader, now);
      BatchPlan(configured, s, fs[i..], oks[i..], collection, uploader, now)
        == if step.0.Success? && RecordFor(step.0.value, fs[i], collection, uploader, now).Some?
           then ([RecordFor(step.0.value, fs[i], collection, uploader, now).value] + rest.0, rest.1)
           else rest
  {
    assert fs[i..][0] == fs[i] && fs[i..][1..] == fs[i + 1..];
    assert oks[i..][0] == oks[i] && oks[i..][1..] == oks[i + 1..];
  }

  /** Without credentials every staged file with a name and a type becomes a
      record, in order, and the store is untouched. */
  lemma {:induction false} BatchFallbackKeepsEveryFile(s: StoreState, files: seq<StagedFile>, oks: seq<bool>,
                                                      collection: CollectionId, uploader: UserId, now: int)
    requires |oks| == |files|
    requires forall i :: 0 <= i < |files| ==>
      '/' !in files[i].filename && files[i].filename != "" && files[i].originalname != "" && files[i].mimetype != ""
    ensures var plan := BatchPlan(false, s, files, oks, collection, uploader, now);
      && |plan.0| == |files| && plan.1 == s
      && forall k :: 0 <= k < |files| ==> plan.0[k].originalName == files[k].originalname && plan.0[k].filename == files[k].filename
    decreases |files|
  {
    if files != [] {
      StagedRecordFilename(false, files[0], collection, uploader, now);
      assert forall i :: 1 <= i < |files| ==> files[i] == files[1..][i - 1];
      BatchFallbackKeepsEveryFile(s, files[1..], oks[1..], collection, uploader, now);
    }
  }

  /** With credentials and every put failing, the batch creates nothing and
      leaves the store as it was. */
  lemma {:induction false} BatchAllPutsFail(s: StoreState, files: seq<StagedFile>, oks: seq<bool>,
                                           collection: CollectionId, uploader: UserId, now: int)
    requires |oks| == |files|
    requires forall i :: 0 <= i < |oks| ==> !oks[i]
    ensures BatchPlan(true, s, files, oks, collection, uploader, now) == ([], s)
    decreases |files|
  {
    if files != [] {
      assert !oks[0];
      assert forall i :: 1 <= i < |oks| ==> oks[i] == oks[1..][i - 1];
      BatchAllPutsFail(s, files[1..], oks[1..], collection, uploader, now);
    }
  }

  /** `images` is `images0` plus the distinct new ids `ids`, holding `records`
      in the same order; the records already there are untouched. */
  ghost predicate Extends(images0: map<ImageId, Image>, images: map<ImageId, Image>, ids: seq<ImageId>, records: seq<Image>) {
    && |ids| == |records|
    && (forall k :: 0 <= k < |ids| ==> ids[k] !in images0 && ids[k] in images && images[ids[k]] == records[k])
    && (forall i, j :: 0 <= i < j < |ids| ==> ids[i] != ids[j])
    && (forall id :: id in images <==> id in images0 || id in ids)
    && (forall id :: id in images0 ==> images[id] == images0[id])
  }

  /** Adding one more fresh id keeps the extension relation. */
  lemma ExtendsAppend(images0: map<ImageId, Image>, images: map<ImageId, Image>, ids: seq<ImageId>, records: seq<Image>,
                      id: ImageId, record: Image)
    requires Extends(images0, images, ids, records)
    requires id !in images
    ensures Extends(images0, images[id := record], ids + [id], records + [record])
  {
  }

  /** One file's outcome keeps the extension relation: a new record joins it
      under a fresh id, or nothing changes. */
  lemma ExtendsStep(images0: map<ImageId, Image>, before: map<ImageId, Image>, after: map<ImageId, Image>,
                    ids: seq<ImageId>, records: seq<Image>, id: Option<ImageId>, added: Option<Image>)
    requires Extends(images0, before, ids, records)
    requires id.Some? == added.Some?
    requires added.Some? ==> id.value !in before && after == before[id.value := added.value]
    requires added.None? ==> after == before
    ensures id.Some? ==> Extends(images0, after, ids + [id.value], records + [added.value])
    ensures id.None? ==> Extends(images0, after, ids, records)
  {
    if id.Some? {
      ExtendsAppend(images0, before, ids, records, id.value, added.value);
    }
  }

  /** The record one file of a batch adds, if its storage call and its
      record both succeed. */
  function StepRecord(configured: bool, s: StoreState, file: StagedFile, collection: CollectionId, ok: bool,
                      uploader: UserId, now: int): Option<Image>
  {
    var step := UploadStep(configured, s, file, collection, ok);
    if step.0.Success? then RecordFor(step.0.value, file, collection, uploader, now) else None
  }

  /** The plan advances by one file: its record, if any, joins those made. */
  lemma PlanAdvance(configured: bool, before: StoreState, fs: seq<StagedFile>, oks: seq<bool>, i: nat,
                    collection: CollectionId, uploader: UserId, now: int,
                    made: seq<Image>, total: (seq<Image>, StoreState))
    requires |oks| == |fs| && i < |fs|
    requires total.0 == made + BatchPlan(configured, before, fs[i..], oks[i..], collection, uploader, now).0
    requires total.1 == BatchPlan(configured, before, fs[i..], oks[i..], collection, uploader, now).1
    ensures var after := UploadStep(configured, before, fs[i], collection, oks[i]).1;
      var added := StepRecord(configured, before, fs[i], collection, oks[i], uploader, now);
      var made' := if added.Some? then made + [added.value] else made;
      && total.0 == made' + BatchPlan(configured, after, fs[i + 1..], oks[i + 1..], collection, uploader, now).0
      && total.1 == BatchPlan(configured, after, fs[i + 1..], oks[i + 1..], collection, uploader, now).1
  {
    PlanUnfold(configured, before, fs, oks, i, collection, uploader, now);
    var after := UploadStep(configured, before, fs[i], collection, oks[i]).1;
    var rest := BatchPlan(configured, after, fs[i + 1..], oks[i + 1..], collection, uploader, now);
    var added := StepRecord(configured, before, fs[i], collection, oks[i], uploader, now);
    if added.Some? {
      assert (made + [added.value]) + rest.0 == made + ([added.value] + rest.0);
    }
  }

  /** `PlanAdvance` restated for the loop that takes the step. */
  lemma PlanStep(configured: bool, before: StoreState, after: StoreState, fs: seq<StagedFile>, oks: seq<bool>, i: nat,
                 collection: CollectionId, uploader: UserId, now: int,
                 made: seq<Image>, made': seq<Image>, added: Option<Image>, total: (seq<Image>, StoreState))
    requires |oks| == |fs| && i < |fs|
    requires total.0 == made + BatchPlan(configured, before, fs[i..], oks[i..], collection, uploader, now).0
    requires total.1 == BatchPlan(configured, before, fs[i..], oks[i..], collection, uploader, now).1
    requires after == UploadStep(configured, before, fs[i], collection, oks[i]).1
    requires added == StepRecord(configured, before, fs[i], collection, oks[i], uploader, now)
    requires added.Some? ==> made' == made + [added.value]
    requires added.None? ==> made' == made
    ensures total.0 == made' + BatchPlan(configured, after, fs[i + 1..], oks[i + 1..], collection, uploader, now).0
    ensures total.1 == BatchPlan(configured, after, fs[i + 1..], oks[i + 1..], collection, uploader, now).1
  {
    PlanAdvance(configured, before, fs, oks, i, collection, uploader, now, made, total);
  }

  /** One file of the batch: store it, then create its record when both succeed. */
  method StoreOne(db: Database, backend: Backend, collectionId: CollectionId, file: StagedFile, ok: bool,
                  uploader: UserId, now: int)
    returns (id: Option<ImageId>)
    requires db.Valid()
    modifies db`images, db`nextId, backend`remote, backend`staged
    ensures db.Valid()
    ensures backend.State() == UploadStep(backend.configured, old(backend.State()), file, collectionId, ok).1
    ensures var added := StepRecord(backend.configured, old(backend.State()), file, collectionId, ok, uploader, now);
      && id.Some? == added.Some?
      && (added.Some? ==> id.value !in old(db.images) && db.images == old(db.images)[id.value := added.value])
      && (added.None? ==> db.images == old(db.images))
  {
    var result := backend.UploadToB2(file, collectionId, ok);
    if result.Failure? {
      return None;
    }
    var record := RecordFor(result.value, file, collectionId, uploader, now);
    if record.None? {
      return None;
    }
    var newId := db.InsertImage(record.value);
    id := Some(newId);
  }

  /** The loop of `uploadMultipleImages`: each file is stored and, when that
      and its record succeed, the record is created; failures are skipped. */
  method StoreEach(db: Database, backend: Backend, collectionId: CollectionId, fs: seq<StagedFile>, oks: seq<bool>,
                   uploader: UserId, now: int)
    returns (uploaded: seq<ImageId>)
    requires db.Valid()
    requires |oks| == |fs|
    modifies db`images, db`nextId, backend`remote, backend`staged
    ensures db.Valid()
    ensures var plan := BatchPlan(backend.configured, old(backend.State()), fs, oks, collectionId, uploader, now);
      Extends(old(db.images), db.images, uploaded, plan.0) && backend.State() == plan.1
  {
    uploaded := [];
    ghost var s0 := backend.State();
    ghost var made: seq<Image> := [];
    ghost var images0 := db.images;
    ghost var total := BatchPlan(backend.configured, s0, fs, oks, collectionId, uploader, now);
    var i := 0;
    assert fs[0..] == fs && oks[0..] == oks;
    assert made + total.0 == total.0;
    while i < |fs|
      invariant 0 <= i <= |fs|
      invariant db.Valid()
      invariant Extends(images0, db.images, uploaded, made)
      invariant total.0 == made + BatchPlan(backend.configured, backend.State(), fs[i..], oks[i..], collectionId, uploader, now).0
      invariant total.1 == BatchPlan(backend.configured, backend.State(), fs[i..], oks[i..], collectionId, uploader, now).1
    {
      uploaded, made := StoreNext(db, backend, collectionId, fs, oks, i, uploader, now, images0, uploaded, made, total);
      i := i + 1;
    }
    assert fs[|fs|..] == [] && oks[|fs|..] == [];
    assert made == total.0 && backend.State() == total.1;
  }

  /** One turn of the loop of `StoreEach`: the file at `i` is stored, and
      what has been created and what the plan has left move on by one. */
  method StoreNext(db: Database, backend: Backend, collectionId: CollectionId, fs: seq<StagedFile>, oks: seq<bool>, i: nat,
                   uploader: UserId, now: int, ghost images0: map<ImageId, Image>, uploaded: seq<ImageId>,
                   ghost made: seq<Image>, ghost total: (seq<Image>, StoreState))
    returns (uploaded': seq<ImageId>, ghost made': seq<Image>)
    requires db.Valid()
    requires |oks| == |fs| && i < |fs|
    requires Extends(images0, db.images, uploaded, made)
    requires total.0 == made + BatchPlan(backend.configured, backend.State(), fs[i..], oks[i..], collectionId, uploader, now).0
    requires total.1 == BatchPlan(backend.configured, backend.State(), fs[i..], oks[i..], collectionId, uploader, now).1
    modifies db`images, db`nextId, backend`remote, backend`staged
    ensures db.Valid()
    ensures Extends(images0, db.images, uploaded', made')
    ensures total.0 == made' + BatchPlan(backend.configured, backend.State(), fs[i + 1..], oks[i + 1..], collectionId, uploader, now).0
    ensures total.1 == BatchPlan(backend.configured, backend.State(), fs[i + 1..], oks[i + 1..], collectionId, uploader, now).1
  {
    ghost var before := backend.State();
    ghost var imagesBefore := db.images;
    ghost var added := StepRecord(backend.configured, before, fs[i], collectionId, oks[i], uploader, now);
    var id := StoreOne(db, backend, collectionId, fs[i], oks[i], uploader, now);
    ExtendsStep(images0, imagesBefore, db.images, uploaded, made, id, added);
    uploaded', made' := uploaded, made;
    if id.Some? {
      uploaded' := uploaded + [id.value];
      made' := made + [added.value];
    }
    PlanStep(backend.configured, before, backend.State(), fs, oks, i, collectionId, uploader, now, made, made', added, total);
  }

  /** `uploadMultipleImages`: 404, 403 and 400 (no or no files) as for a
      single upload; otherwise 201, even when no file succeeded, with the
      ids of exactly the records `BatchPlan` creates, appended to the
      collection's `images` in input order by one save at the end. */
  method UploadMultipleImages(db: Database, backend: Backend, actor: Actor, collectionId: CollectionId,
                              files: Option<seq<StagedFile>>, oks: seq<bool>, now: int)
    returns (status: Status, uploaded: seq<ImageId>)
    requires db.Valid()
    requires files.Some? ==> |oks| == |files.value|
    modifies db, backend
    ensures db.Valid()
    ensures db.users == old(db.users) && db.events == old(db.events)
    ensures status == NotFound <==> collectionId !in old(db.collections)
    ensures status == Forbidden <==>
      collectionId in old(db.collections) && !CanModify(actor, old(db.collections[collectionId]))
    ensures status == BadRequest <==>
      && collectionId in old(db.collections) && CanModify(actor, old(db.collections[collectionId]))
      && (files.None? || files.value == [])
    ensures status in {Created, NotFound, Forbidden, BadRequest}
    ensures status != Created ==>
      && uploaded == [] && db.images == old(db.images) && db.collections == old(db.collections)
      && backend.State() == old(backend.State())
    ensures status == Created ==>
      var plan := BatchPlan(backend.configured, old(backend.State()), files.value, oks, collectionId, actor.id, now);
      var c := old(db.collections[collectionId]);
      && Extends(old(db.images), db.images, uploaded, plan.0)
      && db.collections == old(db.collections)[collectionId := c.(images := c.images + uploaded)]
      && backend.State() == plan.1
  {
    uploaded := [];
    if collectionId !in db.collections {
      return NotFound, [];
    }
    var c := db.collections[collectionId];
    if !CanModify(actor, c) {
      return Forbidden, [];
    }
    if files.None? || files.value == [] {
      return BadRequest, [];
    }
    uploaded := StoreEach(db, backend, collectionId, files.value, oks, actor.id, now);
    db.collections := db.collections[collectionId := c.(images := c.images + uploaded)];
    status := Created;
  }

  // ---------------------------------------------------------------------------
  // getImagesInCollection

  function UploadedAt(img: Image): int {
    img.uploadedAt
  }

  datatype Listing = Listing(status: Status, count: nat, images: seq<Image>)

  /** `x` is the record of one of the existing ids of `refs`. */
  ghost predicate Referenced(x: Image, refs: seq<ImageId>, imgs: map<ImageId, Image>) {
    exists id: ImageId :: id in refs && id in imgs && imgs[id] == x
  }

  /** `populate('images')`: each referenced image that still exists, once. */
  function Populate(refs: seq<ImageId>, imgs: map<ImageId, Image>): (found: seq<Image>)
    ensures |found| == |Distinct(Present(refs, imgs))|
    ensures forall k :: 0 <= k < |found| ==> Referenced(found[k], refs, imgs)
    ensures forall id: ImageId :: id in refs && id in imgs ==> imgs[id] in found
  {
    var ids := Distinct(Present(refs, imgs));
    assert forall k :: 0 <= k < |ids| ==> ids[k] in imgs;
    var found := seq(|ids|, k requires 0 <= k < |ids| => imgs[ids[k]]);
    PopulateFacts(refs, imgs, ids, found);
    found
  }

  lemma PopulateFacts(refs: seq<ImageId>, imgs: map<ImageId, Image>, ids: seq<ImageId>, found: seq<Image>)
    requires ids == Distinct(Present(refs, imgs))
    requires |found| == |ids| && forall k :: 0 <= k < |ids| ==> ids[k] in imgs && found[k] == imgs[ids[k]]
    ensures forall k :: 0 <= k < |found| ==> Referenced(found[k], refs, imgs)
    ensures forall id: ImageId :: id in refs && id in imgs ==> imgs[id] in found
  {
    var present := Present(refs, imgs);
    forall k | 0 <= k < |found|
      ensures Referenced(found[k], refs, imgs)
    {
      assert ids[k] in present;
      assert ids[k] in refs;
    }
    forall id: ImageId | id in refs && id in imgs
      ensures imgs[id] in found
    {
      var j :| 0 <= j < |refs| && refs[j] == id;
      assert id in present;
      var p :| 0 <= p < |present| && present[p] == id;
      var k :| 0 <= k < |ids| && ids[k] == id;
      assert found[k] == imgs[id];
    }
  }

  /** The listed images of a collection: each existing referenced image
      once, newest upload first. */
  function ListImages(refs: seq<ImageId>, imgs: map<ImageId, Image>): (r: seq<Image>)
    ensures SortedDesc(r, UploadedAt)
    ensures |r| == |Distinct(Present(refs, imgs))|
    ensures forall k :: 0 <= k < |r| ==> Referenced(r[k], refs, imgs)
    ensures forall id: ImageId :: id in refs && id in imgs ==> imgs[id] in r
  {
    var found := Populate(refs, imgs);
    var r := SortDesc(found, UploadedAt);
    SortKeepsElements(found, UploadedAt);
    SameElementsListing(refs, imgs, found, r);
    r
  }

  /** A reordering of a populated list is populated from the same ids. */
  lemma SameElementsListing(refs: seq<ImageId>, imgs: map<ImageId, Image>, found: seq<Image>, r: seq<Image>)
    requires forall x :: x in r <==> x in found
    requires forall k :: 0 <= k < |found| ==> Referenced(found[k], refs, imgs)
    requires forall id: ImageId :: id in refs && id in imgs ==> imgs[id] in found
    ensures forall k :: 0 <= k < |r| ==> Referenced(r[k], refs, imgs)
    ensures forall id: ImageId :: id in refs && id in imgs ==> imgs[id] in r
  {
    forall k | 0 <= k < |r|
      ensures Referenced(r[k], refs, imgs)
    {
      assert r[k] in found;
      var j :| 0 <= j < |found| && found[j] == r[k];
      var id: ImageId :| id in refs && id in imgs && imgs[id] == found[j];
      assert imgs[id] == r[k];
    }
    forall id: ImageId | id in refs && id in imgs
      ensures imgs[id] in r
    {
      assert imgs[id] in found;
    }
  }

  /** `getImagesInCollection`: 404 for a missing collection; otherwise 200
      with `ListImages` of the collection and `count` the length of that
      list. No actor is consulted. */
  function GetImagesInCollection(db: Database, collectionId: CollectionId): (r: Listing)
    reads db
    ensures r.status == NotFound <==> collectionId !in db.collections
    ensures r.status in {Ok, NotFound}
    ensures r.count == |r.images|
    ensures collectionId !in db.collections ==> r.images == []
    ensures collectionId in db.collections ==> r.images == ListImages(db.collections[collectionId].images, db.images)
  {
    if collectionId !in db.collections then Listing(NotFound, 0, [])
    else
      var found := ListImages(db.collections[collectionId].images, db.images);
      Listing(Ok, |found|, found)
  }

  // ---------------------------------------------------------------------------
  // getImage

  /** What `getImage` returns: the image with its collection and the
      uploader's username populated (null when they no longer exist). */
  datatype ImageView = ImageView(image: Image, collection: Option<Collection>, uploader: Option<string>)

  /** `getImage`: 404 for a missing image; otherwise 200 with the image
      showing one more view. The raised counter is stored only when the save
      succeeds (`saveOk`); a failed save does not change the answer. */
  method GetImage(db: Database, imageId: ImageId, saveOk: bool) returns (status: Status, view: Option<ImageView>)
    requires db.Valid()
    modifies db
    ensures db.Valid()
    ensures db.users == old(db.users) && db.collections == old(db.collections) && db.events == old(db.events)
    ensures db.nextId == old(db.nextId)
    ensures imageId !in old(db.images) ==> status == NotFound && view.None? && db.images == old(db.images)
    ensures imageId in old(db.images) ==>
      var img := old(db.images[imageId]);
      var bumped := img.(views := img.views + 1);
      && status == Ok && view.Some? && view.value.image == bumped
      && view.value.collection == (if img.collection in db.collections then Some(db.collections[img.collection]) else None)
      && view.value.uploader == (if img.uploadedBy in db.users then Some(db.users[img.uploadedBy].username) else None)
      && db.images == if saveOk then old(db.images)[imageId := bumped] else old(db.images)
  {
    if imageId !in db.images {
      return NotFound, None;
    }
    var img := db.images[imageId];
    var collection := if img.collection in db.collections then Some(db.collections[img.collection]) else None;
    var uploader := if img.uploadedBy in db.users then Some(db.users[img.uploadedBy].username) else None;
    var doc := new ImageDocument.Load(img);
    doc.IncrementViews();
    if saveOk {
      db.images := db.images[imageId := doc.Record()];
    }
    status, view := Ok, Some(ImageView(doc.Record(), collection, uploader));
  }

  // ---------------------------------------------------------------------------
  // getImageDownloadUrl

  /** The `expiresIn` text the download answer carries, whatever the
      signature's real lifetime (`SignedUrlExpiry` seconds). */
  const ReportedExpiry: string := "5 minutes"

  /** `getImageDownloadUrl`: 404 for a missing image; 500 when no URL can be
      signed, with the counter untouched; otherwise 200 with the URL for the
      image's key and one more download, stored only when the save succeeds. */
  method GetImageDownloadUrl(db: Database, backend: Backend, imageId: ImageId, signOk: bool, saveOk: bool)
    returns (status: Status, url: Option<Url>, expiresIn: string)
    requires db.Valid()
    modifies db
    ensures db.Valid()
    ensures db.users == old(db.users) && db.collections == old(db.collections) && db.events == old(db.events)
    ensures db.nextId == old(db.nextId)
    ensures imageId !in old(db.images) ==> status == NotFound && url.None? && db.images == old(db.images)
    ensures imageId in old(db.images) && backend.SignDownloadUrl(old(db.images[imageId]).key, signOk).Failure? ==>
      status == ServerError && url.None? && db.images == old(db.images)
    ensures imageId in old(db.images) && backend.SignDownloadUrl(old(db.images[imageId]).key, signOk).Success? ==>
      var img := old(db.images[imageId]);
      && status == Ok && url == Some(backend.SignDownloadUrl(img.key, signOk).value) && expiresIn == ReportedExpiry
      && db.images == if saveOk then old(db.images)[imageId := img.(downloads := img.downloads + 1)] else old(db.images)
  {
    expiresIn := "";
    if imageId !in db.images {
      return NotFound, None, "";
    }
    var img := db.images[imageId];
    var signed := backend.SignDownloadUrl(img.key, signOk);
    if signed.Failure? {
      return ServerError, None, "";
    }
    var doc := new ImageDocument.Load(img);
    doc.IncrementDownloads();
    if saveOk {
      db.images := db.images[imageId := doc.Record()];
    }
    status, url, expiresIn := Ok, Some(signed.value), ReportedExpiry;
  }

  // ---------------------------------------------------------------------------
  // deleteImage

  /** `deleteImage`: 404 for a missing image. When its collection no longer
      exists the handler dereferences null: a non-admin gets 500 at the
      permission test with nothing changed, an admin gets 500 after the
      bucket delete, with the records left as they were. Otherwise 403
      unless the actor may modify the collection; else the object is
      deleted from the bucket (a failure there is ignored), every occurrence
      of the id is pulled from the collection and the record is deleted. */
  method DeleteImage(db: Database, backend: Backend, actor: Actor, imageId: ImageId, deleteOk: bool)
    returns (status: Status)
    requires db.Valid()
    modifies db, backend
    ensures db.Valid()
    ensures db.users == old(db.users) && db.events == old(db.events) && db.nextId == old(db.nextId)
    ensures backend.staged == old(backend.staged)
    ensures imageId !in old(db.images) ==>
      status == NotFound && db.images == old(db.images) && db.collections == old(db.collections)
      && backend.remote == old(backend.remote)
    ensures imageId in old(db.images) ==>
      var img := old(db.images[imageId]);
      var deletedRemote := if backend.configured && deleteOk then old(backend.remote) - {img.key} else old(backend.remote);
      && (img.collection !in old(db.collections) ==>
            && status == ServerError && db.images == old(db.images) && db.collections == old(db.collections)
            && backend.remote == if IsAdmin(actor) then deletedRemote else old(backend.remote))
      && (img.collection in old(db.collections) && !CanModify(actor, old(db.collections[img.collection])) ==>
            && status == Forbidden && db.images == old(db.images) && db.collections == old(db.collections)
            && backend.remote == old(backend.remote))
      && (img.collection in old(db.collections) && CanModify(actor, old(db.collections[img.collection])) ==>
            var c := old(db.collections[img.collection]);
            && status == Ok && backend.remote == deletedRemote
            && db.images == old(db.images) - {imageId}
            && db.collections == old(db.collections)[img.collection := c.(images := Pull(c.images, imageId))])
  {
    if imageId !in db.images {
      return NotFound;
    }
    var img := db.images[imageId];
    if img.collection !in db.collections {
      if !IsAdmin(actor) {
        return ServerError;
      }
      var _ := backend.DeleteFromB2(img.key, deleteOk);
      return ServerError;
    }
    var c := db.collections[img.collection];
    if !CanModify(actor, c) {
      return Forbidden;
    }
    var _ := backend.DeleteFromB2(img.key, deleteOk);
    db.collections := db.collections[img.collection := c.(images := Pull(c.images, imageId))];
    db.images := db.images - {imageId};
    status := Ok;
  }
}
