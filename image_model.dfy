/** The Image schema of server/src/models/Image.js: a stored image or video,
    its validation and defaults, and the two counters that handlers bump on a
    loaded document. */
module ImageModel {

  import opened Common
  import opened Storage

  /** A stored image. `path` is the URL the storage adapter answered with;
      `key` is the object key (or the local file name in the fallback). */
  datatype Image = Image(
    filename: string,
    originalName: string,
    path: Url,
    key: string,
    size: nat,
    mimetype: string,
    collection: CollectionId,
    uploadedBy: UserId,
    uploadedAt: int,
    downloads: nat,
    views: nat)

  /** `Image.create({...})`: the string fields are required, so an empty one
      fails validation; `uploadedAt` defaults to now and both counters to 0. */
  function Create(filename: string, originalName: string, path: Url, key: string, size: nat,
                  mimetype: string, collection: CollectionId, uploadedBy: UserId, now: int): (r: Option<Image>)
    ensures r.Some? <==> filename != "" && originalName != "" && key != "" && mimetype != ""
    ensures r.Some? ==>
      && r.value.filename == filename && r.value.originalName == originalName
      && r.value.path == path && r.value.key == key && r.value.size == size
      && r.value.mimetype == mimetype && r.value.collection == collection
      && r.value.uploadedBy == uploadedBy && r.value.uploadedAt == now
      && r.value.downloads == 0 && r.value.views == 0
  {
    if filename == "" || originalName == "" || key == "" || mimetype == "" then None
    else Some(Image(filename, originalName, path, key, size, mimetype, collection, uploadedBy, now, 0, 0))
  }

  /** An image document loaded by a handler. Only the two counters change in
      place; the handler then decides whether the change is saved. */
  class ImageDocument {
    const stored: Image
    var downloads: nat
    var views: nat

    /** The document as it would be saved now. */
    function Record(): Image
      reads this
    {
      stored.(downloads := downloads, views := views)
    }

    constructor Load(r: Image)
      ensures Record() == r
    {
      stored := r;
      downloads := r.downloads;
      views := r.views;
    }

    /** `incrementViews`: one more view, nothing else changes. */
    method IncrementViews()
      modifies this`views
      ensures Record() == old(Record()).(views := old(Record()).views + 1)
    {
      views := views + 1;
    }

    /** `incrementDownloads`: one more download, nothing else changes. */
    method IncrementDownloads()
      modifies this`downloads
      ensures Record() == old(Record()).(downloads := old(Record()).downloads + 1)
    {
      downloads := downloads + 1;
    }
  }
}
