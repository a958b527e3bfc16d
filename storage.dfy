/** The storage adapter of server/src/utils/storage.js: multer's acceptance of
    uploaded files (type filter, size limit, staged file name), and the three
    Backblaze B2 operations with their fallback when no credentials are
    configured. The S3 client is an abstract key-to-object map; whether a
    remote call succeeds is a parameter. */
module Storage {

  import opened Common
  import opened Text

  // ---------------------------------------------------------------------------
  // multer: limits, fileFilter, diskStorage filename

  /** `limits.fileSize`: 50 MB. */
  const MaxFileSize: nat := 50 * 1024 * 1024

  /** The alternatives of `/jpeg|jpg|png|gif|bmp|webp|mp4|mov|avi|webm/`. */
  const FileTypes: seq<string> := ["jpeg", "jpg", "png", "gif", "bmp", "webp", "mp4", "mov", "avi", "webm"]

  /** Some word of `words` occurs in `s`. */
  function OccursAny(s: string, words: seq<string>): (b: bool)
    ensures b <==> exists i :: 0 <= i < |words| && Occurs(s, words[i])
  {
    if words == [] then false
    else if Occurs(s, words[0]) then true
    else
      var b := OccursAny(s, words[1..]);
      assert forall i :: 1 <= i < |words| ==> words[i] == words[1..][i - 1];
      b
  }

  /** `filetypes.test(s)`: the pattern is not anchored, so it holds as soon as
      one alternative occurs anywhere in `s`. */
  function MatchesFileTypes(s: string): bool {
    OccursAny(s, FileTypes)
  }

  /** A file part of a multipart request, as multer sees it. */
  datatype IncomingFile = IncomingFile(originalname: string, mimetype: string, size: nat)

  /** multer's `fileFilter`: both the mimetype and the lower-cased extension of
      the original name must match the pattern. */
  predicate AcceptsFileType(f: IncomingFile) {
    MatchesFileTypes(f.mimetype) && MatchesFileTypes(ToLower(Extname(f.originalname)))
  }

  /** The filter accepts exactly the files whose mimetype and lower-cased
      extension each contain one of the ten words. */
  lemma AcceptsFileTypeIff(f: IncomingFile)
    ensures AcceptsFileType(f) <==>
      (exists i :: 0 <= i < |FileTypes| && Occurs(f.mimetype, FileTypes[i]))
      && (exists j :: 0 <= j < |FileTypes| && Occurs(ToLower(Extname(f.originalname)), FileTypes[j]))
  {
  }

  /** A word with a character that `s` lacks does not occur in `s`. */
  lemma AbsentCharExcludes(s: string, word: string, j: nat)
    requires j < |word| && word[j] !in s
    ensures !Occurs(s, word)
  {
  }

  /** "mov" does not occur in `s` when no 'm' of `s` is followed by 'o'. */
  lemma MovExcluded(s: string)
    requires forall i :: 0 <= i < |s| - 1 && s[i] == 'm' ==> s[i + 1] != 'o'
    ensures !Occurs(s, "mov")
  {
    forall i: nat
      ensures !OccursAt(s, "mov", i)
    {
      if i + 3 <= |s| {
        var t := s[i..i + 3];
        assert t[0] == s[i] && t[1] == s[i + 1];
      }
    }
  }

  /** No word of the pattern occurs in `s` when "mov" does not and each of
      the other nine words has a character `s` lacks. */
  lemma NoFileTypeWord(s: string)
    requires forall i :: 0 <= i < |s| - 1 && s[i] == 'm' ==> s[i + 1] != 'o'
    requires 'p' !in s && 'g' !in s && 'b' !in s && 'a' !in s && 'w' !in s
    ensures !MatchesFileTypes(s)
  {
    MovExcluded(s);
    AbsentCharExcludes(s, "jpeg", 1);
    AbsentCharExcludes(s, "jpg", 1);
    AbsentCharExcludes(s, "png", 0);
    AbsentCharExcludes(s, "gif", 0);
    AbsentCharExcludes(s, "bmp", 0);
    AbsentCharExcludes(s, "webp", 0);
    AbsentCharExcludes(s, "mp4", 1);
    AbsentCharExcludes(s, "avi", 0);
    AbsentCharExcludes(s, "webm", 0);
    assert forall i :: 0 <= i < |FileTypes| ==> !Occurs(s, FileTypes[i]);
  }

  /** The mimetype browsers send for a QuickTime (.mov) video contains none
      of the ten words ("mov" is not a substring of it), so such an upload
      is rejected whatever its file name. */
  lemma QuickTimeRejected(originalname: string, size: nat)
    ensures !AcceptsFileType(IncomingFile(originalname, "video/quicktime", size))
  {
    var s := "video/quicktime";
    assert forall i :: 0 <= i < |s| - 1 && s[i] == 'm' ==> s[i + 1] != 'o';
    NoFileTypeWord(s);
  }

  /** Likewise for the mimetype of an AVI video: "avi" is not a substring of
      it. */
  lemma MsVideoRejected(originalname: string, size: nat)
    ensures !AcceptsFileType(IncomingFile(originalname, "video/x-msvideo", size))
  {
    var s := "video/x-msvideo";
    assert forall i :: 0 <= i < |s| - 1 && s[i] == 'm' ==> s[i + 1] != 'o';
    NoFileTypeWord(s);
  }

  /** The `diskStorage` file name `${Date.now()}-${Math.round(Math.random() * 1E9)}${ext}`,
      with the clock reading and the rounded random number as parameters. */
  function StagedName(timestamp: nat, random: nat, originalname: string): string {
    Decimal(timestamp) + "-" + Decimal(random) + Extname(originalname)
  }

  /** Where multer writes staged files; every staged path is a child of it. */
  const UploadDir: string := "uploads"

  /** An accepted file, written to the local uploads directory. */
  datatype StagedFile = StagedFile(originalname: string, mimetype: string, size: nat, filename: string)
  {
    /** multer's `file.path`. */
    function Path(): string { UploadDir + "/" + filename }
  }

  /** The staged name has no '/', so it is the basename of the staged path. */
  lemma StagedNameIsBasename(timestamp: nat, random: nat, originalname: string)
    ensures '/' !in StagedName(timestamp, random, originalname)
    ensures Basename(UploadDir + "/" + StagedName(timestamp, random, originalname))
            == StagedName(timestamp, random, originalname)
  {
    var prefix := Decimal(timestamp) + "-" + Decimal(random);
    assert forall i :: 0 <= i < |prefix| ==> prefix[i] == '-' || IsDigit(prefix[i]);
    assert StagedName(timestamp, random, originalname) == prefix + Extname(originalname);
    BasenameOfChild(UploadDir, StagedName(timestamp, random, originalname));
  }

  /** The staged name keeps the extension of the original name. */
  lemma StagedNameKeepsExtension(timestamp: nat, random: nat, originalname: string)
    ensures Extname(StagedName(timestamp, random, originalname)) == Extname(originalname)
  {
    var prefix := Decimal(timestamp) + "-" + Decimal(random);
    assert forall i :: 0 <= i < |prefix| ==> prefix[i] == '-' || IsDigit(prefix[i]);
    assert StagedName(timestamp, random, originalname) == prefix + Extname(originalname);
    ExtnameOfSuffix(prefix, Extname(originalname));
  }

  /** Why multer fails a request before the handler runs. */
  datatype MulterError =
    | UnexpectedFile   // more files than the field allows (LIMIT_UNEXPECTED_FILE)
    | UnsupportedType  // rejected by fileFilter
    | FileTooLarge     // over limits.fileSize (LIMIT_FILE_SIZE)

  /** A clock reading and a rounded random number for each file's name. */
  datatype NameSeed = NameSeed(timestamp: nat, random: nat)

  /** One file passes multer: accepted by the filter and within the size limit. */
  predicate Acceptable(f: IncomingFile) {
    AcceptsFileType(f) && f.size <= MaxFileSize
  }

  /** The staged form of an accepted file. */
  function StageFile(f: IncomingFile, seed: NameSeed): StagedFile {
    StagedFile(f.originalname, f.mimetype, f.size, StagedName(seed.timestamp, seed.random, f.originalname))
  }

  /** multer on one field (`single('image')` is `maxCount` 1,
      `array('images', 20)` is 20): the files are taken in order; the first
      one over the count, rejected by the filter or over the size limit fails
      the whole request, and then nothing stays staged. */
  function Receive(files: seq<IncomingFile>, maxCount: nat, seeds: seq<NameSeed>): (r: Result<seq<StagedFile>, MulterError>)
    requires |seeds| == |files|
    ensures r.Success? <==> (|files| <= maxCount && forall i :: 0 <= i < |files| ==> Acceptable(files[i]))
    ensures r.Success? ==> |r.value| == |files|
    ensures r.Success? ==> forall i :: 0 <= i < |files| ==> r.value[i] == StageFile(files[i], seeds[i])
  {
    if files == [] then Success([])
    else if maxCount == 0 then Failure(UnexpectedFile)
    else if !AcceptsFileType(files[0]) then Failure(UnsupportedType)
    else if files[0].size > MaxFileSize then Failure(FileTooLarge)
    else
      var rest := Receive(files[1..], maxCount - 1, seeds[1..]);
      TailIndex(files);
      if rest.Failure? then Failure(rest.error)
      else
        TailIndex(seeds);
        var staged := [StageFile(files[0], seeds[0])] + rest.value;
        TailIndex(staged);
        Success(staged)
  }

  /** Position `i` of `xs[1..]` is position `i + 1` of `xs`. */
  lemma TailIndex<T>(xs: seq<T>)
    requires xs != []
    ensures forall i :: 1 <= i < |xs| ==> xs[i] == xs[1..][i - 1]
  {
  }

  /** An oversized file never reaches storage: the request fails. */
  lemma OversizedFileRejected(files: seq<IncomingFile>, maxCount: nat, seeds: seq<NameSeed>, k: nat)
    requires |seeds| == |files| && k < |files| && files[k].size > MaxFileSize
    ensures Receive(files, maxCount, seeds).Failure?
  {
  }

  /** A staged file's basename is its generated name. */
  lemma ReceivedPathBasename(files: seq<IncomingFile>, maxCount: nat, seeds: seq<NameSeed>, i: nat)
    requires |seeds| == |files|
    requires Receive(files, maxCount, seeds).Success? && i < |files|
    ensures Basename(Receive(files, maxCount, seeds).value[i].Path())
            == Receive(files, maxCount, seeds).value[i].filename
  {
    StagedNameIsBasename(seeds[i].timestamp, seeds[i].random, files[i].originalname);
  }

  // ---------------------------------------------------------------------------
  // Backblaze B2

  /** The URLs the adapter hands out. `RemoteLocation` is S3's `data.Location`
      for a key; `SignedUrl` is a pre-signed GET for a key with its expiry. */
  datatype Url = LocalPath(path: string) | RemoteLocation(key: string) | SignedUrl(key: string, expiresSeconds: nat)

  /** `Expires: 3600` of the signed GET. */
  const SignedUrlExpiry: nat := 3600

  /** The local static path of the fallback, `/uploads/{name}`. */
  function LocalUrl(name: string): Url {
    LocalPath("/uploads/" + name)
  }

  /** The key scheme `collections/{collectionId}/{name}`. */
  function ObjectKey(collection: CollectionId, name: string): string {
    "collections/" + Decimal(collection) + "/" + name
  }

  /** The key splits back into its three parts, and its basename is the name. */
  lemma ObjectKeyParts(collection: CollectionId, name: string)
    requires '/' !in name
    ensures Split(ObjectKey(collection, name), '/') == ["collections", Decimal(collection), name]
    ensures Basename(ObjectKey(collection, name)) == name
  {
    var id := Decimal(collection);
    assert '/' !in id by {
      assert forall i :: 0 <= i < |id| ==> IsDigit(id[i]);
    }
    var fields := ["collections", id, name];
    assert fields[1..][1..] == [name];
    assert Join(fields[1..], '/') == id + "/" + name;
    assert Join(fields, '/') == ObjectKey(collection, name);
    SplitJoin(fields, '/');
  }

  datatype RemoteObject = RemoteObject(mimetype: string, size: nat)

  /** The result of `uploadToB2` when it succeeds. */
  datatype Uploaded = Uploaded(url: Url, size: nat, mimetype: string, key: string)

  /** The bucket's objects by key and the paths of the files staged on disk. */
  datatype StoreState = StoreState(remote: map<string, RemoteObject>, staged: set<string>)

  /** What a successful `uploadToB2` answers: without credentials the local
      path and the bare file name, with them the location and key of the put
      object. Either way the key ends in the staged file's basename. */
  function StoredAs(configured: bool, file: StagedFile, collection: CollectionId): (up: Uploaded)
    ensures up.size == file.size && up.mimetype == file.mimetype
    ensures Basename(up.key) == Basename(file.Path())
    ensures !configured ==> up.url == LocalUrl(up.key)
    ensures configured ==> up.url == RemoteLocation(up.key) && up.key == ObjectKey(collection, Basename(file.Path()))
  {
    var name := Basename(file.Path());
    if !configured then
      BasenameOfPlainName(name);
      Uploaded(LocalUrl(name), file.size, file.mimetype, name)
    else
      var key := ObjectKey(collection, name);
      ObjectKeyParts(collection, name);
      Uploaded(RemoteLocation(key), file.size, file.mimetype, key)
  }

  /** `uploadToB2(file, collection)` as a step on the store. Without
      credentials it always succeeds and touches nothing. With credentials it
      succeeds exactly when the staged file is there and the put succeeds
      (`remoteOk`); only then is the object added and the staged file
      removed. Every failure is reported, never thrown. */
  function UploadStep(configured: bool, s: StoreState, file: StagedFile, collection: CollectionId, remoteOk: bool)
    : (out: (Result<Uploaded, string>, StoreState))
    ensures out.0.Success? <==> !configured || (remoteOk && file.Path() in s.staged)
    ensures out.0.Success? ==> out.0.value == StoredAs(configured, file, collection)
    ensures configured && out.0.Success? ==>
      out.1 == StoreState(s.remote[out.0.value.key := RemoteObject(file.mimetype, file.size)], s.staged - {file.Path()})
    ensures !configured || out.0.Failure? ==> out.1 == s
  {
    var up := StoredAs(configured, file, collection);
    if !configured then (Success(up), s)
    else if file.Path() !in s.staged then (Failure("ENOENT: no such file or directory"), s)
    else if !remoteOk then (Failure("upload to B2 failed"), s)
    else (Success(up), StoreState(s.remote[up.key := RemoteObject(file.mimetype, file.size)], s.staged - {file.Path()}))
  }

  /** The adapter: whether both B2 credentials are configured, and the store. */
  class Backend {
    const configured: bool
    var remote: map<string, RemoteObject>
    var staged: set<string>

    function State(): StoreState
      reads this
    {
      StoreState(remote, staged)
    }

    constructor (configured: bool)
      ensures this.configured == configured && remote == map[] && staged == {}
    {
      this.configured := configured;
      remote := map[];
      staged := {};
    }

    /** multer writes the accepted files to the uploads directory. */
    method Stage(files: seq<StagedFile>)
      modifies this`staged
      ensures staged == old(staged) + set i | 0 <= i < |files| :: files[i].Path()
    {
      staged := staged + set i | 0 <= i < |files| :: files[i].Path();
    }

    /** `uploadToB2(file, collection)`: reads the staged file, puts it into
        the bucket and then unlinks the staged file, as `UploadStep` says. */
    method UploadToB2(file: StagedFile, collection: CollectionId, remoteOk: bool) returns (r: Result<Uploaded, string>)
      modifies this`remote, this`staged
      ensures (r, State()) == UploadStep(configured, old(State()), file, collection, remoteOk)
    {
      var name := Basename(file.Path());
      if !configured {
        BasenameOfPlainName(name);
        return Success(Uploaded(LocalUrl(name), file.size, file.mimetype, name));
      }
      var key := ObjectKey(collection, name);
      if file.Path() !in staged {
        return Failure("ENOENT: no such file or directory");
      }
      if !remoteOk {
        return Failure("upload to B2 failed");
      }
      remote := remote[key := RemoteObject(file.mimetype, file.size)];
      staged := staged - {file.Path()};
      r := Success(Uploaded(RemoteLocation(key), file.size, file.mimetype, key));
    }

    /** `getSignedDownloadUrl(key)`: without credentials the local path of the
        key's basename; otherwise a GET signed for 3600 seconds, unless
        signing fails (`signOk` false). The bucket is not consulted. */
    function SignDownloadUrl(key: string, signOk: bool): (r: Result<Url, string>)
      ensures !configured ==> r == Success(LocalUrl(Basename(key)))
      ensures configured ==> (r.Success? <==> signOk)
      ensures configured && r.Success? ==> r.value == SignedUrl(key, SignedUrlExpiry)
    {
      if !configured then Success(LocalUrl(Basename(key)))
      else if signOk then Success(SignedUrl(key, SignedUrlExpiry))
      else Failure("signing failed")
    }

    /** `deleteFromB2(key)`: a successful no-op without credentials; otherwise
        the object is removed (an absent key is no error), unless the call
        fails (`deleteOk` false), which is reported with nothing changed. */
    method DeleteFromB2(key: string, deleteOk: bool) returns (ok: bool)
      modifies this`remote
      ensures ok == (!configured || deleteOk)
      ensures remote == if configured && deleteOk then old(remote) - {key} else old(remote)
    {
      if !configured {
        return true;
      }
      if !deleteOk {
        return false;
      }
      remote := remote - {key};
      ok := true;
    }
  }

  /** Downloading what was uploaded names the same object: without
      credentials the download path is the stored path; with them the signed
      URL is for the very key that was put into the bucket, which ends in
      the staged file's generated name. */
  lemma DownloadNamesUploadedObject(b: Backend, file: StagedFile, collection: CollectionId)
    requires '/' !in file.filename
    ensures var up := StoredAs(b.configured, file, collection);
      && (!b.configured ==> b.SignDownloadUrl(up.key, true) == Success(up.url))
      && (b.configured ==> b.SignDownloadUrl(up.key, true) == Success(SignedUrl(ObjectKey(collection, file.filename), SignedUrlExpiry)))
  {
    BasenameOfChild(UploadDir, file.filename);
    BasenameOfPlainName(file.filename);
  }
}
