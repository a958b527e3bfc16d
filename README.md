# TheSora.io Gallery backend: a Dafny model

This project models the request logic of the TheSora.io photo-gallery server
(Express handlers over Mongoose models). It is written as an in-memory store
and proves properties about it.

The store is the class `Store.Database`. It holds:

- one map per model, from id to record: users, collections and images;
- the append-only analytics log.

Each handler is a method or function over this store. It returns the HTTP
status the handler answers with and changes the maps exactly as the code
does. Mongoose documents are datatypes: `User`, `Collection`, `Image` and
`Event`. Two kinds of object change in place, so they are classes:

- a loaded image document, whose view and download counters are bumped before
  a save that may fail (`ImageModel.ImageDocument`);
- the storage adapter (`Storage.Backend`), which holds the bucket's objects by
  key and the files multer staged to disk.

Everything the code cannot decide by itself is a parameter of the operation:

- the clock (`now`, milliseconds since the epoch);
- the values of `Math.random()` (`draws`);
- bcrypt (`hash`, `compare`);
- JWT verification and signing (`verify`, `tokenOk`);
- the JWKS key lookup (`hasKid`);
- whether each call to S3/B2 succeeds (`remoteOk`, `signOk`, `deleteOk`);
- whether a document save or an analytics write succeeds (`saveOk`, `eventOk`,
  `createOk`).

There is one module per source file.

| module | source file |
|---|---|
| `UserModel` | `server/src/models/User.js` |
| `CollectionModel` | `server/src/models/Collection.js` |
| `ImageModel` | `server/src/models/Image.js` |
| `AnalyticsModel` | `server/src/models/Analytics.js` |
| `Storage` | `server/src/utils/storage.js` |
| `ImageController` | `server/src/controllers/imageController.js` |
| `CollectionController` | `server/src/controllers/collectionController.js` |
| `UserController` | `server/src/controllers/userController.js` |
| `AuthController` | `server/src/controllers/authController.js` |
| `AnalyticsController` | `server/src/controllers/analyticsController.js` |
| `AuthMiddleware` | `server/src/middleware/auth.js` |
| `Auth0Middleware` | `server/src/middleware/auth0.js` |

A few modules support them:

- `Common`: Option, Result, Status and ids.
- `Text`: `split`, `basename`, `extname`, `trim`, `toLowerCase` and unanchored
  substring matching, as JavaScript defines them.
- `Seqs`: `$addToSet`, `$pull`, sorting by a key, `$group`/`$sort`/`$limit`,
  and `$lookup`+`$unwind` top lists.
- `Store`: the database.
- `AccessPolicy`: the permission tests the handlers write inline.

The model follows the code where the code and its design description differ:

- Multer rejects a whole multipart request as soon as one file is oversized,
  has a disallowed type or is one file too many (`Storage.Receive`). The
  handler then never runs. A batch with one oversized file therefore stores
  nothing; it does not store the other files. The best-effort skipping of
  `uploadMultipleImages` only covers storage and record failures after
  multer's checks.
- The access checks of `getImagesInCollection`, `getImage` and
  `getImageDownloadUrl` are commented out. These handlers take no actor. The
  download handler logs no analytics event.
- The download answer reports `expiresIn: '5 minutes'`
  (`ImageController.ReportedExpiry`), but the signature lasts 3600 seconds
  (`Storage.SignedUrlExpiry`).
- A staged file stays on disk when the upload fails. Only a successful put
  unlinks it.
- A duplicate username is a 400, not a conflict status.
- `getCollection` dereferences the populated creator. If the creator no longer
  exists, a non-admin who is not a member gets 500 instead of 403.
- `deleteImage` dereferences the image's collection. If the collection no
  longer exists, the handler fails with 500. An admin reaches the bucket
  delete first; a non-admin fails at the permission test.
- `updateUser` validates the body before it looks up the id. A bad role, or an
  empty username, answers 500 even for an unknown id.
- `findOne({username})` with no username matches any account, because
  Mongoose drops undefined filter keys. `createUser` and `register` without a
  username are therefore a 400 as soon as one account exists.
- The file-type test is the unanchored pattern of the source. The mimetypes
  browsers send for QuickTime and AVI videos, `video/quicktime` and
  `video/x-msvideo`, contain none of the ten words. Such uploads are rejected
  despite `mov` and `avi` being in the list (`Storage.QuickTimeRejected`,
  `Storage.MsVideoRejected`).

## Model

| member | source | states |
|---|---|---|
| UserModel.ParseRole | server/src/models/User.js:18-22 | a role is exactly 'admin' or 'user', and it reads back as the same name |
| UserModel.RoleNameRoundTrip | server/src/models/User.js:18-22 | the stored role name parses to that role and to no other |
| UserModel.CharIndex | server/src/models/User.js:88 | `floor(random * 72)` is always a valid index into the 72-character alphabet |
| UserModel.RandomPassword | server/src/models/User.js:84-91 | the password drawn has one character per draw, each from the alphabet |
| UserModel.GenerateRandomPassword | server/src/models/User.js:84-91 | the loop builds a string of the requested length whose i-th character is selected by the i-th draw: exactly `RandomPassword(draws)` |
| UserModel.Create | server/src/models/User.js:6-35 | creation succeeds iff the username is non-empty, the password has at least 6 characters and a given role is in the enum; the role defaults to 'user', lastLogin is null, createdAt is now, and the stored password is the hash |
| UserModel.PreSave | server/src/models/User.js:38-46 | the hook rehashes the password iff it was modified and changes nothing else |
| UserModel.MatchPassword | server/src/models/User.js:74-81 | a match needs bcrypt's comparison to hold; a comparison error counts as no match |
| AnalyticsModel.ParseActionType | server/src/models/Analytics.js:9-13 | the action types are exactly login, download and view |
| AnalyticsModel.ActionNameRoundTrip | server/src/models/Analytics.js:9-13 | a stored action name parses to that action type and to no other |
| AnalyticsModel.Create | server/src/models/Analytics.js:3-36 | an event is created iff user and action type are given and the type is valid; image, collection, address and agent default to null, and the timestamp to now |
| CollectionModel.ValidName | server/src/models/Collection.js:4-8 | a name is accepted iff it does not trim to empty; it is stored trimmed, as a slice of the input |
| CollectionModel.Create | server/src/models/Collection.js:3-30 | creation needs a valid name and a creator; description defaults to "", images and accessibleBy to empty, and createdAt to now unless the body gives one |
| CollectionModel.Update | server/src/controllers/collectionController.js:128-132 | the update fails iff a given name trims to empty; each given field, createdAt included, is set and every other keeps its value |
| CollectionModel.UpdateIdempotent | server/src/controllers/collectionController.js:128-132 | an empty body changes nothing, and applying the same body twice equals applying it once |
| ImageModel.Create | server/src/models/Image.js:3-50 | a record needs non-empty filename, originalName, key and mimetype; it keeps every given field, and both counters start at 0 |
| ImageModel.ImageDocument.IncrementViews | server/src/models/Image.js:53-56 | views rise by exactly one and nothing else changes |
| ImageModel.ImageDocument.IncrementDownloads | server/src/models/Image.js:59-62 | downloads rise by exactly one and nothing else changes |
| Store.UsersAmong | server/src/controllers/userController.js:246-251 | `{_id: {$in: ids}}` selects only existing users, never more than ids were listed, so deletedCount never exceeds the list's length |
| Store.UsersAmongMembers | server/src/controllers/userController.js:246 | the selection holds exactly the existing users whose ids are listed |
| AccessPolicy.ModifyImpliesRead | server/src/controllers/collectionController.js:58-62 | whoever may modify a collection may read it; a user it is only shared with may read but not modify |
| Text.SecondField | server/src/middleware/auth.js:11 | `split(' ')[1]` exists iff the text contains a space, and it contains no space |
| Text.SecondFieldOf | server/src/middleware/auth.js:11 | for `a + ' ' + t`, with or without further fields, the second field is t |
| Text.SplitJoin | server/src/utils/storage.js:72 | splitting a join of separator-free fields gives back the fields |
| Text.JoinSplit | server/src/middleware/auth.js:11 | joining the fields of `split` gives back the string |
| Text.SplitCount | server/src/middleware/auth0.js:42 | `split(' ')` has a second field iff the text contains a space |
| Text.BasenameOfChild | server/src/utils/storage.js:62 | the basename of `dir/name` is `name` for a name without '/' |
| Text.Extname | server/src/utils/storage.js:30 | `path.extname` is empty or one '.' followed by text with no '.' and no '/' |
| Text.Occurs | server/src/utils/storage.js:41-43 | the unanchored test holds iff the word occurs at some position |
| Text.TrimShape | server/src/models/Collection.js:7 | `trim` leaves a slice of the input that neither starts nor ends with white space, and only white space is removed around it |
| Text.TrimIdempotent | server/src/models/Collection.js:7 | trimming twice equals trimming once |
| Seqs.AddToSet | server/src/controllers/collectionController.js:224-227 | `$addToSet` keeps the list as a prefix and leaves the id present once if it was absent, with every count unchanged if present |
| Seqs.Pull | server/src/controllers/collectionController.js:230-236 | `$pull` removes every occurrence of the id and nothing else |
| Seqs.PullIdempotent | server/src/controllers/imageController.js:309 | pulling twice equals pulling once |
| Seqs.SortDesc | server/src/controllers/analyticsController.js:30-32 | sorting by a key gives a descending permutation of the input |
| Seqs.TopDominates | server/src/controllers/analyticsController.js:30-33 | an element left out by sort-then-limit has a key no larger than any element kept |
| Seqs.CountBy | server/src/controllers/analyticsController.js:65-71 | `$group` with `$sum: 1` gives one group per distinct key, whose count is the key's number of occurrences |
| Seqs.Top | server/src/controllers/analyticsController.js:62-76 | group, sort by count descending, keep n: exactly n groups, or every group when there are fewer, descending, with distinct keys, each with its key's true count |
| Seqs.TopExcludesOnlySmaller | server/src/controllers/analyticsController.js:70-76 | a key missing from the top list occurs no more often than any key in it |
| Seqs.RankPresent | server/src/controllers/analyticsController.js:77-96 | `$lookup`+`$unwind` keeps exactly the groups whose key has a record, with the record's name |
| Seqs.RankPresentDistinct | server/src/controllers/analyticsController.js:77-96 | the join keeps distinct keys distinct |
| Seqs.RankPresentSorted | server/src/controllers/analyticsController.js:70-96 | the join keeps a descending list descending |
| Storage.OccursAny | server/src/utils/storage.js:41 | the alternation matches iff some alternative occurs |
| Storage.AcceptsFileTypeIff | server/src/utils/storage.js:39-50 | a file is accepted iff both its mimetype and its lower-cased extension contain one of the ten words |
| Storage.QuickTimeRejected | server/src/utils/storage.js:41-45 | a file with mimetype video/quicktime is rejected, whatever its name |
| Storage.MsVideoRejected | server/src/utils/storage.js:41-45 | a file with mimetype video/x-msvideo is rejected, whatever its name |
| Storage.StagedNameIsBasename | server/src/utils/storage.js:28-32 | the staged name has no '/' and is the basename of the staged path |
| Storage.StagedNameKeepsExtension | server/src/utils/storage.js:28-32 | the staged name keeps the original extension |
| Storage.Receive | server/src/utils/storage.js:36-51 | a request passes multer iff it has at most the allowed number of files and each is accepted and at most 50 MB; each file is staged under its generated name |
| Storage.OversizedFileRejected | server/src/utils/storage.js:38 | one file over 50·1024·1024 bytes fails the request |
| Storage.ReceivedPathBasename | server/src/utils/storage.js:28-32 | a staged file's basename is its generated name |
| Storage.ObjectKeyParts | server/src/utils/storage.js:72 | the key `collections/{id}/{name}` splits back into its three parts, and its basename is the name |
| Storage.StoredAs | server/src/utils/storage.js:57-97 | without credentials the key is the basename and the URL `/uploads/{basename}`; with them the key is `collections/{id}/{basename}` and the URL its location; size and type are the file's |
| Storage.UploadStep | server/src/utils/storage.js:54-105 | the fallback always succeeds and touches nothing; a remote upload succeeds iff the staged file exists and the put succeeds, and only then is the object added and the staged file removed |
| Storage.Backend.UploadToB2 | server/src/utils/storage.js:54-105 | the method's result and new store are those of UploadStep |
| Storage.Backend.Stage | server/src/utils/storage.js:17-33 | multer adds the staged paths to the disk |
| Storage.Backend.SignDownloadUrl | server/src/utils/storage.js:108-138 | the fallback answers `/uploads/{basename(key)}`; otherwise a URL signed for 3600 s, unless signing fails |
| Storage.Backend.DeleteFromB2 | server/src/utils/storage.js:141-164 | the fallback is a successful no-op; otherwise the object is removed iff the call succeeds, and the outcome says which |
| Storage.DownloadNamesUploadedObject | server/src/utils/storage.js:57-125 | the download URL of an uploaded file names the object that was stored |
| ImageController.RecordFor | server/src/controllers/imageController.js:53-62 | the record takes filename = basename(key), path = url, and name, size and type from the file; it belongs to the collection and the uploader |
| ImageController.StagedRecordFilename | server/src/controllers/imageController.js:53-62 | in both storage modes the record's filename is the staged name |
| ImageController.UploadImage | server/src/controllers/imageController.js:11-78 | 404 before 403 before 400; storage or record failure is 500 with no record and the collection unchanged; success is 201 with one fresh image appended to the end of `images` |
| ImageController.BatchPlan | server/src/controllers/imageController.js:114-146 | the records a batch creates belong to the collection and uploader, with zero counters, at most one per file |
| ImageController.BatchFallbackKeepsEveryFile | server/src/controllers/imageController.js:117-146 | without credentials every well-formed staged file becomes a record, in order |
| ImageController.BatchAllPutsFail | server/src/controllers/imageController.js:117-146 | when every put fails, the batch creates nothing and the store is unchanged |
| ImageController.StoreOne | server/src/controllers/imageController.js:118-145 | one file is stored and, when storage and the record both succeed, its record is added under a fresh id |
| ImageController.StoreEach | server/src/controllers/imageController.js:117-146 | the loop adds exactly the records of BatchPlan, in order, under fresh distinct ids |
| ImageController.UploadMultipleImages | server/src/controllers/imageController.js:83-162 | 404/403/400 (absent or empty list) change nothing; otherwise 201, even with zero successes, and `images` grows by exactly the new ids in input order |
| Seqs.Present | server/src/controllers/collectionController.js:46-48 | `populate` keeps only references that have a record, and every reference that has one |
| Seqs.PresentCounts | server/src/controllers/collectionController.js:46-48 | each reference with a record is kept as often as it is listed, and no other |
| Seqs.PresentInOrder | server/src/controllers/collectionController.js:46-48 | the kept references are in the order listed |
| ImageController.Populate | server/src/controllers/imageController.js:169-173 | `populate('images')` yields each existing referenced image once |
| ImageController.ListImages | server/src/controllers/imageController.js:169-173 | the listing holds each existing referenced image once, newest upload first |
| ImageController.GetImagesInCollection | server/src/controllers/imageController.js:167-207 | 404 for a missing collection, else 200 with the listing and count equal to its length; no access check |
| ImageController.GetImage | server/src/controllers/imageController.js:212-270 | 404 for a missing image; else 200 with views one higher, stored only when the save succeeds |
| ImageController.GetImageDownloadUrl | server/src/controllers/imageController.js:330-404 | 404 for a missing image; 500 with counter unchanged when signing fails; else 200 with the URL for the key, downloads one higher when saved, and expiresIn '5 minutes' |
| ImageController.DeleteImage | server/src/controllers/imageController.js:275-325 | 404; 403 with nothing changed; for an authorised actor the bucket delete is attempted (failure ignored), every occurrence of the id leaves the collection and the record is deleted; 500 when the collection is gone |
| CollectionController.GetCollections | server/src/controllers/collectionController.js:7-38 | admins see every collection; others see exactly those they are listed in or created |
| CollectionController.UserRefs | server/src/controllers/collectionController.js:47 | `populate('accessibleBy', 'username')` yields the listed users that exist, in list order and as often as listed, each with its username |
| CollectionController.ImagesOf | server/src/controllers/collectionController.js:46 | `populate('images')` yields the referenced images that exist, in reference order and as often as referenced |
| CollectionController.RepeatedReferencesKept | server/src/controllers/collectionController.js:46-47 | a user or an image listed twice populates twice |
| CollectionController.GetCollection | server/src/controllers/collectionController.js:43-79 | 404 for a missing collection; 200 iff admin, member or creator (with the populated view); 500 when the creator is gone and the actor has no other claim; else 403 |
| CollectionController.GetCollectionAgreesWithListing | server/src/controllers/collectionController.js:7-67 | for an existing actor, a collection is readable iff it is in the actor's listing |
| CollectionController.CreateCollection | server/src/controllers/collectionController.js:84-101 | the creator is always the actor, whatever the body says; an invalid body is 500 with nothing created |
| CollectionController.CreatedCollectionIsActors | server/src/controllers/collectionController.js:87-89 | a body naming another creator still creates the collection as the actor's |
| CollectionController.UpdateCollection | server/src/controllers/collectionController.js:106-144 | 404, then 403 unless admin or creator, with nothing changed; otherwise the body's fields are set |
| CollectionController.DeleteCollection | server/src/controllers/collectionController.js:149-183 | 404, 403 with nothing changed; otherwise only the collection record is removed, and images and users are kept |
| CollectionController.GrantPass | server/src/controllers/collectionController.js:224-227 | `$addToSet` on the listed users, and no other user changes |
| CollectionController.RevokePass | server/src/controllers/collectionController.js:230-236 | `$pull` on the unlisted users, and no listed user changes |
| CollectionController.AccessSynced | server/src/controllers/collectionController.js:224-236 | afterwards a user lists the collection iff the user is listed (once if it was absent); no other collection id of any user changes |
| CollectionController.UpdateCollectionAccess | server/src/controllers/collectionController.js:188-248 | 400 without a list, before any lookup; 404; 403 with nothing changed; otherwise accessibleBy is exactly the given list and the users are re-synced |
| UserController.NewRecord | server/src/controllers/userController.js:71-76 | the new user gets the given role or 'user', and the given collections or none |
| UserController.AddUser | server/src/controllers/userController.js:58-76 | a taken username creates nothing; otherwise the user is created under a fresh id with the generated password, or nothing when validation fails; usernames stay unique |
| UserController.CreateUser | server/src/controllers/userController.js:53-96 | 400 for a taken username, 500 for an invalid record, else 201 with id, username, role and the generated password |
| UserController.StripPassword | server/src/controllers/userController.js:104-106 | the body loses its password field and keeps the others |
| UserController.ApplyUpdate | server/src/controllers/userController.js:108-112 | only username, role, collections, lastLogin and createdAt can change, each to the body's value when given; the password never does |
| UserController.UpdateUser | server/src/controllers/userController.js:101-131 | 500 for an invalid body, 404 for a missing id, 500 for a username held by another account; otherwise the update is applied without the password, and no password changes |
| UserController.DeleteUser | server/src/controllers/userController.js:136-157 | 404 with nothing changed, else exactly that user is removed |
| UserController.EntriesPartition | server/src/controllers/userController.js:215-222 | the created and failed lists together have one entry per input |
| UserController.BulkCreateUsers | server/src/controllers/userController.js:162-230 | 400 for an absent or empty list; otherwise each input lands in exactly one list, a later duplicate of a created name fails, totals sum to the input length, and usernames stay unique |
| UserController.BulkDeleteUsers | server/src/controllers/userController.js:235-260 | 400 for an absent or empty list; otherwise exactly the listed existing users are removed, and deletedCount is their number |
| AuthController.Register | server/src/controllers/authController.js:7-49 | 400 for a taken username; otherwise the role defaults to 'user', collections are empty, and the generated password is returned |
| AuthController.SendTokenResponse | server/src/controllers/authController.js:147-172 | 500 iff signing fails; otherwise the user object has only id, username and role, and agrees with the token |
| AuthController.LoginEvent | server/src/controllers/authController.js:100-105 | the login event names the user and 'login' and has no image or collection |
| AuthController.Login | server/src/controllers/authController.js:54-121 | 400 for a missing field; 401 for an unknown user or wrong password, with nothing changed; otherwise lastLogin is set, one login event is appended unless its write fails, and the token response follows |
| AuthController.GetMe | server/src/controllers/authController.js:126-144 | the acting account's id, username and role, or 500 when it no longer exists |
| AuthMiddleware.ExtractToken | server/src/middleware/auth.js:10-15 | with a 'Bearer' header the token is its second space-separated field and x-auth-token is ignored; otherwise x-auth-token |
| AuthMiddleware.BearerToken | server/src/middleware/auth.js:10-11 | "Bearer t" and "Bearer t rest" both yield t |
| AuthMiddleware.BareBearerIgnoresAlternative | server/src/middleware/auth.js:10-23 | a bare "Bearer" header yields no token even when x-auth-token is set |
| AuthMiddleware.ClaimedId | server/src/middleware/auth.js:33 | the id is `decoded.id`, else `decoded.user.id` |
| AuthMiddleware.Protect | server/src/middleware/auth.js:6-61 | 401 with the source's message for a missing token, a refused token, claims without an id and an unknown id; otherwise the request acts as that account with its role |
| AuthMiddleware.Authorize | server/src/middleware/auth.js:64-74 | the request passes iff the actor's role is among the roles, else 403 |
| AuthMiddleware.AuthorizeRoles | server/src/middleware/auth.js:64-74 | `authorize('admin')` admits exactly admins; both roles admit everyone |
| AuthMiddleware.TrackedData | server/src/middleware/auth.js:84-100 | the event data carries the actor, the action, now, the address and agent, and image and collection only when the route has them |
| AuthMiddleware.TrackAnalytics | server/src/middleware/auth.js:77-113 | with an actor and a successful, valid write one event is appended, else nothing; the request always continues |
| Auth0Middleware.RoleOf | server/src/middleware/auth0.js:71 | the role is the roles claim when present and non-empty, else 'user' |
| Auth0Middleware.BearerHasToken | server/src/middleware/auth0.js:34-42 | a header starting with "Bearer " always has a second field |
| Auth0Middleware.VerifyAuth0Token | server/src/middleware/auth0.js:22-82 | 401 for a missing header, a non-"Bearer " header, no key id or a failed verification; otherwise the user is sub, email, name and the role |
| Auth0Middleware.Auth0BearerToken | server/src/middleware/auth0.js:42 | the token verified is the second space-separated field of the header |
| Auth0Middleware.RequireAdmin | server/src/middleware/auth0.js:85-94 | 403 unless a user is present with role 'admin' |
| Auth0Middleware.NoRolesClaimIsNotAdmin | server/src/middleware/auth0.js:71 | a token without a roles claim never passes requireAdmin |
| AnalyticsController.CountSel | server/src/controllers/analyticsController.js:24-26 | a count of matching events never exceeds the log's length, and is zero iff no event matches |
| AnalyticsController.TypeTotalsPartition | server/src/controllers/analyticsController.js:24-26 | the login, download and view totals add up to the number of events |
| AnalyticsController.Keys | server/src/controllers/analyticsController.js:64-71 | the grouped keys occur as often as the events that match them |
| AnalyticsController.ByUser | server/src/controllers/analyticsController.js:462-466 | `{user: id}` selects the user's events and only those |
| AnalyticsController.ByUserIsFilter | server/src/controllers/analyticsController.js:462-466 | the selection holds each of the user's events as often as logged, and no other, in log order |
| AnalyticsController.Recent | server/src/controllers/analyticsController.js:30-35 | the recent list has min(n, total) events of the log, newest first |
| AnalyticsController.RecentKeepsNewest | server/src/controllers/analyticsController.js:30-35 | no event left out is newer than one kept |
| AnalyticsController.TopList | server/src/controllers/analyticsController.js:62-97 | at most 5 entries, descending by count, with distinct keys; they are exactly the top-5 groups whose key has a record, each named from the record and carrying its true count |
| AnalyticsController.TopListSkipsOnlyRarer | server/src/controllers/analyticsController.js:62-97 | a key with a record that is missing from the list is no more frequent than any listed one |
| AnalyticsController.ChartRows | server/src/controllers/analyticsController.js:144-170 | the chart has 30 entries, dated today−29 up to today, ascending |
| AnalyticsController.BuildChart | server/src/controllers/analyticsController.js:141-170 | the zero-fill, fill and sort loops produce exactly ChartRows |
| AnalyticsController.CutoffDayDropped | server/src/controllers/analyticsController.js:38-44 | the day 30 days ago passes the filter but has no chart entry |
| AnalyticsController.ChartedDayAfterCutoff | server/src/controllers/analyticsController.js:38-44 | every event on a charted day passes the 30-days-ago filter |
| AnalyticsController.DayKeysCount | server/src/controllers/analyticsController.js:41-59 | on a day after the cut-off the grouped keys count every event of that day and type |
| AnalyticsController.LookupCountBy | server/src/controllers/analyticsController.js:160-165 | the count written for a day and type is its group's count, or 0 with no group |
| AnalyticsController.ChartCountsEveryEvent | server/src/controllers/analyticsController.js:38-170 | each chart entry counts all the logins, downloads and views of its day |
| AnalyticsController.GetDashboardAnalytics | server/src/controllers/analyticsController.js:10-195 | the record and per-type totals, the 10 newest events, the chart and the two top-5 lists |
| AnalyticsController.GetUserAnalytics | server/src/controllers/analyticsController.js:444-582 | 404 for an unknown user; otherwise the user's username, role, createdAt and lastLogin, per-type counts whose sum, totalActions, is the number of the user's events, the 20 newest of them, and the user's top 5 collections and images |

## Left out

- I/O is not modelled: the network, the disk contents, S3 itself, bcrypt, JWT, the JWKS client. Each call is a parameter that answers or fails.
- A database outage, or a query that throws, is not modelled. The 500 every handler's catch sends for one is therefore absent. So are the 401 `protect` sends when `findById` throws.
- An id that is not a valid ObjectId is not modelled. In the source `findById` throws a CastError and answers 500; here ids are numbers, and such ids are simply absent.
- Concurrency is not modelled: `Promise.all` and interleaved requests run sequentially, and there are no cross-document transactions.
- A `null` element in the `bulkCreateUsers` list is not modelled. The loop throws outside its per-item try, so the response is 500 after the earlier users were created.
- `getUsers` and `getUser` are plain reads of the users map without passwords and are not modelled.
- `getLoginAnalytics` and `getDownloadAnalytics` are other aggregation reports and are not modelled.
- `populate` of user, image and collection names in the recent-activity lists is not modelled; events are returned as stored.
- AnalyticsController.Day: days are UTC and do not follow the server's local time zone. `setDate(getDate() - 30)` is taken as exactly 30·86400000 ms, so daylight-saving changes are not modelled.
- Seqs.SortDesc: the order among equal keys (ties in timestamps or counts) is this model's insertion order; MongoDB leaves it unspecified.
- CollectionController.GetCollections: it returns the set of readable ids, not the populated documents in the database's order.
- Text.ToLower: only ASCII letters are lower-cased; `toLowerCase` on other scripts is not modelled.
- Storage.StagedName: the clock reading and the rounded random number are parameters, so the name's uniqueness is not modelled.
- The HTTP status of a request multer fails (`Storage.MulterError`) is not modelled: it is chosen by Express's error handler, which is outside the handlers.
- Text.Basename: trailing '/' characters are not stripped, as `path.basename` would strip them; no path or key the handlers pass ends in '/'.
- Dates in request bodies are numbers. A `createdAt` or `lastLogin` that Mongoose cannot cast, or a `createdAt` of null, is not modelled.
- `deleteCollection` calls `collection.remove()`. This is modelled as deleting the record, which is what Mongoose versions before 7 do (version 7 removed the method).
