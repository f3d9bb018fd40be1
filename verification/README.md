# Files manager: file-metadata engine and user registration in Dafny

This project models the two controllers that carry the logic of a small file
manager with an HTTP API:

- **FilesController**: the files collection, where each document is a folder,
  a file or an image owned by a user and placed at the root or inside a folder.
  The model covers upload with its ordered validation chain, the id shape check
  that makes lookups fail closed, showing one node, paginated listing of a
  folder's children (newest first, 20 per page), publish and unpublish, and the
  access decision for reading a node's content.
- **UsersController**: registration, with its ordered checks and a
  unique-email insert that stores the SHA-1 digest of the password.

The collections are in-memory tables. `FileStore` holds the files table (oldest
first), an id counter, the thumbnail job log and the set of locators whose
content has been written. `UserStore` holds the users table and its id counter.
Ids are natural numbers from a counter that starts at 1. `HexId` renders an id
in its 24-character hexadecimal form, and `Key` reads a request id back. `Key`
reads any id that fails the shape check as the all-zero id, and no stored node
has that id.

Modules, one per file:

- `Basics` (`basics.dfy`): Option, Result, and the JavaScript "missing field" test.
- `ObjectIds` (`object_ids.dfy`): the id shape check, hexadecimal rendering and reading, and the round trip between them.
- `PageQuery` (`page_query.dfy`): the `page` query parameter: the digit test and JavaScript `parseInt` with radix 10.
- `FileTable` (`file_table.dfy`): the `FileNode` record, its views, lookups by id and by id plus owner, and the table invariant.
- `FilesController` (`files_controller.dfy`): the handlers. The read-only ones are functions. Upload and the visibility toggle are methods of the class `FileStore`, each proved against a function (`Upload`, `SetPublic`).
- `FileScenarios` (`file_scenarios.dfy`): properties spanning several handlers.
- `UsersController` (`users_controller.dfy`): the `Register` function, the class `UserStore` and its `PostNew` method.

The model keeps two behaviours of the code as written:

- A private folder requested by someone other than its owner is answered "not found", not "a folder doesn't have content".
- A `page` of `-1` passes the digit test and parses to -1, so the database's skip stage receives -1 * 20 = -20; it is not treated as page 0 (see `GetIndex` under "Left out").

## Model

| member | source | states |
|---|---|---|
| `ObjectIds.CheckId` | controllers/FilesController.js:30-51 | the loop accepts exactly the strings of length 24 whose every character is in 0-9, a-f or A-F |
| `ObjectIds.CharRangesAreHexDigits` | controllers/FilesController.js:33-37 | a character code lies in one of the three ranges 48-57, 97-102, 65-70 iff the character is a hex digit |
| `ObjectIds.HexId` | controllers/FilesController.js:119 | the textual form of every id passes the shape check and is lower case |
| `ObjectIds.NullIdIsZero` | controllers/FilesController.js:29 | the all-zero id passes the shape check and denotes id 0 |
| `ObjectIds.Key` | controllers/FilesController.js:79-81 | a request id that fails the shape check is read as the all-zero id (0); every key is within the 24-digit id space |
| `ObjectIds.DigitsValue` | controllers/FilesController.js:119 | reading back the last k hex digits of n gives n modulo 16^k |
| `ObjectIds.KeyOfHexId` | controllers/FilesController.js:145 | an id rendered as text and read back by a lookup is the same id |
| `ObjectIds.HexIdInjective` | controllers/FilesController.js:119 | distinct ids have distinct textual forms |
| `PageQuery.TrimStart` | controllers/FilesController.js:172 | the integer parser drops exactly the leading white space and keeps the rest |
| `PageQuery.DigitRun` | controllers/FilesController.js:172 | the parser reads the longest run of decimal digits at the front |
| `PageQuery.ParseDigits` | controllers/FilesController.js:172 | a text gives a number iff it starts with a decimal digit, and that number is never negative |
| `PageQuery.ParseTrimmed` | controllers/FilesController.js:172 | after an optional '+' or '-', the result is NaN iff no digit comes next; a number means the text has a digit, and a negative one that it starts with '-' |
| `PageQuery.ParseInt` | controllers/FilesController.js:172 | leading white space is skipped; the result is NaN iff what follows it and an optional sign does not start with a digit; a number exists only when the text has a digit, and it is negative only when the text starts with '-' after its white space |
| `PageQuery.ParseDigitsOfParts` | controllers/FilesController.js:172 | a run of digits followed by text that does not start with a digit parses to the run's decimal value |
| `PageQuery.ParseTrimmedOfParts` | controllers/FilesController.js:172 | an optional sign, a digit run and a rest not starting with a digit parse to the run's value, negated after '-' |
| `PageQuery.ParseIntAfterSpaces` | controllers/FilesController.js:172 | white space in front of a text that does not start with white space changes nothing in the parse |
| `PageQuery.ParseIntOfParts` | controllers/FilesController.js:172 | white space, an optional sign, a run of digits and a rest not starting with a digit parse to the digits' decimal value, negated after '-' |
| `PageQuery.ParsePage` | controllers/FilesController.js:171-173 | a page text (or no page) with no decimal digit is page 0 |
| `PageQuery.ParsePageOfDigits` | controllers/FilesController.js:171-173 | a page made only of decimal digits is the number they denote |
| `FileTable.ParseType` | controllers/FilesController.js:16-20 | exactly "folder", "file" and "image" are accepted types, each read as the kind of that name |
| `FileTable.IndexOf` | controllers/FilesController.js:76-82 | the lookup by id finds the first node with that id, or reports that no node has it |
| `FileTable.OwnedIndexOf` | controllers/FilesController.js:142-149 | the lookup by id and owner finds a node with both, or reports that no node has both |
| `FileTable.RenderParent` | controllers/FilesController.js:161-164 | the parent shown is 0 exactly for the root; a folder parent is shown as a 24-digit id that reads back as the folder's id |
| `FileTable.RecordView` | controllers/FilesController.js:192-207 | a node's view carries its id and owner as 24-digit ids that read back as the node's, its name, type and flag unchanged, and its parent rendered as 0 for the root |
| `FileTable.IndexOfUnique` | controllers/FilesController.js:76-82 | in a well-formed table the lookup by a node's id finds that very node |
| `FileTable.MalformedIdFindsNothing` | controllers/FilesController.js:142-149 | in a well-formed table a request id of the wrong shape matches no node, with or without an owner filter |
| `FilesController.Upload` | controllers/FilesController.js:54-124 | the first failing check among name, type, data, parent exists and parent is a folder is reported, each exactly when all earlier ones pass; a request passing all five is accepted; on success the node gets the next id, the requester, the given name and type, isPublic false unless given true, the root iff parentId is absent or "0", and a locator iff it is not a folder |
| `FilesController.UploadView` | controllers/FilesController.js:125-135 | the upload response carries the new id as a 24-digit id that reads back as it, the stored name, type and flag, and parentId 0 exactly when the request named the root, otherwise the text it gave |
| `FilesController.UploadErrorStatus` | controllers/FilesController.js:62-92 | every failed upload check is answered with 400 |
| `FilesController.ThumbnailJobs` | controllers/FilesController.js:121-124 | an image gives exactly one job {userId, fileId}; any other type gives none |
| `FilesController.UploadKeepsTable` | controllers/FilesController.js:75-118 | after a successful upload, ids still increase and stay below the counter; only non-folders carry locators; every parent is an existing folder |
| `FilesController.UploadKeepsStore` | controllers/FilesController.js:110-118 | after a successful upload every stored locator still has its content written |
| `FilesController.FileStore.CheckUpload` | controllers/FilesController.js:62-92 | runs the checks in the handler's order and agrees with `Upload`: the error it returns is the one `Upload` gives, and an accepted request gets the type and parent the new node is stored with |
| `FilesController.FileStore.PostUpload` | controllers/FilesController.js:54-136 | on an error nothing changes; on success exactly one node is appended, the counter advances, an image adds one job, a non-folder's content is written, and the response echoes the name, type and isPublic, with parentId 0 for the root or the given text |
| `FilesController.GetShow` | controllers/FilesController.js:138-166 | a node is returned iff one has the requested id and the requester as owner; every failure is the same "not found" |
| `FilesController.ShowFindsNode` | controllers/FilesController.js:155-165 | the response carries the node's name, type and visibility, and its parent rendered as 0 for the root |
| `FilesController.ShowErrorStatus` | controllers/FilesController.js:150-153 | a failed show is answered with 404 |
| `FilesController.ShowFailsClosed` | controllers/FilesController.js:142-154 | a malformed id and a node of another owner are both "not found" |
| `FilesController.IndexParent` | controllers/FilesController.js:170-182 | a listing asks for the root iff parentId is absent or "0"; any other parentId is read as an id, a malformed one as the all-zero id |
| `FilesController.NewestMatching` | controllers/FilesController.js:174-189 | the listing holds exactly the table's nodes with the requester as owner and the asked parent |
| `FilesController.PageOf` | controllers/FilesController.js:190-191 | a page skips page*20 entries and keeps the next min(20, rest) of them, in order |
| `FilesController.Views` | controllers/FilesController.js:192-207 | one view per listed node, in order, each with the node's owner, name, type and flag, an id that reads back as the node's, and parent 0 exactly for root nodes |
| `FilesController.GetIndex` | controllers/FilesController.js:168-212 | a listing exists iff the page parses to a number >= 0; it has at most 20 entries, all of the requester and the asked parent (the root when none is asked), and it is the views of that page of the newest-first matching nodes |
| `FilesController.PageMembers` | controllers/FilesController.js:174-191 | every node on a listing page belongs to the requester and sits under the asked parent |
| `FilesController.ViewsOfPage` | controllers/FilesController.js:190-207 | the views of page p hold min(20, rest) entries, entry j being the view of listing entry p*20+j |
| `FilesController.IndexPageEntries` | controllers/FilesController.js:168-212 | a listing for page n holds min(20, rest) entries, entry j being the view of entry n*20+j of the newest-first matching nodes |
| `FilesController.IndexNewestFirst` | controllers/FilesController.js:186-191 | in a well-formed table the entries of a listing read back to strictly decreasing ids |
| `FilesController.NewestMatchingDecreasing` | controllers/FilesController.js:189 | when table ids increase with insertion, the listing is in strictly decreasing id order |
| `FilesController.PageOfKeepsOrder` | controllers/FilesController.js:189-191 | a page of a newest-first listing is newest first and drawn from it |
| `FilesController.IndexPageShape` | controllers/FilesController.js:174-191 | in a well-formed table a page has at most 20 nodes, all in the table with the requester and the asked parent, in strictly decreasing id order |
| `FilesController.PagesCoverListing` | controllers/FilesController.js:190-191 | entry k of the listing is entry k mod 20 of page k div 20: the pages split the listing without gaps |
| `FilesController.PageWithoutDigitIsFirst` | controllers/FilesController.js:171-173 | a page text with no digit lists the same as page "0" |
| `FilesController.SetPublic` | controllers/FilesController.js:214-235 | no requester gives "unauthorized"; no node with that id and owner gives "not found" with the table unchanged; otherwise only that node's isPublic changes, to the asked value, and the updated node is returned |
| `FilesController.SetPublicErrorStatus` | controllers/FilesController.js:214-235 | a failed visibility change is 401 when no user is known and 404 otherwise |
| `FilesController.OwnedIndexOfIgnoresFlag` | controllers/FilesController.js:224-227 | changing isPublic on any node leaves every lookup by id and owner where it was |
| `FilesController.LastSetWins` | controllers/FilesController.js:244-257 | setting the flag to a, then to b, leaves the same table and response as setting it to b |
| `FilesController.SetPublicIdempotent` | controllers/FilesController.js:220-233 | publishing (or unpublishing) twice leaves the same table and response as doing it once |
| `FilesController.FlagChangeKeepsStore` | controllers/FilesController.js:222-234 | a table that differs from a well-formed one only in `isPublic` flags is itself well formed, with the same content store |
| `FilesController.SetPublicKeepsStore` | controllers/FilesController.js:222 | a visibility change keeps the store invariant |
| `FilesController.FileStore.SetVisibility` | controllers/FilesController.js:219-233 | the table becomes SetPublic's table and the response is SetPublic's; counter, jobs and content are unchanged |
| `FilesController.FileStore.PutPublish` | controllers/FilesController.js:214-236 | SetPublic with true, nothing else changes |
| `FilesController.FileStore.PutUnpublish` | controllers/FilesController.js:238-260 | SetPublic with false, nothing else changes |
| `FilesController.GetFile` | controllers/FilesController.js:262-327 | a missing id gives "not found"; success only for a non-folder that is public or owned by the requester, whose locator (path, or path_size) has content; "no content" only for a folder the requester may see |
| `FilesController.Locator` | controllers/FilesController.js:278-282 | the read uses the stored path exactly when no size is given, and a size variant extends the stored path |
| `FilesController.LocatorsDistinct` | controllers/FilesController.js:278-282 | two reads of a node use the same locator iff both ask for the original or both for the same size |
| `FilesController.GetFileErrorStatus` | controllers/FilesController.js:262-327 | a failed content read is 400 exactly when a folder's content is asked for, and 404 otherwise |
| `FilesController.GetFileDecision` | controllers/FilesController.js:266-323 | public folder gives 400; private node with no or another requester gives 404; owner's private folder gives 400; otherwise the read is of localPath, or localPath_size when a size is given, and an absent variant is 404 with no fall-back to the original |
| `FileScenarios.UploadThenShow` | controllers/FilesController.js:125-165 | showing a node just uploaded, by the id in the upload response, returns the same id, owner, name, type and isPublic, and a parent naming the same folder (or the root) |
| `FileScenarios.NoMatchNoListing` | controllers/FilesController.js:174-188 | a listing of a parent that no node has is empty |
| `FileScenarios.NothingInsideFreshId` | controllers/FilesController.js:75-92 | in a well-formed table no node has the next id as its parent |
| `FileScenarios.UploadIntoFolder` | controllers/FilesController.js:75-108 | a valid upload naming an existing folder's id as parent is accepted and stored inside that folder |
| `FileScenarios.FirstPageOfOne` | controllers/FilesController.js:170-191 | with no page given, a listing holding one node returns exactly that node's view |
| `FileScenarios.FolderThenChild` | controllers/FilesController.js:168-191 | create a folder, then a node inside it: listing the folder's children returns exactly that node |
| `FileScenarios.UploadThenRead` | controllers/FilesController.js:294-323 | after a non-folder upload, its owner reads the stored locator; if private, an anonymous requester or any other user gets "not found" |
| `UsersController.FindByEmail` | controllers/UsersController.js:23 | the lookup by email finds a user with that email, or reports that none has it |
| `UsersController.Register` | controllers/UsersController.js:7-35 | "Missing email" iff no email; "Missing password" iff an email but no password; "Already exist" iff both are given and a user has the email; success iff both are given and no user has it; any error leaves the table as it was; success appends exactly one user, with the next id, the email and sha1(password), and answers with that email and the id as a 24-digit id that reads back as it |
| `UsersController.RegisterKeepsUsersOk` | controllers/UsersController.js:23-31 | a registration keeps emails unique and ids increasing below the counter |
| `UsersController.RegisterTwiceRefused` | controllers/UsersController.js:23-28 | registering an email that was just registered is "Already exist" and leaves the table unchanged |
| `UsersController.RegisterAllKeepsUnique` | controllers/UsersController.js:23-31 | starting from unique emails, any sequence of registrations keeps emails unique |
| `UsersController.UserStore.PostNew` | controllers/UsersController.js:7-35 | the response, the table and the counter after the call are those `Register` gives for the state before it |

## Left out

- Authentication is not part of this model: `utils/auth` is not part of this model, and neither are token sessions, the key-value store wrapper or the basic-auth connect flow. Every handler takes the requester's user id as a parameter: a plain id where the code reads `req.user`, an optional one for publish, unpublish and content reads.
- The database drivers and the status and statistics handlers (`utils/db.js`, `utils/redis.js`, `controllers/AppController.js`) are replaced by the in-memory tables. Server bootstrap and route wiring (`server.js`, `routes/index.js`) are left out too.
- Filesystem effects are left out. The model does not cover the storage directory (`FOLDER_PATH` or the temporary directory), `mkdir`, base64 decoding, the bytes written or read, or the content type. The fresh locator that `uuidv4` makes is a parameter of `PostUpload`, and content existence is the set of written locators.
- Thumbnail generation is out of scope. The queue is an append-only job log; the job's display name and enqueue failures are not modelled. Whatever the external worker writes at `<path>_<size>` is outside the model beyond the locator set passed to `GetFile`.
- Request fields are modelled as optional strings (`isPublic` as an optional boolean). Other JSON values are not modelled, except that falsy ones count as absent.
- Mongo ObjectIds are modelled as counter values. A real ObjectId carries a timestamp and random bytes; the model keeps only uniqueness and creation order. The round-trip lemmas assume ids below 16^24.
- `GetIndex` returns `None` when the page parses to NaN or to a negative number (for example `-1`, or `x1`, whose text has a digit but does not start with one). The skip stage then receives a value the database rejects, and the model leaves what happens next unspecified. `parseInt`'s loss of precision above 2^53 is not modelled.
- Publish, unpublish and content reads call names that the file does not define: `ObjectID`, `FilesController.getUser`, `fs.readFile` and `mime`. The model gives these handlers the contract their filters and updates state. A request id of the wrong shape is "not found", as in the other handlers, instead of a constructor exception.
- In `GetFile`, a private read uses `sendFile`, whose failures do not reach the handler's catch block. The model answers "not found" for missing content in both branches, which is what `sendFile`'s own error path gives.
- In `PostUpload`, the parent lookup is by id alone. A node may be placed in a folder of another user, and the model keeps that behaviour.
- In `CheckId`, strings are sequences of Unicode scalar values, not UTF-16 code units. The two readings agree on the shape check, since only ASCII hex digits pass.
- Asynchronous scheduling and concurrent requests are not modelled. Each handler is one atomic step.
