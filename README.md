# OGbongo art gallery: the moderation store

A model of the gallery's server core. The core is two SQLite tables:

- `submissions` holds art uploaded by artists, each row `pending`, `approved` or `rejected`.
- `approved_art` holds what the public gallery shows.

The handlers that read and change the tables are modelled too:

- submit art, with the upload stage in front of it;
- list the pending submissions for the admin;
- approve and reject;
- the public gallery;
- add a Telegram post (full form and quick link);
- the start-up seeding of two sample pieces.

There are two variants of the server, and the model covers both with one flag,
`GalleryStore.uniqueTelegramIds`:

- `true` models `backend/server.js`. There `telegram_message_id` is `UNIQUE`, and
  adding from Telegram goes through the check-then-insert of `TelegramSync.manualSync`.
- `false` models `server.js`. There is no `UNIQUE` constraint, adding from Telegram is a
  plain insert, and there is no quick-add route.

Files, one module each:

- `wrappers.dfy`: `Option`, `Result`, and `Truthy`, which models JavaScript's
  `!field` test on a request body field (missing or empty means false).
- `text.dfy`: `startsWith`, and `split(sep)` followed by `pop()`.
- `ordering.dfy`: `ORDER BY ... DESC` as an insertion sort. It yields a permutation
  of the rows whose key never increases.
- `tables.dfy`: the rows, the `SELECT`/`UPDATE` statements the handlers use, and the
  table constraints.
- `upload.dfy`: the upload stage (`upload.array('images', 5)`, a 5 MB limit, and
  the filter that admits only `image/` media types).
- `telegram.dfy`: `extractImageUrl`, and how quick-add takes the message id from a link.
- `store.dfy`: the class `GalleryStore`. Its fields are the two tables, the two
  AUTOINCREMENT counters and a logical clock. It has one method per handler, and
  the two read-only queries are functions.
- `scenarios.dfy`: request sequences, each proved from the store's contracts alone.
  They start from empty tables. The running server seeds the two samples at start-up
  before it answers any request; `SeedTwice` covers that step, and the other
  scenarios leave it out so that their ids start at 1.

Timestamps (`CURRENT_TIMESTAMP`) come from a logical clock `now` that only `Tick`
advances. The name the disk storage gives an upload comes from the clock and from
randomness, so each incoming file carries it as a parameter (`storedName`).

## Model

| member | source | states |
|---|---|---|
| Text.StartsWith | backend/server.js:112 | `startsWith` holds exactly when the prefix is a prefix of the text |
| Text.JoinSplit | backend/server.js:366 | `split` loses nothing: joining the pieces with the separator gives back the text |
| Text.AfterLast | backend/server.js:366 | `split(sep).pop()` returns a piece with no separator in it. That piece ends the text and is either all of it or follows a separator |
| Text.AfterLastOfAppend | backend/server.js:366 | for any text, appending a separator and then a separator-free tail gives a text from which `split().pop()` returns exactly that tail |
| Upload.FileFilterIsImagePrefix | backend/server.js:111-117 | the file filter accepts a media type exactly when it has the form `image/<subtype>` |
| Upload.Receive | backend/server.js:106-118 | the request passes the upload stage exactly when there are at most 5 files, all under `images`, all images and none over 5 MB. On success every file is stored, in order; otherwise the error is that of the first offending file |
| Telegram.ExtractImageUrl | backend/server.js:147-154 | there is a URL exactly when the message has a non-empty `photo` array, and the URL starts with the Bot API file prefix and token |
| Telegram.ImageUrlNamesLargestPhoto | backend/server.js:149-151 | the URL's last path segment is the file id of the last (largest) photo size |
| Telegram.MessageIdFromUrl | backend/server.js:366 | the id taken from the link contains no `/`, ends the link, and follows a `/` unless it is the whole link |
| Telegram.MessageIdOfPostLink | backend/server.js:366 | for a post link `https://t.me/<channel>/<n>` the id is `n` |
| Telegram.TrailingSlashGivesEmptyId | backend/server.js:366 | a link ending in `/` yields the empty id |
| Ordering.InsertKeepsOrder | backend/server.js:326 | inserting into rows sorted newest first keeps them sorted; the new head is the inserted row or the old head |
| Ordering.InsertAddsOne | backend/server.js:326 | inserting adds exactly that one row to the multiset of rows |
| Ordering.SortDescOrders | backend/server.js:326 | `ORDER BY ... DESC` gives rows whose key never increases, as many as went in |
| Ordering.SortDescPermutes | backend/server.js:326 | `ORDER BY ... DESC` drops and duplicates no row |
| Tables.FindSubmission | backend/server.js:276 | `SELECT * FROM submissions WHERE id = ?` finds a row of the table with that id, and finds nothing exactly when no row has it |
| Tables.HasMessageIdAppend | backend/server.js:160-169 | after an insert, the `telegram_message_id` lookup finds exactly the ids it found before plus the new row's |
| Tables.AtMostOnePerMessageId | backend/server.js:59 | under the `UNIQUE` column each message id is stored at most once, and exactly once when the lookup finds it |
| Tables.CountMessageIdAppend | backend/server.js:87-89 | an insert adds one copy of its own message id and leaves every other id's count as it was |
| Tables.NoCountWithoutLookup | backend/server.js:85-86 | a message id the lookup does not find is stored zero times |
| Tables.AppendKeepsDistinct | backend/server.js:59 | inserting a row whose message id is NULL or not yet present keeps the ids unique |
| Tables.SetStatusFrame | backend/server.js:298 | `UPDATE ... SET status WHERE id = ?` leaves every other row as it was and changes only the status of the matching row |
| Tables.SetStatusUnknownId | backend/server.js:315 | an update whose id matches no row changes nothing |
| Tables.SetStatusThenFind | backend/server.js:298 | after the update, looking the id up again finds the same row with the new status |
| Tables.SetStatusKeepsIds | backend/server.js:46 | the update keeps the AUTOINCREMENT ids increasing and below the counter |
| Tables.SetStatusIdempotent | backend/server.js:315 | repeating the same status update changes nothing more |
| Tables.PendingRows | backend/server.js:256 | `WHERE status = 'pending'` yields only pending rows |
| Tables.PendingRowsMultiset | backend/server.js:256 | the filter keeps each pending row as often as the table holds it, and no other row |
| Tables.PendingRowsAppend | backend/server.js:256 | filtering a table extended by new rows gives the old result followed by the new rows' result |
| Tables.AllPendingRows | backend/server.js:256 | rows that are all pending pass the filter unchanged and in order |
| Tables.LeavesPendingList | backend/server.js:298 | once a submission is approved or rejected it no longer appears among the pending rows |
| Store.UploadUrlNamesFile | backend/server.js:262-265 | a pending entry's `image_url` has the stored file name as its last path segment |
| Store.WithUploadUrls | backend/server.js:262-265 | `rows.map` keeps every row, in order, and adds `<base>/uploads/<filename>` to each |
| Store.SortedPendingArePending | backend/server.js:256 | any ordering of the pending rows holds only pending rows |
| Store.SubmittedRowsArePending | backend/server.js:219-235 | the rows one submit inserts are appended, in order, to the rows the admin's pending list draws from |
| Store.NewSubmissionsKeepIds | backend/server.js:46 | the rows a submit inserts take fresh, increasing ids from the counter |
| Store.GalleryStore.constructor | backend/server.js:44-66 | the store opens with both tables empty and both counters at 1 |
| Store.GalleryStore.InsertSubmission | backend/server.js:221-235 | an insert into `submissions` appends one `pending` row stamped with the current time, under the next id |
| Store.GalleryStore.InsertApprovedArt | backend/server.js:286-296 | an insert into `approved_art` fails exactly when `image_url` is NULL or, under `UNIQUE`, the message id is taken. Otherwise it appends one row under the next id |
| Store.GalleryStore.SubmitArt | backend/server.js:209-252 | an upload failure is returned as is. A missing or empty artist name, or no files, gives 400. Otherwise one `pending` row is added per stored file, in order, and the reply is the number of files. A failure changes nothing |
| Store.GalleryStore.Approve | backend/server.js:272-309 | an unknown id gives 404. Otherwise the submission is copied into `approved_art` with the admin's message id and image URL. Only when that insert succeeds is its status set to `approved`, whatever it was before. A failed insert changes nothing |
| Store.GalleryStore.Reject | backend/server.js:312-322 | the status update always reports success, changes only the matching row, and does not touch `approved_art` |
| Store.GalleryStore.ManualSync | backend/server.js:157-198 | refused as already synced exactly when the message id is present. Otherwise one Telegram row is appended. Under `UNIQUE` the id is afterwards stored exactly once |
| Store.GalleryStore.AddFromTelegram | backend/server.js:335-354 | a missing or empty message id, image URL or artist name gives 400 and no change. The backend then goes through `ManualSync`, dropping `artist_social` and storing `''` for a missing description. `server.js` inserts the row as given without a duplicate check |
| Store.GalleryStore.QuickTelegramAdd | backend/server.js:357-383 | a missing or empty link gives 400. Otherwise the link's last path segment becomes the message id, the link becomes the image URL, and the row goes through `ManualSync` with the fixed artist and description |
| Store.SeedFromCounts | backend/server.js:84-92 | seeding never duplicates a sample: one already stored keeps its number of copies, and one that was missing ends up stored exactly once, on either variant |
| Store.SeedFromShape | backend/server.js:84-92 | seeding only appends, at most one row per sample, every appended row is a sample row, and afterwards every sample's id is present |
| Store.SeedFromAllPresent | backend/server.js:84-92 | seeding a table that already holds both samples leaves it unchanged |
| Store.GalleryStore.SeedSamples | backend/server.js:84-92 | the new `approved_art` is the old one with the rows of the missing samples appended, in list order, under the next ids, and the id counter advances by the number appended. Afterwards both sample ids are present and the appended rows are all sample rows |
| Store.GalleryStore.Gallery | backend/server.js:325-332 | the gallery holds every `approved_art` row exactly once, newest `approved_date` first |
| Store.GalleryStore.PendingSubmissions | backend/server.js:255-269 | the admin list holds exactly the pending rows, newest first, each with its `image_url` |
| Scenarios.SubmitThenList | backend/server.js:209-269 | one JPEG submitted as "Ada" gives a count of 1 and one pending entry whose URL names the stored file |
| Scenarios.EmptyArtistName | backend/server.js:213-215 | an empty artist name is refused with 400 and nothing is stored |
| Scenarios.OversizedFile | backend/server.js:108-110 | a 6 MB image fails the upload stage with the size error and nothing is stored |
| Scenarios.ApproveThenGallery | backend/server.js:272-332 | approving marks the submission approved and puts one row with its message id, submission id and artist into the gallery |
| Scenarios.ApproveTwice | backend/server.js:272-309 | approving the same submission twice succeeds both times and leaves two gallery rows copied from it |
| Scenarios.UnknownId | backend/server.js:280-322 | approving an unknown id gives 404 and changes nothing; rejecting it still reports success |
| Scenarios.SyncTwiceUnique | backend/server.js:157-198 | under `UNIQUE`, adding the same message twice stores it once and refuses the second add |
| Scenarios.SyncTwicePlain | server.js:280-305 | without `UNIQUE`, the same message is stored twice |
| Scenarios.QuickAddPostLink | backend/server.js:357-383 | quick-adding `https://t.me/<channel>/123` stores the message id `123` |
| Scenarios.SeedEmptyTable | backend/server.js:84-92 | seeding an empty table appends `sample1` then `sample2` under ids 1 and 2 |
| Scenarios.SeedTwice | backend/server.js:84-92 | seeding an empty table twice (a restart) leaves exactly the rows `sample1` and `sample2`, in list order, under ids 1 and 2 |

`server.js` differs from the backend only where the flag says. Its schema (`server.js:43-53`,
no `UNIQUE`), its upload stage (`server.js:95-107`) and its handlers (`server.js:128-305`)
follow the same contracts.

The handlers do not check a submission's status:

- Approve has no "must be pending" check. Any existing submission can be approved,
  including one already approved or rejected, and each approval adds another gallery row.
- Reject reports success even for an id that matches no row.

## Left out

- HTTP: routing, status codes (modelled as the `Error` values), JSON bodies, CORS,
  static files and `sendFile`. Also left out: the root, admin-page and health routes,
  and the `telegram-status` route.
- The `uploads` directory creation, and where files land on disk.
- Generated upload file names: they depend on `Date.now()` and `Math.random()`, so
  each file carries the name as the `storedName` parameter.
- Email notification after a submit in `server.js` (nodemailer). Failures there are
  caught and logged, so they never change the reply or the tables.
- `TelegramSync.syncFromTelegram`, the `telegram-sync` route and its periodic timer.
  They are a stub that always reports zero synced messages and touches no table.
- Real timestamps: `CURRENT_TIMESTAMP` is the logical clock `now`.
- Rows with equal dates: SQLite leaves their order unspecified, and so does the model.
- Driver errors (the `Database error` and other 500 paths not caused by a constraint),
  callbacks and concurrency.
- Store.GalleryStore.ManualSync: each handler is one atomic step. The model does not
  capture the race in which two concurrent requests both pass the duplicate lookup;
  under `UNIQUE` the second insert would then fail as a constraint error.
- Store.GalleryStore.SeedSamples: the callbacks of the two sample lookups run one after
  the other. That makes no difference here, because the two samples have distinct ids.
- Request body values other than strings (numbers, arrays, JSON `null` as distinct
  from a missing field). A field is either absent (`None`) or a string.
- Route parameter `:id` is taken as an integer. SQLite's comparison of a text
  parameter with an INTEGER column is not modelled.
- Multer behaviour beyond what the configuration names: multipart parsing, and the
  cleanup of files already written when a later file fails.
- Store.GalleryStore.QuickTelegramAdd: only the backend has this route, so the method
  requires `uniqueTelegramIds`.
