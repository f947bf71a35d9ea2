/**
 * The gallery store behind both servers: the `submissions` and `approved_art`
 * tables, each handler as one sequential step over them, and the two read-only
 * queries (the public gallery and the admin's pending list).
 *
 * `uniqueTelegramIds` selects the variant. When true the store is that of
 * backend/server.js: `telegram_message_id` is UNIQUE, add-from-telegram goes
 * through the check-then-insert of `TelegramSync.manualSync`, and the quick-add
 * route exists. When false it is that of server.js: no UNIQUE constraint and a
 * plain insert.
 */
module Store {
  import opened Wrappers
  import opened Tables
  import opened Upload
  import Ordering
  import Telegram
  import Text

  /** The handlers' error replies (HTTP status codes are left to the router). */
  datatype Error =
    | UploadRejected(reason: UploadError)   // multer failed the request
    | MissingFields                         // 400: a required body field is missing or empty
    | NotFound                              // 404: 'Submission not found'
    | InsertFailed                          // 500: the INSERT broke a table constraint
    | AlreadySynced                         // 400: 'This Telegram message is already synced'

  /** A pending row as the admin list returns it, with its `image_url` added. */
  datatype PendingEntry = PendingEntry(submission: Submission, imageUrl: string)

  function EntryRows(entries: seq<PendingEntry>): (rows: seq<Submission>)
    ensures |rows| == |entries|
    ensures forall i :: 0 <= i < |entries| ==> rows[i] == entries[i].submission
  {
    seq(|entries|, i requires 0 <= i < |entries| => entries[i].submission)
  }

  /** `${WEBSITE_URL}/uploads/${row.filename}`. */
  function UploadUrl(baseUrl: string, filename: string): string
  {
    baseUrl + "/uploads/" + filename
  }

  /** The URL leads back to the stored file: its last path segment is the file name. */
  lemma UploadUrlNamesFile(baseUrl: string, filename: string)
    requires '/' !in filename
    ensures Text.AfterLast(UploadUrl(baseUrl, filename), '/') == filename
  {
    assert UploadUrl(baseUrl, filename) == (baseUrl + "/uploads") + ['/'] + filename;
    Text.AfterLastOfAppend(baseUrl + "/uploads", '/', filename);
  }

  /** The rows one successful submit inserts: one `pending` row per file, ids counting up from `firstId`. */
  function NewSubmissions(firstId: nat, artistName: string, artistSocial: Option<string>,
                          artDescription: Option<string>, files: seq<StoredFile>, date: nat): seq<Submission>
  {
    seq(|files|, i requires 0 <= i < |files| =>
      Submission(firstId + i, artistName, artistSocial, artDescription,
                 files[i].filename, files[i].originalName, date, Pending))
  }

  /**
   * A successful submit adds exactly its new rows, in order, to the pending rows
   * that the admin list shows.
   */
  lemma SubmittedRowsArePending(rows: seq<Submission>, firstId: nat, artistName: string, artistSocial: Option<string>,
                                artDescription: Option<string>, files: seq<StoredFile>, date: nat)
    ensures var added := NewSubmissions(firstId, artistName, artistSocial, artDescription, files, date);
            PendingRows(rows + added) == PendingRows(rows) + added
  {
    var added := NewSubmissions(firstId, artistName, artistSocial, artDescription, files, date);
    PendingRowsAppend(rows, added);
    AllPendingRows(added);
  }

  /** The new rows' ids are fresh: above every id already in a table whose counter was at `firstId`. */
  lemma NewSubmissionsKeepIds(rows: seq<Submission>, firstId: nat, artistName: string, artistSocial: Option<string>,
                              artDescription: Option<string>, files: seq<StoredFile>, date: nat)
    requires SubmissionIdsBelow(rows, firstId)
    ensures SubmissionIdsBelow(rows + NewSubmissions(firstId, artistName, artistSocial, artDescription, files, date),
                               firstId + |files|)
  {
  }

  /** Each row paired with the URL of its uploaded file, in the same order. */
  function WithUploadUrls(rows: seq<Submission>, baseUrl: string): (entries: seq<PendingEntry>)
    ensures EntryRows(entries) == rows
    ensures forall i :: 0 <= i < |entries| ==> entries[i].imageUrl == UploadUrl(baseUrl, entries[i].submission.filename)
  {
    var entries := seq(|rows|, i requires 0 <= i < |rows| => PendingEntry(rows[i], UploadUrl(baseUrl, rows[i].filename)));
    assert EntryRows(entries) == rows;
    entries
  }

  /** Any rearrangement of the pending rows holds only pending rows. */
  lemma SortedPendingArePending(table: seq<Submission>, rows: seq<Submission>)
    requires multiset(rows) == multiset(PendingRows(table))
    ensures forall i :: 0 <= i < |rows| ==> rows[i].status == Pending
  {
    forall i | 0 <= i < |rows| ensures rows[i].status == Pending {
      assert rows[i] in multiset(PendingRows(table));
    }
  }

  /**
   * An INSERT into `approved_art` fails when `image_url` is NULL (NOT NULL column)
   * or, with the UNIQUE column, when the message id is already present.
   */
  predicate InsertViolates(unique: bool, rows: seq<ApprovedArt>, messageId: Option<string>, imageUrl: Option<string>)
  {
    imageUrl.None? || (unique && messageId.Some? && HasMessageId(rows, messageId.value))
  }

  /** One entry of the start-up `sampleArt` list. */
  datatype SampleArt = SampleArt(messageId: string, imageUrl: string, artistName: string, artDescription: string)

  const Samples: seq<SampleArt> := [
    SampleArt("sample1", "https://i.postimg.cc/vcdNBfRV/file-00000000847861f9a26eb77000b75bbb.png",
              "OGbongo Team", "Original Bongo Character"),
    SampleArt("sample2", "https://i.postimg.cc/ThvzyZg1/20250806-131538.jpg",
              "OGbongo Team", "Bongo Evolution")
  ]

  /** The row seeding inserts for sample `k` under id `id`: no submission, no social handle. */
  function SampleRow(k: nat, id: nat, date: nat): ApprovedArt
    requires k < |Samples|
  {
    ApprovedArt(id, None, Some(Samples[k].messageId), Samples[k].imageUrl, Samples[k].artistName,
                None, Some(Samples[k].artDescription), date)
  }

  /**
   * The table after seeding samples `k..` in order: a sample whose message id the
   * table already holds is skipped, any other is appended under the next id.
   */
  function SeedFrom(rows: seq<ApprovedArt>, nextId: nat, date: nat, k: nat): seq<ApprovedArt>
    requires k <= |Samples|
    decreases |Samples| - k
  {
    if k == |Samples| then rows
    else if HasMessageId(rows, Samples[k].messageId) then SeedFrom(rows, nextId, date, k + 1)
    else SeedFrom(rows + [SampleRow(k, nextId, date)], nextId + 1, date, k + 1)
  }

  /**
   * Seeding never duplicates a sample: one that was present keeps its number of
   * copies, one that was absent ends up stored exactly once.
   */
  lemma {:induction false} SeedFromCounts(rows: seq<ApprovedArt>, nextId: nat, date: nat, k: nat, m: nat)
    requires k <= |Samples| && m < |Samples|
    decreases |Samples| - k
    ensures var id := Samples[m].messageId;
            CountMessageId(SeedFrom(rows, nextId, date, k), id) ==
              if m < k || HasMessageId(rows, id) then CountMessageId(rows, id) else 1
  {
    var id := Samples[m].messageId;
    if k < |Samples| {
      var s := Samples[k].messageId;
      if HasMessageId(rows, s) {
        SeedFromCounts(rows, nextId, date, k + 1, m);
      } else {
        var row := SampleRow(k, nextId, date);
        SeedFromCounts(rows + [row], nextId + 1, date, k + 1, m);
        CountMessageIdAppend(rows, row, id);
        HasMessageIdAppend(rows, row, id);
        if m == k {
          NoCountWithoutLookup(rows, id);
        } else {
          assert Samples[0].messageId != Samples[1].messageId;
        }
      }
    }
  }

  /**
   * Seeding only appends, at most one row per remaining sample, each a sample row,
   * and afterwards every remaining sample's id is present.
   */
  lemma {:induction false} SeedFromShape(rows: seq<ApprovedArt>, nextId: nat, date: nat, k: nat)
    requires k <= |Samples|
    decreases |Samples| - k
    ensures rows <= SeedFrom(rows, nextId, date, k)
    ensures |SeedFrom(rows, nextId, date, k)| <= |rows| + (|Samples| - k)
    ensures forall j :: |rows| <= j < |SeedFrom(rows, nextId, date, k)| ==> IsSampleRow(SeedFrom(rows, nextId, date, k)[j])
    ensures forall m :: k <= m < |Samples| ==> HasMessageId(SeedFrom(rows, nextId, date, k), Samples[m].messageId)
  {
    if k < |Samples| {
      var s := Samples[k].messageId;
      var result := SeedFrom(rows, nextId, date, k);
      if HasMessageId(rows, s) {
        SeedFromShape(rows, nextId, date, k + 1);
        var i :| 0 <= i < |rows| && rows[i].telegramMessageId == Some(s);
        assert result[i] == rows[i];
      } else {
        var row := SampleRow(k, nextId, date);
        var longer := rows + [row];
        SeedFromShape(longer, nextId + 1, date, k + 1);
        assert result[|rows|] == row;
        assert IsSampleRow(row);
      }
    }
  }

  /** Seeding from scratch leaves a table that already holds every sample as it was. */
  lemma {:induction false} SeedFromAllPresent(rows: seq<ApprovedArt>, nextId: nat, date: nat, k: nat)
    requires k <= |Samples|
    requires forall m :: 0 <= m < |Samples| ==> HasMessageId(rows, Samples[m].messageId)
    decreases |Samples| - k
    ensures SeedFrom(rows, nextId, date, k) == rows
  {
    if k < |Samples| {
      SeedFromAllPresent(rows, nextId, date, k + 1);
    }
  }

  /** A row seeding inserts for a sample: no submission, no social handle. */
  ghost predicate IsSampleRow(row: ApprovedArt)
  {
    exists k :: 0 <= k < |Samples| &&
      row.submissionId == None && row.telegramMessageId == Some(Samples[k].messageId) &&
      row.imageUrl == Samples[k].imageUrl && row.artistName == Samples[k].artistName &&
      row.artistSocial == None && row.artDescription == Some(Samples[k].artDescription)
  }

  class GalleryStore {
    /** True for backend/server.js (UNIQUE `telegram_message_id`), false for server.js. */
    const uniqueTelegramIds: bool
    var submissions: seq<Submission>
    var approvedArt: seq<ApprovedArt>
    /** The AUTOINCREMENT counters of the two tables. */
    var nextSubmissionId: nat
    var nextArtId: nat
    /** A logical clock standing in for CURRENT_TIMESTAMP. */
    var now: nat

    ghost predicate Valid()
      reads this
    {
      && SubmissionIdsBelow(submissions, nextSubmissionId)
      && ArtIdsBelow(approvedArt, nextArtId)
      && (uniqueTelegramIds ==> DistinctMessageIds(approvedArt))
    }

    /** `CREATE TABLE IF NOT EXISTS` on a fresh database: both tables empty. */
    constructor (uniqueTelegramIds: bool)
      ensures Valid()
      ensures this.uniqueTelegramIds == uniqueTelegramIds
      ensures submissions == [] && approvedArt == []
      ensures nextSubmissionId == 1 && nextArtId == 1 && now == 0
    {
      this.uniqueTelegramIds := uniqueTelegramIds;
      submissions := [];
      approvedArt := [];
      nextSubmissionId := 1;
      nextArtId := 1;
      now := 0;
    }

    /** Time passes: later inserts get a later timestamp. */
    method Tick()
      requires Valid()
      modifies this
      ensures Valid()
      ensures now == old(now) + 1
      ensures submissions == old(submissions) && approvedArt == old(approvedArt)
      ensures nextSubmissionId == old(nextSubmissionId) && nextArtId == old(nextArtId)
    {
      now := now + 1;
    }

    /** `INSERT INTO submissions (...)`: a `pending` row stamped with the current time. */
    method InsertSubmission(artistName: string, artistSocial: Option<string>, artDescription: Option<string>,
                            file: StoredFile) returns (id: nat)
      requires Valid()
      modifies this
      ensures Valid()
      ensures id == old(nextSubmissionId) && nextSubmissionId == id + 1
      ensures submissions == old(submissions) +
        [Submission(id, artistName, artistSocial, artDescription, file.filename, file.originalName, now, Pending)]
      ensures approvedArt == old(approvedArt) && nextArtId == old(nextArtId) && now == old(now)
    {
      id := nextSubmissionId;
      submissions := submissions +
        [Submission(id, artistName, artistSocial, artDescription, file.filename, file.originalName, now, Pending)];
      nextSubmissionId := nextSubmissionId + 1;
    }

    /** `INSERT INTO approved_art (...)`, refused when it would break a column constraint. */
    method InsertApprovedArt(submissionId: Option<nat>, messageId: Option<string>, imageUrl: Option<string>,
                             artistName: string, artistSocial: Option<string>, artDescription: Option<string>)
      returns (r: Result<nat, Error>)
      requires Valid()
      modifies this
      ensures Valid()
      ensures r.Failure? <==> InsertViolates(uniqueTelegramIds, old(approvedArt), messageId, imageUrl)
      ensures r.Failure? ==> r.error == InsertFailed && unchanged(this)
      ensures r.Success? ==>
        && r.value == old(nextArtId) && nextArtId == r.value + 1
        && approvedArt == old(approvedArt) +
             [ApprovedArt(r.value, submissionId, messageId, imageUrl.value, artistName, artistSocial, artDescription, now)]
      ensures submissions == old(submissions) && nextSubmissionId == old(nextSubmissionId) && now == old(now)
    {
      if InsertViolates(uniqueTelegramIds, approvedArt, messageId, imageUrl) {
        return Failure(InsertFailed);
      }
      var row := ApprovedArt(nextArtId, submissionId, messageId, imageUrl.value, artistName, artistSocial, artDescription, now);
      if uniqueTelegramIds {
        AppendKeepsDistinct(approvedArt, row);
      }
      approvedArt := approvedArt + [row];
      r := Success(nextArtId);
      nextArtId := nextArtId + 1;
    }

    /**
     * `POST /api/submit-art`: the upload stage, then the artist-name and file-count
     * check, then one `pending` row per file. Replies with the number of files.
     */
    method SubmitArt(artistName: Option<string>, artistSocial: Option<string>, artDescription: Option<string>,
                     files: seq<IncomingFile>) returns (r: Result<nat, Error>)
      requires Valid()
      modifies this
      ensures Valid()
      ensures r.Failure? ==> unchanged(this)
      ensures Receive(files).Failure? ==> r == Failure(UploadRejected(Receive(files).error))
      ensures Receive(files).Success? && (!Truthy(artistName) || |files| == 0) ==> r == Failure(MissingFields)
      ensures r.Success? <==> Receive(files).Success? && Truthy(artistName) && |files| > 0
      ensures r.Success? ==>
        && r.value == |files|
        && submissions == old(submissions) +
             NewSubmissions(old(nextSubmissionId), artistName.value, artistSocial, artDescription,
                            Receive(files).value, now)
        && nextSubmissionId == old(nextSubmissionId) + |files|
      ensures approvedArt == old(approvedArt) && nextArtId == old(nextArtId) && now == old(now)
    {
      var received := Receive(files);
      if received.Failure? {
        return Failure(UploadRejected(received.error));
      }
      if !Truthy(artistName) || |files| == 0 {
        return Failure(MissingFields);
      }
      var stored := received.value;
      ghost var firstId := nextSubmissionId;
      var i := 0;
      while i < |stored|
        invariant 0 <= i <= |stored|
        invariant Valid()
        invariant submissions == old(submissions) +
                    NewSubmissions(firstId, artistName.value, artistSocial, artDescription, stored[..i], now)
        invariant nextSubmissionId == firstId + i
        invariant approvedArt == old(approvedArt) && nextArtId == old(nextArtId) && now == old(now)
      {
        var id := InsertSubmission(artistName.value, artistSocial, artDescription, stored[i]);
        assert NewSubmissions(firstId, artistName.value, artistSocial, artDescription, stored[..i + 1], now) ==
               NewSubmissions(firstId, artistName.value, artistSocial, artDescription, stored[..i], now) +
               [Submission(id, artistName.value, artistSocial, artDescription,
                           stored[i].filename, stored[i].originalName, now, Pending)];
        i := i + 1;
      }
      assert stored[..|stored|] == stored;
      r := Success(|files|);
    }

    /**
     * `POST /api/admin/approve/:id`: look the submission up, copy it into
     * `approved_art` with the admin's message id and image URL, and only when
     * that insert succeeds set its status to `approved`. Whatever the status was
     * before: an approved or rejected submission can be approved (again).
     */
    method Approve(id: int, messageId: Option<string>, imageUrl: Option<string>) returns (r: Result<nat, Error>)
      requires Valid()
      modifies this
      ensures Valid()
      ensures r == Failure(NotFound) <==> FindSubmission(old(submissions), id).None?
      ensures r == Failure(InsertFailed) <==>
        FindSubmission(old(submissions), id).Some? && InsertViolates(uniqueTelegramIds, old(approvedArt), messageId, imageUrl)
      ensures r.Failure? ==> (r.error == NotFound || r.error == InsertFailed) && unchanged(this)
      ensures r.Success? ==>
        var sub := FindSubmission(old(submissions), id).value;
        && r.value == old(nextArtId) && nextArtId == r.value + 1
        && approvedArt == old(approvedArt) +
             [ApprovedArt(r.value, Some(sub.id), messageId, imageUrl.value,
                          sub.artistName, sub.artistSocial, sub.artDescription, now)]
        && submissions == SetStatus(old(submissions), id, Approved)
      ensures nextSubmissionId == old(nextSubmissionId) && now == old(now)
    {
      var found := FindSubmission(submissions, id);
      if found.None? {
        return Failure(NotFound);
      }
      var sub := found.value;
      r := InsertApprovedArt(Some(sub.id), messageId, imageUrl, sub.artistName, sub.artistSocial, sub.artDescription);
      if r.Success? {
        SetStatusKeepsIds(submissions, nextSubmissionId, id, Approved);
        submissions := SetStatus(submissions, id, Approved);
      }
    }

    /** `POST /api/admin/reject/:id`: an unconditional status update that always reports success. */
    method Reject(id: int) returns (ok: bool)
      requires Valid()
      modifies this
      ensures Valid()
      ensures ok
      ensures submissions == SetStatus(old(submissions), id, Rejected)
      ensures approvedArt == old(approvedArt)
      ensures nextSubmissionId == old(nextSubmissionId) && nextArtId == old(nextArtId) && now == old(now)
    {
      SetStatusKeepsIds(submissions, nextSubmissionId, id, Rejected);
      submissions := SetStatus(submissions, id, Rejected);
      ok := true;
    }

    /**
     * `TelegramSync.manualSync` (backend/server.js): refuse a message id that is
     * already in `approved_art`, otherwise insert one Telegram row and return its id.
     */
    method ManualSync(imageUrl: string, messageId: string, artistName: string, description: string)
      returns (r: Result<nat, Error>)
      requires Valid()
      modifies this
      ensures Valid()
      ensures r.Failure? <==> HasMessageId(old(approvedArt), messageId)
      ensures r.Failure? ==> r.error == AlreadySynced && unchanged(this)
      ensures r.Success? ==>
        && r.value == old(nextArtId) && nextArtId == r.value + 1
        && approvedArt == old(approvedArt) +
             [ApprovedArt(r.value, None, Some(messageId), imageUrl, artistName, None, Some(description), now)]
      ensures uniqueTelegramIds ==> CountMessageId(approvedArt, messageId) == 1
      ensures submissions == old(submissions) && nextSubmissionId == old(nextSubmissionId) && now == old(now)
    {
      if HasMessageId(approvedArt, messageId) {
        r := Failure(AlreadySynced);
      } else {
        r := InsertApprovedArt(None, Some(messageId), Some(imageUrl), artistName, None, Some(description));
        assert HasMessageId(approvedArt, messageId) by {
          assert approvedArt[|approvedArt| - 1].telegramMessageId == Some(messageId);
        }
      }
      if uniqueTelegramIds {
        AtMostOnePerMessageId(approvedArt, messageId);
      }
    }

    /**
     * `POST /api/admin/add-from-telegram`: the message id, image URL and artist
     * name must be present and non-empty. The backend then runs `ManualSync`
     * (dropping `artist_social`, and storing '' for a missing description); the
     * other server inserts the row as given, with no duplicate check.
     */
    method AddFromTelegram(messageId: Option<string>, imageUrl: Option<string>, artistName: Option<string>,
                           artistSocial: Option<string>, artDescription: Option<string>) returns (r: Result<nat, Error>)
      requires Valid()
      modifies this
      ensures Valid()
      ensures !(Truthy(messageId) && Truthy(imageUrl) && Truthy(artistName)) ==>
        r == Failure(MissingFields) && unchanged(this)
      ensures Truthy(messageId) && Truthy(imageUrl) && Truthy(artistName) && uniqueTelegramIds ==>
        && (r.Failure? <==> HasMessageId(old(approvedArt), messageId.value))
        && (r.Failure? ==> r.error == AlreadySynced && unchanged(this))
        && (r.Success? ==>
              approvedArt == old(approvedArt) +
                [ApprovedArt(old(nextArtId), None, messageId, imageUrl.value, artistName.value,
                             None, Some(artDescription.GetOr("")), now)])
      ensures Truthy(messageId) && Truthy(imageUrl) && Truthy(artistName) && !uniqueTelegramIds ==>
        && r == Success(old(nextArtId))
        && approvedArt == old(approvedArt) +
             [ApprovedArt(old(nextArtId), None, messageId, imageUrl.value, artistName.value,
                          artistSocial, artDescription, now)]
      ensures r.Success? ==> r.value == old(nextArtId) && nextArtId == old(nextArtId) + 1
      ensures submissions == old(submissions) && nextSubmissionId == old(nextSubmissionId) && now == old(now)
    {
      if !Truthy(messageId) || !Truthy(imageUrl) || !Truthy(artistName) {
        return Failure(MissingFields);
      }
      if uniqueTelegramIds {
        r := ManualSync(imageUrl.value, messageId.value, artistName.value, artDescription.GetOr(""));
      } else {
        r := InsertApprovedArt(None, messageId, imageUrl, artistName.value, artistSocial, artDescription);
      }
    }

    /**
     * `POST /api/admin/quick-telegram-add` (backend/server.js only): the message id is
     * the last path segment of the link, which also serves as the image URL.
     */
    method QuickTelegramAdd(telegramUrl: Option<string>) returns (r: Result<nat, Error>)
      requires Valid()
      requires uniqueTelegramIds
      modifies this
      ensures Valid()
      ensures !Truthy(telegramUrl) ==> r == Failure(MissingFields) && unchanged(this)
      ensures Truthy(telegramUrl) ==>
        var messageId := Telegram.MessageIdFromUrl(telegramUrl.value);
        && (r.Failure? <==> HasMessageId(old(approvedArt), messageId))
        && (r.Failure? ==> r.error == AlreadySynced && unchanged(this))
        && (r.Success? ==>
              && r.value == old(nextArtId) && nextArtId == r.value + 1
              && approvedArt == old(approvedArt) +
                   [ApprovedArt(r.value, None, Some(messageId), telegramUrl.value, "Telegram Community",
                                None, Some("Art from Telegram channel"), now)])
      ensures submissions == old(submissions) && nextSubmissionId == old(nextSubmissionId) && now == old(now)
    {
      if !Truthy(telegramUrl) {
        return Failure(MissingFields);
      }
      var messageId := Telegram.MessageIdFromUrl(telegramUrl.value);
      r := ManualSync(telegramUrl.value, messageId, "Telegram Community", "Art from Telegram channel");
    }

    /**
     * Start-up seeding: each sample whose message id is not yet in `approved_art`
     * is inserted. On a database that already holds them nothing is added, so a
     * restart never duplicates the samples.
     */
    method SeedSamples()
      requires Valid()
      modifies this
      ensures Valid()
      ensures approvedArt == SeedFrom(old(approvedArt), old(nextArtId), now, 0)
      ensures nextArtId == old(nextArtId) + (|approvedArt| - |old(approvedArt)|)
      ensures forall k :: 0 <= k < |Samples| ==> HasMessageId(approvedArt, Samples[k].messageId)
      ensures old(approvedArt) <= approvedArt
      ensures |approvedArt| <= |old(approvedArt)| + |Samples|
      ensures forall j :: |old(approvedArt)| <= j < |approvedArt| ==> IsSampleRow(approvedArt[j])
      ensures (forall k :: 0 <= k < |Samples| ==> HasMessageId(old(approvedArt), Samples[k].messageId)) ==>
                approvedArt == old(approvedArt)
      ensures submissions == old(submissions) && nextSubmissionId == old(nextSubmissionId) && now == old(now)
    {
      var k := 0;
      while k < |Samples|
        invariant 0 <= k <= |Samples|
        invariant Valid()
        invariant submissions == old(submissions) && nextSubmissionId == old(nextSubmissionId) && now == old(now)
        invariant nextArtId == old(nextArtId) + (|approvedArt| - |old(approvedArt)|)
        invariant SeedFrom(approvedArt, nextArtId, now, k) == SeedFrom(old(approvedArt), old(nextArtId), now, 0)
      {
        var art := Samples[k];
        if !HasMessageId(approvedArt, art.messageId) {
          ghost var before := approvedArt;
          ghost var row := SampleRow(k, nextArtId, now);
          var _ := InsertApprovedArt(None, Some(art.messageId), Some(art.imageUrl), art.artistName,
                                     None, Some(art.artDescription));
          assert approvedArt == before + [row];
        }
        k := k + 1;
      }
      SeedFromShape(old(approvedArt), old(nextArtId), now, 0);
      if forall m :: 0 <= m < |Samples| ==> HasMessageId(old(approvedArt), Samples[m].messageId) {
        SeedFromAllPresent(old(approvedArt), old(nextArtId), now, 0);
      }
    }

    /** `GET /api/gallery`: every `approved_art` row, newest `approved_date` first. */
    function Gallery(): (rows: seq<ApprovedArt>)
      reads this
      ensures multiset(rows) == multiset(approvedArt)
      ensures Ordering.NonIncreasing(rows, ApprovedDate)
    {
      Ordering.SortDescOrders(approvedArt, ApprovedDate);
      Ordering.SortDescPermutes(approvedArt, ApprovedDate);
      Ordering.SortDesc(approvedArt, ApprovedDate)
    }

    /**
     * `GET /api/admin/submissions`: exactly the `pending` rows, newest first, each
     * with `image_url` pointing at its uploaded file under `baseUrl`.
     */
    function PendingSubmissions(baseUrl: string): (entries: seq<PendingEntry>)
      reads this
      ensures multiset(EntryRows(entries)) == multiset(PendingRows(submissions))
      ensures Ordering.NonIncreasing(EntryRows(entries), SubmissionDate)
      ensures forall i :: 0 <= i < |entries| ==>
                entries[i].submission.status == Pending &&
                entries[i].imageUrl == UploadUrl(baseUrl, entries[i].submission.filename)
    {
      Ordering.SortDescOrders(PendingRows(submissions), SubmissionDate);
      Ordering.SortDescPermutes(PendingRows(submissions), SubmissionDate);
      var rows := Ordering.SortDesc(PendingRows(submissions), SubmissionDate);
      SortedPendingArePending(submissions, rows);
      WithUploadUrls(rows, baseUrl)
    }
  }
}
