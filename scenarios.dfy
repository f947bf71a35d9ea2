/**
 * Request sequences against a fresh database, each proved from the store's
 * contracts alone: what a caller of the handlers can rely on.
 */
module Scenarios {
  import opened Wrappers
  import opened Tables
  import opened Upload
  import opened Store

  /** One JPEG of 1000 bytes sent under the `images` field. */
  function Jpeg(storedName: string): IncomingFile
  {
    IncomingFile("images", "ada.jpg", "image/jpeg", 1000, storedName)
  }

  /** The upload stage stores such a file under its generated name. */
  lemma JpegAccepted(storedName: string)
    ensures Receive([Jpeg(storedName)]) == Success([StoredFile(storedName, "ada.jpg")])
  {
    var files := [Jpeg(storedName)];
    assert FileFilter("image/jpeg") by {
      assert "image/" <= "image/jpeg";
    }
    assert Acceptable(files[0]);
    var r := Receive(files);
    assert r.Success?;
    assert |r.value| == 1 && r.value[0] == Stored(files[0]);
    assert r.value == [StoredFile(storedName, "ada.jpg")];
  }

  /**
   * Submitting as "Ada" with one JPEG succeeds with a count of one and lists one
   * pending row whose image URL points at the stored file.
   */
  method SubmitThenList(unique: bool) returns (r: Result<nat, Error>, listed: seq<PendingEntry>)
    ensures r == Success(1)
    ensures |listed| == 1
    ensures listed[0].submission.artistName == "Ada" && listed[0].submission.status == Pending
    ensures listed[0].submission.filename == "1700000000000-1.jpg"
    ensures listed[0].imageUrl == UploadUrl("http://localhost:3000", "1700000000000-1.jpg")
  {
    var store := new GalleryStore(unique);
    JpegAccepted("1700000000000-1.jpg");
    assert Truthy(Some("Ada"));
    r := store.SubmitArt(Some("Ada"), None, None, [Jpeg("1700000000000-1.jpg")]);
    var row := Submission(1, "Ada", None, None, "1700000000000-1.jpg", "ada.jpg", 0, Pending);
    assert NewSubmissions(1, "Ada", None, None, [StoredFile("1700000000000-1.jpg", "ada.jpg")], 0) == [row];
    assert store.submissions == [row];
    assert PendingRows([row]) == [row];
    listed := store.PendingSubmissions("http://localhost:3000");
    assert multiset(EntryRows(listed)) == multiset([row]);
    assert |listed| == 1 by {
      assert |multiset(EntryRows(listed))| == 1;
    }
    assert EntryRows(listed)[0] in multiset([row]);
  }

  /** An empty artist name is refused and creates no submission. */
  method EmptyArtistName(unique: bool) returns (r: Result<nat, Error>, stored: seq<Submission>)
    ensures r == Failure(MissingFields)
    ensures stored == []
  {
    var store := new GalleryStore(unique);
    JpegAccepted("1700000000000-1.jpg");
    r := store.SubmitArt(Some(""), None, None, [Jpeg("1700000000000-1.jpg")]);
    stored := store.submissions;
  }

  /** A 6 MB PNG under the `images` field. */
  function BigPng(): IncomingFile
  {
    IncomingFile("images", "big.png", "image/png", 6 * 1024 * 1024, "1700000000000-2.png")
  }

  /** The upload stage refuses it for its size alone. */
  lemma BigPngRejected()
    ensures Receive([BigPng()]) == Failure(FileTooLarge)
  {
    assert FileFilter("image/png") by {
      assert "image/" <= "image/png";
    }
    assert FileError(BigPng(), 0) == Some(FileTooLarge);
    assert !Acceptable(BigPng());
    var r := Receive([BigPng()]);
    assert r.Failure?;
  }

  /** A 6 MB image fails the upload stage with the size error; nothing is stored. */
  method OversizedFile(unique: bool) returns (r: Result<nat, Error>, stored: seq<Submission>)
    ensures r == Failure(UploadRejected(FileTooLarge))
    ensures stored == []
  {
    var store := new GalleryStore(unique);
    BigPngRejected();
    r := store.SubmitArt(Some("Ada"), None, None, [BigPng()]);
    stored := store.submissions;
  }

  /** The row a submit by "Ada" of one JPEG leaves in a fresh `submissions` table. */
  function AdaRow(): Submission
  {
    Submission(1, "Ada", None, None, "1700000000000-1.jpg", "ada.jpg", 0, Pending)
  }

  /** A fresh store after that one submission. */
  method StoreWithOneSubmission(unique: bool) returns (store: GalleryStore)
    ensures fresh(store) && store.Valid()
    ensures store.uniqueTelegramIds == unique
    ensures store.submissions == [AdaRow()] && store.approvedArt == []
    ensures store.nextArtId == 1 && store.now == 0
  {
    store := new GalleryStore(unique);
    JpegAccepted("1700000000000-1.jpg");
    assert Truthy(Some("Ada"));
    var submitted := store.SubmitArt(Some("Ada"), None, None, [Jpeg("1700000000000-1.jpg")]);
    assert NewSubmissions(1, "Ada", None, None, [StoredFile("1700000000000-1.jpg", "ada.jpg")], 0) == [AdaRow()];
  }

  /**
   * Approving a submission with message id "msg-42" marks it approved and puts one
   * row carrying that id and the submission's artist into the gallery.
   */
  method ApproveThenGallery(unique: bool) returns (r: Result<nat, Error>, gallery: seq<ApprovedArt>, status: Status)
    ensures r == Success(1)
    ensures status == Approved
    ensures |gallery| == 1
    ensures gallery[0].telegramMessageId == Some("msg-42") && gallery[0].submissionId == Some(1)
    ensures gallery[0].artistName == "Ada"
  {
    var store := StoreWithOneSubmission(unique);
    store.Tick();
    assert FindSubmission([AdaRow()], 1) == Some(AdaRow());
    assert !InsertViolates(unique, [], Some("msg-42"), Some("https://example.org/ada.jpg"));
    r := store.Approve(1, Some("msg-42"), Some("https://example.org/ada.jpg"));
    assert store.submissions == [AdaRow().(status := Approved)];
    status := store.submissions[0].status;
    var art := store.approvedArt[0];
    assert store.approvedArt == [art];
    gallery := store.Gallery();
    assert |gallery| == 1 by {
      assert |multiset(gallery)| == |multiset(store.approvedArt)|;
    }
    assert gallery[0] in multiset([art]);
  }

  /**
   * The moderation flow has no state check: a second approval of the same submission
   * succeeds again and leaves two gallery rows copied from it.
   */
  method ApproveTwice(unique: bool) returns (first: Result<nat, Error>, second: Result<nat, Error>, rows: seq<ApprovedArt>)
    ensures first == Success(1) && second == Success(2)
    ensures |rows| == 2 && rows[0].submissionId == rows[1].submissionId == Some(1)
  {
    var store := StoreWithOneSubmission(unique);
    var approved := AdaRow().(status := Approved);
    assert FindSubmission([AdaRow()], 1) == Some(AdaRow());
    assert !InsertViolates(unique, [], None, Some("https://example.org/ada.jpg"));
    first := store.Approve(1, None, Some("https://example.org/ada.jpg"));
    assert store.submissions == [approved];
    var art := store.approvedArt[0];
    assert store.approvedArt == [art] && art.submissionId == Some(1);
    assert FindSubmission([approved], 1) == Some(approved);
    assert !InsertViolates(unique, [art], None, Some("https://example.org/ada.jpg"));
    second := store.Approve(1, None, Some("https://example.org/ada.jpg"));
    rows := store.approvedArt;
  }

  /** Approving an id nobody submitted is refused and changes nothing; rejecting it still succeeds. */
  method UnknownId(unique: bool) returns (approved: Result<nat, Error>, rejected: bool, rows: seq<ApprovedArt>)
    ensures approved == Failure(NotFound)
    ensures rejected
    ensures rows == []
  {
    var store := new GalleryStore(unique);
    approved := store.Approve(7, None, Some("https://example.org/x.jpg"));
    rejected := store.Reject(7);
    rows := store.approvedArt;
  }

  /**
   * With the UNIQUE column, adding the same Telegram message twice stores it once:
   * the second add is refused as already synced.
   */
  method SyncTwiceUnique() returns (first: Result<nat, Error>, second: Result<nat, Error>, copies: nat)
    ensures first == Success(1)
    ensures second == Failure(AlreadySynced)
    ensures copies == 1
  {
    var store := new GalleryStore(true);
    assert Truthy(Some("msg-42")) && Truthy(Some("https://t.me/c/42")) && Truthy(Some("Bob"));
    assert !HasMessageId([], "msg-42");
    first := store.AddFromTelegram(Some("msg-42"), Some("https://t.me/c/42"), Some("Bob"), None, None);
    var row := store.approvedArt[0];
    assert store.approvedArt == [row] && row.telegramMessageId == Some("msg-42");
    assert HasMessageId([row], "msg-42");
    second := store.AddFromTelegram(Some("msg-42"), Some("https://t.me/c/42"), Some("Bob"), None, None);
    copies := CountMessageId(store.approvedArt, "msg-42");
    AtMostOnePerMessageId(store.approvedArt, "msg-42");
  }

  /** Without the UNIQUE column the same message is stored twice. */
  method SyncTwicePlain() returns (first: Result<nat, Error>, second: Result<nat, Error>, copies: nat)
    ensures first == Success(1) && second == Success(2)
    ensures copies == 2
  {
    var store := new GalleryStore(false);
    assert Truthy(Some("msg-42")) && Truthy(Some("https://t.me/c/42")) && Truthy(Some("Bob"));
    first := store.AddFromTelegram(Some("msg-42"), Some("https://t.me/c/42"), Some("Bob"), None, None);
    second := store.AddFromTelegram(Some("msg-42"), Some("https://t.me/c/42"), Some("Bob"), None, None);
    var rows := store.approvedArt;
    assert |rows| == 2 && rows[0].telegramMessageId == rows[1].telegramMessageId == Some("msg-42");
    assert rows[..1][..0] == [];
    assert CountMessageId(rows[..1], "msg-42") == 1;
    copies := CountMessageId(rows, "msg-42");
  }

  /** Quick-add of a post link stores the post number as the message id. */
  method QuickAddPostLink() returns (r: Result<nat, Error>, messageId: Option<string>)
    ensures r == Success(1)
    ensures messageId == Some("123")
  {
    var store := new GalleryStore(true);
    var link := "https://t.me/" + "ogbongouserartupload" + "/" + "123";
    Telegram.MessageIdOfPostLink("ogbongouserartupload", "123");
    assert Truthy(Some(link)) by {
      assert |link| > 0;
    }
    assert !HasMessageId([], "123");
    r := store.QuickTelegramAdd(Some(link));
    messageId := store.approvedArt[0].telegramMessageId;
  }

  /** Seeding an empty table appends both samples, in list order, under ids 1 and 2. */
  lemma SeedEmptyTable()
    ensures SeedFrom([], 1, 0, 0) == [SampleRow(0, 1, 0), SampleRow(1, 2, 0)]
  {
    var first := [SampleRow(0, 1, 0)];
    assert !HasMessageId([], Samples[0].messageId);
    assert !HasMessageId(first, Samples[1].messageId);
    assert [] + first == first;
  }

  /** Seeding twice (a restart) leaves exactly the two sample rows, in list order, under ids 1 and 2. */
  method SeedTwice(unique: bool) returns (rows: seq<ApprovedArt>)
    ensures rows == [SampleRow(0, 1, 0), SampleRow(1, 2, 0)]
    ensures rows[0].telegramMessageId == Some("sample1") && rows[1].telegramMessageId == Some("sample2")
  {
    var store := new GalleryStore(unique);
    SeedEmptyTable();
    store.SeedSamples();
    var both := store.approvedArt;
    store.SeedSamples();
    SeedFromAllPresent(both, 3, 0, 0);
    rows := store.approvedArt;
  }
}
