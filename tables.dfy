/**
 * The two SQLite tables of the gallery, `submissions` and `approved_art`, as rows,
 * and the table-level operations the handlers compose: lookup by id, the
 * `UPDATE ... SET status` statement, the `telegram_message_id` lookup and the
 * constraints an `approved_art` insert must pass.
 */
module Tables {
  import opened Wrappers

  /** `submissions.status`: 'pending' on insert, set by approve or reject. */
  datatype Status = Pending | Approved | Rejected

  /** A row of `submissions`. Dates are ticks of the store's logical clock. */
  datatype Submission = Submission(
    id: nat,
    artistName: string,
    artistSocial: Option<string>,
    artDescription: Option<string>,
    filename: string,
    originalFilename: string,
    submissionDate: nat,
    status: Status)

  /** A row of `approved_art`; `submissionId` is NULL for art that came from Telegram. */
  datatype ApprovedArt = ApprovedArt(
    id: nat,
    submissionId: Option<nat>,
    telegramMessageId: Option<string>,
    imageUrl: string,
    artistName: string,
    artistSocial: Option<string>,
    artDescription: Option<string>,
    approvedDate: nat)

  /** Sort keys for `ORDER BY submission_date` and `ORDER BY approved_date`. */
  function SubmissionDate(s: Submission): int { s.submissionDate }
  function ApprovedDate(a: ApprovedArt): int { a.approvedDate }

  /** AUTOINCREMENT: ids grow along the table and stay below the next id to hand out. */
  ghost predicate SubmissionIdsBelow(rows: seq<Submission>, next: nat)
  {
    && (forall i, j :: 0 <= i < j < |rows| ==> rows[i].id < rows[j].id)
    && (forall i :: 0 <= i < |rows| ==> rows[i].id < next)
  }

  ghost predicate ArtIdsBelow(rows: seq<ApprovedArt>, next: nat)
  {
    && (forall i, j :: 0 <= i < j < |rows| ==> rows[i].id < rows[j].id)
    && (forall i :: 0 <= i < |rows| ==> rows[i].id < next)
  }

  /** The `UNIQUE` constraint on `telegram_message_id`; NULLs never clash. */
  ghost predicate DistinctMessageIds(rows: seq<ApprovedArt>)
  {
    forall i, j :: 0 <= i < j < |rows| && rows[i].telegramMessageId.Some? ==>
      rows[i].telegramMessageId != rows[j].telegramMessageId
  }

  /** `SELECT id FROM approved_art WHERE telegram_message_id = ?` finds a row. */
  predicate HasMessageId(rows: seq<ApprovedArt>, messageId: string)
  {
    exists i :: 0 <= i < |rows| && rows[i].telegramMessageId == Some(messageId)
  }

  /** Appending a row adds its message id to the lookup and loses none. */
  lemma HasMessageIdAppend(rows: seq<ApprovedArt>, row: ApprovedArt, messageId: string)
    ensures HasMessageId(rows + [row], messageId) <==>
            HasMessageId(rows, messageId) || row.telegramMessageId == Some(messageId)
  {
    var t := rows + [row];
    if HasMessageId(rows, messageId) {
      var i :| 0 <= i < |rows| && rows[i].telegramMessageId == Some(messageId);
      assert t[i] == rows[i];
    }
    if row.telegramMessageId == Some(messageId) {
      assert t[|rows|] == row;
    }
    if HasMessageId(t, messageId) {
      var i :| 0 <= i < |t| && t[i].telegramMessageId == Some(messageId);
      if i < |rows| {
        assert rows[i] == t[i];
      }
    }
  }

  /** The number of rows carrying `messageId`. */
  function CountMessageId(rows: seq<ApprovedArt>, messageId: string): nat
  {
    if rows == [] then 0
    else CountMessageId(rows[..|rows| - 1], messageId) +
         (if rows[|rows| - 1].telegramMessageId == Some(messageId) then 1 else 0)
  }

  /** Appending a row counts it once more when it carries the message id. */
  lemma CountMessageIdAppend(rows: seq<ApprovedArt>, row: ApprovedArt, messageId: string)
    ensures CountMessageId(rows + [row], messageId) ==
            CountMessageId(rows, messageId) + (if row.telegramMessageId == Some(messageId) then 1 else 0)
  {
    assert (rows + [row])[..|rows|] == rows;
  }

  /** A message id the lookup does not find is stored zero times. */
  lemma {:induction false} NoCountWithoutLookup(rows: seq<ApprovedArt>, messageId: string)
    requires !HasMessageId(rows, messageId)
    ensures CountMessageId(rows, messageId) == 0
  {
    if rows != [] {
      NoCountWithoutLookup(rows[..|rows| - 1], messageId);
    }
  }

  /**
   * Under the `UNIQUE` constraint there is at most one row per Telegram message,
   * and exactly one when the lookup finds it.
   */
  lemma {:induction false} AtMostOnePerMessageId(rows: seq<ApprovedArt>, messageId: string)
    requires DistinctMessageIds(rows)
    ensures CountMessageId(rows, messageId) <= 1
    ensures CountMessageId(rows, messageId) == 1 <==> HasMessageId(rows, messageId)
  {
    if rows != [] {
      var init := rows[..|rows| - 1];
      assert DistinctMessageIds(init);
      AtMostOnePerMessageId(init, messageId);
      var last := rows[|rows| - 1];
      if last.telegramMessageId == Some(messageId) {
        if HasMessageId(init, messageId) {
          assert false;
        }
        assert HasMessageId(rows, messageId) by {
          assert rows[|rows| - 1].telegramMessageId == Some(messageId);
        }
      } else {
        if HasMessageId(rows, messageId) {
          var i :| 0 <= i < |rows| && rows[i].telegramMessageId == Some(messageId);
          assert init[i].telegramMessageId == Some(messageId);
        }
        if HasMessageId(init, messageId) {
          var i :| 0 <= i < |init| && init[i].telegramMessageId == Some(messageId);
          assert rows[i].telegramMessageId == Some(messageId);
        }
      }
    }
  }

  /** Appending a row whose message id is NULL or not yet present keeps the ids distinct. */
  lemma AppendKeepsDistinct(rows: seq<ApprovedArt>, row: ApprovedArt)
    requires DistinctMessageIds(rows)
    requires row.telegramMessageId.Some? ==> !HasMessageId(rows, row.telegramMessageId.value)
    ensures DistinctMessageIds(rows + [row])
  {
    var t := rows + [row];
    forall i, j | 0 <= i < j < |t| && t[i].telegramMessageId.Some?
      ensures t[i].telegramMessageId != t[j].telegramMessageId
    {
      if j == |rows| && row.telegramMessageId.Some? {
        assert rows[i].telegramMessageId != Some(row.telegramMessageId.value);
      }
    }
  }

  /** `SELECT * FROM submissions WHERE id = ?`: the first row with that id, if any. */
  function FindSubmission(rows: seq<Submission>, id: int): (r: Option<Submission>)
    ensures r.Some? ==> r.value in rows && r.value.id == id
    ensures r.None? <==> forall i :: 0 <= i < |rows| ==> rows[i].id != id
  {
    if rows == [] then None
    else if rows[0].id == id then Some(rows[0])
    else
      var r := FindSubmission(rows[1..], id);
      assert forall i :: 1 <= i < |rows| ==> rows[i] == rows[1..][i - 1];
      r
  }

  /** `UPDATE submissions SET status = ? WHERE id = ?`. */
  function SetStatus(rows: seq<Submission>, id: int, status: Status): seq<Submission>
  {
    seq(|rows|, i requires 0 <= i < |rows| =>
      if rows[i].id == id then rows[i].(status := status) else rows[i])
  }

  /**
   * The update touches only the row with that id: every other row is as it
   * was, and the matching row differs from before only in its status.
   */
  lemma SetStatusFrame(rows: seq<Submission>, id: int, status: Status, i: nat)
    requires i < |rows|
    ensures |SetStatus(rows, id, status)| == |rows|
    ensures rows[i].id != id ==> SetStatus(rows, id, status)[i] == rows[i]
    ensures rows[i].id == id ==> SetStatus(rows, id, status)[i].status == status &&
                                 SetStatus(rows, id, status)[i].(status := rows[i].status) == rows[i]
  {
  }

  /** An update whose id matches no row changes nothing (and still reports success). */
  lemma SetStatusUnknownId(rows: seq<Submission>, id: int, status: Status)
    requires FindSubmission(rows, id).None?
    ensures SetStatus(rows, id, status) == rows
  {
  }

  /** Looking the row up again after the update finds it with the new status and nothing else changed. */
  lemma {:induction false} SetStatusThenFind(rows: seq<Submission>, id: int, status: Status)
    requires FindSubmission(rows, id).Some?
    ensures FindSubmission(SetStatus(rows, id, status), id) == Some(FindSubmission(rows, id).value.(status := status))
  {
    if rows[0].id != id {
      var tail := rows[1..];
      assert SetStatus(rows, id, status)[1..] == SetStatus(tail, id, status);
      SetStatusThenFind(tail, id, status);
    }
  }

  /** The update keeps the AUTOINCREMENT ordering of ids. */
  lemma SetStatusKeepsIds(rows: seq<Submission>, next: nat, id: int, status: Status)
    requires SubmissionIdsBelow(rows, next)
    ensures SubmissionIdsBelow(SetStatus(rows, id, status), next)
  {
  }

  /** Setting the same status twice is the same as setting it once. */
  lemma SetStatusIdempotent(rows: seq<Submission>, id: int, status: Status)
    ensures SetStatus(SetStatus(rows, id, status), id, status) == SetStatus(rows, id, status)
  {
  }

  /** `WHERE status = 'pending'`, in table order. */
  function PendingRows(rows: seq<Submission>): (r: seq<Submission>)
    ensures forall i :: 0 <= i < |r| ==> r[i].status == Pending
  {
    if rows == [] then []
    else
      var init := rows[..|rows| - 1];
      var last := rows[|rows| - 1];
      assert rows == init + [last];
      PendingRows(init) + (if last.status == Pending then [last] else [])
  }

  /** The filter keeps every pending row as often as the table holds it, and no other row. */
  lemma {:induction false} PendingRowsMultiset(rows: seq<Submission>)
    ensures forall x :: multiset(PendingRows(rows))[x] == if x.status == Pending then multiset(rows)[x] else 0
  {
    if rows != [] {
      var init, last := rows[..|rows| - 1], rows[|rows| - 1];
      PendingRowsMultiset(init);
      assert rows == init + [last];
      assert PendingRows(rows) == PendingRows(init) + (if last.status == Pending then [last] else []);
    }
  }

  /** The pending filter distributes over appending rows to the table. */
  lemma {:induction false} PendingRowsAppend(a: seq<Submission>, b: seq<Submission>)
    ensures PendingRows(a + b) == PendingRows(a) + PendingRows(b)
  {
    if b != [] {
      var init, last := b[..|b| - 1], b[|b| - 1];
      var tail := if last.status == Pending then [last] else [];
      PendingRowsAppend(a, init);
      assert (a + b)[..|a + b| - 1] == a + init;
      assert (a + b)[|a + b| - 1] == last;
      calc {
        PendingRows(a + b);
        PendingRows(a + init) + tail;
        PendingRows(a) + PendingRows(init) + tail;
        PendingRows(a) + PendingRows(b);
      }
    } else {
      assert a + b == a;
    }
  }

  /** Rows that are all pending pass the filter unchanged and in order. */
  lemma {:induction false} AllPendingRows(rows: seq<Submission>)
    requires forall i :: 0 <= i < |rows| ==> rows[i].status == Pending
    ensures PendingRows(rows) == rows
  {
    if rows != [] {
      var init, last := rows[..|rows| - 1], rows[|rows| - 1];
      AllPendingRows(init);
      assert PendingRows(rows) == PendingRows(init) + [last];
      assert init + [last] == rows;
    }
  }

  /** Once a submission is approved or rejected it is no longer pending. */
  lemma LeavesPendingList(rows: seq<Submission>, id: int, status: Status)
    requires status != Pending
    ensures forall x :: x in PendingRows(SetStatus(rows, id, status)) ==> x.id != id
  {
    var t := SetStatus(rows, id, status);
    PendingRowsMultiset(t);
    forall x | x in PendingRows(t) ensures x.id != id {
      assert multiset(PendingRows(t))[x] > 0;
      assert x in t;
    }
  }
}
