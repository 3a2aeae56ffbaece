/** The feedback log (agents/feedback.py): an append-only `feedback` table.
    The timestamp `save_feedback` writes comes from the clock and is passed
    in; rows are read back newest first, which is the reverse of insertion
    order for a clock that never goes backwards. A `fault` parameter stands
    for a SQLite error inside a method's `try` block. */
module Feedback {
  import opened Seqs

  datatype FeedbackRow = FeedbackRow(id: nat, userId: string, query: string, feedback: string, timestamp: string)

  /** A row of `get_feedback_by_user`: only the query, feedback and timestamp columns. */
  datatype UserFeedback = UserFeedback(query: string, feedback: string, timestamp: string)

  /** AUTOINCREMENT ids: increasing in insertion order and below the next id. */
  predicate ValidLog(rows: seq<FeedbackRow>, nextId: nat) {
    && nextId >= 1
    && (forall k :: 0 <= k < |rows| ==> 1 <= rows[k].id < nextId)
    && (forall i, j :: 0 <= i < j < |rows| ==> rows[i].id < rows[j].id)
  }

  function Project(r: FeedbackRow): UserFeedback {
    UserFeedback(r.query, r.feedback, r.timestamp)
  }

  function OfUser(userId: string): FeedbackRow -> bool {
    (row: FeedbackRow) => row.userId == userId
  }

  function Projected(rs: seq<FeedbackRow>): (r: seq<UserFeedback>)
    ensures |r| == |rs| && forall k :: 0 <= k < |r| ==> r[k] == Project(rs[k])
  {
    if rs == [] then [] else [Project(rs[0])] + Projected(rs[1..])
  }

  /** `get_feedback_by_user` on a working connection. */
  function ByUser(rows: seq<FeedbackRow>, userId: string): (r: seq<UserFeedback>)
    ensures forall k :: 0 <= k < |r| ==> exists row :: row in rows && row.userId == userId && Project(row) == r[k]
  {
    var newest := Reverse(Filter(rows, OfUser(userId)));
    assert forall k :: 0 <= k < |newest| ==> newest[k] in Filter(rows, OfUser(userId));
    Projected(newest)
  }

  class FeedbackAgent {
    var rows: seq<FeedbackRow>
    var nextId: nat

    predicate Valid()
      reads this
    {
      ValidLog(rows, nextId)
    }

    /** `_init_db` on a new database file: the table exists and is empty.
        `CREATE TABLE IF NOT EXISTS` on an existing file keeps its rows; that
        case is not modelled. */
    constructor ()
      ensures Valid() && rows == []
    {
      rows, nextId := [], 1;
    }

    /** `save_feedback`: appends one row with the given user, query, feedback
        and timestamp. It returns None on every path, so the method has no
        result; on an error nothing is written. */
    method SaveFeedback(userId: string, query: string, feedback: string, now: string, fault: bool)
      requires Valid()
      modifies this
      ensures Valid()
      ensures rows == if fault then old(rows) else old(rows) + [FeedbackRow(old(nextId), userId, query, feedback, now)]
    {
      if fault {
        return;
      }
      rows := rows + [FeedbackRow(nextId, userId, query, feedback, now)];
      nextId := nextId + 1;
    }

    /** `get_feedback_by_user`: that user's rows, newest first, or [] on an error. */
    function GetFeedbackByUser(userId: string, fault: bool): (r: seq<UserFeedback>)
      reads this
      ensures fault ==> r == []
      ensures forall k :: 0 <= k < |r| ==> exists row :: row in rows && row.userId == userId && Project(row) == r[k]
    {
      if fault then [] else ByUser(rows, userId)
    }

    /** `get_all_feedback`: every row, newest first, or [] on an error. */
    function GetAllFeedback(fault: bool): (r: seq<FeedbackRow>)
      reads this
      ensures fault ==> r == []
      ensures !fault ==> |r| == |rows| && forall k :: 0 <= k < |r| ==> r[k] == rows[|rows| - 1 - k]
    {
      if fault then [] else Reverse(rows)
    }
  }

  // ---------------------------------------------------------------------------
  // Properties

  /** A saved row is the first one both readers return, and everything read
      before is still read after it: the log only grows. */
  lemma SavedIsNewest(rows: seq<FeedbackRow>, row: FeedbackRow)
    ensures Reverse(rows + [row]) == [row] + Reverse(rows)
    ensures ByUser(rows + [row], row.userId) == [Project(row)] + ByUser(rows, row.userId)
  {
    var mine := Filter(rows, OfUser(row.userId));
    ReverseSnoc(rows, row);
    FilterAppend(rows, [row], OfUser(row.userId));
    assert Filter([row], OfUser(row.userId)) == [row];
    ReverseSnoc(mine, row);
    assert Projected([row] + Reverse(mine)) == [Project(row)] + Projected(Reverse(mine));
  }

  /** Saving for one user does not change what another user reads. */
  lemma SaveLeavesOthers(rows: seq<FeedbackRow>, row: FeedbackRow, other: string)
    requires other != row.userId
    ensures ByUser(rows + [row], other) == ByUser(rows, other)
  {
    FilterAppend(rows, [row], OfUser(other));
    assert Filter([row], OfUser(other)) == [];
    assert rows + [row] != rows;
    assert Filter(rows + [row], OfUser(other)) == Filter(rows, OfUser(other));
  }
}
