/** The interaction-history manager (database/history.py) over a shared
    connection whose `history` table is an in-memory sequence of rows in
    insertion order. Timestamps come from `DEFAULT CURRENT_TIMESTAMP`, so
    "newest first" is the reverse of insertion order. A `fault` parameter
    stands for a SQLite error inside the `try` block. */
module History {
  import opened Seqs

  datatype HistoryRow = HistoryRow(userId: int, movieId: int, action: string)

  /** The connection's `row_factory`: unset, `sqlite3.Row`, or some other factory. */
  datatype RowFactory = NoFactory | SqliteRow | OtherFactory(name: string)

  /** An open SQLite connection: its row factory and the `history` table. */
  class Connection {
    var rowFactory: RowFactory
    var history: seq<HistoryRow>

    constructor (rowFactory: RowFactory, history: seq<HistoryRow>)
      ensures this.rowFactory == rowFactory && this.history == history
    {
      this.rowFactory := rowFactory;
      this.history := history;
    }
  }

  /** The rows of one user, in insertion order. */
  function UserRows(rows: seq<HistoryRow>, userId: int): (r: seq<HistoryRow>)
    ensures forall k :: 0 <= k < |r| ==> r[k].userId == userId && r[k] in rows
    ensures forall h :: h in rows && h.userId == userId ==> h in r
  {
    Filter(rows, (h: HistoryRow) => h.userId == userId)
  }

  /** `SELECT * ... WHERE user_id = ? ORDER BY timestamp DESC` */
  function Newest(rows: seq<HistoryRow>, userId: int): seq<HistoryRow> {
    Reverse(UserRows(rows, userId))
  }

  /** `SELECT COUNT(*) ... WHERE user_id = ?`, counted row by row. */
  function CountOf(rows: seq<HistoryRow>, userId: int): nat {
    if rows == [] then 0
    else (if rows[0].userId == userId then 1 else 0) + CountOf(rows[1..], userId)
  }

  /** `DELETE FROM history WHERE user_id = ?` */
  function Cleared(rows: seq<HistoryRow>, userId: int): seq<HistoryRow> {
    Filter(rows, (h: HistoryRow) => h.userId != userId)
  }

  class HistoryManager {
    const conn: Connection

    /** The manager installs `sqlite3.Row` only when the connection has no row factory. */
    constructor (conn: Connection)
      modifies conn
      ensures this.conn == conn
      ensures conn.rowFactory == if old(conn.rowFactory) == NoFactory then SqliteRow else old(conn.rowFactory)
      ensures conn.history == old(conn.history)
    {
      this.conn := conn;
      if conn.rowFactory == NoFactory {
        conn.rowFactory := SqliteRow;
      }
    }

    /** `add`: one row appended and True, or nothing written and False on an error. */
    method Add(userId: int, movieId: int, action: string, fault: bool) returns (ok: bool)
      modifies conn
      ensures ok == !fault
      ensures conn.history == if fault then old(conn.history) else old(conn.history) + [HistoryRow(userId, movieId, action)]
      ensures conn.rowFactory == old(conn.rowFactory)
    {
      if fault {
        return false;
      }
      conn.history := conn.history + [HistoryRow(userId, movieId, action)];
      ok := true;
    }

    /** `get`: that user's rows, newest first, or [] on an error. */
    function Get(userId: int, fault: bool): (r: seq<HistoryRow>)
      reads this, conn
      ensures fault ==> r == []
      ensures !fault ==> |r| == CountOf(conn.history, userId)
      ensures forall k :: 0 <= k < |r| ==> r[k].userId == userId && r[k] in conn.history
    {
      if fault then [] else CountIsLength(conn.history, userId); Newest(conn.history, userId)
    }

    /** `count`: the number of that user's rows, or 0 on an error. */
    function Count(userId: int, fault: bool): (n: nat)
      reads this, conn
      ensures n == |Get(userId, fault)|
    {
      if fault then 0 else CountIsLength(conn.history, userId); CountOf(conn.history, userId)
    }

    /** `clear`: every row of that user removed and True, or nothing changed and False on an error. */
    method Clear(userId: int, fault: bool) returns (ok: bool)
      modifies conn
      ensures ok == !fault
      ensures conn.history == if fault then old(conn.history) else Cleared(old(conn.history), userId)
      ensures conn.rowFactory == old(conn.rowFactory)
    {
      if fault {
        return false;
      }
      conn.history := Cleared(conn.history, userId);
      ok := true;
    }
  }

  // ---------------------------------------------------------------------------
  // Properties

  /** The row-by-row count agrees with the number of rows `get` returns. */
  lemma {:induction false} CountIsLength(rows: seq<HistoryRow>, userId: int)
    ensures CountOf(rows, userId) == |UserRows(rows, userId)|
  {
    if rows != [] {
      CountIsLength(rows[1..], userId);
    }
  }

  /** After `add`, the new row is the user's newest and every other user's
      history reads as before. */
  lemma AddedRowIsNewest(rows: seq<HistoryRow>, row: HistoryRow, other: int)
    ensures Newest(rows + [row], row.userId) == [row] + Newest(rows, row.userId)
    ensures other != row.userId ==> Newest(rows + [row], other) == Newest(rows, other)
    ensures CountOf(rows + [row], row.userId) == CountOf(rows, row.userId) + 1
  {
    NewestSnocOwner(rows, row);
    if other != row.userId {
      NewestSnocOther(rows, row, other);
    }
    CountSnocOwner(rows, row);
  }

  lemma NewestSnocOther(rows: seq<HistoryRow>, row: HistoryRow, other: int)
    requires other != row.userId
    ensures Newest(rows + [row], other) == Newest(rows, other)
  {
    UserRowsSnoc(rows, row, other);
    assert UserRows(rows, other) + [] == UserRows(rows, other);
  }

  lemma NewestSnocOwner(rows: seq<HistoryRow>, row: HistoryRow)
    ensures Newest(rows + [row], row.userId) == [row] + Newest(rows, row.userId)
  {
    UserRowsSnoc(rows, row, row.userId);
    ReverseSnoc(UserRows(rows, row.userId), row);
  }

  lemma CountSnocOwner(rows: seq<HistoryRow>, row: HistoryRow)
    ensures CountOf(rows + [row], row.userId) == CountOf(rows, row.userId) + 1
  {
    UserRowsSnoc(rows, row, row.userId);
    CountIsLength(rows + [row], row.userId);
    CountIsLength(rows, row.userId);
  }

  lemma UserRowsSnoc(rows: seq<HistoryRow>, row: HistoryRow, userId: int)
    ensures UserRows(rows + [row], userId) == UserRows(rows, userId) + (if row.userId == userId then [row] else [])
  {
    var keep := (h: HistoryRow) => h.userId == userId;
    FilterAppend(rows, [row], keep);
    assert [row][1..] == [];
    assert Filter([row], keep) == (if row.userId == userId then [row] else []);
  }

  /** After `clear`, the user has no rows and every other user's history reads as before. */
  lemma ClearOnlyThatUser(rows: seq<HistoryRow>, userId: int, other: int)
    ensures Newest(Cleared(rows, userId), userId) == []
    ensures CountOf(Cleared(rows, userId), userId) == 0
    ensures other != userId ==> Newest(Cleared(rows, userId), other) == Newest(rows, other)
  {
    NothingSelected(Cleared(rows, userId), (h: HistoryRow) => h.userId == userId);
    CountIsLength(Cleared(rows, userId), userId);
    if other != userId {
      FilterFilter(rows, (h: HistoryRow) => h.userId != userId, (h: HistoryRow) => h.userId == other);
    }
  }
}
