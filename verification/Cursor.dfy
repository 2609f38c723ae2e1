/**
  rows.go: the lazy cursor over a server-side result set, down to the bytes of the FETCH
  exchange. The cursor refines plain iteration over the server's list of rows.
 */
module Cursor {
  import opened Wire
  import opened Packet
  import opened Errors
  import opened Response
  import opened Encoders
  import opened RoundTrip
  import opened Requests
  import opened Parsers

  type Row = seq<Cell>
  type Positive = n: int | 0 < n witness 1

  /** How a server fills its batches: as asked for, at least one row while rows are left, or as it likes. */
  datatype Policy = Full | Progress | Arbitrary

  /** The server's side of one open handle. Any FETCH may also be answered with an error. */
  class Server {
    const cas: Bytes
    const handle: int
    const columns: seq<Column>
    const stmtType: int
    const rows: seq<WireRow>
    const policy: Policy
    var fetches: nat

    ghost predicate Good() {
      && |cas| == 4 && FitsInt32(handle) && columns != [] && FitsInt32(|rows| + 1)
      && GoodRows(rows, columns, stmtType == STMT_CALL_SP)
    }

    constructor (cas: Bytes, handle: int, columns: seq<Column>, stmtType: int, rows: seq<WireRow>, policy: Policy)
      ensures this.cas == cas && this.handle == handle && this.columns == columns && this.stmtType == stmtType
      ensures this.rows == rows && this.policy == policy && fetches == 0
    {
      this.cas, this.handle, this.columns, this.stmtType, this.rows, this.policy :=
        cas, handle, columns, stmtType, rows, policy;
      fetches := 0;
    }

    /** Answers one FETCH packet; `batch` is the number of rows sent, or -1 for an error. */
    method Exchange(request: Bytes, ghost start: int, ghost size: int) returns (response: Bytes, ghost batch: int)
      requires Good()
      requires request == Frame(cas, Payload(Fetch(handle, start, size)))
      requires 1 <= start <= |rows| && 1 <= size && FitsInt32(size)
      modifies this
      ensures fetches == old(fetches) + 1
      ensures -1 <= batch <= size && start - 1 + batch <= |rows|
      ensures batch == 0 ==> policy.Arbitrary?
      ensures batch >= 0 && policy.Full? ==> batch == size || start - 1 + batch == |rows|
      ensures batch < 0 ==> exists code, message :: FitsInt32(code) && response == PutErrorReply(cas, -1, code, message)
      ensures batch >= 0 ==> response == PutFetch(cas, 0, rows[start - 1..start - 1 + batch], columns, stmtType)
    {
      hide PRequest, Payload, PutFetch, PutErrorReply, GoodRows;
      RequestRoundTrip(Fetch(handle, start, size));
      assert request[8..] == Payload(Fetch(handle, start, size));
      var decoded := PRequest(request[8..]).value;
      fetches := fetches + 1;
      if * {
        var code: int, message: Bytes :| FitsInt32(code) && |message| >= 0;
        batch := -1;
        response := PutErrorReply(cas, -1, code, message);
        return;
      }
      var left := |rows| - (decoded.start - 1);
      var most := if decoded.size < left then decoded.size else left;
      var n :| 0 <= n <= most && (policy.Full? ==> n == most) && (policy.Progress? ==> n > 0);
      batch := n;
      SliceGood(decoded.start - 1, n);
      response := PutFetch(cas, 0, rows[decoded.start - 1..decoded.start - 1 + n], columns, stmtType);
    }

    lemma SliceGood(start: int, n: int)
      requires Good() && 0 <= start <= start + n <= |rows|
      ensures GoodRows(rows[start..start + n], columns, stmtType == STMT_CALL_SP)
    {
    }
  }

  // ----- specification helpers

  lemma {:induction false} RowsOfAt(ws: seq<WireRow>)
    ensures forall i | 0 <= i < |ws| :: RowsOf(ws)[i] == CellsOf(ws[i].cells)
  {
    if ws != [] {
      RowsOfAt(ws[1..]);
    }
  }

  lemma RowsOfSlice(ws: seq<WireRow>, a: nat, b: nat)
    requires a <= b <= |ws|
    ensures RowsOf(ws[a..b]) == RowsOf(ws)[a..b]
  {
    RowsOfAt(ws);
    RowsOfAt(ws[a..b]);
  }

  /** How many batches of at most `size` rows make n rows. */
  function Batches(n: nat, size: Positive): nat {
    if n == 0 then 0 else 1 + Batches(if n <= size then 0 else n - size, size)
  }

  /** That is n / size, rounded up. */
  lemma {:induction false} BatchesIsCeil(n: nat, size: Positive)
    ensures n <= Batches(n, size) * size < n + size
  {
    if n > size {
      BatchesIsCeil(n - size, size);
      assert Batches(n, size) * size == Batches(n - size, size) * size + size;
    }
  }

  lemma BatchTaken(n: nat, taken: nat, size: Positive)
    requires 0 < taken <= n && taken <= size
    ensures taken == size || taken == n ==> Batches(n, size) == 1 + Batches(n - taken, size)
  {
  }

  datatype Status = HasRow | Eof | Failed(error: CubridError)

  // ----- the cursor

  class Rows {
    const conn: Server
    var queryHandle: int
    const columns: seq<Column>
    const stmtType: int
    const totalCount: int
    var fetchedCount: int
    var bufferedRows: seq<Row>
    var bufferOffset: int
    var exhausted: bool
    const fetchSize: Positive
    var closed: bool

    /** The whole result set. */
    ghost function All(): (rs: seq<Row>)
      ensures |rs| == |conn.rows|
    {
      RowsOf(conn.rows)
    }

    /**
      The rows fetched so far are a prefix of the result set and the buffer is its end; so
      rows delivered before plus rows unread in the buffer are All()[..fetchedCount].
     */
    ghost predicate Valid()
      reads this
    {
      && conn.Good() && queryHandle == conn.handle && columns == conn.columns && stmtType == conn.stmtType
      && totalCount == |conn.rows| && FitsInt32(fetchSize)
      && 0 <= bufferOffset <= |bufferedRows| <= fetchedCount <= totalCount
      && bufferedRows == All()[fetchedCount - |bufferedRows|..fetchedCount]
      && (exhausted || fetchedCount < totalCount)
    }

    /** The rows that further calls of Next will deliver. */
    ghost function Remaining(): seq<Row>
      requires Valid()
      reads this
    {
      if closed then []
      else bufferedRows[bufferOffset..] + (if exhausted then [] else All()[fetchedCount..])
    }

    /** Rows the server has not sent and the cursor still wants. */
    ghost function Unsent(): nat
      requires Valid()
      reads this
    {
      if closed || exhausted then 0 else totalCount - fetchedCount
    }

    /**
      The cursor built from an execute response with `inline` rows. It stands for the whole
      result set exactly when rows came inline or there are none at all.
     */
    constructor (conn: Server, inline: seq<Row>, fetchSize: Positive)
      requires conn.Good() && FitsInt32(fetchSize)
      requires inline <= RowsOf(conn.rows)
      ensures Valid() && !closed && this.conn == conn && this.fetchSize == fetchSize
      ensures Remaining() == (if inline == [] then [] else All())
      ensures Remaining() == All() <==> inline != [] || conn.rows == []
      ensures Unsent() == if inline == [] then 0 else |conn.rows| - |inline|
    {
      hide GoodRows, Server.Good, RowsOf;
      StartsWith(RowsOf(conn.rows), inline);
      this.conn := conn;
      queryHandle, columns, stmtType := conn.handle, conn.columns, conn.stmtType;
      totalCount := |conn.rows|;
      fetchedCount := |inline|;
      bufferedRows, bufferOffset := inline, 0;
      exhausted := |inline| == 0 || |inline| >= |conn.rows|;
      this.fetchSize := fetchSize;
      closed := false;
      new;
      assert All() == RowsOf(conn.rows);
    }

    /** Copies one row into dest, as far as dest goes, and steps past it. */
    method FillDest(dest: array<Cell>, row: Row)
      modifies this`bufferOffset, dest
      ensures bufferOffset == old(bufferOffset) + 1
      ensures forall i | 0 <= i < dest.Length :: dest[i] == if i < |row| then row[i] else old(dest[i])
    {
      bufferOffset := bufferOffset + 1;
      for i := 0 to |row|
        invariant bufferOffset == old(bufferOffset) + 1
        invariant forall k | 0 <= k < dest.Length :: dest[k] == if k < i then row[k] else old(dest[k])
      {
        if i >= dest.Length {
          break;
        }
        dest[i] := row[i];
      }
    }

    /** Serves one row from the buffer. */
    method Deliver(dest: array<Cell>)
      requires Valid() && !closed && bufferOffset < |bufferedRows|
      modifies this`bufferOffset, dest
      ensures Valid() && Unsent() == old(Unsent())
      ensures old(Remaining()) == [old(bufferedRows[bufferOffset])] + Remaining()
      ensures forall i | 0 <= i < dest.Length ::
                dest[i] == if i < |old(Remaining())[0]| then old(Remaining())[0][i] else old(dest[i])
    {
      hide RowsOf;
      ghost var more := if exhausted then [] else All()[fetchedCount..];
      assert bufferedRows[bufferOffset..] + more
          == [bufferedRows[bufferOffset]] + (bufferedRows[bufferOffset + 1..] + more);
      FillDest(dest, bufferedRows[bufferOffset]);
    }

    /** The reply to FETCH for rows fetchedCount + 1 onwards, parsed. */
    method Fetch() returns (res: Outcome<Fetched>)
      requires Valid() && !closed && !exhausted
      modifies conn
      ensures conn.fetches == old(conn.fetches) + 1
      ensures res.Ok? ==>
        && 0 <= res.result.tupleCount <= fetchSize && fetchedCount + res.result.tupleCount <= totalCount
        && res.result.rows == All()[fetchedCount..fetchedCount + res.result.tupleCount]
        && (res.result.tupleCount == 0 ==> conn.policy.Arbitrary?)
        && (conn.policy.Full? ==>
              res.result.tupleCount == fetchSize || fetchedCount + res.result.tupleCount == totalCount)
    {
      hide PFetch, PutFetch, PutErrorReply, Payload, Frame, GoodRows, RowsOf;
      var request := WriteFetch(queryHandle, fetchedCount, fetchSize, conn.cas);
      ghost var batch: int;
      var resp;
      resp, batch := conn.Exchange(request, fetchedCount + 1, fetchSize);
      if batch < 0 {
        ghost var code, message :| FitsInt32(code) && resp == PutErrorReply(conn.cas, -1, code, message);
        FetchFailure(conn.cas, code, message, columns, stmtType);
      } else {
        conn.SliceGood(fetchedCount, batch);
        RowsOfSlice(conn.rows, fetchedCount, fetchedCount + batch);
        FetchRoundTrip(conn.cas, 0, conn.rows[fetchedCount..fetchedCount + batch], columns, stmtType);
      }
      res := ParseFetch(resp, columns, stmtType);
    }

    /** Replaces the used-up buffer by one more batch; an empty batch ends the result. */
    method FetchMore() returns (status: Status)
      requires Valid() && !closed && !exhausted && bufferOffset == |bufferedRows|
      modifies this`bufferedRows, this`bufferOffset, this`fetchedCount, this`exhausted, conn
      ensures Valid() && conn.fetches == old(conn.fetches) + 1
      ensures status.HasRow? ==> bufferOffset < |bufferedRows| && Remaining() == old(Remaining())
      ensures status.HasRow? ==> 1 + Unsent() <= old(Unsent())
      ensures status.HasRow? && conn.policy.Full? ==>
                1 + Batches(Unsent(), fetchSize) == Batches(old(Unsent()), fetchSize)
      ensures status.Eof? ==> conn.policy.Arbitrary? && Remaining() == []
      ensures status.Failed? ==> Remaining() == old(Remaining()) && Unsent() == old(Unsent())
    {
      hide GoodRows, RowsOf, Batches, Server.Good;
      assert bufferedRows[bufferOffset..] == [];
      var res := Fetch();
      if res.Err? {
        return Failed(res.error);
      }
      if res.result.tupleCount == 0 {
        exhausted := true;
        return Eof;
      }
      Refill(res.result);
      return HasRow;
    }

    /** The batch replaces the buffer; the rows still to be delivered are the same. */
    method Refill(batch: Fetched)
      requires Valid() && !closed && !exhausted && bufferOffset == |bufferedRows|
      requires 0 < batch.tupleCount <= fetchSize && fetchedCount + batch.tupleCount <= totalCount
      requires batch.rows == All()[fetchedCount..fetchedCount + batch.tupleCount]
      modifies this`bufferedRows, this`bufferOffset, this`fetchedCount, this`exhausted
      ensures Valid() && bufferOffset < |bufferedRows| && Remaining() == old(Remaining())
      ensures 1 + Unsent() <= old(Unsent())
      ensures batch.tupleCount == fetchSize || old(fetchedCount) + batch.tupleCount == totalCount ==>
                1 + Batches(Unsent(), fetchSize) == Batches(old(Unsent()), fetchSize)
    {
      hide GoodRows, RowsOf, Batches, Server.Good, All;
      Refilled(All(), bufferedRows, fetchedCount, batch.tupleCount, batch.rows, fetchSize);
      bufferedRows := batch.rows;
      bufferOffset := 0;
      fetchedCount := fetchedCount + batch.tupleCount;
      if fetchedCount >= totalCount {
        exhausted := true;
      }
    }

    /** Next: the head of the remaining rows goes to dest; when none remain, EOF for ever. */
    method Next(dest: array<Cell>) returns (status: Status)
      requires Valid()
      modifies this`bufferedRows, this`bufferOffset, this`fetchedCount, this`exhausted, conn, dest
      ensures Valid()
      ensures old(Remaining()) == [] ==> status.Eof?
      ensures status.Eof? ==> Remaining() == [] && (old(Remaining()) == [] || conn.policy.Arbitrary?)
      ensures status.HasRow? ==> old(Remaining()) != [] && Remaining() == old(Remaining())[1..]
      ensures status.HasRow? ==> forall i | 0 <= i < dest.Length ::
                dest[i] == if i < |old(Remaining())[0]| then old(Remaining())[0][i] else old(dest[i])
      ensures status.Failed? ==> Remaining() == old(Remaining()) && Unsent() == old(Unsent())
      ensures !status.HasRow? ==> dest[..] == old(dest[..])
      ensures status.HasRow? && conn.policy.Full? ==>
                conn.fetches + Batches(Unsent(), fetchSize) == old(conn.fetches) + Batches(old(Unsent()), fetchSize)
      ensures status.HasRow? ==> conn.fetches + Unsent() <= old(conn.fetches) + old(Unsent())
      ensures status.Eof? && !conn.policy.Arbitrary? ==> conn.fetches == old(conn.fetches) && old(Unsent()) == 0
    {
      hide Batches, RowsOf, GoodRows, Server.Good;
      if closed {
        return Eof;
      }
      if bufferOffset < |bufferedRows| {
        Deliver(dest);
        return HasRow;
      }
      assert bufferedRows[bufferOffset..] == [];
      if exhausted {
        return Eof;
      }
      assert Remaining() == All()[fetchedCount..];
      status := FetchMore();
      if status.HasRow? {
        Deliver(dest);
      }
    }

    /** Every remaining row has one cell per column. */
    lemma Width(row: Row)
      requires Valid() && row in Remaining()
      ensures |row| == |columns|
    {
      hide RowsOf, CellsOf, PutCells;
      var k :| 0 <= k < |All()| && All()[k] == row;
      RowsOfAt(conn.rows);
      assert conn.rows[k] in conn.rows;
    }

    method Close()
      requires Valid()
      modifies this`closed
      ensures Valid() && closed && Remaining() == []
    {
      closed := true;
    }
  }

  lemma StartsWith(all: seq<Row>, inline: seq<Row>)
    requires inline <= all
    ensures inline == all[|inline| - |inline|..|inline|]
    ensures inline[0..] + (if |inline| == 0 || |inline| >= |all| then [] else all[|inline|..])
         == if inline == [] then [] else all
    ensures all == [] <==> |all| == 0
    ensures inline != [] ==> all != []
  {
  }

  lemma FetchFailure(cas: Bytes, code: int, message: Bytes, columns: seq<Column>, stmtType: int)
    requires |cas| == 4 && FitsInt32(code)
    ensures PFetch(PutErrorReply(cas, -1, code, message), columns, stmtType).Got?
    ensures PFetch(PutErrorReply(cas, -1, code, message), columns, stmtType).value.Err?
  {
    hide PutErrorReply, PCode, Classify;
    var _ := ErrorReplyRead(cas, -1, code, message);
  }

  /** Rows n to n + k in the buffer instead of a used-up one: the same rows remain, and one batch less. */
  lemma Refilled(all: seq<Row>, used: seq<Row>, n: nat, k: nat, rows: seq<Row>, size: Positive)
    requires 0 < k <= size && n + k <= |all| && rows == all[n..n + k]
    ensures |rows| == k && rows == all[n + k - |rows|..n + k]
    ensures rows[0..] + (if n + k >= |all| then [] else all[n + k..]) == used[|used|..] + all[n..]
    ensures k == size || n + k == |all| ==>
              1 + Batches(if n + k >= |all| then 0 else |all| - (n + k), size) == Batches(|all| - n, size)
  {
    BatchTaken(|all| - n, k, size);
  }

  /**
    Calls Next until it delivers no row, as a caller iterating over a result does. A server
    that never sends an empty batch early gives exactly the remaining rows, in order; full
    batches cost exactly Batches(unsent, size) requests, and others at most one per row.
   */
  method Drain(r: Rows) returns (delivered: seq<Row>, status: Status)
    requires r.Valid()
    modifies r, r.conn
    ensures r.Valid() && !status.HasRow?
    ensures delivered <= old(r.Remaining())
    ensures status.Failed? ==> delivered + r.Remaining() == old(r.Remaining())
    ensures status.Eof? ==> r.Remaining() == []
    ensures status.Eof? && !r.conn.policy.Arbitrary? ==> delivered == old(r.Remaining())
    ensures status.Eof? && r.conn.policy.Full? ==>
              r.conn.fetches == old(r.conn.fetches) + Batches(old(r.Unsent()), r.fetchSize)
    ensures status.Eof? && !r.conn.policy.Arbitrary? ==>
              r.conn.fetches <= old(r.conn.fetches) + old(r.Unsent())
  {
    hide Rows.Valid, Rows.Remaining, Rows.Unsent, Batches;
    delivered := [];
    status := HasRow;
    ghost var left := r.Remaining();
    while true
      invariant r.Valid() && left == r.Remaining()
      invariant delivered + left == old(r.Remaining())
      invariant r.conn.policy.Full? ==>
                  r.conn.fetches + Batches(r.Unsent(), r.fetchSize)
                  == old(r.conn.fetches) + Batches(old(r.Unsent()), r.fetchSize)
      invariant r.conn.fetches + r.Unsent() <= old(r.conn.fetches) + old(r.Unsent())
      decreases |left|
    {
      var dest := new Cell[|r.columns|](_ => Null);
      ghost var unsent := r.Unsent();
      if left != [] {
        r.Width(left[0]);
      }
      status := r.Next(dest);
      if !status.HasRow? {
        NoBatches(r.fetchSize);
        return;
      }
      assert dest[..] == left[0];
      assert delivered + left == delivered + [left[0]] + left[1..];
      delivered := delivered + [dest[..]];
      left := r.Remaining();
    }
  }

  lemma NoBatches(size: Positive)
    ensures Batches(0, size) == 0
  {
  }

  /**
    A whole query from the bytes of its PREPARE_AND_EXECUTE response to the last row: what
    the caller gets is the server's list of rows, for every protocol version, provided the
    response carries some row inline unless there is none.
   */
  method QueryAll(response: Bytes, version: int, conn: Server, ghost p: WirePrepare, ghost e: WireExecute)
    returns (delivered: seq<Row>, status: Status)
    requires conn.Good() && conn.stmtType == STMT_SELECT && !conn.policy.Arbitrary?
    requires GoodPrepare(p) && p.handle == conn.handle && p.stmtType as int == conn.stmtType
    requires ColumnsOf(p.columns) == conn.columns && GoodExecute(e, conn.columns, conn.stmtType)
    requires e.total == |conn.rows| && e.inline.Present? && e.inline.rows <= conn.rows
    requires e.inline.rows == [] ==> conn.rows == []
    requires response == PutPrepareAndExecute(conn.cas, p, e, version)
    modifies conn
    ensures !status.HasRow? && delivered <= RowsOf(conn.rows)
    ensures status.Eof? ==> delivered == RowsOf(conn.rows)
    ensures status.Eof? && conn.policy.Full? ==>
              conn.fetches == old(conn.fetches) + Batches(|conn.rows| - |e.inline.rows|, 100)
  {
    hide PPrepareAndExecute, PutPrepareAndExecute, Rows.Valid, Rows.Remaining, Rows.Unsent, RowsOf, Batches,
      GoodPrepare, GoodRows;
    PrepareAndExecuteRoundTrip(conn.cas, p, e, version);
    var res := ParsePrepareAndExecute(response, version);
    InlinePrefix(conn.rows, e.inline.rows);
    var r := new Rows(conn, res.result.1.rows, 100);
    delivered, status := Drain(r);
  }

  /**
    The same for a prepared SELECT without arguments: from the bytes of its EXECUTE response,
    read with the columns of PREPARE, to the last row.
   */
  method StmtQueryAll(response: Bytes, version: int, conn: Server, ghost e: WireExecute)
    returns (delivered: seq<Row>, status: Status)
    requires conn.Good() && conn.stmtType == STMT_SELECT && !conn.policy.Arbitrary?
    requires GoodExecute(e, conn.columns, conn.stmtType)
    requires e.total == |conn.rows| && e.inline.Present? && e.inline.rows <= conn.rows
    requires e.inline.rows == [] ==> conn.rows == []
    requires response == PutReply(conn.cas, e.total, PutExecuteBody(e, conn.columns, conn.stmtType, version))
    modifies conn
    ensures !status.HasRow? && delivered <= RowsOf(conn.rows)
    ensures status.Eof? ==> delivered == RowsOf(conn.rows)
    ensures status.Eof? && conn.policy.Full? ==>
              conn.fetches == old(conn.fetches) + Batches(|conn.rows| - |e.inline.rows|, 100)
  {
    hide PExecute, PutReply, PutExecuteBody, Rows.Valid, Rows.Remaining, Rows.Unsent, RowsOf, Batches, GoodRows;
    ExecuteRoundTrip(conn.cas, e, conn.columns, conn.stmtType, version);
    var res := ParseExecute(response, conn.columns, conn.stmtType, version);
    InlinePrefix(conn.rows, e.inline.rows);
    var r := new Rows(conn, res.result.rows, 100);
    delivered, status := Drain(r);
  }

  lemma InlinePrefix(all: seq<WireRow>, inline: seq<WireRow>)
    requires inline <= all
    ensures RowsOf(inline) <= RowsOf(all)
    ensures RowsOf(inline) == [] <==> inline == []
  {
    assert inline == all[0..|inline|];
    RowsOfSlice(all, 0, |inline|);
  }
}
