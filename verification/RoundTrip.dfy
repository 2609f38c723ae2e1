/**
  Whole responses: the parser of each kind returns what a well-formed response encodes and
  stops at its last byte, for every protocol version; and PREPARE_AND_EXECUTE is PREPARE
  followed by EXECUTE.
 */
module RoundTrip {
  import opened Wire
  import opened Packet
  import opened Errors
  import opened Response
  import opened Encoders

  ghost predicate Code(v: int) { 0 <= v && FitsInt32(v) }

  // ----- encoders

  datatype WirePrepare = WirePrepare(
    handle: int, lifetime: int, stmtType: byte, bindCount: int, updatable: byte, columns: seq<WireColumn>)

  datatype Inline = Absent | Present(fetchCode: int, rows: seq<WireRow>)

  datatype WireExecute = WireExecute(
    total: int, reusable: byte, infos: seq<WireInfo>, columnInfo: byte, shard: int, inline: Inline)

  ghost predicate GoodPrepare(w: WirePrepare) {
    && Code(w.handle) && FitsInt32(w.bindCount) && FitsInt32(|w.columns|)
    && forall c | c in w.columns :: GoodColumn(c)
  }

  /** Inline rows come with a SELECT (21) only. */
  ghost predicate GoodExecute(w: WireExecute, columns: seq<Column>, stmtType: int) {
    && Code(w.total) && FitsInt32(|w.infos|) && (forall i | i in w.infos :: GoodInfo(i))
    && (w.inline.Present? ==>
          && stmtType == 21 && FitsInt32(|w.inline.rows|)
          && GoodRows(w.inline.rows, columns, stmtType == 126))
  }

  ghost function PreparedOf(w: WirePrepare): Prepared {
    Prepared(w.handle, w.stmtType as int, w.bindCount, ColumnsOf(w.columns))
  }

  ghost function InlineOf(i: Inline): Fetched {
    if i.Absent? then Fetched(0, []) else Fetched(|i.rows|, RowsOf(i.rows))
  }

  ghost function ExecutedOf(w: WireExecute): Executed {
    var f := InlineOf(w.inline);
    Executed(w.total, InfosOf(w.infos), f.tupleCount, f.rows)
  }

  function PutReply(cas: Bytes, code: int, t: Bytes): Bytes {
    PutRaw(cas, PutInt(code, t))
  }

  function PutPrepareBody(w: WirePrepare, t: Bytes): Bytes
    requires GoodPrepare(w)
  {
    PutInt(w.lifetime, PutByte(w.stmtType, PutInt(w.bindCount, PutByte(w.updatable,
    PutInt(|w.columns|, PutColumns(w.columns, t))))))
  }

  function PutInline(i: Inline, columns: seq<Column>, stmtType: int): Bytes
    requires i.Present? ==> GoodRows(i.rows, columns, stmtType == 126)
  {
    if i.Absent? then []
    else PutInt(i.fetchCode, PutInt(|i.rows|, PutRows(i.rows, columns, stmtType == 126, [])))
  }

  function PutVersionFields(w: WireExecute, version: int, t: Bytes): Bytes {
    var shard := if version > 4 then PutInt(w.shard, t) else t;
    if version > 1 then PutByte(w.columnInfo, shard) else shard
  }

  function PutExecuteBody(w: WireExecute, columns: seq<Column>, stmtType: int, version: int): Bytes
    requires GoodExecute(w, columns, stmtType)
  {
    PutByte(w.reusable, PutInt(|w.infos|, PutInfos(w.infos,
    PutVersionFields(w, version, PutInline(w.inline, columns, stmtType)))))
  }

  function PutPrepareAndExecute(cas: Bytes, p: WirePrepare, e: WireExecute, version: int): Bytes
    requires GoodPrepare(p) && GoodExecute(e, ColumnsOf(p.columns), p.stmtType as int)
  {
    var body := PutExecuteBody(e, ColumnsOf(p.columns), p.stmtType as int, version);
    PutReply(cas, p.handle, PutPrepareBody(p, PutInt(e.total, body)))
  }

  function PutFetch(cas: Bytes, code: int, rows: seq<WireRow>, columns: seq<Column>, stmtType: int): Bytes
    requires GoodRows(rows, columns, stmtType == 126)
  {
    PutReply(cas, code, PutInt(|rows|, PutRows(rows, columns, stmtType == 126, [])))
  }

  // ----- round trips

  lemma ReadReply(cas: Bytes, code: int, t: Bytes)
    requires |cas| == 4 && Code(code)
    ensures PCode(PutReply(cas, code, t)) == Got(Ok(code), t)
  {
    hide PRaw, PutRaw, PInt, PutInt;
    assert PRaw(PutReply(cas, code, t), 4) == Got(cas, PutInt(code, t));
  }

  lemma ReadPrepareBody(w: WirePrepare, t: Bytes)
    requires GoodPrepare(w)
    ensures PPrepareBody(PutPrepareBody(w, t), w.handle) == Got(PreparedOf(w), t)
  {
    hide PByte, PutByte, PInt, PutInt, PColumns, PutColumns, GoodColumn;
    ReadColumns(w.columns, t);
  }

  lemma ReadVersionFields(w: WireExecute, version: int, t: Bytes)
    ensures PVersionFields(PutVersionFields(w, version, t), version) == Got((), t)
  {
    hide PByte, PutByte, PInt, PutInt;
  }

  lemma ReadInline(w: WireExecute, columns: seq<Column>, stmtType: int, needColumns: bool)
    requires GoodExecute(w, columns, stmtType)
    requires needColumns && columns == [] ==> w.inline.Absent? || w.inline.rows == []
    ensures PInline(PutInline(w.inline, columns, stmtType), columns, stmtType, needColumns)
         == Got(InlineOf(w.inline), [])
  {
    if w.inline.Present? {
      var rows := w.inline.rows;
      var body := PutRows(rows, columns, stmtType == 126, []);
      ReadRows(rows, columns, stmtType == 126, []);
      assert |PutInt(w.inline.fetchCode, PutInt(|rows|, body))| >= 8;
      hide PInt, PutInt, PRows, PutRows, GoodRows;
    }
  }

  lemma ReadExecuteBody(w: WireExecute, columns: seq<Column>, stmtType: int, version: int, needColumns: bool)
    requires GoodExecute(w, columns, stmtType)
    requires needColumns && columns == [] ==> w.inline.Absent? || w.inline.rows == []
    ensures var body := PutExecuteBody(w, columns, stmtType, version);
      PExecuteBody(body, w.total, columns, stmtType, version, needColumns) == Got(ExecutedOf(w), [])
  {
    hide PByte, PutByte, PInt, PutInt, PInfos, PutInfos, PVersionFields, PutVersionFields, PInline, PutInline,
      GoodInfo, GoodRows;
    var inline := PutInline(w.inline, columns, stmtType);
    ReadInline(w, columns, stmtType, needColumns);
    ReadVersionFields(w, version, inline);
    ReadInfos(w.infos, PutVersionFields(w, version, inline));
  }

  /** PREPARE_AND_EXECUTE: every field comes back and nothing is left over. */
  lemma PrepareAndExecuteRoundTrip(cas: Bytes, p: WirePrepare, e: WireExecute, version: int)
    requires |cas| == 4
    requires GoodPrepare(p) && GoodExecute(e, ColumnsOf(p.columns), p.stmtType as int)
    ensures PPrepareAndExecute(PutPrepareAndExecute(cas, p, e, version), version)
         == Got(Ok((PreparedOf(p), ExecutedOf(e))), [])
  {
    hide PInt, PutInt, PCode, PutReply, PPrepareBody, PutPrepareBody, PExecuteBody, PutExecuteBody,
      GoodColumn, GoodInfo, GoodRows;
    var columns, stmtType := ColumnsOf(p.columns), p.stmtType as int;
    var body := PutExecuteBody(e, columns, stmtType, version);
    ReadExecuteBody(e, columns, stmtType, version, false);
    ReadPrepareBody(p, PutInt(e.total, body));
    ReadReply(cas, p.handle, PutPrepareBody(p, PutInt(e.total, body)));
  }

  lemma PrepareRoundTrip(cas: Bytes, p: WirePrepare)
    requires |cas| == 4 && GoodPrepare(p)
    ensures PPrepare(PutReply(cas, p.handle, PutPrepareBody(p, []))) == Got(Ok(PreparedOf(p)), [])
  {
    hide PCode, PutReply, PPrepareBody, PutPrepareBody, GoodColumn;
    ReadPrepareBody(p, []);
    ReadReply(cas, p.handle, PutPrepareBody(p, []));
  }

  /** EXECUTE: rows are read only with columns, so rows without columns are the exception. */
  lemma ExecuteRoundTrip(cas: Bytes, e: WireExecute, columns: seq<Column>, stmtType: int, version: int)
    requires |cas| == 4 && GoodExecute(e, columns, stmtType)
    requires columns != [] || e.inline.Absent? || e.inline.rows == []
    ensures PExecute(PutReply(cas, e.total, PutExecuteBody(e, columns, stmtType, version)), columns, stmtType, version)
         == Got(Ok(ExecutedOf(e)), [])
  {
    hide PCode, PutReply, PExecuteBody, PutExecuteBody, GoodInfo, GoodRows;
    ReadExecuteBody(e, columns, stmtType, version, true);
    ReadReply(cas, e.total, PutExecuteBody(e, columns, stmtType, version));
  }

  lemma FetchRoundTrip(cas: Bytes, code: int, rows: seq<WireRow>, columns: seq<Column>, stmtType: int)
    requires |cas| == 4 && Code(code) && FitsInt32(|rows|) && (columns != [] || rows == [])
    requires GoodRows(rows, columns, stmtType == 126)
    ensures PFetch(PutFetch(cas, code, rows, columns, stmtType), columns, stmtType)
         == Got(Ok(Fetched(|rows|, RowsOf(rows))), [])
  {
    hide PCode, PutReply, PInt, PutInt, PRows, PutRows, RowsOf, GoodRows, GoodRow;
    var isCall := stmtType == 126;
    var body := PutRows(rows, columns, isCall, []);
    ReadRows(rows, columns, isCall, []);
    NoRows(columns, isCall);
    ReadReply(cas, code, PutInt(|rows|, body));
    assert PInt(PutInt(|rows|, body)) == Got(|rows|, body);
  }

  lemma NoRows(columns: seq<Column>, isCall: bool)
    ensures RowsOf([]) == [] && PutRows([], columns, isCall, []) == []
  {
  }

  // ----- the error path, shared by all parsers

  function PutErrorReply(cas: Bytes, indicator: int, code: int, message: Bytes): Bytes {
    PutReply(cas, indicator, PutInt(code, message))
  }

  lemma WholeText(message: Bytes)
    ensures PStr(message, |message|).Got? && PStr(message, |message|).rest == []
    ensures TextOf(PStr(message, |message|).value, message)
  {
    assert message[..|message|] == message && message[|message|..] == [];
  }

  /** A negative indicator: the message is everything after the code, less one final NUL. */
  lemma ErrorReplyRead(cas: Bytes, indicator: int, code: int, message: Bytes) returns (text: Bytes)
    requires |cas| == 4 && indicator < 0 && FitsInt32(indicator) && FitsInt32(code)
    ensures TextOf(text, message)
    ensures PCode(PutErrorReply(cas, indicator, code, message)) == Got(Err(Classify(code, text)), [])
  {
    var data := PutErrorReply(cas, indicator, code, message);
    assert |data| == 12 + |message|;
    hide PRaw, PutRaw, PInt, PutInt, PStr, TextOf;
    assert PRaw(data, 4) == Got(cas, PutInt(indicator, PutInt(code, message)));
    WholeText(message);
    text := PStr(message, |message|).value;
  }

  lemma ErrorCode(data: Bytes) returns (e: CubridError)
    requires |data| >= 8 && PInt(data[4..]).value < 0
    ensures PCode(data).Panic? <==> |data| < 12
    ensures |data| >= 12 ==>
      && TextOf(e.message, data[12..]) && e == Classify(PInt(data[8..]).value, e.message)
      && PCode(data) == Got(Err(e), [])
  {
    assert data[4..][4..] == data[8..];
    e := Classify(0, []);
    if |data| >= 12 {
      assert data[8..][4..] == data[12..];
      WholeText(data[12..]);
      e := Classify(PInt(data[8..]).value, PStr(data[12..], |data| - 12).value);
    }
  }

  /** All parsers that share raiseError do r with these bytes. */
  ghost predicate EveryParser(data: Bytes, columns: seq<Column>, stmtType: int, version: int, r: Parse<CubridError>) {
    match r
    case Panic =>
      && POpenDatabase(data).Panic? && PSimple(data).Panic? && PVersion(data).Panic? && PLastId(data).Panic?
      && PPrepare(data).Panic? && PExecute(data, columns, stmtType, version).Panic?
      && PPrepareAndExecute(data, version).Panic? && PFetch(data, columns, stmtType).Panic?
    case Got(e, s) =>
      && POpenDatabase(data) == Got(Err(e), s) && PSimple(data) == Got(Err(e), s)
      && PVersion(data) == Got(Err(e), s) && PLastId(data) == Got(Err(e), s)
      && PPrepare(data) == Got(Err(e), s) && PExecute(data, columns, stmtType, version) == Got(Err(e), s)
      && PPrepareAndExecute(data, version) == Got(Err(e), s) && PFetch(data, columns, stmtType) == Got(Err(e), s)
  }

  /**
    Every response with a negative indicator, in every parser: below twelve bytes it panics;
    otherwise it is consumed whole. Bytes 8 to 11 are the code, the bytes after them are the
    message, less one final NUL if there is one, and the keywords in it decide the kind.
   */
  lemma ErrorPathExact(data: Bytes, columns: seq<Column>, stmtType: int, version: int) returns (e: CubridError)
    requires |data| >= 8 && PInt(data[4..]).value < 0
    ensures |data| < 12 ==> EveryParser(data, columns, stmtType, version, Panic)
    ensures |data| >= 12 ==>
      && EveryParser(data, columns, stmtType, version, Got(e, []))
      && TextOf(e.message, data[12..]) && e == Classify(PInt(data[8..]).value, e.message)
  {
    hide PCode, PInt, PStr, TextOf;
    e := ErrorCode(data);
    assert PRaw(data, 4).Got?;
  }

  // ----- fusion

  lemma ColumnStable(s: Bytes, t: Bytes)
    requires PColumn(s).Got?
    ensures PColumn(s + t) == Got(PColumn(s).value, PColumn(s).rest + t)
  {
    hide PByte, PShort, PInt, PStr;
    ReadersStable();
  }

  lemma {:induction false} ColumnsStable(s: Bytes, n: int, t: Bytes)
    requires PColumns(s, n).Got?
    ensures PColumns(s + t, n) == Got(PColumns(s, n).value, PColumns(s, n).rest + t)
    decreases n
  {
    hide PColumn;
    if n > 0 {
      ColumnStable(s, t);
      ColumnsStable(PColumn(s).rest, n - 1, t);
    }
  }

  lemma PrepareBodyStable(s: Bytes, handle: int, t: Bytes)
    requires PPrepareBody(s, handle).Got?
    ensures PPrepareBody(s + t, handle) == Got(PPrepareBody(s, handle).value, PPrepareBody(s, handle).rest + t)
  {
    hide PByte, PInt, PColumns;
    ReadersStable();
    forall s: Bytes, n: int | PColumns(s, n).Got?
      ensures PColumns(s + t, n) == Got(PColumns(s, n).value, PColumns(s, n).rest + t)
    {
      ColumnsStable(s, n, t);
    }
  }

  /**
    For any bytes at all: if `p` parses as a PREPARE body with nothing left and `e` as an
    EXECUTE body for those columns, then p + e parses as PREPARE_AND_EXECUTE to the two
    results together, exactly when there are columns or no tuples.
   */
  lemma Fusion(cas: Bytes, p: Bytes, e: Bytes, version: int, prepared: Prepared, executed: Executed, rest: Bytes)
    requires |cas| == 4
    requires PPrepare(cas + p) == Got(Ok(prepared), [])
    requires PExecute(cas + e, prepared.columns, prepared.stmtType, version) == Got(Ok(executed), rest)
    ensures PPrepareAndExecute(cas + (p + e), version) == Got(Ok((prepared, executed)), rest)
       <==> prepared.columns != [] || executed.tupleCount <= 0
  {
    hide PCode, PInt, PPrepareBody, PExecuteBody;
    FusedCodes(cas, p, e);
    var s := PInt(p).rest;
    PrepareBodyStable(s, prepared.handle, e);
    assert [] + e == e;
    InlineGuard(PInt(e).rest, executed.total, prepared.columns, prepared.stmtType, version);
  }

  /** Inline rows without columns: the guarded parser counts them and leaves their bytes. */
  lemma GuardedInline(w: WireExecute, stmtType: int)
    requires GoodExecute(w, [], stmtType) && w.inline.Present? && w.inline.rows != []
    ensures PInline(PutInline(w.inline, [], stmtType), [], stmtType, true)
         == Got(Fetched(|w.inline.rows|, []), PutRows(w.inline.rows, [], false, []))
  {
    var body := PutRows(w.inline.rows, [], false, []);
    assert |PutInt(w.inline.fetchCode, PutInt(|w.inline.rows|, body))| >= 8;
    hide PInt, PutInt, PRows, PutRows, GoodRows;
  }

  lemma GuardedBody(w: WireExecute, stmtType: int, version: int)
    requires GoodExecute(w, [], stmtType) && w.inline.Present? && w.inline.rows != []
    ensures PExecuteBody(PutExecuteBody(w, [], stmtType, version), w.total, [], stmtType, version, true)
         == Got(ExecutedOf(w).(rows := []), PutRows(w.inline.rows, [], false, []))
  {
    hide PByte, PutByte, PInt, PutInt, PInfos, PutInfos, PVersionFields, PutVersionFields, PInline, PutInline,
      GoodInfo, GoodRows, PutRows;
    var inline := PutInline(w.inline, [], stmtType);
    GuardedInline(w, stmtType);
    ReadVersionFields(w, version, inline);
    ReadInfos(w.infos, PutVersionFields(w, version, inline));
  }

  /**
    The exception is real: for every well-formed SELECT response with rows and no columns,
    PREPARE then EXECUTE leaves the bytes of the rows unread, and PREPARE_AND_EXECUTE
    returns the rows.
   */
  lemma FusionFails(cas: Bytes, w: WirePrepare, e: WireExecute, version: int)
    requires |cas| == 4 && GoodPrepare(w) && w.columns == [] && w.stmtType as int == 21
    requires GoodExecute(e, [], 21) && e.inline.Present? && e.inline.rows != []
    ensures var p := PutInt(w.handle, PutPrepareBody(w, []));
      var x := PutInt(e.total, PutExecuteBody(e, [], 21, version));
      && PPrepare(cas + p) == Got(Ok(PreparedOf(w)), [])
      && PExecute(cas + x, [], 21, version)
         == Got(Ok(ExecutedOf(e).(rows := [])), PutRows(e.inline.rows, [], false, []))
      && PPrepareAndExecute(cas + (p + x), version) == Got(Ok((PreparedOf(w), ExecutedOf(e))), [])
  {
    hide PCode, PInt, PutInt, PPrepareBody, PutPrepareBody, PExecuteBody, PutExecuteBody,
      GoodColumn, GoodInfo, GoodRows, PutRows;
    var p := PutInt(w.handle, PutPrepareBody(w, []));
    var x := PutInt(e.total, PutExecuteBody(e, [], 21, version));
    ReadReply(cas, w.handle, PutPrepareBody(w, []));
    ReadReply(cas, e.total, PutExecuteBody(e, [], 21, version));
    ReadPrepareBody(w, []);
    GuardedBody(e, 21, version);
    ReadExecuteBody(e, [], 21, version, false);
    FusedCodes(cas, p, x);
    PrepareBodyStable(PInt(p).rest, w.handle, x);
    assert [] + x == x;
  }

  /** The code of each response is its first int32 after CAS_INFO. */
  lemma FusedCodes(cas: Bytes, p: Bytes, e: Bytes)
    requires |cas| == 4
    requires PCode(cas + p).Got? && PCode(cas + p).value.Ok? && PCode(cas + e).Got? && PCode(cas + e).value.Ok?
    ensures PInt(p).Got? && PInt(e).Got?
    ensures PCode(cas + p) == Got(Ok(PInt(p).value), PInt(p).rest)
    ensures PCode(cas + e) == Got(Ok(PInt(e).value), PInt(e).rest)
    ensures PCode(cas + (p + e)) == Got(Ok(PInt(p).value), PInt(p).rest + e)
  {
    hide PInt;
    hide PStr;
    assert (cas + p)[4..] == p && (cas + e)[4..] == e && (cas + (p + e))[4..] == p + e;
    ReadersStable();
    assert PInt(p + e) == Got(PInt(p).value, PInt(p).rest + e);
  }

  /** Dropping the column test changes the result only for tuples without columns. */
  lemma InlineGuard(s: Bytes, total: int, columns: seq<Column>, stmtType: int, version: int)
    requires PExecuteBody(s, total, columns, stmtType, version, true).Got?
    ensures PExecuteBody(s, total, columns, stmtType, version, false)
         == PExecuteBody(s, total, columns, stmtType, version, true)
       <==> columns != [] || PExecuteBody(s, total, columns, stmtType, version, true).value.tupleCount <= 0
  {
    hide PByte, PInt, PInfos, PVersionFields, PRow;
    var isCall := stmtType == STMT_CALL_SP;
    assert forall s: Bytes, n: int {:trigger PRows(s, n, columns, isCall)} ::
        n > 0 && PRows(s, n, columns, isCall).Got? ==> PRows(s, n, columns, isCall).value != [];
    hide PRows;
  }
}
