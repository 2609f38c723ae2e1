/**
  protocol.go: the request packets. A request is the value a server reads back from the
  payload; each Write* method builds the frame of one.
 */
module Requests {
  import opened Wire
  import opened Packet
  import opened Response
  import opened Values
  import opened Bind

  const FUNC_END_TRAN: byte := 1
  const FUNC_PREPARE: byte := 2
  const FUNC_EXECUTE: byte := 3
  const FUNC_CLOSE_REQ_HANDLE: byte := 6
  const FUNC_FETCH: byte := 8
  const FUNC_GET_DB_VERSION: byte := 15
  const FUNC_CON_CLOSE: byte := 31
  const FUNC_GET_LAST_INSERT_ID: byte := 40
  const FUNC_PREPARE_AND_EXECUTE: byte := 41

  const EXECUTE_QUERY_ALL: byte := 2

  datatype Request =
    | EndTran(kind: byte)
    | Prepare(sql: Bytes, autoCommit: bool)
    | Execute(handle: int, fetchInline: bool, params: Bytes, autoCommit: bool)
    | CloseHandle(handle: int)
    | Fetch(handle: int, start: int, size: int)
    | DbVersion(autoCommit: bool)
    | ConClose
    | LastInsertId
    | PrepareAndExecute(sql: Bytes, autoCommit: bool)

  // ----- the layout

  /** addByte and addInt: a value behind its own length. */
  function ArgByte(v: byte, t: Bytes): Bytes { PutInt(1, PutByte(v, t)) }
  function ArgInt(v: int, t: Bytes): Bytes { PutInt(4, PutInt(v, t)) }
  function CacheTime(t: Bytes): Bytes { PutInt(8, PutInt(0, PutInt(0, t))) }

  function Block(b: Bytes, t: Bytes): Bytes { PutInt(|b|, PutRaw(b, t)) }

  /** No limit on column or row sizes. */
  function NoLimits(t: Bytes): Bytes { ArgInt(0, ArgInt(0, t)) }

  /** Commit flag, forward only, cache time, no timeout. */
  function ExecuteOptions(autoCommit: bool, t: Bytes): Bytes {
    ArgByte(Bit(autoCommit), ArgByte(1, CacheTime(ArgInt(0, t))))
  }

  function ExecuteArgs(handle: int, fetchFlag: byte, params: Bytes, autoCommit: bool, t: Bytes): Bytes {
    var options := PutInt(1, PutByte(fetchFlag, ExecuteOptions(autoCommit, t)));
    ArgInt(handle, ArgByte(0, NoLimits(Block(params, options))))
  }

  function Payload(r: Request): Bytes {
    match r
    case EndTran(kind) => PutByte(FUNC_END_TRAN, ArgByte(kind, []))
    case Prepare(sql, ac) => PutByte(FUNC_PREPARE, PutSizedStr(sql, ArgByte(0, ArgByte(Bit(ac), []))))
    case Execute(h, inline, params, ac) =>
      PutByte(FUNC_EXECUTE, ExecuteArgs(h, Bit(inline), params, ac, []))
    case CloseHandle(h) => PutByte(FUNC_CLOSE_REQ_HANDLE, ArgInt(h, []))
    case Fetch(h, start, size) =>
      var options := ArgByte(0, ArgInt(0, []));
      PutByte(FUNC_FETCH, ArgInt(h, ArgInt(start, ArgInt(size, options))))
    case DbVersion(ac) => PutByte(FUNC_GET_DB_VERSION, ArgByte(Bit(ac), []))
    case ConClose => PutByte(FUNC_CON_CLOSE, [])
    case LastInsertId => PutByte(FUNC_GET_LAST_INSERT_ID, [])
    case PrepareAndExecute(sql, ac) =>
      var limits := NoLimits(PutInt(0, CacheTime(ArgInt(0, []))));
      var options := ArgByte(0, ArgByte(Bit(ac), ArgByte(EXECUTE_QUERY_ALL, limits)));
      PutByte(FUNC_PREPARE_AND_EXECUTE, ArgInt(3, PutSizedStr(sql, options)))
  }

  // ----- reading it back, as a server would

  function PArgByte(s: Bytes): Parse<byte> {
    var (n, s) :- PInt(s);
    if n == 1 then PByte(s) else Panic
  }

  function PArgInt(s: Bytes): Parse<int> {
    var (n, s) :- PInt(s);
    if n == 4 then PInt(s) else Panic
  }

  function PBlock(s: Bytes): Parse<Bytes> {
    var (n, s) :- PInt(s);
    PRaw(s, n)
  }

  function PExecuteArgs(s: Bytes): Parse<Request> {
    var (h, s) :- PArgInt(s);
    var (_, s) :- PArgByte(s); // execute option
    var (_, s) :- PArgInt(s);  // max column size
    var (_, s) :- PArgInt(s);  // max row size
    var (params, s) :- PBlock(s);
    var (_, s) :- PInt(s);     // bind mode count
    var (inline, s) :- PByte(s);
    var (ac, s) :- PArgByte(s);
    var (_, s) :- PArgByte(s); // forward only
    var (_, s) :- PBlock(s);   // cache time
    var (_, s) :- PArgInt(s);  // timeout
    Got(Execute(h, inline == 1, params, ac == 1), s)
  }

  function PPrepareAndExecuteArgs(s: Bytes): Parse<Request> {
    var (_, s) :- PArgInt(s);  // argument count
    var (sql, s) :- PSizedStr(s);
    var (_, s) :- PArgByte(s); // prepare option
    var (ac, s) :- PArgByte(s);
    var (_, s) :- PArgByte(s); // execute option
    var (_, s) :- PArgInt(s);  // max column size
    var (_, s) :- PArgInt(s);  // max row size
    var (_, s) :- PBlock(s);   // no bind parameters
    var (_, s) :- PBlock(s);   // cache time
    var (_, s) :- PArgInt(s);  // timeout
    Got(PrepareAndExecute(sql, ac == 1), s)
  }

  function PFetchArgs(s: Bytes): Parse<Request> {
    var (h, s) :- PArgInt(s);
    var (start, s) :- PArgInt(s);
    var (size, s) :- PArgInt(s);
    var (_, s) :- PArgByte(s); // case sensitivity
    var (_, s) :- PArgInt(s);  // result set index
    Got(Fetch(h, start, size), s)
  }

  function PPrepareArgs(s: Bytes): Parse<Request> {
    var (sql, s) :- PSizedStr(s);
    var (_, s) :- PArgByte(s); // prepare option
    var (ac, s) :- PArgByte(s);
    Got(Prepare(sql, ac == 1), s)
  }

  function PRequest(s: Bytes): Parse<Request> {
    var (f, s) :- PByte(s);
    if f == FUNC_END_TRAN then
      var (kind, s) :- PArgByte(s);
      Got(EndTran(kind), s)
    else if f == FUNC_PREPARE then PPrepareArgs(s)
    else if f == FUNC_EXECUTE then PExecuteArgs(s)
    else if f == FUNC_CLOSE_REQ_HANDLE then
      var (h, s) :- PArgInt(s);
      Got(CloseHandle(h), s)
    else if f == FUNC_FETCH then PFetchArgs(s)
    else if f == FUNC_GET_DB_VERSION then
      var (ac, s) :- PArgByte(s);
      Got(DbVersion(ac == 1), s)
    else if f == FUNC_CON_CLOSE then Got(ConClose, s)
    else if f == FUNC_GET_LAST_INSERT_ID then Got(LastInsertId, s)
    else if f == FUNC_PREPARE_AND_EXECUTE then PPrepareAndExecuteArgs(s)
    else Panic
  }

  /** Lengths and handles fit the int32 fields that carry them. */
  predicate Sendable(r: Request) {
    match r
    case Prepare(sql, _) => FitsInt32(|sql| + 1)
    case PrepareAndExecute(sql, _) => FitsInt32(|sql| + 1)
    case Execute(h, _, params, _) => FitsInt32(h) && FitsInt32(|params|)
    case CloseHandle(h) => FitsInt32(h)
    case Fetch(h, start, size) => FitsInt32(h) && FitsInt32(start) && FitsInt32(size)
    case _ => true
  }

  lemma ReadArgs(v: int, b: byte, t: Bytes)
    ensures PArgByte(ArgByte(b, t)) == Got(b, t)
    ensures FitsInt32(v) ==> PArgInt(ArgInt(v, t)) == Got(v, t)
  {
    hide PByte, PutByte, PInt, PutInt;
  }

  lemma ReadBlock(b: Bytes, t: Bytes)
    requires FitsInt32(|b|)
    ensures PBlock(Block(b, t)) == Got(b, t)
  {
    hide PInt, PutInt, PRaw, PutRaw;
  }

  lemma ReadCacheTime(t: Bytes)
    ensures PBlock(CacheTime(t)).Got? && PBlock(CacheTime(t)).rest == t
  {
    var b := IntBytes(0) + IntBytes(0);
    assert PutInt(0, PutInt(0, t)) == PutRaw(b, t);
    assert CacheTime(t) == Block(b, t);
    ReadBlock(b, t);
  }

  lemma EmptyBlock(t: Bytes)
    ensures PBlock(PutInt(0, t)) == Got([], t)
  {
    hide PInt, PutInt;
  }

  lemma ReadExecute(r: Request)
    requires Sendable(r) && r.Execute?
    ensures PRequest(Payload(r)) == Got(r, [])
  {
    hide PByte, PutByte, PInt, PutInt, PutRaw, PBlock, CacheTime, PArgByte, ArgByte, PArgInt, ArgInt;
    var end := ArgInt(0, []);
    var options := PutInt(1, PutByte(Bit(r.fetchInline), ExecuteOptions(r.autoCommit, [])));
    ReadArgs(0, 0, []);
    ReadCacheTime(end);
    ReadArgs(0, 1, CacheTime(end));
    ReadArgs(0, Bit(r.autoCommit), ArgByte(1, CacheTime(end)));
    ReadBlock(r.params, options);
    var block := Block(r.params, options);
    ReadArgs(0, 0, block);
    ReadArgs(0, 0, ArgInt(0, block));
    ReadArgs(r.handle, 0, NoLimits(block));
    ReadArgs(r.handle, 0, ArgByte(0, NoLimits(block)));
  }

  lemma ReadPrepareAndExecute(r: Request)
    requires Sendable(r) && r.PrepareAndExecute?
    ensures PRequest(Payload(r)) == Got(r, [])
  {
    hide PByte, PutByte, PInt, PutInt, PSizedStr, PutSizedStr, PBlock, CacheTime, PArgByte, ArgByte, PArgInt, ArgInt;
    var end := ArgInt(0, []);
    var noParams := PutInt(0, CacheTime(end));
    ReadArgs(0, 0, []);
    ReadCacheTime(end);
    EmptyBlock(CacheTime(end));
    ReadArgs(0, 0, noParams);
    ReadArgs(0, 0, ArgInt(0, noParams));
    var limits := NoLimits(noParams);
    ReadArgs(0, EXECUTE_QUERY_ALL, limits);
    ReadArgs(0, Bit(r.autoCommit), ArgByte(EXECUTE_QUERY_ALL, limits));
    var flags := ArgByte(Bit(r.autoCommit), ArgByte(EXECUTE_QUERY_ALL, limits));
    ReadArgs(0, 0, flags);
    ReadArgs(3, 0, PutSizedStr(r.sql, ArgByte(0, flags)));
  }

  lemma ReadOther(r: Request)
    requires Sendable(r) && !r.Execute? && !r.PrepareAndExecute?
    ensures PRequest(Payload(r)) == Got(r, [])
  {
    hide PByte, PutByte, PInt, PutInt, PSizedStr, PutSizedStr, PArgByte, ArgByte, PArgInt, ArgInt;
    forall b: byte, t: Bytes ensures PArgByte(ArgByte(b, t)) == Got(b, t) {
      ReadArgs(0, b, t);
    }
    forall v: int, t: Bytes ensures FitsInt32(v) ==> PArgInt(ArgInt(v, t)) == Got(v, t) {
      ReadArgs(v, 0, t);
    }
  }

  /** A server reads back exactly the request that was written. */
  lemma RequestRoundTrip(r: Request)
    requires Sendable(r)
    ensures PRequest(Payload(r)) == Got(r, [])
  {
    hide PRequest, Payload;
    if r.Execute? {
      ReadExecute(r);
    } else if r.PrepareAndExecute? {
      ReadPrepareAndExecute(r);
    } else {
      ReadOther(r);
    }
  }

  /** Different requests have different payloads. */
  lemma PayloadInjective(r: Request, q: Request)
    requires Sendable(r) && Sendable(q) && Payload(r) == Payload(q)
    ensures r == q
  {
    hide PRequest, Payload;
    RequestRoundTrip(r);
    RequestRoundTrip(q);
  }

  // ----- framing

  /** The eight-byte header and the payload; the length is cut to 32 bits. */
  function Frame(cas: Bytes, payload: Bytes): Bytes {
    U32(|payload| % TWO32) + cas + payload
  }

  /** The header in front of what was written, which is the given payload. */
  method BuildFrame(cas: Bytes, w: PacketWriter, ghost payload: Bytes) returns (packet: Bytes)
    requires w.buf + [] == [] + payload
    ensures packet == Frame(cas, payload)
  {
    assert w.buf + [] == w.buf && [] + payload == payload;
    packet := U32(|w.buf| % TWO32) + cas;
    packet := packet + w.buf;
  }

  // ----- the Write* functions

  method AddAutoCommit(w: PacketWriter, autoCommit: bool)
    modifies w
    ensures forall t: Bytes {:trigger w.buf + t} :: w.buf + t == old(w.buf) + ArgByte(Bit(autoCommit), t)
  {
    hide PutByte, PutInt;
    if autoCommit {
      w.AddByte(1);
    } else {
      w.AddByte(0);
    }
  }

  method AddNoLimits(w: PacketWriter)
    modifies w
    ensures forall t: Bytes {:trigger w.buf + t} :: w.buf + t == old(w.buf) + NoLimits(t)
  {
    hide PutInt;
    w.AddInt(0);
    w.AddInt(0);
  }

  method AddExecuteOptions(w: PacketWriter, autoCommit: bool)
    modifies w
    ensures forall t: Bytes {:trigger w.buf + t} :: w.buf + t == old(w.buf) + ExecuteOptions(autoCommit, t)
  {
    hide PutByte, PutInt;
    AddAutoCommit(w, autoCommit);
    w.AddByte(1);
    w.AddCacheTime();
    w.AddInt(0);
  }

  method WriteConClose(cas: Bytes) returns (packet: Bytes)
    ensures packet == Frame(cas, Payload(ConClose))
  {
    hide PutByte, Frame;
    var w := new PacketWriter();
    w.WriteByte(FUNC_CON_CLOSE);
    packet := BuildFrame(cas, w, Payload(ConClose));
  }

  method WriteEndTran(kind: byte, cas: Bytes) returns (packet: Bytes)
    ensures packet == Frame(cas, Payload(EndTran(kind)))
  {
    hide PutByte, PutInt, Frame;
    var w := new PacketWriter();
    w.WriteByte(FUNC_END_TRAN);
    w.AddByte(kind);
    packet := BuildFrame(cas, w, Payload(EndTran(kind)));
  }

  method WriteGetDbVersion(autoCommit: bool, cas: Bytes) returns (packet: Bytes)
    ensures packet == Frame(cas, Payload(DbVersion(autoCommit)))
  {
    hide PutByte, PutInt, Frame;
    var w := new PacketWriter();
    w.WriteByte(FUNC_GET_DB_VERSION);
    AddAutoCommit(w, autoCommit);
    packet := BuildFrame(cas, w, Payload(DbVersion(autoCommit)));
  }

  method WriteCloseReqHandle(queryHandle: int, cas: Bytes) returns (packet: Bytes)
    ensures packet == Frame(cas, Payload(CloseHandle(queryHandle)))
  {
    hide PutByte, PutInt, Frame;
    var w := new PacketWriter();
    w.WriteByte(FUNC_CLOSE_REQ_HANDLE);
    w.AddInt(queryHandle);
    packet := BuildFrame(cas, w, Payload(CloseHandle(queryHandle)));
  }

  method WriteGetLastInsertId(cas: Bytes) returns (packet: Bytes)
    ensures packet == Frame(cas, Payload(LastInsertId))
  {
    hide PutByte, Frame;
    var w := new PacketWriter();
    w.WriteByte(FUNC_GET_LAST_INSERT_ID);
    packet := BuildFrame(cas, w, Payload(LastInsertId));
  }

  /** FETCH counts rows from 1. */
  method WriteFetch(queryHandle: int, currentTupleCount: int, fetchSize: int, cas: Bytes) returns (packet: Bytes)
    ensures packet == Frame(cas, Payload(Fetch(queryHandle, currentTupleCount + 1, fetchSize)))
  {
    hide PutByte, PutInt, Frame;
    var w := new PacketWriter();
    w.WriteByte(FUNC_FETCH);
    w.AddInt(queryHandle);
    w.AddInt(currentTupleCount + 1);
    w.AddInt(fetchSize);
    w.AddByte(0);
    w.AddInt(0);
    packet := BuildFrame(cas, w, Payload(Fetch(queryHandle, currentTupleCount + 1, fetchSize)));
  }

  method WritePrepare(sql: Bytes, autoCommit: bool, cas: Bytes) returns (packet: Bytes)
    ensures packet == Frame(cas, Payload(Prepare(sql, autoCommit)))
  {
    hide PutByte, PutInt, PutSizedStr, Frame;
    var w := new PacketWriter();
    w.WriteByte(FUNC_PREPARE);
    w.WriteNullTermString(sql);
    w.AddByte(0);
    AddAutoCommit(w, autoCommit);
    packet := BuildFrame(cas, w, Payload(Prepare(sql, autoCommit)));
  }

  method WritePrepareAndExecute(sql: Bytes, autoCommit: bool, cas: Bytes) returns (packet: Bytes)
    ensures packet == Frame(cas, Payload(PrepareAndExecute(sql, autoCommit)))
  {
    hide PutByte, PutInt, PutSizedStr, Frame, NoLimits;
    var w := new PacketWriter();
    w.WriteByte(FUNC_PREPARE_AND_EXECUTE);
    w.AddInt(3);
    w.WriteNullTermString(sql);
    w.AddByte(0);
    AddAutoCommit(w, autoCommit);
    w.AddByte(EXECUTE_QUERY_ALL);
    AddNoLimits(w);
    w.WriteInt(0);
    w.AddCacheTime();
    w.AddInt(0);
    packet := BuildFrame(cas, w, Payload(PrepareAndExecute(sql, autoCommit)));
  }

  /** The block of bind parameters; no parameters are an empty block. */
  method AddParams(w: PacketWriter, bindData: Bytes)
    modifies w
    ensures forall t: Bytes {:trigger w.buf + t} :: w.buf + t == old(w.buf) + Block(bindData, t)
  {
    hide PutInt;
    if |bindData| > 0 {
      w.AddBytes(bindData);
    } else {
      EmptyRawBlock(bindData);
      w.WriteInt(0);
    }
  }

  /** Everything after the EXECUTE function code. */
  method AddExecuteArgs(w: PacketWriter, queryHandle: int, fetchFlag: byte, bindData: Bytes, autoCommit: bool)
    modifies w
    ensures forall t: Bytes {:trigger w.buf + t} ::
              w.buf + t == old(w.buf) + ExecuteArgs(queryHandle, fetchFlag, bindData, autoCommit, t)
  {
    hide PutByte, PutInt, NoLimits, Block, ExecuteOptions;
    w.AddInt(queryHandle);
    w.AddByte(0);
    AddNoLimits(w);
    AddParams(w, bindData);
    w.WriteInt(1);
    w.WriteByte(fetchFlag);
    AddExecuteOptions(w, autoCommit);
  }

  /** The fetch flag asks for inline rows of a SELECT; the arguments travel as one block. */
  method WriteExecute(queryHandle: int, stmtType: int, args: seq<Value>, autoCommit: bool, cas: Bytes)
    returns (packet: Bytes)
    requires GoodParams(args)
    ensures packet
         == Frame(cas, Payload(Execute(queryHandle, stmtType == 21, PutParams(args, []), autoCommit)))
  {
    hide PutParams, Payload, ExecuteArgs, PutByte, Frame, GoodParam;
    var fetchFlag: byte := 0;
    if stmtType == STMT_SELECT {
      fetchFlag := 1;
    }
    var bindData := EncodeBindParams(args);
    ghost var request := Execute(queryHandle, stmtType == STMT_SELECT, bindData, autoCommit);
    ExecutePayload(request);
    var w := new PacketWriter();
    w.WriteByte(FUNC_EXECUTE);
    AddExecuteArgs(w, queryHandle, fetchFlag, bindData, autoCommit);
    packet := BuildFrame(cas, w, Payload(request));
  }

  lemma ExecutePayload(r: Request)
    requires r.Execute?
    ensures Payload(r) == PutByte(FUNC_EXECUTE, ExecuteArgs(r.handle, Bit(r.fetchInline), r.params, r.autoCommit, []))
  {
    hide PutByte, ExecuteArgs;
  }

  lemma EmptyRawBlock(b: Bytes)
    ensures b == [] ==> forall t: Bytes {:trigger PutRaw(b, t)} :: PutRaw(b, t) == t
  {
  }
}
