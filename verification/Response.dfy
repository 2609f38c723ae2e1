/**
  protocol.go: what the response parsers compute, as functions on the unread bytes.
 */
module Response {
  import opened Wire
  import opened Packet
  import opened Errors

  const TYPE_NULL := 0
  const TYPE_CHAR := 1
  const TYPE_STRING := 2
  const TYPE_NCHAR := 3
  const TYPE_VARNCHAR := 4
  const TYPE_VARBIT := 6
  const TYPE_NUMERIC := 7
  const TYPE_INT := 8
  const TYPE_SHORT := 9
  const TYPE_MONETARY := 10
  const TYPE_FLOAT := 11
  const TYPE_DOUBLE := 12
  const TYPE_DATE := 13
  const TYPE_TIME := 14
  const TYPE_TIMESTAMP := 15
  const TYPE_BIGINT := 21
  const TYPE_DATETIME := 22
  const TYPE_ENUM := 25

  const STMT_INSERT := 20
  const STMT_SELECT := 21
  const STMT_CALL_SP := 0x7E

  /** The arguments given to time.Date; no calendar normalisation is modelled. */
  datatype Moment = Moment(year: int, month: int, day: int, hour: int, minute: int, second: int, nanos: int)

  /** A column value as the parser returns it. Floats are their bit patterns. */
  datatype Cell =
    | Null
    | Text(text: Bytes)
    | Integer(i: int)
    | Single(bits: int)
    | Double(bits: int)
    | Time(at: Moment)
    | Raw(data: Bytes)

  datatype Column = Column(
    columnType: int, scale: int, precision: int,
    name: Bytes, realName: Bytes, tableName: Bytes,
    isNullable: bool, defaultValue: Bytes,
    isAutoIncrement: bool, isUniqueKey: bool, isPrimaryKey: bool, isForeignKey: bool)

  datatype ResultInfo = ResultInfo(stmtType: int, resultCount: int, oid: Bytes)

  datatype Prepared = Prepared(handle: int, stmtType: int, bindCount: int, columns: seq<Column>)
  datatype Executed = Executed(total: int, infos: seq<ResultInfo>, tupleCount: int, rows: seq<seq<Cell>>)
  datatype Fetched = Fetched(tupleCount: int, rows: seq<seq<Cell>>)
  datatype Database = Database(cas: Bytes, version: int, sessionId: int)
  datatype Outcome<+T> = Ok(result: T) | Err(error: CubridError)

  // ----- column metadata

  /** A set high bit in the first byte says that the type is in the next byte. */
  function PType(s: Bytes): Parse<int> {
    var (legacy, s) :- PByte(s);
    if legacy >= 0x80 then
      var (ty, s) :- PByte(s);
      Got(ty as int, s)
    else
      Got(legacy as int, s)
  }

  function PFlag(s: Bytes): Parse<bool> {
    var (b, s) :- PByte(s);
    Got(b == 1, s)
  }

  datatype KeyFlags = KeyFlags(auto: bool, unique: bool, primary: bool, foreign: bool)

  function PKeyFlags(s: Bytes): Parse<KeyFlags> {
    var (auto, s) :- PFlag(s);
    var (unique, s) :- PFlag(s);
    var (primary, s) :- PFlag(s);
    var (_, s) :- PByte(s); // reverse index
    var (_, s) :- PByte(s); // reverse unique
    var (foreign, s) :- PFlag(s);
    var (_, s) :- PByte(s); // shared
    Got(KeyFlags(auto, unique, primary, foreign), s)
  }

  function PColumn(s: Bytes): Parse<Column> {
    var (ty, s) :- PType(s);
    var (scale, s) :- PShort(s);
    var (precision, s) :- PInt(s);
    var (name, s) :- PSizedStr(s);
    var (realName, s) :- PSizedStr(s);
    var (tableName, s) :- PSizedStr(s);
    var (nullable, s) :- PFlag(s);
    var (default, s) :- PSizedStr(s);
    var (k, s) :- PKeyFlags(s);
    Got(Column(ty, scale, precision, name, realName, tableName, nullable, default,
               k.auto, k.unique, k.primary, k.foreign), s)
  }

  /** A negative count panics when the slice is made. */
  function PColumns(s: Bytes, count: int): Parse<seq<Column>>
    decreases count
  {
    if count < 0 then Panic
    else if count == 0 then Got([], s)
    else
      var (c, s) :- PColumn(s);
      var (cs, s) :- PColumns(s, count - 1);
      Got([c] + cs, s)
  }

  // ----- result infos

  function PInfo(s: Bytes): Parse<ResultInfo> {
    var (stmtType, s) :- PByte(s);
    var (count, s) :- PInt(s);
    var (oid, s) :- PRaw(s, 8);
    var (_, s) :- PInt(s); // cache time, seconds
    var (_, s) :- PInt(s); // cache time, microseconds
    Got(ResultInfo(stmtType as int, count, oid), s)
  }

  function PInfos(s: Bytes, count: int): Parse<seq<ResultInfo>>
    decreases count
  {
    if count < 0 then Panic
    else if count == 0 then Got([], s)
    else
      var (i, s) :- PInfo(s);
      var (more, s) :- PInfos(s, count - 1);
      Got([i] + more, s)
  }

  // ----- rows

  predicate IsTextType(ty: int) {
    ty in {TYPE_CHAR, TYPE_STRING, TYPE_NCHAR, TYPE_VARNCHAR, TYPE_ENUM, TYPE_NUMERIC}
  }

  function PDate(s: Bytes): Parse<Moment> {
    var (y, s) :- PShort(s);
    var (mo, s) :- PShort(s);
    var (d, s) :- PShort(s);
    Got(Moment(y, mo, d, 0, 0, 0, 0), s)
  }

  function PTime(s: Bytes): Parse<Moment> {
    var (h, s) :- PShort(s);
    var (mi, s) :- PShort(s);
    var (sec, s) :- PShort(s);
    Got(Moment(0, 1, 1, h, mi, sec, 0), s)
  }

  function PTimestamp(s: Bytes): Parse<Moment> {
    var (y, s) :- PShort(s);
    var (mo, s) :- PShort(s);
    var (d, s) :- PShort(s);
    var (h, s) :- PShort(s);
    var (mi, s) :- PShort(s);
    var (sec, s) :- PShort(s);
    Got(Moment(y, mo, d, h, mi, sec, 0), s)
  }

  function PDatetime(s: Bytes): Parse<Moment> {
    var (t, s) :- PTimestamp(s);
    var (ms, s) :- PShort(s);
    Got(t.(nanos := ms * 1_000_000), s)
  }

  function PMoment(s: Bytes, ty: int): Parse<Moment> {
    if ty == TYPE_DATE then PDate(s)
    else if ty == TYPE_TIME then PTime(s)
    else if ty == TYPE_DATETIME then PDatetime(s)
    else PTimestamp(s)
  }

  /** Only text and raw types look at `size`; the others read their fixed width. */
  function PValue(s: Bytes, ty: int, size: int): Parse<Cell>
  {
    if IsTextType(ty) then
      var (b, s) :- PStr(s, size);
      Got(Text(b), s)
    else if ty == TYPE_SHORT then
      var (v, s) :- PShort(s);
      Got(Integer(v), s)
    else if ty == TYPE_INT then
      var (v, s) :- PInt(s);
      Got(Integer(v), s)
    else if ty == TYPE_BIGINT then
      var (v, s) :- PLong(s);
      Got(Integer(v), s)
    else if ty == TYPE_FLOAT then
      var (v, s) :- PFloat(s);
      Got(Single(v), s)
    else if ty == TYPE_DOUBLE || ty == TYPE_MONETARY then
      var (v, s) :- PDouble(s);
      Got(Double(v), s)
    else if ty in {TYPE_DATE, TYPE_TIME, TYPE_DATETIME, TYPE_TIMESTAMP} then
      var (at, s) :- PMoment(s, ty);
      Got(Time(at), s)
    else if ty == TYPE_NULL then Got(Null, s)
    else
      var (b, s) :- PRaw(s, size);
      Got(Raw(b), s)
  }

  /** One cell. A self-describing cell carries its own type byte, counted in its size. */
  function PCell(s: Bytes, ty: int, selfDescribing: bool): Parse<Cell> {
    var (size, s) :- PInt(s);
    if size <= 0 then Got(Null, s)
    else if selfDescribing then
      var (tag, s) :- PByte(s);
      if size - 1 <= 0 then Got(Null, s) else PValue(s, tag as int, size - 1)
    else
      PValue(s, ty, size)
  }

  function PCells(s: Bytes, columns: seq<Column>, isCall: bool): Parse<seq<Cell>>
    decreases |columns|
  {
    if columns == [] then Got([], s)
    else
      var ty := columns[0].columnType;
      var (c, s) :- PCell(s, ty, isCall || ty == TYPE_NULL);
      var (cs, s) :- PCells(s, columns[1..], isCall);
      Got([c] + cs, s)
  }

  function PRow(s: Bytes, columns: seq<Column>, isCall: bool): Parse<seq<Cell>> {
    var (_, s) :- PInt(s);    // row index
    var (_, s) :- PRaw(s, 8); // OID
    PCells(s, columns, isCall)
  }

  function PRows(s: Bytes, count: int, columns: seq<Column>, isCall: bool): Parse<seq<seq<Cell>>>
    decreases count
  {
    if count < 0 then Panic
    else if count == 0 then Got([], s)
    else
      var (r, s) :- PRow(s, columns, isCall);
      var (rs, s) :- PRows(s, count - 1, columns, isCall);
      Got([r] + rs, s)
  }

  // ----- whole responses; `data` starts with the four CAS_INFO bytes

  /** raiseError: a second int32 is the error code, all remaining bytes the message. */
  function PError(s: Bytes, responseLength: int): Parse<CubridError> {
    var (code, s) :- PInt(s);
    var (msg, s) :- PStr(s, responseLength - 4);
    Got(Classify(code, msg), s)
  }

  /** The response code and, unless it is negative, the bytes after it. */
  function PCode(data: Bytes): Parse<Outcome<int>> {
    var (_, s) :- PRaw(data, 4);
    var (code, s) :- PInt(s);
    if code < 0 then
      var (e, s) :- PError(s, |data| - 8);
      Got(Err(e), s)
    else
      Got(Ok(code), s)
  }

  /** OPEN_DATABASE: the protocol version is in six bits of the fifth byte of the broker info. */
  function POpenDatabase(data: Bytes): Parse<Outcome<Database>> {
    var (cas, _) :- PRaw(data, 4);
    var (code, s) :- PCode(data);
    match code
    case Err(e) => Got(Err(e), s)
    case Ok(_) =>
      var (broker, s) :- PRaw(s, 16);
      var (sessionId, s) :- PInt(s);
      Got(Ok(Database(cas, broker[4] as int % 0x40, sessionId)), s)
  }

  function PSimple(data: Bytes): Parse<Outcome<()>> {
    var (code, s) :- PCode(data);
    match code
    case Err(e) => Got(Err(e), s)
    case Ok(_) => Got(Ok(()), s)
  }

  function PVersion(data: Bytes): Parse<Outcome<Bytes>> {
    var (code, s) :- PCode(data);
    match code
    case Err(e) => Got(Err(e), s)
    case Ok(_) =>
      var (v, s) :- PStr(s, |data| - 8);
      Got(Ok(v), s)
  }

  /** GET_LAST_INSERT_ID: the response code is the length of the text. */
  function PLastId(data: Bytes): Parse<Outcome<Bytes>> {
    var (code, s) :- PCode(data);
    match code
    case Err(e) => Got(Err(e), s)
    case Ok(length) =>
      var (v, s) :- PStr(s, length);
      Got(Ok(v), s)
  }

  /** What a PREPARE response holds after its code. */
  function PPrepareBody(s: Bytes, handle: int): (r: Parse<Prepared>)
    ensures r.Got? ==> r.value.handle == handle
  {
    var (_, s) :- PInt(s); // result cache lifetime
    var (stmtType, s) :- PByte(s);
    var (bindCount, s) :- PInt(s);
    var (_, s) :- PByte(s); // updatable
    var (colCount, s) :- PInt(s);
    var (columns, s) :- PColumns(s, colCount);
    Got(Prepared(handle, stmtType as int, bindCount, columns), s)
  }

  function PPrepare(data: Bytes): Parse<Outcome<Prepared>> {
    var (code, s) :- PCode(data);
    match code
    case Err(e) => Got(Err(e), s)
    case Ok(handle) =>
      var (p, s) :- PPrepareBody(s, handle);
      Got(Ok(p), s)
  }

  function PVersionFields(s: Bytes, version: int): Parse<()> {
    var (_, s) :- if version > 1 then PByte(s) else Got(0, s);
    var (_, s) :- if version > 4 then PInt(s) else Got(0, s);
    Got((), s)
  }

  /** The inline rows of a SELECT, when at least eight bytes are left for their header. */
  function PInline(s: Bytes, columns: seq<Column>, stmtType: int, needColumns: bool): Parse<Fetched> {
    if stmtType == STMT_SELECT && |s| >= 8 then
      var (_, s) :- PInt(s); // fetch code
      var (tuples, s) :- PInt(s);
      if tuples > 0 && (needColumns ==> columns != []) then
        var (rows, s) :- PRows(s, tuples, columns, stmtType == STMT_CALL_SP);
        Got(Fetched(tuples, rows), s)
      else
        Got(Fetched(tuples, []), s)
    else
      Got(Fetched(0, []), s)
  }

  /** What an EXECUTE response holds after its total. */
  function PExecuteBody(s: Bytes, total: int, columns: seq<Column>, stmtType: int, version: int, needColumns: bool)
    : (r: Parse<Executed>)
    ensures r.Got? ==> r.value.total == total
  {
    var (_, s) :- PByte(s); // cache reusable
    var (count, s) :- PInt(s);
    var (infos, s) :- PInfos(s, count);
    var (_, s) :- PVersionFields(s, version);
    var (f, s) :- PInline(s, columns, stmtType, needColumns);
    Got(Executed(total, infos, f.tupleCount, f.rows), s)
  }

  /** ParseExecute reads rows only when there are columns. */
  function PExecute(data: Bytes, columns: seq<Column>, stmtType: int, version: int): Parse<Outcome<Executed>> {
    var (code, s) :- PCode(data);
    match code
    case Err(e) => Got(Err(e), s)
    case Ok(total) =>
      var (e, s) :- PExecuteBody(s, total, columns, stmtType, version, true);
      Got(Ok(e), s)
  }

  /** ParsePrepareAndExecute reads rows whether or not there are columns. */
  function PPrepareAndExecute(data: Bytes, version: int): Parse<Outcome<(Prepared, Executed)>> {
    var (code, s) :- PCode(data);
    match code
    case Err(e) => Got(Err(e), s)
    case Ok(handle) =>
      var (p, s) :- PPrepareBody(s, handle);
      var (total, s) :- PInt(s);
      var (e, s) :- PExecuteBody(s, total, p.columns, p.stmtType, version, false);
      Got(Ok((p, e)), s)
  }

  function PFetchBody(s: Bytes, columns: seq<Column>, stmtType: int): Parse<Fetched> {
    var (tuples, s) :- PInt(s);
    if tuples > 0 && columns != [] then
      var (rows, s) :- PRows(s, tuples, columns, stmtType == STMT_CALL_SP);
      Got(Fetched(tuples, rows), s)
    else
      Got(Fetched(tuples, []), s)
  }

  function PFetch(data: Bytes, columns: seq<Column>, stmtType: int): Parse<Outcome<Fetched>> {
    var (code, s) :- PCode(data);
    match code
    case Err(e) => Got(Err(e), s)
    case Ok(_) =>
      var (f, s) :- PFetchBody(s, columns, stmtType);
      Got(Ok(f), s)
  }
}
