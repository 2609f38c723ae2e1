/**
  protocol.go: the parsers themselves, advancing a shared PacketReader. Each one computes
  its specification function and leaves the reader at the bytes that function leaves; the
  precondition is that the Go code would not panic.
 */
module Parsers {
  import opened Wire
  import opened Packet
  import opened Errors
  import opened Response

  /** What the rest of a counted loop adds to the values already collected. */
  ghost function After<T>(done: seq<T>, more: Parse<seq<T>>): Parse<seq<T>> {
    match more
    case Panic => Panic
    case Got(v, s) => Got(done + v, s)
  }

  lemma AfterNothing<T>(more: Parse<seq<T>>)
    ensures After([], more) == more
  {
    assert more.Got? ==> [] + more.value == more.value;
  }

  lemma AfterOneMore<T>(done: seq<T>, x: T, more: Parse<seq<T>>)
    ensures After(done, After([x], more)) == After(done + [x], more)
  {
    assert more.Got? ==> done + ([x] + more.value) == done + [x] + more.value;
  }

  method ReadFlag(reader: PacketReader) returns (b: bool)
    requires reader.Valid() && PFlag(reader.Rest()).Got?
    modifies reader
    ensures reader.Valid() && Got(b, reader.Rest()) == PFlag(old(reader.Rest()))
  {
    var v := reader.ParseByte();
    b := v == 1;
  }

  method ReadSizedString(reader: PacketReader) returns (b: Bytes)
    requires reader.Valid() && PSizedStr(reader.Rest()).Got?
    modifies reader
    ensures reader.Valid() && Got(b, reader.Rest()) == PSizedStr(old(reader.Rest()))
  {
    hide PInt, PStr;
    var n := reader.ParseInt();
    b := reader.ParseNullTermString(n);
  }

  method ParseColumn(reader: PacketReader) returns (c: Column)
    requires reader.Valid() && PColumn(reader.Rest()).Got?
    modifies reader
    ensures reader.Valid() && Got(c, reader.Rest()) == PColumn(old(reader.Rest()))
  {
    hide PByte, PShort, PInt, PSizedStr, PFlag;
    var legacyType := reader.ParseByte();
    var colType := legacyType as int;
    if legacyType >= 0x80 {
      var extended := reader.ParseByte();
      colType := extended as int;
    }
    var scale := reader.ParseShort();
    var precision := reader.ParseInt();
    var name := ReadSizedString(reader);
    var realName := ReadSizedString(reader);
    var tableName := ReadSizedString(reader);
    var isNullable := ReadFlag(reader);
    var defaultValue := ReadSizedString(reader);
    var isAutoIncrement := ReadFlag(reader);
    var isUniqueKey := ReadFlag(reader);
    var isPrimaryKey := ReadFlag(reader);
    var _ := reader.ParseByte();
    var _ := reader.ParseByte();
    var isForeignKey := ReadFlag(reader);
    var _ := reader.ParseByte();
    c := Column(colType, scale, precision, name, realName, tableName, isNullable, defaultValue,
                isAutoIncrement, isUniqueKey, isPrimaryKey, isForeignKey);
  }

  method ParseColumnMetadata(reader: PacketReader, count: int) returns (cols: seq<Column>)
    requires reader.Valid() && PColumns(reader.Rest(), count).Got?
    modifies reader
    ensures reader.Valid() && Got(cols, reader.Rest()) == PColumns(old(reader.Rest()), count)
  {
    hide PColumn;
    cols := [];
    AfterNothing(PColumns(reader.Rest(), count));
    for i := 0 to count
      invariant reader.Valid()
      invariant PColumns(old(reader.Rest()), count) == After(cols, PColumns(reader.Rest(), count - i))
    {
      var c := ParseColumn(reader);
      AfterOneMore(cols, c, PColumns(reader.Rest(), count - i - 1));
      cols := cols + [c];
    }
    assert cols + [] == cols;
  }

  method ParseResultInfos(reader: PacketReader, count: int) returns (infos: seq<ResultInfo>)
    requires reader.Valid() && PInfos(reader.Rest(), count).Got?
    modifies reader
    ensures reader.Valid() && Got(infos, reader.Rest()) == PInfos(old(reader.Rest()), count)
  {
    hide PByte, PInt, PRaw;
    infos := [];
    AfterNothing(PInfos(reader.Rest(), count));
    for i := 0 to count
      invariant reader.Valid()
      invariant PInfos(old(reader.Rest()), count) == After(infos, PInfos(reader.Rest(), count - i))
    {
      assert PInfo(reader.Rest()).Got?;
      var stmtType := reader.ParseByte();
      var resultCount := reader.ParseInt();
      var oid := reader.ParseRawBytes(8);
      var _ := reader.ParseInt();
      var _ := reader.ParseInt();
      var info := ResultInfo(stmtType as int, resultCount, oid);
      AfterOneMore(infos, info, PInfos(reader.Rest(), count - i - 1));
      infos := infos + [info];
    }
    assert infos + [] == infos;
  }

  method ParseMoment(reader: PacketReader, colType: int) returns (at: Moment)
    requires reader.Valid() && PMoment(reader.Rest(), colType).Got?
    modifies reader
    ensures reader.Valid() && Got(at, reader.Rest()) == PMoment(old(reader.Rest()), colType)
  {
    hide PShort;
    at := Moment(0, 1, 1, 0, 0, 0, 0);
    if colType != TYPE_TIME {
      var year := reader.ParseShort();
      var month := reader.ParseShort();
      var day := reader.ParseShort();
      at := at.(year := year, month := month, day := day);
    }
    if colType != TYPE_DATE {
      var hour := reader.ParseShort();
      var minute := reader.ParseShort();
      var second := reader.ParseShort();
      at := at.(hour := hour, minute := minute, second := second);
    }
    if colType == TYPE_DATETIME {
      var ms := reader.ParseShort();
      at := at.(nanos := ms * 1_000_000);
    }
  }

  method ReadValue(reader: PacketReader, colType: int, size: int) returns (c: Cell)
    requires reader.Valid() && PValue(reader.Rest(), colType, size).Got?
    modifies reader
    ensures reader.Valid() && Got(c, reader.Rest()) == PValue(old(reader.Rest()), colType, size)
  {
    hide PShort, PInt, PLong, PFloat, PDouble, PStr, PRaw, PMoment;
    if colType in {TYPE_CHAR, TYPE_STRING, TYPE_NCHAR, TYPE_VARNCHAR, TYPE_ENUM, TYPE_NUMERIC} {
      var b := reader.ParseNullTermString(size);
      c := Text(b);
    } else if colType == TYPE_SHORT {
      var v := reader.ParseShort();
      c := Integer(v);
    } else if colType == TYPE_INT {
      var v := reader.ParseInt();
      c := Integer(v);
    } else if colType == TYPE_BIGINT {
      var v := reader.ParseLong();
      c := Integer(v);
    } else if colType == TYPE_FLOAT {
      var bits := reader.ParseFloat();
      c := Single(bits);
    } else if colType == TYPE_DOUBLE || colType == TYPE_MONETARY {
      var bits := reader.ParseDouble();
      c := Double(bits);
    } else if colType in {TYPE_DATE, TYPE_TIME, TYPE_DATETIME, TYPE_TIMESTAMP} {
      var at := ParseMoment(reader, colType);
      c := Time(at);
    } else if colType == TYPE_NULL {
      c := Null;
    } else {
      var b := reader.ParseRawBytes(size);
      c := Raw(b);
    }
  }

  /** The inner loop of parseRowData. */
  method ParseCells(reader: PacketReader, columns: seq<Column>, isCallType: bool) returns (row: seq<Cell>)
    requires reader.Valid() && PCells(reader.Rest(), columns, isCallType).Got?
    modifies reader
    ensures reader.Valid() && Got(row, reader.Rest()) == PCells(old(reader.Rest()), columns, isCallType)
  {
    hide PInt, PByte, PValue;
    row := [];
    AfterNothing(PCells(reader.Rest(), columns, isCallType));
    for j := 0 to |columns|
      invariant reader.Valid()
      invariant PCells(old(reader.Rest()), columns, isCallType)
             == After(row, PCells(reader.Rest(), columns[j..], isCallType))
    {
      var colType := columns[j].columnType;
      assert columns[j..][0] == columns[j] && columns[j..][1..] == columns[j + 1..];
      assert PCell(reader.Rest(), colType, isCallType || colType == TYPE_NULL).Got?;
      var size := reader.ParseInt();
      var cell := Null;
      if size > 0 {
        if isCallType || colType == TYPE_NULL {
          var tag := reader.ParseByte();
          colType := tag as int;
          size := size - 1;
        }
        if size > 0 {
          cell := ReadValue(reader, colType, size);
        }
      }
      AfterOneMore(row, cell, PCells(reader.Rest(), columns[j + 1..], isCallType));
      row := row + [cell];
    }
    assert row + [] == row;
  }

  method ParseRowData(reader: PacketReader, tupleCount: int, columns: seq<Column>, stmtType: int)
    returns (rows: seq<seq<Cell>>)
    requires reader.Valid() && PRows(reader.Rest(), tupleCount, columns, stmtType == STMT_CALL_SP).Got?
    modifies reader
    ensures reader.Valid()
    ensures Got(rows, reader.Rest()) == PRows(old(reader.Rest()), tupleCount, columns, stmtType == STMT_CALL_SP)
  {
    hide PInt, PRaw, PCells;
    var isCallType := stmtType == STMT_CALL_SP;
    rows := [];
    AfterNothing(PRows(reader.Rest(), tupleCount, columns, isCallType));
    for i := 0 to tupleCount
      invariant reader.Valid()
      invariant PRows(old(reader.Rest()), tupleCount, columns, isCallType)
             == After(rows, PRows(reader.Rest(), tupleCount - i, columns, isCallType))
    {
      assert PRow(reader.Rest(), columns, isCallType).Got?;
      var _ := reader.ParseInt();
      var _ := reader.ParseRawBytes(8);
      var row := ParseCells(reader, columns, isCallType);
      AfterOneMore(rows, row, PRows(reader.Rest(), tupleCount - i - 1, columns, isCallType));
      rows := rows + [row];
    }
    assert rows + [] == rows;
  }

  method RaiseError(reader: PacketReader, responseLength: int) returns (e: CubridError)
    requires reader.Valid() && PError(reader.Rest(), responseLength).Got?
    modifies reader
    ensures reader.Valid() && Got(e, reader.Rest()) == PError(old(reader.Rest()), responseLength)
  {
    hide PInt, PStr, Classify;
    var code, msg := reader.ReadError(responseLength);
    e := NewError(code, msg);
  }

  /** The opening of every parser: CAS_INFO, the response code, and the error exit. */
  method ParseCode(reader: PacketReader, data: Bytes) returns (cas: Bytes, r: Outcome<int>)
    requires reader.Valid() && reader.Rest() == data && PCode(data).Got?
    modifies reader
    ensures reader.Valid() && Got(r, reader.Rest()) == PCode(data)
    ensures PRaw(data, 4).Got? && cas == PRaw(data, 4).value
  {
    hide PInt, PRaw, PError;
    cas := reader.ParseRawBytes(4);
    var code := reader.ParseInt();
    if code < 0 {
      var e := RaiseError(reader, |data| - 8);
      return cas, Err(e);
    }
    return cas, Ok(code);
  }

  // What a response holds: the error of its code, or what is behind the code.

  lemma SimpleCases(data: Bytes)
    requires PSimple(data).Got?
    ensures PCode(data).Got?
    ensures var code := PCode(data).value;
      if code.Err? then PSimple(data).value == Err(code.error)
      else PSimple(data).value == Ok(())
  {
    hide PCode;
  }

  lemma VersionCases(data: Bytes)
    requires PVersion(data).Got?
    ensures PCode(data).Got?
    ensures var code := PCode(data).value;
      var s := PCode(data).rest;
      if code.Err? then PVersion(data).value == Err(code.error)
      else PStr(s, |data| - 8).Got? && PVersion(data).value == Ok(PStr(s, |data| - 8).value)
  {
    hide PCode, PStr;
  }

  lemma LastIdCases(data: Bytes)
    requires PLastId(data).Got?
    ensures PCode(data).Got?
    ensures var code := PCode(data).value;
      var s := PCode(data).rest;
      if code.Err? then PLastId(data).value == Err(code.error)
      else PStr(s, code.result).Got? && PLastId(data).value == Ok(PStr(s, code.result).value)
  {
    hide PCode, PStr;
  }

  lemma PrepareCases(data: Bytes)
    requires PPrepare(data).Got?
    ensures PCode(data).Got?
    ensures var code := PCode(data).value;
      var s := PCode(data).rest;
      if code.Err? then PPrepare(data).value == Err(code.error)
      else PPrepareBody(s, code.result).Got?
           && PPrepare(data).value == Ok(PPrepareBody(s, code.result).value)
  {
    hide PCode, PPrepareBody;
  }

  lemma ExecuteCases(data: Bytes, columns: seq<Column>, stmtType: int, version: int)
    requires PExecute(data, columns, stmtType, version).Got?
    ensures PCode(data).Got?
    ensures var code := PCode(data).value;
      var s := PCode(data).rest;
      if code.Err? then PExecute(data, columns, stmtType, version).value == Err(code.error)
      else var body := PExecuteBody(s, code.result, columns, stmtType, version, true);
           body.Got? && PExecute(data, columns, stmtType, version).value == Ok(body.value)
  {
    hide PCode, PExecuteBody;
  }

  lemma FetchCases(data: Bytes, columns: seq<Column>, stmtType: int)
    requires PFetch(data, columns, stmtType).Got?
    ensures PCode(data).Got?
    ensures var code := PCode(data).value;
      var s := PCode(data).rest;
      if code.Err? then PFetch(data, columns, stmtType).value == Err(code.error)
      else PFetchBody(s, columns, stmtType).Got?
           && PFetch(data, columns, stmtType).value == Ok(PFetchBody(s, columns, stmtType).value)
  {
    hide PCode, PFetchBody;
  }

  lemma BothCases(data: Bytes, version: int)
    requires PPrepareAndExecute(data, version).Got?
    ensures PCode(data).Got?
    ensures var code := PCode(data).value;
      var s := PCode(data).rest;
      if code.Err? then PPrepareAndExecute(data, version).value == Err(code.error)
      else var p := PPrepareBody(s, code.result);
           && p.Got? && PInt(p.rest).Got?
           && var total := PInt(p.rest);
              var e := PExecuteBody(total.rest, total.value, p.value.columns, p.value.stmtType, version, false);
              e.Got? && PPrepareAndExecute(data, version).value == Ok((p.value, e.value))
  {
    hide PCode, PInt, PPrepareBody, PExecuteBody;
  }

  lemma DatabaseCases(data: Bytes)
    requires POpenDatabase(data).Got?
    ensures PCode(data).Got?
    ensures var code := PCode(data).value;
      var s := PCode(data).rest;
      if code.Err? then POpenDatabase(data).value == Err(code.error)
      else && PRaw(data, 4).Got? && PRaw(s, 16).Got? && PInt(PRaw(s, 16).rest).Got?
           && POpenDatabase(data).value
              == Ok(Database(PRaw(data, 4).value, PRaw(s, 16).value[4] as int % 0x40, PInt(PRaw(s, 16).rest).value))
  {
    hide PCode, PInt, PRaw;
  }

  method ParseOpenDatabase(data: Bytes) returns (r: Outcome<Database>)
    requires POpenDatabase(data).Got?
    ensures r == POpenDatabase(data).value
  {
    hide PCode, PInt, POpenDatabase;
    DatabaseCases(data);
    var reader := new PacketReader(data);
    var casInfo, responseCode := ParseCode(reader, data);
    if responseCode.Err? {
      return Err(responseCode.error);
    }
    var brokerBytes := reader.ParseRawBytes(16);
    var protoVersion := brokerBytes[4] as int % 0x40;
    var sessionId := reader.ParseInt();
    return Ok(Database(casInfo, protoVersion, sessionId));
  }

  method ParseSimpleResponse(data: Bytes) returns (r: Outcome<()>)
    requires PSimple(data).Got?
    ensures r == PSimple(data).value
  {
    hide PCode, PSimple;
    SimpleCases(data);
    var reader := new PacketReader(data);
    var _, code := ParseCode(reader, data);
    if code.Err? {
      return Err(code.error);
    }
    return Ok(());
  }

  method ParseGetDbVersion(data: Bytes) returns (r: Outcome<Bytes>)
    requires PVersion(data).Got?
    ensures r == PVersion(data).value
  {
    hide PCode, PStr, PVersion;
    VersionCases(data);
    var reader := new PacketReader(data);
    var _, code := ParseCode(reader, data);
    if code.Err? {
      return Err(code.error);
    }
    var v := reader.ParseNullTermString(|data| - 8);
    return Ok(v);
  }

  method ParseGetLastInsertId(data: Bytes) returns (r: Outcome<Bytes>)
    requires PLastId(data).Got?
    ensures r == PLastId(data).value
  {
    hide PCode, PStr, PLastId;
    LastIdCases(data);
    var reader := new PacketReader(data);
    var _, code := ParseCode(reader, data);
    if code.Err? {
      return Err(code.error);
    }
    if code.result > 0 {
      var v := reader.ParseNullTermString(code.result);
      return Ok(v);
    }
    EmptyText(reader.Rest(), code.result);
    return Ok([]);
  }

  lemma EmptyText(s: Bytes, length: int)
    requires length <= 0
    ensures PStr(s, length) == Got([], s)
  {
  }

  method ParsePrepareBody(reader: PacketReader, handle: int) returns (p: Prepared)
    requires reader.Valid() && PPrepareBody(reader.Rest(), handle).Got?
    modifies reader
    ensures reader.Valid() && Got(p, reader.Rest()) == PPrepareBody(old(reader.Rest()), handle)
  {
    hide PByte, PInt, PColumns;
    var _ := reader.ParseInt();
    var stmtType := reader.ParseByte();
    var bindCount := reader.ParseInt();
    var _ := reader.ParseByte();
    var colCount := reader.ParseInt();
    var columns := ParseColumnMetadata(reader, colCount);
    p := Prepared(handle, stmtType as int, bindCount, columns);
  }

  method ParsePrepare(data: Bytes) returns (r: Outcome<Prepared>)
    requires PPrepare(data).Got?
    ensures r == PPrepare(data).value
  {
    hide PCode, PPrepareBody, PPrepare;
    PrepareCases(data);
    var reader := new PacketReader(data);
    var _, code := ParseCode(reader, data);
    if code.Err? {
      return Err(code.error);
    }
    var p := ParsePrepareBody(reader, code.result);
    return Ok(p);
  }

  /** The part of ParseExecute and ParsePrepareAndExecute after the total; they differ in `needColumns`. */
  method ParseExecuteBody(reader: PacketReader, total: int, columns: seq<Column>, stmtType: int, version: int,
                          needColumns: bool) returns (e: Executed)
    requires reader.Valid() && PExecuteBody(reader.Rest(), total, columns, stmtType, version, needColumns).Got?
    modifies reader
    ensures reader.Valid()
    ensures Got(e, reader.Rest())
         == PExecuteBody(old(reader.Rest()), total, columns, stmtType, version, needColumns)
  {
    hide PByte, PInt, PInfos, PRows;
    var _ := reader.ParseByte();
    var resultCount := reader.ParseInt();
    var infos := ParseResultInfos(reader, resultCount);
    if version > 1 {
      var _ := reader.ParseByte();
    }
    if version > 4 {
      var _ := reader.ParseInt();
    }
    var tupleCount, rows := 0, [];
    if stmtType == STMT_SELECT && |reader.buf| - reader.offset >= 8 {
      var _ := reader.ParseInt();
      tupleCount := reader.ParseInt();
      if tupleCount > 0 && (!needColumns || |columns| > 0) {
        rows := ParseRowData(reader, tupleCount, columns, stmtType);
      }
    }
    e := Executed(total, infos, tupleCount, rows);
  }

  method ParseExecute(data: Bytes, columns: seq<Column>, stmtType: int, version: int) returns (r: Outcome<Executed>)
    requires PExecute(data, columns, stmtType, version).Got?
    ensures r == PExecute(data, columns, stmtType, version).value
  {
    hide PCode, PExecuteBody, PExecute;
    ExecuteCases(data, columns, stmtType, version);
    var reader := new PacketReader(data);
    var _, code := ParseCode(reader, data);
    if code.Err? {
      return Err(code.error);
    }
    var e := ParseExecuteBody(reader, code.result, columns, stmtType, version, true);
    return Ok(e);
  }

  method ParsePrepareAndExecute(data: Bytes, version: int) returns (r: Outcome<(Prepared, Executed)>)
    requires PPrepareAndExecute(data, version).Got?
    ensures r == PPrepareAndExecute(data, version).value
  {
    hide PCode, PInt, PPrepareBody, PExecuteBody, PPrepareAndExecute;
    BothCases(data, version);
    var reader := new PacketReader(data);
    var _, code := ParseCode(reader, data);
    if code.Err? {
      return Err(code.error);
    }
    var p := ParsePrepareBody(reader, code.result);
    var total := reader.ParseInt();
    var e := ParseExecuteBody(reader, total, p.columns, p.stmtType, version, false);
    return Ok((p, e));
  }

  method ParseFetchBody(reader: PacketReader, columns: seq<Column>, stmtType: int) returns (f: Fetched)
    requires reader.Valid() && PFetchBody(reader.Rest(), columns, stmtType).Got?
    modifies reader
    ensures reader.Valid() && Got(f, reader.Rest()) == PFetchBody(old(reader.Rest()), columns, stmtType)
  {
    hide PInt, PRows;
    var tupleCount := reader.ParseInt();
    var rows := [];
    if tupleCount > 0 && |columns| > 0 {
      rows := ParseRowData(reader, tupleCount, columns, stmtType);
    }
    f := Fetched(tupleCount, rows);
  }

  method ParseFetch(data: Bytes, columns: seq<Column>, stmtType: int) returns (r: Outcome<Fetched>)
    requires PFetch(data, columns, stmtType).Got?
    ensures r == PFetch(data, columns, stmtType).value
  {
    hide PCode, PFetchBody, PFetch;
    FetchCases(data, columns, stmtType);
    var reader := new PacketReader(data);
    var _, code := ParseCode(reader, data);
    if code.Err? {
      return Err(code.error);
    }
    var f := ParseFetchBody(reader, columns, stmtType);
    return Ok(f);
  }
}
