/** Encoders for well-formed responses, and the round trip through every parser. */
module Encoders {
  import opened Wire
  import opened Packet
  import opened Response

  // ----- columns

  /** A column with the bytes the parser reads and drops. */
  datatype WireColumn = WireColumn(
    column: Column,
    prefix: seq<byte>, // empty, or the legacy byte announcing an extended type byte
    reverseIndex: byte, reverseUnique: byte, shared: byte)

  ghost predicate ShortText(b: Bytes) { FitsInt32(|b| + 1) }

  ghost predicate GoodColumn(w: WireColumn) {
    var c := w.column;
    && (if w.prefix == [] then 0 <= c.columnType < 0x80
        else |w.prefix| == 1 && w.prefix[0] >= 0x80 && 0 <= c.columnType < 0x100)
    && FitsInt16(c.scale) && FitsInt32(c.precision)
    && ShortText(c.name) && ShortText(c.realName) && ShortText(c.tableName) && ShortText(c.defaultValue)
  }

  function PutKeyFlags(w: WireColumn, t: Bytes): Bytes {
    var c := w.column;
    var late := PutByte(w.reverseUnique, PutByte(Bit(c.isForeignKey), PutByte(w.shared, t)));
    PutByte(Bit(c.isAutoIncrement), PutByte(Bit(c.isUniqueKey), PutByte(Bit(c.isPrimaryKey),
    PutByte(w.reverseIndex, late))))
  }

  lemma ReadKeyFlags(w: WireColumn, t: Bytes)
    ensures var c := w.column;
      PKeyFlags(PutKeyFlags(w, t)) == Got(KeyFlags(c.isAutoIncrement, c.isUniqueKey, c.isPrimaryKey, c.isForeignKey), t)
  {
    hide PByte, PutByte;
  }

  function PutType(w: WireColumn, t: Bytes): (r: Bytes)
    requires GoodColumn(w)
    ensures PType(r) == Got(w.column.columnType, t)
  {
    var ty := PutByte(w.column.columnType as byte, t);
    if w.prefix == [] then ty else PutByte(w.prefix[0], ty)
  }

  function PutColumn(w: WireColumn, t: Bytes): Bytes
    requires GoodColumn(w)
  {
    var c := w.column;
    var flags := PutByte(Bit(c.isNullable), PutSizedStr(c.defaultValue, PutKeyFlags(w, t)));
    var names := PutSizedStr(c.name, PutSizedStr(c.realName, PutSizedStr(c.tableName, flags)));
    PutType(w, PutShort(c.scale, PutInt(c.precision, names)))
  }

  lemma ReadColumn(w: WireColumn, t: Bytes)
    requires GoodColumn(w)
    ensures PColumn(PutColumn(w, t)) == Got(w.column, t)
  {
    hide PByte, PutByte, PShort, PutShort, PInt, PutInt, PSizedStr, PutSizedStr, PType, PutType, PKeyFlags, PutKeyFlags;
    ReadKeyFlags(w, t);
  }

  function PutColumns(ws: seq<WireColumn>, t: Bytes): Bytes
    requires forall w | w in ws :: GoodColumn(w)
  {
    if ws == [] then t else PutColumn(ws[0], PutColumns(ws[1..], t))
  }

  lemma {:induction false} ReadColumns(ws: seq<WireColumn>, t: Bytes)
    requires forall w | w in ws :: GoodColumn(w)
    ensures PColumns(PutColumns(ws, t), |ws|) == Got(ColumnsOf(ws), t)
  {
    hide PColumn, PutColumn;
    if ws != [] {
      ReadColumns(ws[1..], t);
      ReadColumn(ws[0], PutColumns(ws[1..], t));
    }
  }

  function ColumnsOf(ws: seq<WireColumn>): (cs: seq<Column>)
    ensures |cs| == |ws|
  {
    if ws == [] then [] else [ws[0].column] + ColumnsOf(ws[1..])
  }

  // ----- result infos

  datatype WireInfo = WireInfo(info: ResultInfo, sec: int, usec: int)

  ghost predicate GoodInfo(w: WireInfo) {
    && 0 <= w.info.stmtType < 0x100 && FitsInt32(w.info.resultCount) && |w.info.oid| == 8
  }

  function PutInfo(w: WireInfo, t: Bytes): Bytes
    requires GoodInfo(w)
  {
    PutByte(w.info.stmtType as byte, PutInt(w.info.resultCount, PutRaw(w.info.oid,
    PutInt(w.sec, PutInt(w.usec, t)))))
  }

  lemma ReadInfo(w: WireInfo, t: Bytes)
    requires GoodInfo(w)
    ensures PInfo(PutInfo(w, t)) == Got(w.info, t)
  {
    hide PByte, PutByte, PInt, PutInt, PRaw, PutRaw;
  }

  function PutInfos(ws: seq<WireInfo>, t: Bytes): Bytes
    requires forall w | w in ws :: GoodInfo(w)
  {
    if ws == [] then t else PutInfo(ws[0], PutInfos(ws[1..], t))
  }

  lemma {:induction false} ReadInfos(ws: seq<WireInfo>, t: Bytes)
    requires forall w | w in ws :: GoodInfo(w)
    ensures PInfos(PutInfos(ws, t), |ws|) == Got(InfosOf(ws), t)
  {
    hide PInfo, PutInfo;
    if ws != [] {
      ReadInfos(ws[1..], t);
      ReadInfo(ws[0], PutInfos(ws[1..], t));
    }
  }

  function InfosOf(ws: seq<WireInfo>): seq<ResultInfo> {
    if ws == [] then [] else [ws[0].info] + InfosOf(ws[1..])
  }

  // ----- cells and rows

  // The type codes of the wire, as a server writes them: texts are 1 to 4, 7 (NUMERIC) and 25
  // (ENUM), integers 9, 8 and 21, floats 11, 12 and 10 (MONETARY), times 13, 14, 15 and 22, NULL
  // is 0, and every other code carries raw bytes.
  const NOT_RAW := {0, 1, 2, 3, 4, 7, 8, 9, 10, 11, 12, 13, 14, 15, 21, 22, 25}

  ghost predicate GoodMoment(at: Moment, ty: int) {
    && FitsInt16(at.year) && FitsInt16(at.month) && FitsInt16(at.day)
    && FitsInt16(at.hour) && FitsInt16(at.minute) && FitsInt16(at.second)
    && (ty == 13 ==> at.hour == at.minute == at.second == at.nanos == 0)
    && (ty == 14 ==> at.year == at.nanos == 0 && at.month == at.day == 1)
    && (ty == 15 ==> at.nanos == 0)
    && (ty == 22 ==> at.nanos % 1_000_000 == 0 && FitsInt16(at.nanos / 1_000_000))
  }

  /** Which values a cell of type `ty` can carry; a NULL is possible in every type. */
  ghost predicate Carries(ty: int, c: Cell) {
    match c
    case Null => true
    case Text(b) => ty in {1, 2, 3, 4, 7, 25} && FitsInt32(|b| + 2)
    case Integer(i) =>
      || (ty == 9 && FitsInt16(i)) || (ty == 8 && FitsInt32(i)) || (ty == 21 && FitsInt64(i))
    case Single(bits) => ty == 11 && 0 <= bits < TWO32
    case Double(bits) => ty in {12, 10} && 0 <= bits < TWO64
    case Time(at) => ty in {13, 14, 15, 22} && GoodMoment(at, ty)
    case Raw(b) => ty !in NOT_RAW && 0 < |b| && FitsInt32(|b| + 1)
  }

  /** The byte count a cell of this type announces. */
  function Width(ty: int, c: Cell): (n: int)
    requires Carries(ty, c) && !c.Null?
    ensures 0 < n && FitsInt32(n + 1)
  {
    match c
    case Text(b) => |b| + 1
    case Integer(_) => if ty == 9 then 2 else if ty == 8 then 4 else 8
    case Single(_) => 4
    case Double(_) => 8
    case Time(_) => if ty in {13, 14} then 6 else if ty == 15 then 12 else 14
    case Raw(b) => |b|
  }

  function PutMoment(at: Moment, ty: int, t: Bytes): Bytes
    requires ty in {13, 14, 15, 22} && GoodMoment(at, ty)
  {
    var clock := if ty == 22 then PutShort(at.nanos / 1_000_000, t) else t;
    var time := if ty == 13 then t
                else PutShort(at.hour, PutShort(at.minute, PutShort(at.second, clock)));
    if ty == 14 then time
    else PutShort(at.year, PutShort(at.month, PutShort(at.day, time)))
  }

  lemma ReadMoment(at: Moment, ty: int, t: Bytes)
    requires ty in {13, 14, 15, 22} && GoodMoment(at, ty)
    ensures PMoment(PutMoment(at, ty, t), ty) == Got(at, t)
  {
    hide PShort, PutShort;
  }

  function PutValue(ty: int, c: Cell, t: Bytes): Bytes
    requires Carries(ty, c) && !c.Null?
  {
    match c
    case Text(b) => PutNulStr(b, t)
    case Integer(i) =>
      if ty == 9 then PutShort(i, t) else if ty == 8 then PutInt(i, t) else PutLong(i, t)
    case Single(bits) => PutFloat(bits, t)
    case Double(bits) => PutDouble(bits, t)
    case Time(at) => PutMoment(at, ty, t)
    case Raw(b) => PutRaw(b, t)
  }

  lemma ReadValue(ty: int, c: Cell, t: Bytes)
    requires Carries(ty, c) && !c.Null?
    ensures PValue(PutValue(ty, c, t), ty, Width(ty, c)) == Got(c, t)
  {
    hide PShort, PutShort, PInt, PutInt, PLong, PutLong, PFloat, PutFloat, PDouble, PutDouble, PRaw, PutRaw,
      PStr, PutNulStr, PMoment, PutMoment, GoodMoment;
    if c.Time? {
      ReadMoment(c.at, ty, t);
    }
  }

  /**
    A cell with the type it travels as (the column's, or its own tag when self-describing)
    and the byte count it announces.
   */
  datatype WireCell = WireCell(tag: byte, cell: Cell, size: int)

  /** NULL announces no bytes, or a negative number of them, or a tag alone. */
  ghost predicate GoodCell(w: WireCell, selfDescribing: bool) {
    && Carries(w.tag as int, w.cell) && FitsInt32(w.size)
    && (if w.cell.Null? then w.size <= 0 || (selfDescribing && w.size == 1)
        else w.size == Width(w.tag as int, w.cell) + Bit(selfDescribing) as int)
  }

  function PutCell(w: WireCell, selfDescribing: bool, t: Bytes): Bytes
    requires GoodCell(w, selfDescribing)
  {
    if w.size <= 0 then PutInt(w.size, t)
    else
      var value := if w.cell.Null? then t else PutValue(w.tag as int, w.cell, t);
      PutInt(w.size, if selfDescribing then PutByte(w.tag, value) else value)
  }

  lemma ReadCell(w: WireCell, ty: int, selfDescribing: bool, t: Bytes)
    requires GoodCell(w, selfDescribing)
    requires selfDescribing || w.tag as int == ty
    ensures PCell(PutCell(w, selfDescribing, t), ty, selfDescribing) == Got(w.cell, t)
  {
    hide PByte, PutByte, PInt, PutInt, PValue, PutValue, Width, Carries;
    if !w.cell.Null? {
      ReadValue(w.tag as int, w.cell, t);
    }
  }

  ghost predicate GoodCells(ws: seq<WireCell>, columns: seq<Column>, isCall: bool) {
    && |ws| == |columns|
    && forall i | 0 <= i < |ws| ::
      && GoodCell(ws[i], isCall || columns[i].columnType == 0)
      && (!isCall && columns[i].columnType != 0 ==> ws[i].tag as int == columns[i].columnType)
  }

  function CellsOf(ws: seq<WireCell>): (cs: seq<Cell>)
    ensures |cs| == |ws|
  {
    if ws == [] then [] else [ws[0].cell] + CellsOf(ws[1..])
  }

  function PutCells(ws: seq<WireCell>, columns: seq<Column>, isCall: bool, t: Bytes): Bytes
    requires GoodCells(ws, columns, isCall)
  {
    if ws == [] then t
    else
      PutCell(ws[0], isCall || columns[0].columnType == 0, PutCells(ws[1..], columns[1..], isCall, t))
  }

  lemma {:induction false} ReadCells(ws: seq<WireCell>, columns: seq<Column>, isCall: bool, t: Bytes)
    requires GoodCells(ws, columns, isCall)
    ensures PCells(PutCells(ws, columns, isCall, t), columns, isCall) == Got(CellsOf(ws), t)
  {
    hide PCell, PutCell, GoodCell;
    if ws != [] {
      var ty := columns[0].columnType;
      ReadCells(ws[1..], columns[1..], isCall, t);
      ReadCell(ws[0], ty, isCall || ty == 0, PutCells(ws[1..], columns[1..], isCall, t));
    }
  }

  datatype WireRow = WireRow(index: int, oid: Bytes, cells: seq<WireCell>)

  ghost predicate GoodRow(w: WireRow, columns: seq<Column>, isCall: bool) {
    |w.oid| == 8 && GoodCells(w.cells, columns, isCall)
  }

  ghost predicate GoodRows(ws: seq<WireRow>, columns: seq<Column>, isCall: bool) {
    forall w | w in ws :: GoodRow(w, columns, isCall)
  }

  function PutRow(w: WireRow, columns: seq<Column>, isCall: bool, t: Bytes): Bytes
    requires GoodRow(w, columns, isCall)
  {
    PutInt(w.index, PutRaw(w.oid, PutCells(w.cells, columns, isCall, t)))
  }

  lemma ReadRow(w: WireRow, columns: seq<Column>, isCall: bool, t: Bytes)
    requires GoodRow(w, columns, isCall)
    ensures PRow(PutRow(w, columns, isCall, t), columns, isCall) == Got(CellsOf(w.cells), t)
  {
    hide PInt, PutInt, PRaw, PutRaw, PCells, PutCells;
    ReadCells(w.cells, columns, isCall, t);
  }

  function RowsOf(ws: seq<WireRow>): (rs: seq<seq<Cell>>)
    ensures |rs| == |ws|
  {
    if ws == [] then [] else [CellsOf(ws[0].cells)] + RowsOf(ws[1..])
  }

  function PutRows(ws: seq<WireRow>, columns: seq<Column>, isCall: bool, t: Bytes): Bytes
    requires GoodRows(ws, columns, isCall)
  {
    if ws == [] then t else PutRow(ws[0], columns, isCall, PutRows(ws[1..], columns, isCall, t))
  }

  lemma {:induction false} ReadRows(ws: seq<WireRow>, columns: seq<Column>, isCall: bool, t: Bytes)
    requires GoodRows(ws, columns, isCall)
    ensures PRows(PutRows(ws, columns, isCall, t), |ws|, columns, isCall) == Got(RowsOf(ws), t)
  {
    hide PRow, PutRow, GoodRow;
    if ws != [] {
      ReadRows(ws[1..], columns, isCall, t);
      ReadRow(ws[0], columns, isCall, PutRows(ws[1..], columns, isCall, t));
    }
  }
}
