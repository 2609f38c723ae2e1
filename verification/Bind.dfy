/** protocol.go: bind parameters, and reading them back through the cell loop. */
module Bind {
  import opened Wire
  import opened Packet
  import opened Response
  import opened Values

  /** One parameter: size, type byte, value; size 0 alone is NULL. */
  function PutParam(arg: Value, t: Bytes): Bytes
    requires GoodParam(arg)
  {
    match arg
    case Nil => PutInt(0, t)
    case Bool(b) => PutInt(3, PutByte(9, PutShort(if b then 1 else 0, t)))
    case Int(i) => PutInt(9, PutByte(21, PutLong(i, t)))
    case Float(f) => PutInt(9, PutByte(12, PutDouble(f.bits, t)))
    case Str(s) => PutInt(1 + |s| + 1, PutByte(2, PutNulStr(s, t)))
    case Other(s) => PutInt(1 + |s| + 1, PutByte(2, PutNulStr(s, t)))
    case Blob(b) => PutInt(1 + |b|, PutByte(6, PutRaw(b, t)))
    case Timestamp(at) => PutTimestamp(at, t)
  }

  function PutClock(at: Moment, t: Bytes): Bytes {
    PutShort(at.hour, PutShort(at.minute, PutShort(at.second, PutShort(at.nanos / 1_000_000, t))))
  }

  function PutTimestamp(at: Moment, t: Bytes): Bytes {
    PutInt(15, PutByte(22, PutShort(at.year, PutShort(at.month, PutShort(at.day, PutClock(at, t))))))
  }

  function PutParams(args: seq<Value>, t: Bytes): Bytes
    requires GoodParams(args)
  {
    if args == [] then t else PutParam(args[0], PutParams(args[1..], t))
  }

  /** Go's own ranges for the value, and a size that fits its int32 field. */
  predicate GoodParam(arg: Value) {
    match arg
    case Int(i) => FitsInt64(i)
    case Float(f) => 0 <= f.bits < TWO64
    case Str(s) => FitsInt32(|s| + 2)
    case Other(s) => FitsInt32(|s| + 2)
    case Blob(b) => FitsInt32(|b| + 1)
    case Timestamp(at) =>
      && 1 <= at.month <= 12 && 1 <= at.day <= 31
      && 0 <= at.hour < 24 && 0 <= at.minute < 60 && 0 <= at.second < 60 && 0 <= at.nanos < 1_000_000_000
    case _ => true
  }

  predicate GoodParams(args: seq<Value>) {
    forall i | 0 <= i < |args| :: GoodParam(args[i])
  }

  method EncodeOneParam(w: PacketWriter, arg: Value)
    requires GoodParam(arg)
    modifies w
    ensures forall t: Bytes {:trigger w.buf + t} :: w.buf + t == old(w.buf) + PutParam(arg, t)
  {
    hide PutByte, PutShort, PutInt, PutLong, PutDouble, PutRaw, PutTimestamp, PutNulStr;
    match arg
    case Nil =>
      w.WriteInt(0);
    case Bool(b) =>
      w.WriteInt(1 + 2);
      w.WriteByte(TYPE_SHORT as byte);
      if b {
        w.WriteShort(1);
      } else {
        w.WriteShort(0);
      }
    case Int(i) =>
      w.WriteInt(1 + 8);
      w.WriteByte(TYPE_BIGINT as byte);
      w.WriteLong(i);
    case Float(f) =>
      w.WriteInt(1 + 8);
      w.WriteByte(TYPE_DOUBLE as byte);
      w.WriteDouble(f.bits);
    case Str(s) =>
      WriteText(w, s);
    case Blob(b) =>
      w.WriteInt(1 + |b|);
      w.WriteByte(TYPE_VARBIT as byte);
      w.WriteRawBytes(b);
    case Timestamp(at) =>
      WriteTimestamp(w, at);
    case Other(s) =>
      WriteText(w, s);
  }

  method WriteTimestamp(w: PacketWriter, at: Moment)
    modifies w
    ensures forall t: Bytes {:trigger w.buf + t} :: w.buf + t == old(w.buf) + PutTimestamp(at, t)
  {
    hide PutByte, PutShort, PutInt, PutClock;
    w.WriteInt(1 + 14);
    w.WriteByte(TYPE_DATETIME as byte);
    w.WriteShort(at.year);
    w.WriteShort(at.month);
    w.WriteShort(at.day);
    WriteClock(w, at);
  }

  method WriteClock(w: PacketWriter, at: Moment)
    modifies w
    ensures forall t: Bytes {:trigger w.buf + t} :: w.buf + t == old(w.buf) + PutClock(at, t)
  {
    hide PutShort;
    w.WriteShort(at.hour);
    w.WriteShort(at.minute);
    w.WriteShort(at.second);
    w.WriteShort(at.nanos / 1_000_000);
  }

  method WriteText(w: PacketWriter, s: Bytes)
    modifies w
    ensures forall t: Bytes {:trigger w.buf + t} ::
              w.buf + t == old(w.buf) + PutInt(1 + |s| + 1, PutByte(2, PutNulStr(s, t)))
  {
    hide PutByte, PutInt;
    w.WriteInt(1 + |s| + 1);
    w.WriteByte(TYPE_STRING as byte);
    w.WriteRawBytes(s);
    w.WriteByte(0);
    NulStrParts(s);
  }

  lemma NulStrParts(s: Bytes)
    ensures forall t: Bytes {:trigger PutNulStr(s, t)} :: PutNulStr(s, t) == PutRaw(s, PutByte(0, t))
  {
  }

  method EncodeBindParams(args: seq<Value>) returns (b: Bytes)
    requires GoodParams(args)
    ensures b == PutParams(args, [])
  {
    hide PutParam;
    if |args| == 0 {
      return [];
    }
    var w := new PacketWriter();
    for i := 0 to |args|
      invariant w.buf + PutParams(args[i..], []) == PutParams(args, [])
    {
      assert args[i..][0] == args[i] && args[i..][1..] == args[i + 1..];
      EncodeOneParam(w, args[i]);
    }
    b := w.buf;
    assert b + [] == b;
  }

  // ----- reading the parameters back

  /** What survives the wire: bool becomes int64, empty bytes NULL, times lose sub-millisecond digits. */
  function Normal(arg: Value): Cell {
    match arg
    case Nil => Null
    case Bool(b) => Integer(if b then 1 else 0)
    case Int(i) => Integer(i)
    case Float(f) => Double(f.bits)
    case Str(s) => Text(s)
    case Other(s) => Text(s)
    case Blob(b) => if b == [] then Null else Raw(b)
    case Timestamp(at) =>
      Time(at.(year := Wrap(at.year, TWO16), nanos := at.nanos / 1_000_000 * 1_000_000))
  }

  function Normals(args: seq<Value>): (cs: seq<Cell>)
    ensures |cs| == |args|
  {
    if args == [] then [] else [Normal(args[0])] + Normals(args[1..])
  }

  lemma ReadTimestamp(at: Moment, t: Bytes)
    requires GoodParam(Timestamp(at))
    ensures PCell(PutParam(Timestamp(at), t), TYPE_NULL, true) == Got(Normal(Timestamp(at)), t)
  {
    hide PByte, PutByte, PShort, PutShort, PInt, PutInt;
  }

  lemma ReadParam(arg: Value, ty: int, t: Bytes)
    requires GoodParam(arg)
    ensures PCell(PutParam(arg, t), ty, true) == Got(Normal(arg), t)
  {
    hide PByte, PutByte, PShort, PutShort, PInt, PutInt, PLong, PutLong, PDouble, PutDouble, PRaw, PutRaw,
      PStr, PutNulStr, PMoment;
    if arg.Timestamp? {
      ReadTimestamp(arg.at, t);
    } else if arg.Blob? && arg.data == [] {
      EmptyRaw(t);
    }
  }

  lemma EmptyRaw(t: Bytes)
    ensures PutRaw([], t) == t
  {
  }

  /**
    The bytes of encodeBindParams, read by the cell loop of parseRowData over columns of
    type NULL, are consumed exactly and give back the arguments in normal form.
   */
  lemma {:induction false} BindRoundTrip(args: seq<Value>, columns: seq<Column>, t: Bytes)
    requires GoodParams(args) && |columns| == |args|
    requires forall c | c in columns :: c.columnType == TYPE_NULL
    ensures PCells(PutParams(args, t), columns, false) == Got(Normals(args), t)
  {
    hide PCell, PutParam, Normal;
    if args != [] {
      BindRoundTrip(args[1..], columns[1..], t);
      ReadParam(args[0], columns[0].columnType, PutParams(args[1..], t));
    }
  }
}
