/**
  protocol.go on bytes: what the readers and writers do, said with numbers instead of names.
  Codes and sizes are those of constants.go.
 */
module OnBytes {
  import opened Wire
  import opened Packet
  import opened Errors
  import opened Response
  import opened Values
  import opened Bind
  import opened Requests

  // ----- numbers in bytes

  /** The unsigned big-endian number in the first n bytes from k on. */
  function Number(s: Bytes, k: nat, n: nat): nat
    requires k + n <= |s|
  {
    if n == 0 then 0 else Number(s, k, n - 1) * 256 + s[k + n - 1] as int
  }

  /** The signed number in two's complement. */
  function Signed(s: Bytes, k: nat, n: nat): int
    requires k + n <= |s| && n in {2, 4, 8}
  {
    var v := Number(s, k, n);
    if n == 2 then if v < 0x8000 then v else v - 0x1_0000
    else if n == 4 then if v < 0x8000_0000 then v else v - 0x1_0000_0000
    else if v < 0x8000_0000_0000_0000 then v else v - 0x1_0000_0000_0000_0000
  }

  /** Four bytes for a number below 2^32, the high one first. */
  function Four(n: nat): (b: Bytes)
    requires n < 0x1_0000_0000
    ensures |b| == 4
  {
    var hi, lo := n / 0x1_0000, n % 0x1_0000;
    [(hi / 0x100) as byte, (hi % 0x100) as byte, (lo / 0x100) as byte, (lo % 0x100) as byte]
  }

  lemma FourIsNumber(n: nat)
    requires n < 0x1_0000_0000
    ensures Number(Four(n), 0, 4) == n
  {
    var hi, lo, b := n / 0x1_0000, n % 0x1_0000, Four(n);
    NumberFour(b, 0);
    assert b[0] as int * 256 + b[1] as int == hi && b[2] as int * 256 + b[3] as int == lo;
  }

  lemma NumberTwo(s: Bytes, k: nat)
    requires k + 2 <= |s|
    ensures Number(s, k, 2) == s[k] as int * 256 + s[k + 1] as int
  {
    assert Number(s, k, 1) == s[k] as int;
  }

  lemma NumberFour(s: Bytes, k: nat)
    requires k + 4 <= |s|
    ensures Number(s, k, 4)
         == ((s[k] as int * 256 + s[k + 1] as int) * 256 + s[k + 2] as int) * 256 + s[k + 3] as int
  {
    NumberTwo(s, k);
    assert Number(s, k, 3) == Number(s, k, 2) * 256 + s[k + 2] as int;
  }

  lemma NumberEight(s: Bytes, k: nat)
    requires k + 8 <= |s|
    ensures Number(s, k, 8) == Number(s, k, 4) * 0x1_0000_0000 + Number(s, k + 4, 4)
  {
    NumberFour(s, k + 4);
    assert Number(s, k, 5) == Number(s, k, 4) * 256 + s[k + 4] as int;
    assert Number(s, k, 6) == Number(s, k, 5) * 256 + s[k + 5] as int;
    assert Number(s, k, 7) == Number(s, k, 6) * 256 + s[k + 6] as int;
  }

  /** Each reader of a number takes its bytes off the front. */
  lemma NumbersOnBytes(s: Bytes)
    ensures PByte(s) == if |s| < 1 then Panic else Got(s[0], s[1..])
    ensures PShort(s) == if |s| < 2 then Panic else Got(Signed(s, 0, 2), s[2..])
    ensures PInt(s) == if |s| < 4 then Panic else Got(Signed(s, 0, 4), s[4..])
    ensures PLong(s) == if |s| < 8 then Panic else Got(Signed(s, 0, 8), s[8..])
    ensures PFloat(s) == if |s| < 4 then Panic else Got(Number(s, 0, 4), s[4..])
    ensures PDouble(s) == if |s| < 8 then Panic else Got(Number(s, 0, 8), s[8..])
  {
    hide Wrap, D16, D32, D64, Number;
    if |s| >= 2 {
      HalvesTwo(s);
      WrapBelow(D16(s));
    }
    if |s| >= 4 {
      HalvesFour(s);
      WrapBelow(D32(s));
    }
    if |s| >= 8 {
      HalvesEight(s);
      WrapBelow(D64(s));
    }
  }

  lemma WrapBelow(v: nat)
    ensures v < 0x1_0000 ==> Wrap(v, TWO16) == if v < 0x8000 then v else v - 0x1_0000
    ensures v < 0x1_0000_0000 ==> Wrap(v, TWO32) == if v < 0x8000_0000 then v else v - 0x1_0000_0000
    ensures v < 0x1_0000_0000_0000_0000 ==>
      Wrap(v, TWO64) == if v < 0x8000_0000_0000_0000 then v else v - 0x1_0000_0000_0000_0000
  {
  }

  lemma HalvesTwo(s: Bytes)
    requires |s| >= 2
    ensures D16(s) == Number(s, 0, 2)
  {
    NumberTwo(s, 0);
  }

  lemma HalvesEight(s: Bytes)
    requires |s| >= 8
    ensures D64(s) == Number(s, 0, 8)
  {
    hide D32, Number;
    HalvesFour(s);
    HalvesFour(s[4..]);
    NumberEight(s, 0);
    NumberShift(s, 4, 4);
  }

  lemma HalvesFour(s: Bytes)
    requires |s| >= 4
    ensures D32(s) == Number(s, 0, 4)
  {
    NumberFour(s, 0);
    assert s[2..][0] == s[2] && s[2..][1] == s[3];
  }

  lemma {:induction false} NumberShift(s: Bytes, k: nat, n: nat)
    requires k + n <= |s|
    ensures Number(s[k..], 0, n) == Number(s, k, n)
    decreases n
  {
    if n > 0 {
      NumberShift(s, k, n - 1);
    }
  }

  // ----- cells, by the type code on the wire

  /** CHAR, STRING, NCHAR, VARNCHAR, NUMERIC and ENUM are texts of the announced size, less one final NUL. */
  lemma TextCells(s: Bytes, ty: int, size: int)
    requires ty in {1, 2, 3, 4, 7, 25}
    ensures size <= 0 ==> PValue(s, ty, size) == Got(Text([]), s)
    ensures size > 0 && size > |s| ==> PValue(s, ty, size).Panic?
    ensures 0 < size <= |s| ==>
      PValue(s, ty, size) == Got(Text(if s[size - 1] == 0 then s[..size - 1] else s[..size]), s[size..])
  {
    TextOnBytes(s, size);
    if 0 < size <= |s| {
      assert s[..size][..size - 1] == s[..size - 1] && s[..size][size - 1] == s[size - 1];
    }
  }

  /** SHORT, INT and BIGINT, FLOAT, DOUBLE and MONETARY have their own widths, whatever size is announced. */
  lemma NumberCells(s: Bytes, size: int)
    ensures PValue(s, 9, size) == if |s| < 2 then Panic else Got(Integer(Signed(s, 0, 2)), s[2..])
    ensures PValue(s, 8, size) == if |s| < 4 then Panic else Got(Integer(Signed(s, 0, 4)), s[4..])
    ensures PValue(s, 21, size) == if |s| < 8 then Panic else Got(Integer(Signed(s, 0, 8)), s[8..])
    ensures PValue(s, 11, size) == if |s| < 4 then Panic else Got(Single(Number(s, 0, 4)), s[4..])
    ensures PValue(s, 12, size) == if |s| < 8 then Panic else Got(Double(Number(s, 0, 8)), s[8..])
    ensures PValue(s, 10, size) == PValue(s, 12, size)
  {
    hide PShort, PInt, PLong, PFloat, PDouble, Signed, Number;
    NumbersOnBytes(s);
  }

  /** NULL takes no bytes; every code that is not listed takes exactly the announced ones. */
  lemma OtherCells(s: Bytes, ty: int, size: int)
    ensures PValue(s, 0, size) == Got(Null, s)
    ensures ty !in {0, 1, 2, 3, 4, 7, 8, 9, 10, 11, 12, 13, 14, 15, 21, 22, 25} ==>
      PValue(s, ty, size) == if 0 <= size <= |s| then Got(Raw(s[..size]), s[size..]) else Panic
  {
  }

  /** One more int16, n bytes into a text. */
  lemma ShortAt(s: Bytes, n: nat)
    requires n <= |s|
    ensures PShort(s[n..]) == if |s| < n + 2 then Panic else Got(Signed(s, n, 2), s[n + 2..])
  {
    NumbersOnBytes(s[n..]);
    if |s| >= n + 2 {
      NumberTwo(s[n..], 0);
      NumberTwo(s, n);
    }
  }

  /** DATE, TIME, TIMESTAMP and DATETIME are three, three, six and seven int16, in calendar order. */
  lemma TimeCells(s: Bytes, size: int)
    ensures PValue(s, 13, size) ==
      if |s| < 6 then Panic
      else Got(Time(Moment(Signed(s, 0, 2), Signed(s, 2, 2), Signed(s, 4, 2), 0, 0, 0, 0)), s[6..])
    ensures PValue(s, 14, size) ==
      if |s| < 6 then Panic
      else Got(Time(Moment(0, 1, 1, Signed(s, 0, 2), Signed(s, 2, 2), Signed(s, 4, 2), 0)), s[6..])
    ensures PValue(s, 15, size) ==
      if |s| < 12 then Panic
      else Got(Time(Moment(Signed(s, 0, 2), Signed(s, 2, 2), Signed(s, 4, 2),
                           Signed(s, 6, 2), Signed(s, 8, 2), Signed(s, 10, 2), 0)), s[12..])
    ensures PValue(s, 22, size) ==
      if |s| < 14 then Panic
      else Got(Time(Moment(Signed(s, 0, 2), Signed(s, 2, 2), Signed(s, 4, 2),
                           Signed(s, 6, 2), Signed(s, 8, 2), Signed(s, 10, 2), Signed(s, 12, 2) * 1_000_000)), s[14..])
  {
    hide PShort, Signed;
    assert s[0..] == s;
    ShortAt(s, 0);
    if |s| >= 2 { ShortAt(s, 2); }
    if |s| >= 4 { ShortAt(s, 4); }
    if |s| >= 6 { ShortAt(s, 6); }
    if |s| >= 8 { ShortAt(s, 8); }
    if |s| >= 10 { ShortAt(s, 10); }
    if |s| >= 12 { ShortAt(s, 12); }
  }

  /** A cell with its own type byte, and one without: the size decides about NULL first. */
  lemma CellsOnBytes(s: Bytes, ty: int)
    requires |s| >= 4
    ensures Signed(s, 0, 4) <= 0 ==> PCell(s, ty, true) == Got(Null, s[4..]) && PCell(s, ty, false) == Got(Null, s[4..])
    ensures Signed(s, 0, 4) > 0 ==> PCell(s, ty, false) == PValue(s[4..], ty, Signed(s, 0, 4))
    ensures Signed(s, 0, 4) == 1 ==> PCell(s, ty, true) == if |s| < 5 then Panic else Got(Null, s[5..])
    ensures Signed(s, 0, 4) > 1 ==>
      PCell(s, ty, true) == if |s| < 5 then Panic else PValue(s[5..], s[4] as int, Signed(s, 0, 4) - 1)
  {
    hide PInt, PValue, Signed;
    NumbersOnBytes(s);
    if |s| >= 5 {
      assert s[4..][1..] == s[5..];
    }
  }

  /** Which cells describe themselves: all of a stored-procedure call (126), and those of NULL columns. */
  lemma RowCellsOnBytes(s: Bytes, columns: seq<Column>, isCall: bool)
    requires columns != []
    ensures PCells(s, columns, isCall).Got? ==>
      var first := PCell(s, columns[0].columnType, isCall || columns[0].columnType == 0);
      && first.Got? && PCells(first.rest, columns[1..], isCall).Got?
      && PCells(s, columns, isCall)
         == Got([first.value] + PCells(first.rest, columns[1..], isCall).value,
                PCells(first.rest, columns[1..], isCall).rest)
  {
    hide PCell;
  }

  // ----- flags, counts and guards

  /** Exactly the byte 1 is true. */
  lemma FlagsOnBytes(s: Bytes)
    ensures PFlag(s) == if |s| < 1 then Panic else Got(s[0] == 1, s[1..])
  {
  }

  /** A negative count panics where a slice is made for it. */
  lemma NegativeCounts(s: Bytes, n: int, columns: seq<Column>, isCall: bool)
    requires n < 0
    ensures PColumns(s, n).Panic? && PInfos(s, n).Panic? && PRows(s, n, columns, isCall).Panic?
  {
  }

  /** When inline rows are not read: no SELECT (21), fewer than eight bytes left, or no positive count. */
  lemma NoInlineRows(s: Bytes, columns: seq<Column>, stmtType: int, needColumns: bool)
    ensures stmtType != 21 || |s| < 8 ==> PInline(s, columns, stmtType, needColumns) == Got(Fetched(0, []), s)
    ensures stmtType == 21 && |s| >= 8 && (Signed(s, 4, 4) <= 0 || (needColumns && columns == [])) ==>
      PInline(s, columns, stmtType, needColumns) == Got(Fetched(Signed(s, 4, 4), []), s[8..])
  {
    hide PInt, PRows, Signed;
    TwoInts(s);
  }

  /** A FETCH response without columns, or without a positive count, has no rows. */
  lemma NoFetchedRows(s: Bytes, columns: seq<Column>, stmtType: int)
    requires |s| >= 4 && (columns == [] || Signed(s, 0, 4) <= 0)
    ensures PFetchBody(s, columns, stmtType) == Got(Fetched(Signed(s, 0, 4), []), s[4..])
  {
    hide PInt, PRows, Signed;
    NumbersOnBytes(s);
  }

  lemma TwoInts(s: Bytes)
    ensures |s| >= 4 ==> PInt(s) == Got(Signed(s, 0, 4), s[4..])
    ensures |s| >= 8 ==> PInt(s[4..]) == Got(Signed(s, 4, 4), s[8..])
  {
    NumbersOnBytes(s);
    if |s| >= 8 {
      NumbersOnBytes(s[4..]);
      NumberShift(s, 4, 4);
      assert s[4..][4..] == s[8..];
    }
  }

  // ----- small responses; `cas` stands for the four CAS_INFO bytes

  lemma CodeOnBytes(cas: Bytes, code: nat, t: Bytes)
    requires |cas| == 4 && code < 0x8000_0000
    ensures PCode(cas + Four(code) + t) == Got(Ok(code), t)
    ensures PRaw(cas + Four(code) + t, 4).Got? && PRaw(cas + Four(code) + t, 4).value == cas
  {
    hide Number, Signed, PInt, PError;
    var data := cas + Four(code) + t;
    assert data[..4] == cas && data[4..] == Four(code) + t && (Four(code) + t)[4..] == t;
    FourRead(code, t);
  }

  lemma FourRead(n: nat, t: Bytes)
    requires n < 0x8000_0000
    ensures PInt(Four(n) + t) == Got(n, t)
  {
    hide PInt, Number;
    var s := Four(n) + t;
    NumbersOnBytes(s);
    FourIsNumber(n);
    NumberPrefix(Four(n), t, 4);
    NumberIsSigned(s);
    assert s[4..] == t;
  }

  lemma NumberIsSigned(s: Bytes)
    requires |s| >= 4
    ensures Number(s, 0, 4) < 0x8000_0000 ==> Signed(s, 0, 4) == Number(s, 0, 4)
  {
    hide Number;
  }

  lemma {:induction false} NumberPrefix(s: Bytes, t: Bytes, n: nat)
    requires n <= |s|
    ensures Number(s + t, 0, n) == Number(s, 0, n)
    decreases n
  {
    if n > 0 {
      NumberPrefix(s, t, n - 1);
    }
  }

  /** Any non-negative code is success. */
  lemma SimpleOnBytes(cas: Bytes, code: nat, t: Bytes)
    requires |cas| == 4 && code < 0x8000_0000
    ensures PSimple(cas + Four(code) + t) == Got(Ok(()), t)
  {
    hide PCode;
    CodeOnBytes(cas, code, t);
  }

  /** The version is all the text behind the code, less one final NUL. */
  lemma VersionOnBytes(cas: Bytes, code: nat, t: Bytes)
    requires |cas| == 4 && code < 0x8000_0000
    ensures PVersion(cas + Four(code) + t)
         == Got(Ok(if t != [] && t[|t| - 1] == 0 then t[..|t| - 1] else t), [])
  {
    hide PCode, PStr;
    CodeOnBytes(cas, code, t);
    TextOnBytes(t, |t|);
    assert t[..|t|] == t && t[|t|..] == [];
    assert |cas + Four(code) + t| - 8 == |t|;
  }

  /** The code is the length of the id's text. */
  lemma LastIdOnBytes(cas: Bytes, text: Bytes, t: Bytes)
    requires |cas| == 4 && |text| < 0x8000_0000
    ensures PLastId(cas + Four(|text|) + (text + t))
         == Got(Ok(if text != [] && text[|text| - 1] == 0 then text[..|text| - 1] else text), t)
  {
    hide PCode, PStr;
    CodeOnBytes(cas, |text|, text + t);
    TextOnBytes(text + t, |text|);
    assert (text + t)[..|text|] == text && (text + t)[|text|..] == t;
  }

  /** Broker info of which the fifth byte has the protocol version in its low six bits, then the session. */
  lemma DatabaseOnBytes(cas: Bytes, code: nat, broker: Bytes, session: nat, t: Bytes)
    requires |cas| == 4 && code < 0x8000_0000 && |broker| == 16 && session < 0x8000_0000
    ensures POpenDatabase(cas + Four(code) + (broker + (Four(session) + t)))
         == Got(Ok(Database(cas, broker[4] as int % 64, session)), t)
  {
    hide PCode, PInt;
    var s := broker + (Four(session) + t);
    CodeOnBytes(cas, code, s);
    assert s[..16] == broker && s[16..] == Four(session) + t;
    FourRead(session, t);
  }

  // ----- what is written: parts, one behind the other

  function Then(part: Bytes, rest: Bytes): Bytes { part + rest }

  /** Two bytes of a number's two's complement, the high one first; and eight. */
  function TwoBytes(v: int): Bytes {
    var u := v % 0x1_0000;
    [(u / 0x100) as byte, (u % 0x100) as byte]
  }

  function EightBytes(v: int): Bytes {
    var u := v % 0x1_0000_0000_0000_0000;
    Four(u / 0x1_0000_0000) + Four(u % 0x1_0000_0000)
  }

  function BitByte(b: bool): byte { if b then 1 else 0 }

  lemma IntPart(v: nat, t: Bytes)
    requires v < 0x1_0000_0000
    ensures PutInt(v, t) == Then(Four(v), t)
  {
    FourIsU32(v);
  }

  lemma FourIsU32(n: nat)
    requires n < 0x1_0000_0000
    ensures IntBytes(n) == Four(n) && U32(n) == Four(n)
  {
    var hi, lo := n / 0x1_0000, n % 0x1_0000;
    assert U16(hi) == [(hi / 0x100) as byte, (hi % 0x100) as byte];
    assert U16(lo) == [(lo / 0x100) as byte, (lo % 0x100) as byte];
    assert n % TWO32 == n;
  }

  lemma BytePart(v: byte, raw: Bytes, t: Bytes)
    ensures PutByte(v, t) == Then([v], t) && PutRaw(raw, t) == Then(raw, t)
    ensures PutNulStr(raw, t) == Then(raw, Then([0], t))
  {
  }

  lemma ShortPart(v: int, t: Bytes)
    ensures PutShort(v, t) == Then(TwoBytes(v), t)
  {
  }

  lemma LongPart(v: int, t: Bytes)
    ensures PutLong(v, t) == Then(EightBytes(v), t)
    ensures 0 <= v < TWO64 ==> PutDouble(v, t) == Then(EightBytes(v), t)
  {
    hide EightBytes;
    EightIsU64(v);
  }

  lemma EightIsU64(v: int)
    ensures LongBytes(v) == EightBytes(v)
    ensures 0 <= v < TWO64 ==> U64(v) == EightBytes(v)
  {
    hide U32, Four;
    var u := v % 0x1_0000_0000_0000_0000;
    FourIsU32(u / 0x1_0000_0000);
    FourIsU32(u % 0x1_0000_0000);
  }

  lemma SmallFours()
    ensures Four(0) == [0, 0, 0, 0] && Four(1) == [0, 0, 0, 1] && Four(3) == [0, 0, 0, 3] && Four(4) == [0, 0, 0, 4]
    ensures Four(8) == [0, 0, 0, 8] && Four(9) == [0, 0, 0, 9] && Four(15) == [0, 0, 0, 15]
  {
  }

  lemma Glue(a: Bytes, b: Bytes, t: Bytes)
    ensures Then(a, Then(b, t)) == Then(a + b, t)
  {
  }

  /** An argument is its length and its value. */
  lemma ByteArg(b: byte, t: Bytes)
    ensures ArgByte(b, t) == Then([0, 0, 0, 1, b], t)
  {
    hide PutInt, PutByte, Then, Four;
    SmallFours();
    BytePart(b, [], t);
    IntPart(1, PutByte(b, t));
    Glue([0, 0, 0, 1], [b], t);
    assert [0, 0, 0, 1] + [b] == [0, 0, 0, 1, b];
  }

  lemma IntArg(n: nat, t: Bytes)
    requires n < 0x1_0000_0000
    ensures ArgInt(n, t) == Then([0, 0, 0, 4], Then(Four(n), t))
  {
    hide PutInt, Then, Four;
    SmallFours();
    IntPart(n, t);
    IntPart(4, PutInt(n, t));
  }

  lemma ZeroArg(t: Bytes)
    ensures ArgInt(0, t) == Then([0, 0, 0, 4, 0, 0, 0, 0], t)
  {
    hide ArgInt, Then, Four;
    SmallFours();
    IntArg(0, t);
    Glue([0, 0, 0, 4], [0, 0, 0, 0], t);
    assert [0, 0, 0, 4] + [0, 0, 0, 0] == [0, 0, 0, 4, 0, 0, 0, 0];
  }

  /** A text is its length with the NUL, its bytes and the NUL. */
  lemma TextArg(text: Bytes, t: Bytes)
    requires |text| + 1 < 0x1_0000_0000
    ensures PutSizedStr(text, t) == Then(Four(|text| + 1), Then(text, Then([0], t)))
  {
    hide PutInt, PutNulStr, Then, Four;
    BytePart(0, text, t);
    IntPart(|text| + 1, PutNulStr(text, t));
  }

  lemma BlockArg(raw: Bytes, t: Bytes)
    requires |raw| < 0x1_0000_0000
    ensures Block(raw, t) == Then(Four(|raw|), Then(raw, t))
  {
    hide PutInt, PutRaw, Then, Four;
    BytePart(0, raw, t);
    IntPart(|raw|, PutRaw(raw, t));
  }

  lemma CacheArg(t: Bytes)
    ensures CacheTime(t) == Then([0, 0, 0, 8, 0, 0, 0, 0, 0, 0, 0, 0], t)
  {
    hide PutInt, Then, Four;
    SmallFours();
    IntPart(0, t);
    IntPart(0, PutInt(0, t));
    IntPart(8, PutInt(0, PutInt(0, t)));
    Glue([0, 0, 0, 0], [0, 0, 0, 0], t);
    Glue([0, 0, 0, 8], [0, 0, 0, 0] + [0, 0, 0, 0], t);
    assert [0, 0, 0, 8] + ([0, 0, 0, 0] + [0, 0, 0, 0]) == [0, 0, 0, 8, 0, 0, 0, 0, 0, 0, 0, 0];
  }

  lemma LimitArgs(t: Bytes)
    ensures NoLimits(t) == Then([0, 0, 0, 4, 0, 0, 0, 0], Then([0, 0, 0, 4, 0, 0, 0, 0], t))
  {
    hide ArgInt, Then;
    ZeroArg(t);
    ZeroArg(ArgInt(0, t));
  }

  // Requests: function code, then arguments.

  lemma ShortRequestsOnBytes(kind: byte, handle: nat, commit: bool)
    requires handle < 0x1_0000_0000
    ensures Payload(EndTran(kind)) == Then([1], Then([0, 0, 0, 1, kind], []))
    ensures Payload(CloseHandle(handle)) == Then([6], Then([0, 0, 0, 4], Then(Four(handle), [])))
    ensures Payload(DbVersion(commit)) == Then([15], Then([0, 0, 0, 1, BitByte(commit)], []))
    ensures Payload(ConClose) == Then([31], []) && Payload(LastInsertId) == Then([40], [])
  {
    hide ArgByte, ArgInt, PutByte, Then, Four;
    ByteArg(kind, []);
    ByteArg(BitByte(commit), []);
    IntArg(handle, []);
    BytePart(1, [], ArgByte(kind, []));
    BytePart(6, [], ArgInt(handle, []));
    BytePart(15, [], ArgByte(BitByte(commit), []));
    BytePart(31, [], []);
    BytePart(40, [], []);
  }

  lemma FetchOnBytes(handle: nat, start: nat, size: nat)
    requires handle < 0x1_0000_0000 && start < 0x1_0000_0000 && size < 0x1_0000_0000
    ensures var options := Then([0, 0, 0, 1, 0], Then([0, 0, 0, 4, 0, 0, 0, 0], []));
      var sizes := Then([0, 0, 0, 4], Then(Four(start), Then([0, 0, 0, 4], Then(Four(size), options))));
      Payload(Fetch(handle, start, size)) == Then([8], Then([0, 0, 0, 4], Then(Four(handle), sizes)))
  {
    hide ArgByte, ArgInt, PutByte, Then, Four;
    ZeroArg([]);
    ByteArg(0, ArgInt(0, []));
    var options := ArgByte(0, ArgInt(0, []));
    IntArg(size, options);
    IntArg(start, ArgInt(size, options));
    IntArg(handle, ArgInt(start, ArgInt(size, options)));
    BytePart(8, [], ArgInt(handle, ArgInt(start, ArgInt(size, options))));
  }

  lemma PrepareOnBytes(sql: Bytes, commit: bool)
    requires |sql| + 1 < 0x1_0000_0000
    ensures var options := Then([0, 0, 0, 1, 0], Then([0, 0, 0, 1, BitByte(commit)], []));
      Payload(Prepare(sql, commit)) == Then([2], Then(Four(|sql| + 1), Then(sql, Then([0], options))))
  {
    hide ArgByte, PutByte, PutSizedStr, Then, Four;
    ByteArg(BitByte(commit), []);
    var options := ArgByte(0, ArgByte(BitByte(commit), []));
    ByteArg(0, ArgByte(BitByte(commit), []));
    TextArg(sql, options);
    BytePart(2, [], PutSizedStr(sql, options));
  }

  /** Three arguments, the text, option 0, the commit flag, option 2, no limits, no parameters, no cache, no timeout. */
  lemma PrepareAndExecuteOnBytes(sql: Bytes, commit: bool)
    requires |sql| + 1 < 0x1_0000_0000
    ensures var end := Then([0, 0, 0, 8, 0, 0, 0, 0, 0, 0, 0, 0], Then([0, 0, 0, 4, 0, 0, 0, 0], []));
      var limits := Then([0, 0, 0, 4, 0, 0, 0, 0], Then([0, 0, 0, 4, 0, 0, 0, 0], Then([0, 0, 0, 0], end)));
      var options := Then([0, 0, 0, 1, 0], Then([0, 0, 0, 1, BitByte(commit)], Then([0, 0, 0, 1, 2], limits)));
      Payload(PrepareAndExecute(sql, commit))
      == Then([41], Then([0, 0, 0, 4], Then([0, 0, 0, 3], Then(Four(|sql| + 1), Then(sql, Then([0], options))))))
  {
    hide ArgByte, ArgInt, PutByte, PutInt, PutSizedStr, NoLimits, CacheTime, Then, Four;
    SmallFours();
    ZeroArg([]);
    CacheArg(ArgInt(0, []));
    var noParams := PutInt(0, CacheTime(ArgInt(0, [])));
    IntPart(0, CacheTime(ArgInt(0, [])));
    LimitArgs(noParams);
    ByteArg(2, NoLimits(noParams));
    var flag := ArgByte(BitByte(commit), ArgByte(2, NoLimits(noParams)));
    ByteArg(BitByte(commit), ArgByte(2, NoLimits(noParams)));
    ByteArg(0, flag);
    TextArg(sql, ArgByte(0, flag));
    IntArg(3, PutSizedStr(sql, ArgByte(0, flag)));
    BytePart(41, [], ArgInt(3, PutSizedStr(sql, ArgByte(0, flag))));
  }

  /** The handle, option 0, no limits, the parameters as one block, one bind mode, the flags, no cache, no timeout. */
  lemma ExecuteOnBytes(handle: nat, inline: bool, params: Bytes, commit: bool)
    requires handle < 0x1_0000_0000 && |params| < 0x1_0000_0000
    ensures var end := Then([0, 0, 0, 8, 0, 0, 0, 0, 0, 0, 0, 0], Then([0, 0, 0, 4, 0, 0, 0, 0], []));
      var flags := Then([BitByte(inline)], Then([0, 0, 0, 1, BitByte(commit)], Then([0, 0, 0, 1, 1], end)));
      var block := Then(Four(|params|), Then(params, Then([0, 0, 0, 1], flags)));
      var limits := Then([0, 0, 0, 4, 0, 0, 0, 0], Then([0, 0, 0, 4, 0, 0, 0, 0], block));
      Payload(Execute(handle, inline, params, commit))
      == Then([3], Then([0, 0, 0, 4], Then(Four(handle), Then([0, 0, 0, 1, 0], limits))))
  {
    hide ArgByte, ArgInt, PutByte, PutInt, NoLimits, CacheTime, Block, Then, Four;
    SmallFours();
    ZeroArg([]);
    var end := CacheTime(ArgInt(0, []));
    CacheArg(ArgInt(0, []));
    ByteArg(1, end);
    ByteArg(BitByte(commit), ArgByte(1, end));
    var options := ArgByte(BitByte(commit), ArgByte(1, end));
    var flags := PutByte(BitByte(inline), options);
    BytePart(BitByte(inline), [], options);
    IntPart(1, flags);
    BlockArg(params, PutInt(1, flags));
    var block := Block(params, PutInt(1, flags));
    LimitArgs(block);
    ByteArg(0, NoLimits(block));
    IntArg(handle, ArgByte(0, NoLimits(block)));
    BytePart(3, [], ArgInt(handle, ArgByte(0, NoLimits(block))));
  }

  /** The length of the payload alone, CAS_INFO, the payload. */
  lemma FrameOnBytes(cas: Bytes, payload: Bytes)
    requires |payload| < 0x1_0000_0000
    ensures Frame(cas, payload) == Four(|payload|) + cas + payload
  {
    FourIsU32(|payload|);
    hide U32, Four;
  }

  /** Bind parameters: the size with the type byte, the type, the value; NULL is a size of 0 alone. */
  lemma ParamsOnBytes(arg: Value, t: Bytes)
    requires GoodParam(arg)
    ensures arg.Nil? ==> PutParam(arg, t) == Then([0, 0, 0, 0], t)
    ensures arg.Bool? ==> PutParam(arg, t) == Then([0, 0, 0, 3], Then([9], Then(TwoBytes(if arg.b then 1 else 0), t)))
    ensures arg.Int? ==> PutParam(arg, t) == Then([0, 0, 0, 9], Then([21], Then(EightBytes(arg.i), t)))
    ensures arg.Float? ==> PutParam(arg, t) == Then([0, 0, 0, 9], Then([12], Then(EightBytes(arg.f.bits), t)))
    ensures arg.Str? ==> PutParam(arg, t) == Then(Four(|arg.s| + 2), Then([2], Then(arg.s, Then([0], t))))
    ensures arg.Other? ==> PutParam(arg, t) == Then(Four(|arg.printed| + 2), Then([2], Then(arg.printed, Then([0], t))))
    ensures arg.Blob? ==> PutParam(arg, t) == Then(Four(|arg.data| + 1), Then([6], Then(arg.data, t)))
  {
    hide PutByte, PutInt, PutShort, PutLong, PutDouble, PutRaw, PutNulStr, PutTimestamp, Then, Four, EightBytes,
      TwoBytes;
    SmallFours();
    match arg
    case Nil => IntPart(0, t);
    case Bool(b) =>
      var v := PutShort(if b then 1 else 0, t);
      ShortPart(if b then 1 else 0, t);
      BytePart(9, [], v);
      IntPart(3, PutByte(9, v));
    case Int(i) =>
      LongPart(i, t);
      BytePart(21, [], PutLong(i, t));
      IntPart(9, PutByte(21, PutLong(i, t)));
    case Float(f) =>
      LongPart(f.bits, t);
      BytePart(12, [], PutDouble(f.bits, t));
      IntPart(9, PutByte(12, PutDouble(f.bits, t)));
    case Str(s) => TextParam(s, t);
    case Other(s) => TextParam(s, t);
    case Blob(b) =>
      BytePart(6, b, t);
      BytePart(6, [], PutRaw(b, t));
      IntPart(1 + |b|, PutByte(6, PutRaw(b, t)));
    case Timestamp(_) =>
  }

  lemma TextParam(s: Bytes, t: Bytes)
    requires FitsInt32(|s| + 2)
    ensures PutInt(1 + |s| + 1, PutByte(2, PutNulStr(s, t))) == Then(Four(|s| + 2), Then([2], Then(s, Then([0], t))))
  {
    hide PutByte, PutInt, PutNulStr, Then, Four;
    BytePart(2, s, t);
    BytePart(2, [], PutNulStr(s, t));
    IntPart(|s| + 2, PutByte(2, PutNulStr(s, t)));
  }

  lemma ClockOnBytes(at: Moment, t: Bytes)
    ensures PutClock(at, t) == Then(TwoBytes(at.hour), Then(TwoBytes(at.minute),
                               Then(TwoBytes(at.second), Then(TwoBytes(at.nanos / 1_000_000), t))))
  {
    hide PutShort, Then, TwoBytes;
    var ms := PutShort(at.nanos / 1_000_000, t);
    ShortPart(at.nanos / 1_000_000, t);
    ShortPart(at.second, ms);
    ShortPart(at.minute, PutShort(at.second, ms));
    ShortPart(at.hour, PutShort(at.minute, PutShort(at.second, ms)));
  }

  lemma DateOnBytes(at: Moment, t: Bytes)
    ensures PutShort(at.year, PutShort(at.month, PutShort(at.day, t)))
         == Then(TwoBytes(at.year), Then(TwoBytes(at.month), Then(TwoBytes(at.day), t)))
  {
    hide PutShort, Then, TwoBytes;
    ShortPart(at.day, t);
    ShortPart(at.month, PutShort(at.day, t));
    ShortPart(at.year, PutShort(at.month, PutShort(at.day, t)));
  }

  /** A time: type 22 and seven int16 from the year down to the milliseconds. */
  lemma TimestampOnBytes(at: Moment, t: Bytes)
    ensures var clock := Then(TwoBytes(at.hour), Then(TwoBytes(at.minute),
                         Then(TwoBytes(at.second), Then(TwoBytes(at.nanos / 1_000_000), t))));
      var date := Then(TwoBytes(at.year), Then(TwoBytes(at.month), Then(TwoBytes(at.day), clock)));
      PutTimestamp(at, t) == Then([0, 0, 0, 15], Then([22], date))
    ensures GoodParam(Timestamp(at)) ==> PutParam(Timestamp(at), t) == PutTimestamp(at, t)
  {
    hide PutByte, PutInt, PutShort, PutClock, Then, Four, TwoBytes, GoodParam;
    SmallFours();
    var clock := PutClock(at, t);
    ClockOnBytes(at, t);
    DateOnBytes(at, clock);
    var date := PutShort(at.year, PutShort(at.month, PutShort(at.day, clock)));
    BytePart(22, [], date);
    IntPart(15, PutByte(22, date));
  }
}
