/**
  types.go: what a literal means to a server that reads it. The reader works on bytes and numbers
  alone, and gives back every value that FormatValue can print.
 */
module Meaning {
  import opened Wire
  import opened Values
  import Response
  import Literals

  datatype Meaning =
    | Nothing
    | Number(n: int)
    | Chars(s: Bytes)
    | Octets(b: seq<int>)
    | Instant(year: int, month: int, day: int, hour: int, minute: int, second: int, millis: int)
    | Unclear

  // ----- numerals, read from left to right

  predicate AllDigits(s: Bytes) { s != [] && forall c | c in s :: 48 <= c <= 57 }

  function Horner(s: Bytes, acc: int): int {
    if s == [] then acc else Horner(s[1..], acc * 10 + (s[0] as int - 48))
  }

  function Sign(s: Bytes): int { if s != [] && s[0] == 45 then -1 else 1 }
  function Unsigned(s: Bytes): Bytes { if s != [] && s[0] == 45 then s[1..] else s }

  // ----- literals

  /** A year of four digits or more, then nineteen bytes of fields of fixed width: -MM-DD hh:mm:ss.mmm. */
  function ReadTime(s: Bytes): Meaning {
    var k := |s| - 19;
    if k < 4 || !AllDigits(Unsigned(s[..k])) || |Unsigned(s[..k])| < 4 then Unclear
    else
      var t := s[k..];
      if t[0] != 45 || t[3] != 45 || t[6] != 32 || t[9] != 58 || t[12] != 58 || t[15] != 46 then Unclear
      else
        Instant(Sign(s[..k]) * Horner(Unsigned(s[..k]), 0), Horner(t[1..3], 0), Horner(t[4..6], 0),
                Horner(t[7..9], 0), Horner(t[10..12], 0), Horner(t[13..15], 0), Horner(t[16..], 0))
  }

  const DATETIME_QUOTE: Bytes := [68, 65, 84, 69, 84, 73, 77, 69, 39]

  function ReadLiteral(t: Bytes): Meaning {
    if t == [78, 85, 76, 76] then Nothing
    else if |t| >= 2 && t[0] == 39 && t[|t| - 1] == 39 then Chars(Literals.Unescape(t[1..|t| - 1]))
    else if |t| >= 3 && t[..2] == [88, 39] && t[|t| - 1] == 39 then Octets(Literals.Unhex(t[2..|t| - 1]))
    else if |t| >= 10 && t[..9] == DATETIME_QUOTE && t[|t| - 1] == 39 then ReadTime(t[9..|t| - 1])
    else if AllDigits(Unsigned(t)) then Number(Sign(t) * Horner(Unsigned(t), 0))
    else Unclear
  }

  /** What a bound value is meant to be; a bool is 1 or 0, and a time is cut to milliseconds. */
  function Meant(v: Value): Meaning {
    match v
    case Nil => Nothing
    case Bool(b) => Number(if b then 1 else 0)
    case Int(i) => Number(i)
    case Str(s) => Chars(s)
    case Blob(b) => Octets(seq(|b|, i requires 0 <= i < |b| => b[i] as int))
    case Timestamp(at) => Instant(at.year, at.month, at.day, at.hour, at.minute, at.second, at.nanos / 1_000_000)
    case _ => Unclear
  }

  /** The fields of a time, as time.Time has them. */
  predicate Calendar(at: Response.Moment) {
    && 1 <= at.month <= 12 && 1 <= at.day <= 31
    && 0 <= at.hour < 24 && 0 <= at.minute < 60 && 0 <= at.second < 60 && 0 <= at.nanos < 1_000_000_000
  }

  // ----- decimal text

  lemma {:induction false} HornerSnoc(s: Bytes, c: byte, acc: int)
    ensures Horner(s + [c], acc) == Horner(s, acc) * 10 + (c as int - 48)
  {
    if s == [] {
      assert [c][1..] == [];
    } else {
      assert (s + [c])[1..] == s[1..] + [c];
      HornerSnoc(s[1..], c, acc * 10 + (s[0] as int - 48));
    }
  }

  /** The digits of n: no zero in front of another digit, and the number they make. */
  lemma {:induction false} DigitsMean(n: nat)
    ensures AllDigits(Literals.Digits(n)) && Horner(Literals.Digits(n), 0) == n
    ensures n > 0 ==> Literals.Digits(n)[0] != 48
    ensures n < 10 ==> |Literals.Digits(n)| == 1
    ensures n < 100 ==> |Literals.Digits(n)| <= 2
    ensures n < 1000 ==> |Literals.Digits(n)| <= 3
  {
    var last: byte := 48 + (n % 10) as byte;
    if n < 10 {
      assert Literals.Digits(n) == [last] && [last][1..] == [];
    } else {
      DigitsMean(n / 10);
      HornerSnoc(Literals.Digits(n / 10), last, 0);
    }
  }

  lemma {:induction false} HornerZeros(k: int, s: Bytes)
    ensures Horner(Literals.Zeros(k) + s, 0) == Horner(s, 0)
    ensures |Literals.Zeros(k)| == if k <= 0 then 0 else k
    ensures forall c | c in Literals.Zeros(k) :: c == 48
    decreases k
  {
    if k > 0 {
      HornerZeros(k - 1, s);
      assert (Literals.Zeros(k) + s)[1..] == Literals.Zeros(k - 1) + s;
    } else {
      assert Literals.Zeros(k) + s == s;
    }
  }

  /** A padded number has at least its width, exactly if it fits, and the same value. */
  lemma PaddedMeans(n: nat, width: nat)
    ensures AllDigits(Literals.Padded(n, width)) && Horner(Literals.Padded(n, width), 0) == n
    ensures |Literals.Padded(n, width)| >= width
    ensures |Literals.Digits(n)| <= width ==> |Literals.Padded(n, width)| == width
  {
    DigitsMean(n);
    HornerZeros(width - |Literals.Digits(n)|, Literals.Digits(n));
  }

  lemma TwoDigits(n: nat)
    requires n < 100
    ensures |Literals.Padded(n, 2)| == 2 && Horner(Literals.Padded(n, 2), 0) == n
  {
    hide Literals.Padded, Literals.Digits;
    PaddedMeans(n, 2);
    DigitsMean(n);
  }

  lemma DecimalMeans(i: int)
    ensures var t := Literals.Decimal(i);
      && AllDigits(Unsigned(t)) && Sign(t) * Horner(Unsigned(t), 0) == i
      && t[0] in {45, 48, 49, 50, 51, 52, 53, 54, 55, 56, 57}
  {
    DigitsMean(if i < 0 then -i else i);
    var s := Literals.Digits(if i < 0 then -i else i);
    assert s[0] in s && ([45] + s)[1..] == s;
  }

  // ----- times

  /** The last nineteen bytes of a time. */
  function Tail(mo: Bytes, d: Bytes, h: Bytes, mi: Bytes, sec: Bytes, ms: Bytes): Bytes {
    [45] + mo + [45] + d + [32] + h + [58] + mi + [58] + sec + [46] + ms
  }

  lemma TailBytes(mo: Bytes, d: Bytes, h: Bytes, mi: Bytes, sec: Bytes, ms: Bytes)
    requires |mo| == |d| == |h| == |mi| == |sec| == 2 && |ms| == 3
    ensures Tail(mo, d, h, mi, sec, ms)
         == [45, mo[0], mo[1], 45, d[0], d[1], 32, h[0], h[1], 58, mi[0], mi[1], 58, sec[0], sec[1],
             46, ms[0], ms[1], ms[2]]
  {
  }

  lemma TailParts(mo: Bytes, d: Bytes, h: Bytes, mi: Bytes, sec: Bytes, ms: Bytes)
    requires |mo| == |d| == |h| == |mi| == |sec| == 2 && |ms| == 3
    ensures var t := Tail(mo, d, h, mi, sec, ms);
      && |t| == 19 && t[0] == 45 && t[3] == 45 && t[6] == 32 && t[9] == 58 && t[12] == 58 && t[15] == 46
      && t[1..3] == mo && t[4..6] == d && t[7..9] == h && t[10..12] == mi && t[13..15] == sec && t[16..] == ms
  {
    hide Tail;
    TailBytes(mo, d, h, mi, sec, ms);
    var t := Tail(mo, d, h, mi, sec, ms);
    assert t[1..3] == mo && t[4..6] == d && t[7..9] == h;
    assert t[10..12] == mi && t[13..15] == sec && t[16..] == ms;
  }

  lemma TimeTextParts(at: Response.Moment)
    requires Literals.GoodTime(at)
    ensures var year := if at.year < 0 then [45] + Literals.Padded(-at.year, 4) else Literals.Padded(at.year, 4);
      Literals.TimeText(at)
      == year + Tail(Literals.Padded(at.month, 2), Literals.Padded(at.day, 2), Literals.Padded(at.hour, 2),
                     Literals.Padded(at.minute, 2), Literals.Padded(at.second, 2),
                     Literals.Padded(at.nanos / 1_000_000, 3))
  {
    hide Literals.Padded;
  }

  lemma ReadParts(year: Bytes, mo: Bytes, d: Bytes, h: Bytes, mi: Bytes, sec: Bytes, ms: Bytes)
    requires |mo| == |d| == |h| == |mi| == |sec| == 2 && |ms| == 3
    requires AllDigits(Unsigned(year)) && |Unsigned(year)| >= 4
    ensures ReadTime(year + Tail(mo, d, h, mi, sec, ms))
         == Instant(Sign(year) * Horner(Unsigned(year), 0), Horner(mo, 0), Horner(d, 0), Horner(h, 0),
                    Horner(mi, 0), Horner(sec, 0), Horner(ms, 0))
  {
    hide Tail, Horner, AllDigits, Sign;
    var tail := Tail(mo, d, h, mi, sec, ms);
    TailParts(mo, d, h, mi, sec, ms);
    var s := year + tail;
    assert |s| - 19 == |year| && s[..|year|] == year && s[|year|..] == tail;
  }

  lemma YearMeans(y: int)
    ensures var t := if y < 0 then [45] + Literals.Padded(-y, 4) else Literals.Padded(y, 4);
      AllDigits(Unsigned(t)) && |Unsigned(t)| >= 4 && Sign(t) * Horner(Unsigned(t), 0) == y
  {
    hide Literals.Padded;
    var p := Literals.Padded(if y < 0 then -y else y, 4);
    PaddedMeans(if y < 0 then -y else y, 4);
    assert p[0] in p && ([45] + p)[1..] == p;
  }

  /** Every field of a time is read back in its place; its year may have any sign and size. */
  lemma TimeMeans(at: Response.Moment)
    requires Calendar(at)
    ensures ReadTime(Literals.TimeText(at))
         == Instant(at.year, at.month, at.day, at.hour, at.minute, at.second, at.nanos / 1_000_000)
  {
    hide Literals.Padded, Literals.TimeText, Tail, Horner, ReadTime, AllDigits, Sign, Unsigned, Literals.Digits;
    var ms := at.nanos / 1_000_000;
    TimeTextParts(at);
    YearMeans(at.year);
    TwoDigits(at.month);
    TwoDigits(at.day);
    TwoDigits(at.hour);
    TwoDigits(at.minute);
    TwoDigits(at.second);
    PaddedMeans(ms, 3);
    DigitsMean(ms);
    ReadParts(if at.year < 0 then [45] + Literals.Padded(-at.year, 4) else Literals.Padded(at.year, 4),
              Literals.Padded(at.month, 2), Literals.Padded(at.day, 2), Literals.Padded(at.hour, 2),
              Literals.Padded(at.minute, 2), Literals.Padded(at.second, 2), Literals.Padded(ms, 3));
  }

  // ----- every literal

  lemma Inside(open: Bytes, text: Bytes)
    ensures var t := open + text + [39];
      t[|open|..|t| - 1] == text && t[|t| - 1] == 39 && t[..|open|] == open
  {
  }

  lemma StringMeans(s: Bytes)
    ensures ReadLiteral(Literals.FormatValue(Str(s))) == Chars(s)
  {
    hide Literals.EscapeString, Literals.Unescape;
    Inside([39], Literals.EscapeString(s));
    Literals.EscapeReversible(s);
  }

  lemma BlobMeans(b: Bytes)
    ensures ReadLiteral(Literals.FormatValue(Blob(b))) == Meant(Blob(b))
  {
    hide Literals.Hex, Literals.Unhex;
    Inside([88, 39], Literals.Hex(b));
    Literals.UnhexHex(b);
    assert Literals.Unhex(Literals.Hex(b)) == seq(|b|, i requires 0 <= i < |b| => b[i] as int);
  }

  lemma TimestampMeans(at: Response.Moment)
    requires Calendar(at)
    ensures ReadLiteral(Literals.FormatValue(Timestamp(at))) == Meant(Timestamp(at))
  {
    hide Literals.TimeText, ReadTime;
    assert Literals.DATETIME_TEXT + [39] == DATETIME_QUOTE;
    Inside(DATETIME_QUOTE, Literals.TimeText(at));
    TimeMeans(at);
  }

  /** No number starts like another literal. */
  lemma NumberRead(t: Bytes)
    requires t != [] && t[0] in {45, 48, 49, 50, 51, 52, 53, 54, 55, 56, 57} && AllDigits(Unsigned(t))
    ensures ReadLiteral(t) == Number(Sign(t) * Horner(Unsigned(t), 0))
  {
    hide Horner, AllDigits, Unsigned, ReadTime;
    if |t| >= 3 {
      assert t[..2][0] == t[0];
    }
    if |t| >= 10 {
      assert t[..9][0] == t[0];
    }
  }

  /**
    Every supported value but a float is read back from its literal; a float is the text strconv
    gives for it.
   */
  lemma LiteralMeans(v: Value)
    requires Literals.GoodValue(v) && Literals.Supported(v)
    requires v.Timestamp? ==> Calendar(v.at)
    ensures !v.Float? ==> ReadLiteral(Literals.FormatValue(v)) == Meant(v)
    ensures v.Float? ==> Literals.FormatValue(v) == v.f.text
  {
    hide ReadLiteral, Horner, Literals.Decimal;
    match v
    case Nil => NullMeans();
    case Bool(b) =>
      BoolMeans(b);
    case Int(i) =>
      DecimalMeans(i);
      NumberRead(Literals.Decimal(i));
    case Float(_) =>
    case Str(s) => StringMeans(s);
    case Blob(b) => BlobMeans(b);
    case Timestamp(at) => TimestampMeans(at);
  }

  lemma NullMeans()
    ensures ReadLiteral(Literals.FormatValue(Nil)) == Nothing
  {
    assert Literals.NULL_TEXT == [78, 85, 76, 76];
  }

  lemma BoolMeans(b: bool)
    ensures ReadLiteral(Literals.FormatValue(Bool(b))) == Number(if b then 1 else 0)
  {
    var t := Literals.FormatValue(Bool(b));
    assert t[1..] == [];
    NumberRead(t);
  }
}
