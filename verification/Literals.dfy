/** types.go and conn.go: SQL literals of bound values, and reading a decimal id back. */
module Literals {
  import opened Wire
  import Response
  import opened Values
  import opened SqlLexer
  import opened Scanner

  const BACKSLASH := '\\' as byte
  const ZERO := '0' as byte

  // ----- escaping

  /** strings.ReplaceAll with a one-byte pattern. */
  function ReplaceAll(s: Bytes, c: byte, to: Bytes): Bytes {
    if s == [] then [] else (if s[0] == c then to else [s[0]]) + ReplaceAll(s[1..], c, to)
  }

  function EscapeString(s: Bytes): Bytes {
    ReplaceAll(ReplaceAll(s, BACKSLASH, [BACKSLASH, BACKSLASH]), QUOTE, [QUOTE, QUOTE])
  }

  /** The one-pass meaning: backslashes and quotes are doubled, every other byte stays. */
  function Expand(s: Bytes): Bytes {
    if s == [] then []
    else if s[0] == BACKSLASH || s[0] == QUOTE then [s[0], s[0]] + Expand(s[1..])
    else [s[0]] + Expand(s[1..])
  }

  /** Takes one byte of every doubled backslash or quote. */
  function Unescape(s: Bytes): Bytes
    decreases |s|
  {
    if s == [] then []
    else if (s[0] == BACKSLASH || s[0] == QUOTE) && |s| > 1 && s[1] == s[0] then [s[0]] + Unescape(s[2..])
    else [s[0]] + Unescape(s[1..])
  }

  lemma {:induction false} EscapeIsExpand(s: Bytes)
    ensures EscapeString(s) == Expand(s)
  {
    if s != [] {
      EscapeIsExpand(s[1..]);
      var twice := [BACKSLASH, BACKSLASH];
      var rest := ReplaceAll(s[1..], BACKSLASH, twice);
      var first := if s[0] == BACKSLASH then twice else [s[0]];
      ReplaceAllConcat(first, rest, QUOTE, [QUOTE, QUOTE]);
      ReplaceAllShort(first, QUOTE, [QUOTE, QUOTE]);
    }
  }

  lemma {:induction false} ReplaceAllConcat(a: Bytes, b: Bytes, c: byte, to: Bytes)
    ensures ReplaceAll(a + b, c, to) == ReplaceAll(a, c, to) + ReplaceAll(b, c, to)
  {
    if a == [] {
      assert a + b == b;
    } else {
      assert (a + b)[1..] == a[1..] + b;
      ReplaceAllConcat(a[1..], b, c, to);
    }
  }

  lemma ReplaceAllShort(a: Bytes, c: byte, to: Bytes)
    requires 1 <= |a| <= 2
    ensures |a| == 1 ==> ReplaceAll(a, c, to) == if a[0] == c then to else a
    ensures |a| == 2 && a[0] != c && a[1] != c ==> ReplaceAll(a, c, to) == a
  {
    assert |a| == 2 ==> a[1..][1..] == [];
  }

  lemma {:induction false} UnescapeExpand(s: Bytes)
    ensures Unescape(Expand(s)) == s
  {
    if s != [] {
      UnescapeExpand(s[1..]);
      var e := Expand(s);
      if s[0] == BACKSLASH || s[0] == QUOTE {
        assert e[2..] == Expand(s[1..]);
      } else {
        assert e[1..] == Expand(s[1..]);
      }
    }
  }

  lemma {:induction false} ExpandDoubled(s: Bytes)
    ensures Doubled(Expand(s))
  {
    if s != [] {
      ExpandDoubled(s[1..]);
      var e := Expand(s);
      if s[0] == BACKSLASH {
        assert e[1..][1..] == Expand(s[1..]);
      } else if s[0] == QUOTE {
        assert e[2..] == Expand(s[1..]);
      } else {
        assert e[1..] == Expand(s[1..]);
      }
    }
  }

  /** Escaping loses nothing, and its quotes are all doubled. */
  lemma EscapeReversible(s: Bytes)
    ensures Unescape(EscapeString(s)) == s && Doubled(EscapeString(s))
  {
    hide EscapeString, Unescape, Expand, Doubled;
    EscapeIsExpand(s);
    UnescapeExpand(s);
    ExpandDoubled(s);
  }

  // ----- hexadecimal

  function HexDigit(n: int): byte
    requires 0 <= n < 16
  {
    if n < 10 then ZERO + n as byte else 'a' as byte + (n - 10) as byte
  }

  function Nibble(c: byte): int { if c < 'a' as byte then c as int - ZERO as int else c as int - 'a' as int + 10 }

  function Unhex(s: Bytes): seq<int>
    decreases |s|
  {
    if |s| < 2 then [] else [Nibble(s[0]) * 16 + Nibble(s[1])] + Unhex(s[2..])
  }

  /** Two digits per byte, high nibble first: the k-th byte is at 2k and 2k + 1. */
  method HexEncode(b: Bytes) returns (s: Bytes)
    ensures s == Hex(b)
  {
    var out := new byte[|b| * 2](_ => 0);
    for i := 0 to |b|
      invariant forall k | 0 <= k < i ::
                  out[k * 2] == HexDigit(b[k] as int / 16) && out[k * 2 + 1] == HexDigit(b[k] as int % 16)
    {
      out[i * 2] := HexDigit(b[i] as int / 16);
      out[i * 2 + 1] := HexDigit(b[i] as int % 16);
    }
    s := out[..];
    HexUnique(b, s);
  }

  function Hex(b: Bytes): (s: Bytes)
    ensures |s| == 2 * |b|
  {
    if b == [] then [] else [HexDigit(b[0] as int / 16), HexDigit(b[0] as int % 16)] + Hex(b[1..])
  }

  lemma {:induction false} HexUnique(b: Bytes, s: Bytes)
    requires |s| == |b| * 2
    requires forall k | 0 <= k < |b| ::
               s[k * 2] == HexDigit(b[k] as int / 16) && s[k * 2 + 1] == HexDigit(b[k] as int % 16)
    ensures s == Hex(b)
  {
    if b != [] {
      var c, t := b[1..], s[2..];
      forall k | 0 <= k < |c|
        ensures t[k * 2] == HexDigit(c[k] as int / 16) && t[k * 2 + 1] == HexDigit(c[k] as int % 16)
      {
        assert t[k * 2] == s[(k + 1) * 2] && t[k * 2 + 1] == s[(k + 1) * 2 + 1] && c[k] == b[k + 1];
      }
      HexUnique(c, t);
      assert s[0] == s[0 * 2] && s[1] == s[0 * 2 + 1];
      assert s == [s[0], s[1]] + t;
    }
  }

  lemma {:induction false} UnhexHex(b: Bytes)
    ensures |Unhex(Hex(b))| == |b|
    ensures forall k | 0 <= k < |b| :: Unhex(Hex(b))[k] == b[k] as int
  {
    if b != [] {
      UnhexHex(b[1..]);
      assert Hex(b)[2..] == Hex(b[1..]);
    }
  }

  // ----- decimal

  predicate IsDigit(c: byte) { ZERO <= c <= '9' as byte }

  function Digits(n: nat): (s: Bytes)
    ensures |s| > 0 && forall c | c in s :: IsDigit(c)
  {
    if n < 10 then [ZERO + n as byte] else Digits(n / 10) + [ZERO + (n % 10) as byte]
  }

  /** strconv.FormatInt in base ten. */
  function Decimal(i: int): (s: Bytes)
    ensures |s| > 0
  {
    if i < 0 then [DASH] + Digits(-i) else Digits(i)
  }

  /** The longest run of leading digits. */
  function DigitPrefix(s: Bytes): (p: Bytes)
    ensures p <= s && (forall c | c in p :: IsDigit(c)) && (|p| < |s| ==> !IsDigit(s[|p|]))
  {
    if s == [] || !IsDigit(s[0]) then [] else [s[0]] + DigitPrefix(s[1..])
  }

  function ValueOf(p: Bytes): nat
    requires forall c | c in p :: IsDigit(c)
  {
    if p == [] then 0
    else
      assert IsDigit(p[|p| - 1]);
      ValueOf(p[..|p| - 1]) * 10 + (p[|p| - 1] - ZERO) as int
  }

  lemma {:induction false} ValueOfDigits(n: nat)
    ensures ValueOf(Digits(n)) == n
  {
    if n < 10 {
      assert Digits(n)[..0] == [];
    } else {
      ValueOfDigits(n / 10);
      assert Digits(n)[..|Digits(n)| - 1] == Digits(n / 10);
    }
  }

  /**
    The digit loop of fetchLastInsertID on a text cell: for every text it is the int64
    wrap-around of the number written by the longest digit prefix.
   */
  method ParseLastInsertId(v: Bytes) returns (n: int)
    ensures n == Wrap(ValueOf(DigitPrefix(v)), TWO64)
    ensures ValueOf(DigitPrefix(v)) < TWO64 / 2 ==> n == ValueOf(DigitPrefix(v))
  {
    hide Wrap, ValueOf;
    n := 0;
    ghost var p := DigitPrefix(v);
    NoDigits();
    for i := 0 to |v|
      invariant i <= |p| && v[..i] == p[..i]
      invariant n == Wrap(ValueOf(p[..i]), TWO64)
    {
      var ch := v[i];
      if ch >= '0' as byte && ch <= '9' as byte {
        PrefixGrows(v, p, i);
        DigitNext(p, i);
        n := Wrap(n * 10 + (ch - '0' as byte) as int, TWO64);
      } else {
        PrefixEnd(v, i);
        assert p[..i] == p;
        return;
      }
    }
    assert p[..|v|] == p;
  }

  lemma NoDigits()
    ensures Wrap(ValueOf([]), TWO64) == 0
  {
  }

  lemma ValueOfNext(p: Bytes, i: nat)
    requires i < |p| && forall c | c in p :: IsDigit(c)
    ensures forall c | c in p[..i] || c in p[..i + 1] :: IsDigit(c)
    ensures ValueOf(p[..i + 1]) == ValueOf(p[..i]) * 10 + (p[i] as int - ZERO as int)
  {
    var q := p[..i + 1];
    assert q[..i] == p[..i] && q[i] == p[i];
  }

  lemma PrefixGrows(v: Bytes, p: Bytes, i: nat)
    requires p <= v && (|p| < |v| ==> !IsDigit(v[|p|])) && i <= |p| && i < |v| && IsDigit(v[i])
    ensures i < |p| && p[i] == v[i] && v[..i + 1] == p[..i + 1]
  {
  }

  lemma WrapDigit(n: nat, digit: int)
    ensures Wrap(Wrap(n, TWO64) * 10 + digit, TWO64) == Wrap(n * 10 + digit, TWO64)
  {
    hide Wrap;
    WrapOfWrap(n, 10, digit);
  }

  /** One more digit, on the wrapped value. */
  lemma DigitNext(p: Bytes, i: nat)
    requires i < |p| && forall c | c in p :: IsDigit(c)
    ensures forall c | c in p[..i] || c in p[..i + 1] :: IsDigit(c)
    ensures Wrap(Wrap(ValueOf(p[..i]), TWO64) * 10 + (p[i] as int - ZERO as int), TWO64)
         == Wrap(ValueOf(p[..i + 1]), TWO64)
  {
    hide Wrap, ValueOf;
    ValueOfNext(p, i);
    WrapDigit(ValueOf(p[..i]), p[i] as int - ZERO as int);
  }

  lemma {:induction false} PrefixEnd(v: Bytes, i: nat)
    requires i <= |DigitPrefix(v)| && i < |v| && !IsDigit(v[i])
    ensures i == |DigitPrefix(v)|
  {
    if i > 0 {
      PrefixEnd(v[1..], i - 1);
    }
  }

  /** What fetchLastInsertID makes of a result: its first cell, if that is a number or a text. */
  function FirstId(rows: seq<seq<Response.Cell>>): int {
    if rows == [] || rows[0] == [] then 0
    else if rows[0][0].Integer? then rows[0][0].i
    else if rows[0][0].Text? then Wrap(ValueOf(DigitPrefix(rows[0][0].text)), TWO64)
    else 0
  }

  /** The cell that fetchLastInsertID looks at. */
  predicate FirstCellIs(rows: seq<seq<Response.Cell>>, c: Response.Cell) {
    rows != [] && rows[0] != [] && rows[0][0] == c
  }

  /** What may follow a number: nothing, or no digit. */
  predicate EndsNumber(t: Bytes) { t == [] || t[0] < 48 || t[0] > 57 }

  /**
    An id from the first cell: a number as it is; a text by the decimal number below 2^63 it
    starts with, or 0 if it starts with none; from any other cell, or no cell, 0.
   */
  ghost predicate IdOf(rows: seq<seq<Response.Cell>>, id: int) {
    && (forall i: int :: FirstCellIs(rows, Response.Integer(i)) ==> id == i)
    && (forall n: nat, t: Bytes {:trigger Decimal(n) + t} ::
          n < 0x8000_0000_0000_0000 && EndsNumber(t) && FirstCellIs(rows, Response.Text(Decimal(n) + t)) ==> id == n)
    && (forall t: Bytes :: EndsNumber(t) && FirstCellIs(rows, Response.Text(t)) ==> id == 0)
    && (rows == [] || rows[0] == [] || (!rows[0][0].Integer? && !rows[0][0].Text?) ==> id == 0)
  }

  method ReadFirstId(rows: seq<seq<Response.Cell>>) returns (id: int)
    ensures id == FirstId(rows) && IdOf(rows, id)
  {
    FirstIdMeans(rows);
    if |rows| == 0 || |rows[0]| == 0 {
      return 0;
    }
    match rows[0][0] {
      case Integer(i) => return i;
      case Text(v) => id := ParseLastInsertId(v);
      case _ => return 0;
    }
  }

  lemma FirstIdMeans(rows: seq<seq<Response.Cell>>)
    ensures IdOf(rows, FirstId(rows))
  {
    hide Decimal, ValueOf, DigitPrefix, Wrap;
    forall n: nat, t: Bytes
      | n < 0x8000_0000_0000_0000 && EndsNumber(t) && FirstCellIs(rows, Response.Text(Decimal(n) + t))
      ensures FirstId(rows) == n
    {
      LastInsertIdRecovered(n, t);
    }
    forall t: Bytes | EndsNumber(t) && FirstCellIs(rows, Response.Text(t)) ensures FirstId(rows) == 0 {
      PrefixOfDigits([], t);
      assert [] + t == t;
      NoDigits();
    }
  }

  /** Every id the server can print as decimal text comes back, whatever follows it that is no digit. */
  lemma LastInsertIdRecovered(id: int, t: Bytes)
    requires 0 <= id < TWO64 / 2 && EndsNumber(t)
    ensures Wrap(ValueOf(DigitPrefix(Decimal(id) + t)), TWO64) == id
  {
    PrefixOfDigits(Digits(id), t);
    ValueOfDigits(id);
  }

  lemma {:induction false} PrefixOfDigits(s: Bytes, t: Bytes)
    requires (forall c | c in s :: IsDigit(c)) && EndsNumber(t)
    ensures DigitPrefix(s + t) == s
  {
    if s != [] {
      assert (s + t)[1..] == s[1..] + t;
      PrefixOfDigits(s[1..], t);
    } else {
      assert s + t == t;
    }
  }

  // ----- literals

  /** Digits of n, padded with zeros to `width` bytes. */
  function Padded(n: nat, width: nat): Bytes
    decreases width - |Digits(n)|
  {
    Zeros(width - |Digits(n)|) + Digits(n)
  }

  function Zeros(k: int): Bytes
    decreases k
  {
    if k <= 0 then [] else [ZERO] + Zeros(k - 1)
  }

  /** Layout 2006-01-02 15:04:05, then a point and three digits of milliseconds. */
  function TimeText(at: Response.Moment): Bytes
    requires GoodTime(at)
  {
    var year := if at.year < 0 then [DASH] + Padded(-at.year, 4) else Padded(at.year, 4);
    var date := year + [DASH] + Padded(at.month, 2) + [DASH] + Padded(at.day, 2);
    var clock := Padded(at.hour, 2) + [':' as byte] + Padded(at.minute, 2) + [':' as byte] + Padded(at.second, 2);
    date + [' ' as byte] + clock + ['.' as byte] + Padded(at.nanos / 1_000_000, 3)
  }

  predicate GoodTime(at: Response.Moment) {
    0 <= at.month && 0 <= at.day && 0 <= at.hour && 0 <= at.minute && 0 <= at.second && 0 <= at.nanos
  }

  /** The shape of a numeral: no quote, slash, star or `?`, and no dash doubled or at the end. */
  predicate Plain(s: Bytes) {
    && s != [] && s[0] !in {QUOTE, HOLE, SLASH, STAR}
    && (if |s| == 1 then s[0] != DASH else !(s[0] == DASH && s[1] == DASH) && Plain(s[1..]))
  }

  /** The text strconv gives for a float64 has the shape of a numeral. */
  predicate GoodValue(v: Value) {
    match v
    case Float(f) => Plain(f.text)
    case Timestamp(at) => GoodTime(at)
    case _ => true
  }

  const NULL_TEXT := Ascii("NULL")
  const DATETIME_TEXT := Ascii("DATETIME")
  const X := 'X' as byte

  predicate Supported(v: Value) { !v.Other? }

  /** FormatValue; values of other types are an error. */
  function FormatValue(v: Value): Bytes
    requires GoodValue(v) && Supported(v)
  {
    match v
    case Nil => NULL_TEXT
    case Bool(b) => if b then [ZERO + 1] else [ZERO]
    case Int(i) => Decimal(i)
    case Float(f) => f.text
    case Str(s) => [QUOTE] + EscapeString(s) + [QUOTE]
    case Blob(b) => [X, QUOTE] + Hex(b) + [QUOTE]
    case Timestamp(at) => DATETIME_TEXT + [QUOTE] + TimeText(at) + [QUOTE]
  }

  // ----- what the lexer makes of a literal

  function Codes(s: Bytes): (ts: seq<Token>)
    ensures |ts| == |s|
  {
    if s == [] then [] else [Code(s[0])] + Codes(s[1..])
  }

  function FormatTokens(v: Value): seq<Token>
    requires GoodValue(v) && Supported(v)
  {
    match v
    case Str(s) => [Literal(EscapeString(s), true)]
    case Blob(b) => [Code(X), Literal(Hex(b), true)]
    case Timestamp(at) => Codes(DATETIME_TEXT) + [Literal(TimeText(at), true)]
    case _ => Codes(FormatValue(v))
  }

  /** Code and closed quoted texts that no neighbour turns into a comment. */
  predicate Solid(ts: seq<Token>) {
    && ts != [] && WellFormed(ts[0])
    && (ts[0].Code? || ts[0].Literal?) && IsClosed(ts[0]) && Text(ts[0])[0] != STAR
    && (if |ts| == 1 then After(ts[0]) == Normal else Apart(ts[0], ts[1]) && Solid(ts[1..]))
  }

  lemma {:induction false} PlainSolid(s: Bytes)
    requires Plain(s)
    ensures Solid(Codes(s)) && Flatten(Codes(s)) == s
  {
    assert Codes(s)[1..] == Codes(s[1..]);
    if |s| > 1 {
      PlainSolid(s[1..]);
      assert s[1..][0] == s[1];
    } else {
      assert Codes(s[1..]) == [];
    }
  }

  lemma LiteralSolid(raw: Bytes)
    requires Doubled(raw)
    ensures Solid([Literal(raw, true)])
    ensures Flatten([Literal(raw, true)]) == [QUOTE] + raw + [QUOTE]
  {
    hide Doubled;
  }

  lemma {:induction false} PrefixedSolid(s: Bytes, raw: Bytes)
    requires Plain(s) && Doubled(raw)
    ensures Solid(Codes(s) + [Literal(raw, true)])
    ensures Flatten(Codes(s) + [Literal(raw, true)]) == s + ([QUOTE] + raw + [QUOTE])
  {
    hide Doubled, Solid, Flatten;
    var ts := Codes(s) + [Literal(raw, true)];
    LiteralSolid(raw);
    var last := [Literal(raw, true)];
    if |s| == 1 {
      assert Codes(s) == [Code(s[0])];
      SolidCons(Code(s[0]), last);
      assert [s[0]] == s;
    } else {
      var more := Codes(s[1..]) + last;
      PrefixedSolid(s[1..], raw);
      assert ts == [Code(s[0])] + more && more[0] == Code(s[1]);
      SolidCons(Code(s[0]), more);
      assert [s[0]] + (s[1..] + ([QUOTE] + raw + [QUOTE])) == s + ([QUOTE] + raw + [QUOTE]);
    }
  }

  lemma SolidCons(t: Token, ts: seq<Token>)
    requires t.Code? && WellFormed(t) && t.c != STAR && Solid(ts) && Apart(t, ts[0])
    ensures Solid([t] + ts) && Flatten([t] + ts) == [t.c] + Flatten(ts)
  {
    assert ([t] + ts)[1..] == ts;
  }

  lemma {:induction false} QuoteFreeDoubled(s: Bytes)
    requires QUOTE !in s
    ensures Doubled(s)
  {
    if s != [] {
      QuoteFreeDoubled(s[1..]);
    }
  }

  lemma {:induction false} HexQuoteFree(b: Bytes)
    ensures QUOTE !in Hex(b)
  {
    if b != [] {
      HexQuoteFree(b[1..]);
    }
  }

  lemma {:induction false} ZerosQuoteFree(k: int)
    ensures QUOTE !in Zeros(k)
    decreases k
  {
    if k > 0 {
      ZerosQuoteFree(k - 1);
    }
  }

  lemma PaddedQuoteFree(n: nat, width: nat)
    ensures QUOTE !in Padded(n, width)
  {
    ZerosQuoteFree(width - |Digits(n)|);
  }

  lemma TimeTextQuoteFree(at: Response.Moment)
    requires GoodTime(at)
    ensures QUOTE !in TimeText(at)
  {
    hide Padded;
    forall n: nat, width: nat ensures QUOTE !in Padded(n, width) {
      PaddedQuoteFree(n, width);
    }
  }

  lemma {:induction false} DigitsPlain(s: Bytes)
    requires s != [] && forall c | c in s :: IsDigit(c)
    ensures Plain(s) && Plain([DASH] + s)
  {
    assert s[0] in s;
    assert ([DASH] + s)[1..] == s;
    if |s| > 1 {
      DigitsPlain(s[1..]);
    }
  }

  lemma WordsPlain()
    ensures Plain(NULL_TEXT) && Plain(DATETIME_TEXT) && Plain([X]) && Plain([ZERO]) && Plain([ZERO + 1])
  {
    UpperCasePlain(NULL_TEXT);
    UpperCasePlain(DATETIME_TEXT);
  }

  lemma {:induction false} UpperCasePlain(s: Bytes)
    requires s != [] && forall i | 0 <= i < |s| :: 'A' as byte <= s[i] <= 'Z' as byte
    ensures Plain(s)
  {
    if |s| > 1 {
      UpperCasePlain(s[1..]);
    }
  }

  lemma PlainFormat(v: Value)
    requires GoodValue(v) && Supported(v) && !v.Str? && !v.Blob? && !v.Timestamp?
    ensures Plain(FormatValue(v))
  {
    hide Plain, Digits;
    WordsPlain();
    if v.Int? {
      DigitsPlain(Digits(if v.i < 0 then -v.i else v.i));
    }
  }

  /** Every literal lexes to its own tokens: code, and at most one closed quoted text at its end. */
  lemma LiteralLexes(v: Value)
    requires GoodValue(v) && Supported(v)
    ensures Solid(FormatTokens(v)) && Flatten(FormatTokens(v)) == FormatValue(v)
    ensures Lex(FormatValue(v)) == FormatTokens(v)
  {
    hide EscapeString, Hex, TimeText, Decimal, Doubled, Solid, Plain, Flatten, Lex;
    WordsPlain();
    if v.Str? {
      EscapeReversible(v.s);
      LiteralSolid(EscapeString(v.s));
    } else if v.Blob? {
      var h := Hex(v.data);
      HexQuoteFree(v.data);
      QuoteFreeDoubled(h);
      PrefixedSolid([X], h);
      assert Codes([X]) == [Code(X)];
      assert [Code(X)] + [Literal(h, true)] == [Code(X), Literal(h, true)];
      assert [X] + ([QUOTE] + h + [QUOTE]) == [X, QUOTE] + h + [QUOTE];
    } else if v.Timestamp? {
      var text := TimeText(v.at);
      TimeTextQuoteFree(v.at);
      QuoteFreeDoubled(text);
      PrefixedSolid(DATETIME_TEXT, text);
      assert DATETIME_TEXT + ([QUOTE] + text + [QUOTE]) == DATETIME_TEXT + [QUOTE] + text + [QUOTE];
    } else {
      PlainFormat(v);
      PlainSolid(FormatValue(v));
    }
    SolidLexes(FormatTokens(v));
  }

  lemma SolidLexes(ts: seq<Token>)
    requires Solid(ts)
    ensures Lex(Flatten(ts)) == ts
  {
    hide Lex, Flatten, WellFormed, Apart;
    SolidMeans(ts);
    LexInverse(ts);
  }

  lemma {:induction false} SolidMeans(ts: seq<Token>)
    requires Solid(ts)
    ensures AllWellFormed(ts) && Separable(ts)
    ensures forall t | t in ts :: t.Code? || t.Literal?
  {
    hide WellFormed, Apart;
    if |ts| > 1 {
      SolidMeans(ts[1..]);
      assert ts == [ts[0]] + ts[1..];
    }
  }
}
