/** Bytes, Go's fixed-width integers, and the big-endian layout of packet.go. */
module Wire {

  newtype byte = x: int | 0 <= x < 256

  type Bytes = seq<byte>

  /** The bytes of an ASCII text. */
  function Ascii(s: string): (b: Bytes)
    requires forall i | 0 <= i < |s| :: s[i] < 128 as char
    ensures |b| == |s|
  {
    seq(|s|, i requires 0 <= i < |s| => s[i] as byte)
  }

  function Bit(b: bool): byte { if b then 1 else 0 }

  const TWO8 := 0x100
  const TWO16 := 0x1_0000
  const TWO32 := 0x1_0000_0000
  const TWO64 := 0x1_0000_0000_0000_0000

  predicate FitsInt16(v: int) { -0x8000 <= v < 0x8000 }
  predicate FitsInt32(v: int) { -0x8000_0000 <= v < 0x8000_0000 }
  predicate FitsInt64(v: int) { -0x8000_0000_0000_0000 <= v < 0x8000_0000_0000_0000 }

  /** Go's conversion to a signed integer whose width has `span` values. */
  function Wrap(v: int, span: int): (r: int)
    requires span in {TWO16, TWO32, TWO64}
    ensures -(span / 2) <= r < span / 2
    ensures -(span / 2) <= v < span / 2 ==> r == v
  {
    var u := if span == TWO16 then v % TWO16 else if span == TWO32 then v % TWO32 else v % TWO64;
    if u < span / 2 then u else u - span
  }

  /** Doing the wrap-around at every step or once at the end is the same. */
  lemma WrapOfWrap(a: int, m: int, b: int)
    ensures Wrap(Wrap(a, TWO64) * m + b, TWO64) == Wrap(a * m + b, TWO64)
  {
    var q := (a - Wrap(a, TWO64)) / TWO64;
    assert a == Wrap(a, TWO64) + q * TWO64;
    assert a * m + b == Wrap(a, TWO64) * m + b + (q * m) * TWO64 by {
      assert (q * TWO64) * m == (q * m) * TWO64;
      assert a * m == Wrap(a, TWO64) * m + (q * TWO64) * m;
    }
    ShiftMod(Wrap(a, TWO64) * m + b, q * m);
  }

  lemma ShiftMod(x: int, k: int)
    ensures (x + k * TWO64) % TWO64 == x % TWO64
  {
  }

  // Unsigned big-endian layouts (binary.BigEndian.PutUintN and UintN).

  function U16(n: int): (b: Bytes)
    requires 0 <= n < TWO16
    ensures |b| == 2
  {
    [(n / TWO8) as byte, (n % TWO8) as byte]
  }

  function U32(n: int): (b: Bytes)
    requires 0 <= n < TWO32
    ensures |b| == 4
  {
    U16(n / TWO16) + U16(n % TWO16)
  }

  function U64(n: int): (b: Bytes)
    requires 0 <= n < TWO64
    ensures |b| == 8
  {
    U32(n / TWO32) + U32(n % TWO32)
  }

  function D16(b: Bytes): (n: int)
    requires |b| >= 2
    ensures 0 <= n < TWO16
  {
    b[0] as int * TWO8 + b[1] as int
  }

  function D32(b: Bytes): (n: int)
    requires |b| >= 4
    ensures 0 <= n < TWO32
  {
    D16(b) * TWO16 + D16(b[2..])
  }

  function D64(b: Bytes): (n: int)
    requires |b| >= 8
    ensures 0 <= n < TWO64
  {
    D32(b) * TWO32 + D32(b[4..])
  }

  lemma Read16(n: int, t: Bytes)
    requires 0 <= n < TWO16
    ensures D16(U16(n) + t) == n
  {
  }

  lemma Read32(n: int, t: Bytes)
    requires 0 <= n < TWO32
    ensures D32(U32(n) + t) == n
  {
    var hi, lo := U16(n / TWO16), U16(n % TWO16);
    assert U32(n) + t == hi + (lo + t);
    Read16(n / TWO16, lo + t);
    assert (hi + (lo + t))[2..] == lo + t;
    Read16(n % TWO16, t);
  }

  lemma Read64(n: int, t: Bytes)
    requires 0 <= n < TWO64
    ensures D64(U64(n) + t) == n
  {
    var hi, lo := U32(n / TWO32), U32(n % TWO32);
    assert U64(n) + t == hi + (lo + t);
    Read32(n / TWO32, lo + t);
    assert (hi + (lo + t))[4..] == lo + t;
    Read32(n % TWO32, t);
  }

  /** Go's conversions to int16, int32 and int64 take away a multiple of the width. */
  lemma WrapTakesAway(v: int) returns (j: int, k: int, l: int)
    ensures v == Wrap(v, TWO16) + j * 0x1_0000 && -0x8000 <= Wrap(v, TWO16) < 0x8000
    ensures v == Wrap(v, TWO32) + k * 0x1_0000_0000 && -0x8000_0000 <= Wrap(v, TWO32) < 0x8000_0000
    ensures v == Wrap(v, TWO64) + l * 0x1_0000_0000_0000_0000
    ensures -0x8000_0000_0000_0000 <= Wrap(v, TWO64) < 0x8000_0000_0000_0000
  {
    j := v / 0x1_0000 + (if v % 0x1_0000 < 0x8000 then 0 else 1);
    k := v / 0x1_0000_0000 + (if v % 0x1_0000_0000 < 0x8000_0000 then 0 else 1);
    l := v / 0x1_0000_0000_0000_0000 + (if v % 0x1_0000_0000_0000_0000 < 0x8000_0000_0000_0000 then 0 else 1);
  }

  // Signed layouts: the writer's int16/int32/int64 conversions wrap.

  function ShortBytes(v: int): (b: Bytes) ensures |b| == 2 { U16(v % TWO16) }
  function IntBytes(v: int): (b: Bytes) ensures |b| == 4 { U32(v % TWO32) }
  function LongBytes(v: int): (b: Bytes) ensures |b| == 8 { U64(v % TWO64) }
}
