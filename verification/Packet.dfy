/**
  packet.go: the big-endian writer and reader.

  Every reader operation has a specification function on the unread bytes. It answers
  `Panic` exactly where the Go code would panic on a slice bound, and otherwise the value
  and the bytes left. `Put*` functions are the matching encoders, in front of a tail.
 */
module Packet {
  import opened Wire

  datatype Parse<+T> = Panic | Got(value: T, rest: Bytes) {
    predicate IsFailure() { Panic? }
    function PropagateFailure<U>(): Parse<U> requires Panic? { Panic }
    function Extract(): (T, Bytes) requires Got? { (value, rest) }
  }

  // ----- reading

  function PByte(s: Bytes): Parse<byte> {
    if |s| < 1 then Panic else Got(s[0], s[1..])
  }

  function PShort(s: Bytes): Parse<int> {
    if |s| < 2 then Panic else Got(Wrap(D16(s), TWO16), s[2..])
  }

  function PInt(s: Bytes): Parse<int> {
    if |s| < 4 then Panic else Got(Wrap(D32(s), TWO32), s[4..])
  }

  function PLong(s: Bytes): Parse<int> {
    if |s| < 8 then Panic else Got(Wrap(D64(s), TWO64), s[8..])
  }

  /** The bit pattern of a float32. */
  function PFloat(s: Bytes): Parse<int> {
    if |s| < 4 then Panic else Got(D32(s), s[4..])
  }

  /** The bit pattern of a float64. */
  function PDouble(s: Bytes): Parse<int> {
    if |s| < 8 then Panic else Got(D64(s), s[8..])
  }

  function PRaw(s: Bytes, count: int): Parse<Bytes> {
    if count < 0 || count > |s| then Panic else Got(s[..count], s[count..])
  }

  /** A text as it is read from these bytes: a final NUL is not part of it, anything else is. */
  predicate TextOf(text: Bytes, b: Bytes) {
    if b != [] && b[|b| - 1] == 0 then text + [0] == b else text == b
  }

  /** Drops one trailing NUL, if there is one. */
  function StripNul(b: Bytes): (text: Bytes)
    ensures TextOf(text, b)
  {
    if |b| > 0 && b[|b| - 1] == 0 then b[..|b| - 1] else b
  }

  function PStr(s: Bytes, length: int): Parse<Bytes> {
    if length <= 0 then Got([], s) else
      var (data, s) :- PRaw(s, length);
      Got(StripNul(data), s)
  }

  /** Which bytes are a text, and when there are too few. */
  lemma TextOnBytes(s: Bytes, length: int)
    ensures length <= 0 ==> PStr(s, length) == Got([], s)
    ensures length > |s| && length > 0 ==> PStr(s, length).Panic?
    ensures 0 < length <= |s| ==>
      && PStr(s, length).Got? && PStr(s, length).rest == s[length..]
      && TextOf(PStr(s, length).value, s[..length])
  {
  }

  /** int32 length followed by that many bytes, as every metadata string is read. */
  function PSizedStr(s: Bytes): Parse<Bytes> {
    var (n, s) :- PInt(s);
    PStr(s, n)
  }

  // ----- writing in front of a tail; each postcondition is the round trip

  function PutByte(v: byte, t: Bytes): (r: Bytes)
    ensures |r| == 1 + |t|
    ensures PByte(r) == Got(v, t)
  {
    [v] + t
  }

  function PutShort(v: int, t: Bytes): (r: Bytes)
    ensures |r| == 2 + |t|
    ensures PShort(r) == Got(Wrap(v, TWO16), t)
  {
    Read16(v % TWO16, t);
    ShortBytes(v) + t
  }

  function PutInt(v: int, t: Bytes): (r: Bytes)
    ensures |r| == 4 + |t|
    ensures PInt(r) == Got(Wrap(v, TWO32), t)
  {
    Read32(v % TWO32, t);
    IntBytes(v) + t
  }

  function PutLong(v: int, t: Bytes): (r: Bytes)
    ensures |r| == 8 + |t|
    ensures PLong(r) == Got(Wrap(v, TWO64), t)
  {
    Read64(v % TWO64, t);
    LongBytes(v) + t
  }

  function PutFloat(bits: int, t: Bytes): (r: Bytes)
    requires 0 <= bits < TWO32
    ensures |r| == 4 + |t|
    ensures PFloat(r) == Got(bits, t)
  {
    Read32(bits, t);
    U32(bits) + t
  }

  function PutDouble(bits: int, t: Bytes): (r: Bytes)
    requires 0 <= bits < TWO64
    ensures |r| == 8 + |t|
    ensures PDouble(r) == Got(bits, t)
  {
    Read64(bits, t);
    U64(bits) + t
  }

  function PutRaw(b: Bytes, t: Bytes): (r: Bytes)
    ensures PRaw(r, |b|) == Got(b, t)
  {
    b + t
  }

  /** A NUL-terminated string of |b| + 1 bytes. */
  function PutNulStr(b: Bytes, t: Bytes): (r: Bytes)
    ensures PStr(r, |b| + 1) == Got(b, t)
  {
    var r := b + ([0] + t);
    assert r[..|b| + 1] == b + [0] && r[|b| + 1..] == t;
    assert StripNul(b + [0]) == b;
    r
  }

  /** writeNullTermString: int32(len + 1), the bytes, a NUL. */
  function PutSizedStr(b: Bytes, t: Bytes): (r: Bytes)
    ensures FitsInt32(|b| + 1) ==> PSizedStr(r) == Got(b, t)
  {
    PutInt(|b| + 1, PutNulStr(b, t))
  }

  // ----- every reader looks only at the bytes it consumes

  /** Slices of a sequence that end inside its first part. */
  lemma InFront(s: Bytes, t: Bytes, n: nat)
    requires n <= |s|
    ensures (s + t)[..n] == s[..n] && (s + t)[n..] == s[n..] + t
    ensures |s + t| == |s| + |t|
  {
  }

  lemma WideStable(s: Bytes, t: Bytes)
    ensures |s| >= 2 ==> D16(s + t) == D16(s)
    ensures |s| >= 4 ==> D32(s + t) == D32(s)
    ensures |s| >= 8 ==> D64(s + t) == D64(s)
  {
    if |s| >= 4 {
      InFront(s, t, 2);
      if |s| >= 8 {
        InFront(s, t, 4);
        InFront(s[4..], t, 2);
      }
    }
  }

  lemma ReadersStable()
    ensures forall s: Bytes, t: Bytes {:trigger PByte(s + t)} ::
              PByte(s).Got? ==> PByte(s + t) == Got(PByte(s).value, PByte(s).rest + t)
    ensures forall s: Bytes, t: Bytes {:trigger PShort(s + t)} ::
              PShort(s).Got? ==> PShort(s + t) == Got(PShort(s).value, PShort(s).rest + t)
    ensures forall s: Bytes, t: Bytes {:trigger PInt(s + t)} ::
              PInt(s).Got? ==> PInt(s + t) == Got(PInt(s).value, PInt(s).rest + t)
    ensures forall s: Bytes, t: Bytes {:trigger PLong(s + t)} ::
              PLong(s).Got? ==> PLong(s + t) == Got(PLong(s).value, PLong(s).rest + t)
    ensures forall s: Bytes, t: Bytes {:trigger PFloat(s + t)} ::
              PFloat(s).Got? ==> PFloat(s + t) == Got(PFloat(s).value, PFloat(s).rest + t)
    ensures forall s: Bytes, t: Bytes {:trigger PDouble(s + t)} ::
              PDouble(s).Got? ==> PDouble(s + t) == Got(PDouble(s).value, PDouble(s).rest + t)
    ensures forall s: Bytes, t: Bytes, n: int {:trigger PRaw(s + t, n)} ::
              PRaw(s, n).Got? ==> PRaw(s + t, n) == Got(PRaw(s, n).value, PRaw(s, n).rest + t)
    ensures forall s: Bytes, t: Bytes, n: int {:trigger PStr(s + t, n)} ::
              PStr(s, n).Got? ==> PStr(s + t, n) == Got(PStr(s, n).value, PStr(s, n).rest + t)
  {
    hide D16, D32, D64;
    forall s: Bytes, t: Bytes | PByte(s).Got?
      ensures PByte(s + t) == Got(PByte(s).value, PByte(s).rest + t)
    {
      InFront(s, t, 1);
    }
    forall s: Bytes, t: Bytes | PShort(s).Got?
      ensures PShort(s + t) == Got(PShort(s).value, PShort(s).rest + t)
    {
      InFront(s, t, 2);
      WideStable(s, t);
    }
    forall s: Bytes, t: Bytes | PInt(s).Got?
      ensures PInt(s + t) == Got(PInt(s).value, PInt(s).rest + t)
    {
      InFront(s, t, 4);
      WideStable(s, t);
    }
    forall s: Bytes, t: Bytes | PLong(s).Got?
      ensures PLong(s + t) == Got(PLong(s).value, PLong(s).rest + t)
    {
      InFront(s, t, 8);
      WideStable(s, t);
    }
    forall s: Bytes, t: Bytes | PFloat(s).Got?
      ensures PFloat(s + t) == Got(PFloat(s).value, PFloat(s).rest + t)
    {
      InFront(s, t, 4);
      WideStable(s, t);
    }
    forall s: Bytes, t: Bytes | PDouble(s).Got?
      ensures PDouble(s + t) == Got(PDouble(s).value, PDouble(s).rest + t)
    {
      InFront(s, t, 8);
      WideStable(s, t);
    }
    forall s: Bytes, t: Bytes, n: int | PRaw(s, n).Got?
      ensures PRaw(s + t, n) == Got(PRaw(s, n).value, PRaw(s, n).rest + t)
    {
      InFront(s, t, n);
    }
    forall s: Bytes, t: Bytes, n: int | PStr(s, n).Got?
      ensures PStr(s + t, n) == Got(PStr(s, n).value, PStr(s, n).rest + t)
    {
      if n > 0 {
        InFront(s, t, n);
      }
    }
  }

  // ----- the mutable writer

  /**
    The writer appends. Every contract says what the buffer is in front of any further
    bytes `t`, so that a chain of writes composes into nested `Put*` encoders.
   */
  class PacketWriter {
    var buf: Bytes

    constructor ()
      ensures buf == []
    {
      buf := [];
    }

    method WriteByte(v: byte)
      modifies this
      ensures forall t: Bytes {:trigger buf + t} :: buf + t == old(buf) + PutByte(v, t)
    {
      buf := buf + [v];
      Appended(old(buf), [v]);
    }

    method WriteShort(v: int)
      modifies this
      ensures forall t: Bytes {:trigger buf + t} :: buf + t == old(buf) + PutShort(v, t)
    {
      buf := buf + U16(v % TWO16);
      Appended(old(buf), ShortBytes(v));
    }

    method WriteInt(v: int)
      modifies this
      ensures forall t: Bytes {:trigger buf + t} :: buf + t == old(buf) + PutInt(v, t)
    {
      buf := buf + U32(v % TWO32);
      Appended(old(buf), IntBytes(v));
    }

    method WriteLong(v: int)
      modifies this
      ensures forall t: Bytes {:trigger buf + t} :: buf + t == old(buf) + PutLong(v, t)
    {
      buf := buf + U64(v % TWO64);
      Appended(old(buf), LongBytes(v));
    }

    method WriteDouble(bits: int)
      requires 0 <= bits < TWO64
      modifies this
      ensures forall t: Bytes {:trigger buf + t} :: buf + t == old(buf) + PutDouble(bits, t)
    {
      buf := buf + U64(bits);
      Appended(old(buf), U64(bits));
    }

    method WriteRawBytes(v: Bytes)
      modifies this
      ensures forall t: Bytes {:trigger buf + t} :: buf + t == old(buf) + PutRaw(v, t)
    {
      buf := buf + v;
      Appended(old(buf), v);
    }

    method WriteNullTermString(s: Bytes)
      modifies this
      ensures forall t: Bytes {:trigger buf + t} :: buf + t == old(buf) + PutSizedStr(s, t)
    {
      hide PInt, PutInt;
      WriteInt(|s| + 1);
      WriteRawBytes(s);
      WriteByte(0);
    }

    method AddByte(v: byte)
      modifies this
      ensures forall t: Bytes {:trigger buf + t} :: buf + t == old(buf) + PutInt(1, PutByte(v, t))
    {
      hide *;
      WriteInt(1);
      WriteByte(v);
    }

    method AddInt(v: int)
      modifies this
      ensures forall t: Bytes {:trigger buf + t} :: buf + t == old(buf) + PutInt(4, PutInt(v, t))
    {
      hide *;
      WriteInt(4);
      WriteInt(v);
    }

    method AddBytes(v: Bytes)
      modifies this
      ensures forall t: Bytes {:trigger buf + t} :: buf + t == old(buf) + PutInt(|v|, PutRaw(v, t))
    {
      hide *;
      WriteInt(|v|);
      WriteRawBytes(v);
    }

    method AddCacheTime()
      modifies this
      ensures forall t: Bytes {:trigger buf + t} :: buf + t == old(buf) + PutInt(8, PutInt(0, PutInt(0, t)))
    {
      hide *;
      WriteInt(8);
      WriteInt(0);
      WriteInt(0);
    }
  }

  lemma Appended(before: Bytes, added: Bytes)
    ensures forall t: Bytes {:trigger before + added + t} :: before + added + t == before + (added + t)
  {
    forall t: Bytes ensures before + added + t == before + (added + t) {
    }
  }

  // ----- the mutable reader

  class PacketReader {
    const buf: Bytes
    var offset: nat

    ghost predicate Valid()
      reads this
    {
      offset <= |buf|
    }

    /** The bytes not read yet. */
    ghost function Rest(): Bytes
      requires Valid()
      reads this
    {
      buf[offset..]
    }

    constructor (data: Bytes)
      ensures Valid() && buf == data && Rest() == data
    {
      buf := data;
      offset := 0;
      new;
      assert data[0..] == data;
    }

    method ParseByte() returns (v: byte)
      requires Valid() && PByte(Rest()).Got?
      modifies this
      ensures Valid() && Got(v, Rest()) == PByte(old(Rest()))
    {
      v := buf[offset];
      offset := offset + 1;
    }

    method ParseShort() returns (v: int)
      requires Valid() && PShort(Rest()).Got?
      modifies this
      ensures Valid() && Got(v, Rest()) == PShort(old(Rest()))
    {
      v := Wrap(D16(buf[offset..]), TWO16);
      offset := offset + 2;
    }

    method ParseInt() returns (v: int)
      requires Valid() && PInt(Rest()).Got?
      modifies this
      ensures Valid() && Got(v, Rest()) == PInt(old(Rest()))
    {
      v := Wrap(D32(buf[offset..]), TWO32);
      offset := offset + 4;
    }

    method ParseLong() returns (v: int)
      requires Valid() && PLong(Rest()).Got?
      modifies this
      ensures Valid() && Got(v, Rest()) == PLong(old(Rest()))
    {
      v := Wrap(D64(buf[offset..]), TWO64);
      offset := offset + 8;
    }

    method ParseFloat() returns (bits: int)
      requires Valid() && PFloat(Rest()).Got?
      modifies this
      ensures Valid() && Got(bits, Rest()) == PFloat(old(Rest()))
    {
      bits := D32(buf[offset..]);
      offset := offset + 4;
    }

    method ParseDouble() returns (bits: int)
      requires Valid() && PDouble(Rest()).Got?
      modifies this
      ensures Valid() && Got(bits, Rest()) == PDouble(old(Rest()))
    {
      bits := D64(buf[offset..]);
      offset := offset + 8;
    }

    method ParseRawBytes(count: int) returns (v: Bytes)
      requires Valid() && PRaw(Rest(), count).Got?
      modifies this
      ensures Valid() && Got(v, Rest()) == PRaw(old(Rest()), count)
    {
      v := buf[offset..offset + count];
      assert v == buf[offset..][..count];
      assert buf[offset + count..] == buf[offset..][count..];
      offset := offset + count;
    }

    method ParseNullTermString(length: int) returns (v: Bytes)
      requires Valid() && PStr(Rest(), length).Got?
      modifies this
      ensures Valid() && Got(v, Rest()) == PStr(old(Rest()), length)
      ensures length <= 0 ==> v == [] && Rest() == old(Rest())
      ensures length > 0 ==>
        length <= |old(Rest())| && TextOf(v, old(Rest())[..length]) && Rest() == old(Rest())[length..]
    {
      if length <= 0 {
        return [];
      }
      v := ParseRawBytes(length);
      if |v| > 0 && v[|v| - 1] == 0 {
        v := v[..|v| - 1];
      }
    }

    /** readError: the error code, then the rest of the response as the message. */
    method ReadError(responseLength: int) returns (code: int, msg: Bytes)
      requires Valid() && PInt(Rest()).Got? && PStr(PInt(Rest()).rest, responseLength - 4).Got?
      modifies this
      ensures Valid()
      ensures code == PInt(old(Rest())).value
      ensures Got(msg, Rest()) == PStr(PInt(old(Rest())).rest, responseLength - 4)
    {
      code := ParseInt();
      msg := ParseNullTermString(responseLength - 4);
    }
  }
}
