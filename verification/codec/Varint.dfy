// Base-128 varints, as section "Base 128 Varints" of the Protocol Buffers
// encoding specification describes them and as the generated codec reads,
// writes and measures them.
module Varint {

  type byte = x: int | 0 <= x < 256
  type bytes = seq<byte>

  const TWO_63 := 0x8000_0000_0000_0000
  const TWO_64 := 0x1_0000_0000_0000_0000

  type uint64 = x: int | 0 <= x < TWO_64

  /** Every way in which the codec refuses its input. */
  datatype Error =
    | IntOverflow
    | UnexpectedEOF
    | InvalidLength
    | EndGroupOutsideGroup(message: string)
    | IllegalTag(message: string, fieldNum: int, wire: nat)
    | WrongWireType(message: string, fieldNum: int, wireType: nat)
    | IllegalWireType(wireType: nat)

  datatype Result<+T> = Ok(value: T) | Err(error: Error)

  /** A value together with the number of bytes it was read from. */
  datatype Read = Read(value: nat, size: nat)

  /** The shortest encoding of v, least significant group first. */
  function Encode(v: nat): (s: bytes)
  {
    if v < 128 then [v] else [v % 128 + 128] + Encode(v / 128)
  }

  /** The number of bytes of Encode(v), computed without encoding. */
  function Sov(v: nat): (n: nat)
  {
    if v < 128 then 1 else 1 + Sov(v / 128)
  }

  /** Reads a varint whose first k bytes have been consumed already: ten bytes
      are the limit, and of a tenth byte only the lowest bit fits in 64 bits. */
  function Decode(s: bytes, k: nat := 0): (r: Result<Read>)
    requires k <= 10
    decreases 10 - k
  {
    if k == 10 then Err(IntOverflow)
    else if s == [] then Err(UnexpectedEOF)
    else if s[0] < 128 then Ok(Read(if k == 9 then s[0] % 2 else s[0], 1))
    else match Decode(s[1..], k + 1)
      case Err(e) => Err(e)
      case Ok(Read(v, n)) => Ok(Read(s[0] - 128 + 128 * v, n + 1))
  }

  /** One more than the largest value that fits after k bytes. */
  function Capacity(k: nat): (c: nat)
    requires k <= 9
    ensures c >= 2
    decreases 9 - k
  {
    if k == 9 then 2 else 128 * Capacity(k + 1)
  }

  lemma CapacityIs64Bits()
    ensures Capacity(0) == TWO_64
  {
    assert Capacity(8) == 256;
    assert Capacity(7) == 128 * 256;
    assert Capacity(6) == 128 * 128 * 256;
    assert Capacity(5) == 128 * 128 * 128 * 256;
    assert Capacity(4) == 128 * 128 * 128 * 128 * 256;
    assert Capacity(3) == 128 * 128 * 128 * 128 * 128 * 256;
    assert Capacity(2) == 128 * 128 * 128 * 128 * 128 * 128 * 256;
    assert Capacity(1) == 128 * 128 * 128 * 128 * 128 * 128 * 128 * 256;
  }

  /** What a successful read says: it consumed between one and ten bytes, the
      value fits, and the shortest encoding of the value is no longer. */
  lemma {:induction false} DecodeBounds(s: bytes, k: nat)
    requires k <= 9 && Decode(s, k).Ok?
    ensures var Read(v, n) := Decode(s, k).value;
            1 <= n <= |s| && n <= 10 - k && v < Capacity(k) && Sov(v) <= n
    decreases 9 - k
  {
    if s[0] >= 128 {
      DecodeBounds(s[1..], k + 1);
      var Read(v, n) := Decode(s[1..], k + 1).value;
      assert (s[0] - 128 + 128 * v) / 128 == v;
    }
  }

  lemma DecodeBounds64(s: bytes)
    requires Decode(s).Ok?
    ensures var Read(v, n) := Decode(s).value;
            1 <= n <= |s| && n <= 10 && v < TWO_64 && Sov(v) <= n
  {
    DecodeBounds(s, 0);
    CapacityIs64Bits();
  }

  lemma {:induction false} EncodeLength(v: nat)
    ensures |Encode(v)| == Sov(v) >= 1
  {
    if v >= 128 {
      EncodeLength(v / 128);
    }
  }

  lemma {:induction false} SovCapacity(v: nat, k: nat)
    requires k <= 9 && v < Capacity(k)
    ensures Sov(v) <= 10 - k
    decreases 9 - k
  {
    if v >= 128 {
      SovCapacity(v / 128, k + 1);
    }
  }

  lemma SovAtMostTen(v: uint64)
    ensures 1 <= Sov(v) <= 10
  {
    CapacityIs64Bits();
    SovCapacity(v, 0);
    EncodeLength(v);
  }

  lemma {:induction false} SovMonotone(v: nat, w: nat)
    requires v <= w
    ensures Sov(v) <= Sov(w)
  {
    if w >= 128 {
      if v < 128 {
        EncodeLength(w / 128);
      } else {
        SovMonotone(v / 128, w / 128);
      }
    }
  }

  /** Reading inverts writing, whatever follows. */
  lemma {:induction false} DecodeEncode(v: nat, rest: bytes, k: nat)
    requires k <= 9 && v < Capacity(k)
    ensures Decode(Encode(v) + rest, k) == Ok(Read(v, Sov(v)))
    decreases 9 - k
  {
    if v < 128 {
      assert (Encode(v) + rest)[0] == v;
    } else {
      var b: byte, more := v % 128 + 128, Encode(v / 128) + rest;
      assert Encode(v) + rest == [b] + more;
      DecodeEncode(v / 128, rest, k + 1);
      DecodeMore(b, more, k);
    }
  }

  lemma DecodeMore(b: byte, more: bytes, k: nat)
    requires k <= 9 && b >= 128 && Decode(more, k + 1).Ok?
    ensures var Read(v, n) := Decode(more, k + 1).value;
            Decode([b] + more, k) == Ok(Read(b - 128 + 128 * v, n + 1))
  {
    assert ([b] + more)[1..] == more;
  }

  lemma DecodeEncode64(v: uint64, rest: bytes)
    ensures Decode(Encode(v) + rest) == Ok(Read(v, Sov(v)))
  {
    CapacityIs64Bits();
    DecodeEncode(v, rest, 0);
  }

  /** Only "end of input" depends on the bytes that follow. */
  lemma {:induction false} DecodeStable(s: bytes, rest: bytes, k: nat)
    requires k <= 10
    requires Decode(s, k) != Err(UnexpectedEOF)
    ensures Decode(s + rest, k) == Decode(s, k)
    decreases 10 - k
  {
    if k < 10 && s != [] && s[0] >= 128 {
      assert (s + rest)[1..] == s[1..] + rest;
      DecodeStable(s[1..], rest, k + 1);
    }
  }

  /** The bytes that were read are all that matters. */
  lemma {:induction false} DecodeExact(s: bytes, k: nat)
    requires k <= 9 && Decode(s, k).Ok?
    ensures Decode(s, k).value.size <= |s|
    ensures Decode(s[..Decode(s, k).value.size], k) == Decode(s, k)
    decreases 9 - k
  {
    DecodeBounds(s, k);
    if s[0] >= 128 {
      DecodeExact(s[1..], k + 1);
      var n := Decode(s, k).value.size;
      assert s[..n][1..] == s[1..][..n - 1];
    }
  }

  /** A varint cut short is reported as the end of the input. */
  lemma {:induction false} DecodeTruncated(s: bytes, j: nat, k: nat)
    requires k <= 9 && Decode(s, k).Ok? && j < Decode(s, k).value.size
    ensures j <= |s| && Decode(s[..j], k) == Err(UnexpectedEOF)
    decreases 9 - k
  {
    DecodeBounds(s, k);
    if j > 0 {
      assert s[..j][1..] == s[1..][..j - 1];
      DecodeTruncated(s[1..], j - 1, k + 1);
    }
  }

  /** A length prefix: a varint that is not negative as a signed 64-bit value. */
  function DecodeLength(s: bytes): (r: Result<Read>)
  {
    match Decode(s)
    case Err(e) => Err(e)
    case Ok(Read(v, n)) => if v >= TWO_63 then Err(InvalidLength) else Ok(Read(v, n))
  }

  /** The conversion of an unsigned value to a signed 32-bit one. */
  function Int32(x: nat): (y: int)
    ensures -0x8000_0000 <= y < 0x8000_0000
    ensures (x - y) % 0x1_0000_0000 == 0
  {
    var low := x % 0x1_0000_0000;
    if low < 0x8000_0000 then low else low - 0x1_0000_0000
  }
}
