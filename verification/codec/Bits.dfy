// The shifts and masks of the varint loops, bit by bit, the loops themselves,
// and the proof that they compute what module Varint says in arithmetic.
module Bits {
  import opened Varint

  // ---- The operators |, &, << and >> on unsigned values ----

  function Or(x: nat, y: nat): (r: nat)
  {
    if x == 0 then y
    else if y == 0 then x
    else (if x % 2 == 1 || y % 2 == 1 then 1 else 0) + 2 * Or(x / 2, y / 2)
  }

  function And(x: nat, y: nat): (r: nat)
  {
    if x == 0 || y == 0 then 0
    else (if x % 2 == 1 && y % 2 == 1 then 1 else 0) + 2 * And(x / 2, y / 2)
  }

  function Pow2(n: nat): (p: nat)
    ensures p >= 1
  {
    if n == 0 then 1 else 2 * Pow2(n - 1)
  }

  /** x << n, what does not fit in 64 bits being lost. */
  function Shl(x: nat, n: nat): (r: uint64)
  {
    (x * Pow2(n)) % TWO_64
  }

  function Shr(x: nat, n: nat): (r: nat)
  {
    QuotientIsNat(x, Pow2(n));
    x / Pow2(n)
  }

  lemma QuotientIsNat(x: nat, d: nat)
    requires d >= 1
    ensures x / d >= 0
  {
  }

  lemma {:induction false} AndMask(x: nat, n: nat)
    ensures And(x, Pow2(n) - 1) == x % Pow2(n)
    decreases n
  {
    hide And;
    if n == 0 {
      AndNothing(x);
    } else {
      AndMask(x / 2, n - 1);
      AndMaskStep(x, Pow2(n - 1));
    }
  }

  lemma AndNothing(x: nat)
    ensures And(x, 0) == 0
  {
  }

  lemma AndMaskStep(x: nat, p: nat)
    requires p >= 1 && And(x / 2, p - 1) == (x / 2) % p
    ensures And(x, 2 * p - 1) == x % (2 * p)
  {
    hide And;
    ModDouble(x, p);
    AndOdd(x, p - 1);
  }

  lemma AndOdd(x: nat, m: nat)
    ensures And(x, 2 * m + 1) == x % 2 + 2 * And(x / 2, m)
  {
  }

  lemma ModDouble(x: nat, p: nat)
    requires p >= 1
    ensures x % (2 * p) == x % 2 + 2 * ((x / 2) % p)
  {
    var q, r := (x / 2) / p, (x / 2) % p;
    assert x / 2 == q * p + r;
    assert 2 * (q * p) == q * (2 * p);
    Division(x, 2 * p, q, 2 * r + x % 2);
  }

  lemma Division(x: nat, d: nat, q: nat, r: nat)
    requires d >= 1 && x == q * d + r && r < d
    ensures x % d == r && x / d == q
  {
    DivisionIsUnique(d, q, r, x / d, x % d);
  }

  lemma DivisionIsUnique(d: nat, q: nat, r: nat, q': nat, r': nat)
    requires q * d + r == q' * d + r' && r < d && r' < d
    ensures q == q' && r == r'
  {
    if q' < q {
      MulLess(q', q, d);
    } else if q < q' {
      MulLess(q, q', d);
    }
  }

  lemma MulLess(a: nat, b: nat, d: nat)
    requires a < b
    ensures a * d + d <= b * d
  {
    assert (a + 1) * d <= b * d;
  }

  /** Or of values that share no bit is their sum. */
  lemma {:induction false} OrDisjoint(x: nat, y: nat, n: nat)
    requires x < Pow2(n)
    ensures Or(x, y * Pow2(n)) == x + y * Pow2(n)
    decreases n
  {
    hide Or;
    OrZero(y);
    if n > 0 {
      var z := y * Pow2(n - 1);
      DoubleLast(y, Pow2(n - 1));
      OrDisjoint(x / 2, y, n - 1);
      OrEven(x, z);
    }
  }

  lemma OrZero(y: nat)
    ensures Or(0, y) == y
  {
  }

  lemma OrEven(x: nat, z: nat)
    ensures Or(x, 2 * z) == x % 2 + 2 * Or(x / 2, z)
  {
    if x != 0 && z != 0 {
      assert 2 * z / 2 == z && 2 * z % 2 == 0;
    }
  }

  lemma DoubleLast(y: nat, p: nat)
    ensures y * (2 * p) == 2 * (y * p)
  {
  }

  lemma {:induction false} Pow2Add(m: nat, n: nat)
    ensures Pow2(m + n) == Pow2(m) * Pow2(n)
    decreases n
  {
    if n > 0 {
      Pow2Add(m, n - 1);
      DoubleLast(Pow2(m), Pow2(n - 1));
    }
  }

  lemma {:induction false} Pow2Monotone(m: nat, n: nat)
    requires m <= n
    ensures Pow2(m) <= Pow2(n)
    decreases n
  {
    if m < n {
      Pow2Monotone(m, n - 1);
    }
  }

  lemma Pow2Of7()
    ensures Pow2(7) == 128
  {
  }

  lemma Pow2Of63()
    ensures Pow2(63) == TWO_63
  {
    assert Pow2(9) == 0x200;
    assert Pow2(18) == 0x4_0000;
    assert Pow2(27) == 0x800_0000;
    assert Pow2(36) == 0x10_0000_0000;
    assert Pow2(45) == 0x2000_0000_0000;
    assert Pow2(54) == 0x40_0000_0000_0000;
  }

  // ---- Writing ----

  /** uint8(v & 0x7f | 0x80) */
  function Continued(v: nat): (b: nat)
  {
    Or(And(v, 0x7f), 0x80)
  }

  lemma ContinuedIsByte(v: nat)
    ensures Continued(v) == v % 128 + 128
    ensures Shr(v, 7) == v / 128
  {
    hide Or, And, Pow2;
    Pow2Of7();
    AndMask(v, 7);
    OrDisjoint(v % 128, 1, 7);
  }

  /** The buffer d with s written at offset, and every other byte as it was. */
  function Overwrite(d: bytes, offset: nat, s: bytes): (r: bytes)
    requires offset + |s| <= |d|
    ensures |r| == |d|
  {
    d[..offset] + s + d[offset + |s|..]
  }

  lemma OverwriteThen(d: bytes, offset: nat, s: bytes, t: bytes)
    requires offset + |s| + |t| <= |d|
    ensures Overwrite(Overwrite(d, offset, s), offset + |s|, t) == Overwrite(d, offset, s + t)
  {
    var r := Overwrite(d, offset, s);
    assert r[..offset + |s|] == d[..offset] + s;
    assert r[offset + |s| + |t|..] == d[offset + |s| + |t|..];
  }

  lemma OverwriteOne(d: bytes, offset: nat, b: byte)
    requires offset < |d|
    ensures d[offset := b] == Overwrite(d, offset, [b])
  {
  }

  lemma EncodeStep(v: nat)
    ensures v < 128 ==> Encode(v) == [v] && Sov(v) == 1
    ensures v >= 128 ==> Encode(v) == [Continued(v)] + Encode(Shr(v, 7)) && Sov(v) == 1 + Sov(Shr(v, 7))
    ensures v >= 128 ==> Continued(v) < 256 && Shr(v, 7) < v
  {
    hide Continued, Shr;
    ContinuedIsByte(v);
  }

  /** Writing one more byte extends what has been written. */
  lemma WriteOne(d: bytes, offset: nat, written: bytes, b: byte)
    requires offset + |written| < |d|
    ensures Overwrite(d, offset, written)[offset + |written| := b] == Overwrite(d, offset, written + [b])
    ensures |Overwrite(d, offset, written)| == |d|
  {
    OverwriteOne(Overwrite(d, offset, written), offset + |written|, b);
    OverwriteThen(d, offset, written, [b]);
  }

  lemma OverwriteNothing(d: bytes, offset: nat)
    requires offset <= |d|
    ensures Overwrite(d, offset, []) == d
  {
  }

  /** encodeVarintApi: writes v at offset and returns the offset after it. */
  method EncodeVarintApi(dAtA: array<byte>, offset: nat, v: uint64) returns (end: nat)
    requires offset + Sov(v) <= dAtA.Length
    modifies dAtA
    ensures end == offset + Sov(v) == offset + |Encode(v)|
    ensures dAtA[..] == Overwrite(old(dAtA[..]), offset, Encode(v))
  {
    hide *;
    var w: nat := v;
    EncodeLength(v);
    OverwriteNothing(dAtA[..], offset);
    end := offset;
    ghost var written: bytes := [];
    while w >= 0x80
      invariant end == offset + |written| && end + Sov(w) == offset + Sov(v) <= dAtA.Length && Sov(w) >= 1
      invariant written + Encode(w) == Encode(v)
      invariant dAtA[..] == Overwrite(old(dAtA[..]), offset, written)
      decreases w
    {
      EncodeStep(w);
      EncodeLength(Shr(w, 7));
      AppendAssoc(written, Continued(w), Encode(Shr(w, 7)));
      WriteOne(old(dAtA[..]), offset, written, Continued(w));
      written := written + [Continued(w)];
      dAtA[end] := Continued(w);
      w := Shr(w, 7);
      end := end + 1;
    }
    EncodeStep(w);
    WriteOne(old(dAtA[..]), offset, written, w);
    dAtA[end] := w;
    end := end + 1;
  }

  lemma AppendAssoc(a: bytes, b: byte, c: bytes)
    ensures a + [b] + c == a + ([b] + c)
  {
  }

  /** sovApi: the number of bytes EncodeVarintApi writes. */
  method SovApi(x: uint64) returns (n: nat)
    ensures n == Sov(x) == |Encode(x)|
    ensures 1 <= n <= 10
  {
    n := 0;
    var y: nat := x;
    while true
      invariant n + Sov(y) == Sov(x)
      decreases y
    {
      n := n + 1;
      ContinuedIsByte(y);
      var z := Shr(y, 7);
      if z == 0 { break; }
      y := z;
    }
    EncodeLength(x);
    SovAtMostTen(x);
  }

  // ---- Reading ----

  /** wire |= (uint64(b) & 0x7F) << shift */
  function Accumulate(wire: nat, b: byte, shift: nat): (w: nat)
  {
    Or(wire, Shl(And(b, 0x7f), shift))
  }

  lemma AccumulateAdds(wire: nat, b: byte, k: nat)
    requires k <= 9 && wire < Pow2(7 * k)
    ensures Accumulate(wire, b, 7 * k) == wire + (if k == 9 then b % 2 else b % 128) * Pow2(7 * k)
    ensures k < 9 ==> Accumulate(wire, b, 7 * k) < Pow2(7 * (k + 1))
  {
    Low7OfByte(b);
    hide And, Or, Pow2, Shl;
    if k == 9 {
      ShlTop(b % 128);
      Pow2Of63();
      OrDisjoint(wire, b % 2, 63);
    } else {
      ShlLow(b % 128, k);
      OrDisjoint(wire, b % 128, 7 * k);
    }
  }

  lemma Low7OfByte(b: byte)
    ensures And(b, 0x7f) == b % 128
  {
    Pow2Of7();
    AndMask(b, 7);
  }

  /** Of the tenth group only one bit fits. */
  lemma ShlTop(c: nat)
    requires c < 128
    ensures Shl(c, 63) == c % 2 * TWO_63
  {
    Pow2Of63();
    hide Pow2;
    assert c * TWO_63 == (c / 2) * TWO_64 + (c % 2) * TWO_63;
  }

  lemma ShlLow(c: nat, k: nat)
    requires c < 128 && k < 9
    ensures Shl(c, 7 * k) == c * Pow2(7 * k)
    ensures Shl(c, 7 * k) + Pow2(7 * k) <= Pow2(7 * (k + 1))
  {
    hide Pow2;
    var p := Pow2(7 * k);
    Pow2Of63();
    Pow2Of7();
    Pow2Add(7 * k, 7);
    Pow2Monotone(7 * (k + 1), 63);
    MulLess(c, 128, p);
    NothingIsLost(c * p, Pow2(7 * (k + 1)));
  }

  lemma NothingIsLost(x: nat, bound: nat)
    requires x < bound <= TWO_63
    ensures x % TWO_64 == x
  {
  }

  /** The reading loop as the code runs it, from the state in which it has
      read k bytes into wire. */
  function BitDecode(s: bytes, k: nat := 0, wire: nat := 0): (r: Result<Read>)
    requires k <= 10
    decreases 10 - k
  {
    if 7 * k >= 64 then Err(IntOverflow)
    else if s == [] then Err(UnexpectedEOF)
    else
      var w := Accumulate(wire, s[0], 7 * k);
      if s[0] < 0x80 then Ok(Read(w, 1))
      else match BitDecode(s[1..], k + 1, w)
        case Err(e) => Err(e)
        case Ok(Read(v, n)) => Ok(Read(v, n + 1))
  }

  /** Shifting and masking computes the arithmetic value. */
  lemma {:induction false} BitDecodeIsDecode(s: bytes, k: nat, wire: nat)
    requires k <= 10 && (k <= 9 ==> wire < Pow2(7 * k))
    ensures BitDecode(s, k, wire) ==
            match Decode(s, k)
            case Err(e) => Err(e)
            case Ok(Read(v, n)) => Ok(Read(wire + v * Pow2(7 * k), n))
    decreases 10 - k
  {
    hide Accumulate, Pow2;
    if k < 10 && s != [] {
      AccumulateAdds(wire, s[0], k);
      if s[0] >= 128 {
        BitDecodeIsDecode(s[1..], k + 1, Accumulate(wire, s[0], 7 * k));
        if Decode(s[1..], k + 1).Ok? {
          GroupsAddUp(s[0] - 128, Decode(s[1..], k + 1).value.value, k);
        }
      }
    }
  }

  lemma GroupsAddUp(c: nat, v: nat, k: nat)
    ensures c * Pow2(7 * k) + v * Pow2(7 * (k + 1)) == (c + 128 * v) * Pow2(7 * k)
  {
    Pow2Add(7 * k, 7);
    Pow2Of7();
    assert v * (Pow2(7 * k) * 128) == (128 * v) * Pow2(7 * k);
  }

  lemma BitDecodeStart(s: bytes)
    ensures BitDecode(s) == Decode(s)
  {
    hide Accumulate, Decode, BitDecode;
    BitDecodeIsDecode(s, 0, 0);
  }

  /** n more bytes were read before what r says. */
  function After(n: nat, r: Result<Read>): Result<Read>
  {
    match r case Err(e) => Err(e) case Ok(Read(v, k)) => Ok(Read(v, n + k))
  }

  lemma AfterStops(n: nat)
    ensures forall e :: After(n, Err(e)) == Err(e)
  {
  }

  lemma BitDecodeStep(s: bytes, start: nat, k: nat, wire: nat)
    requires start + k < |s| && k <= 9
    ensures var w := Accumulate(wire, s[start + k], 7 * k);
            After(k, BitDecode(s[start + k..], k, wire)) ==
            if s[start + k] < 0x80 then Ok(Read(w, k + 1)) else After(k + 1, BitDecode(s[start + k + 1..], k + 1, w))
  {
    hide Accumulate;
    assert s[start + k..][1..] == s[start + k + 1..];
  }

  lemma BitDecodeStops(s: bytes, k: nat, wire: nat)
    requires k <= 10
    ensures k == 10 ==> BitDecode(s, k, wire) == Err(IntOverflow)
    ensures k < 10 && s == [] ==> BitDecode(s, k, wire) == Err(UnexpectedEOF)
    ensures After(0, BitDecode(s, k, wire)) == BitDecode(s, k, wire)
  {
    hide Accumulate;
  }

  /** The loop the generated code repeats wherever it reads a varint. */
  method DecodeVarint(dAtA: seq<byte>, start: nat) returns (r: Result<Read>)
    ensures r == if start > |dAtA| then Err(UnexpectedEOF) else Decode(dAtA[start..])
  {
    hide *;
    if start <= |dAtA| {
      BitDecodeStart(dAtA[start..]);
      BitDecodeStops(dAtA[start..], 0, 0);
    }
    var l := |dAtA|;
    var iNdEx := start;
    var wire: nat := 0;
    var shift: nat := 0;
    ghost var k := 0;
    while true
      invariant iNdEx == start + k && shift == 7 * k && k <= 10
      invariant start > l ==> k == 0
      invariant start <= l ==> iNdEx <= l && Decode(dAtA[start..]) == After(k, BitDecode(dAtA[iNdEx..], k, wire))
      decreases 10 - k
    {
      AfterStops(k);
      if iNdEx <= l {
        BitDecodeStops(dAtA[iNdEx..], k, wire);
      }
      if shift >= 64 {
        return Err(IntOverflow);
      }
      if iNdEx >= l {
        return Err(UnexpectedEOF);
      }
      BitDecodeStep(dAtA, start, k, wire);
      var b := dAtA[iNdEx];
      iNdEx := iNdEx + 1;
      wire := Accumulate(wire, b, shift);
      if b < 0x80 {
        return Ok(Read(wire, iNdEx - start));
      }
      shift, k := shift + 7, k + 1;
    }
  }
}
