// Skipping one field of unknown meaning, groups included: sections "Message
// Structure" and "Groups" of the Protocol Buffers encoding specification.
module Skipping {
  import opened Varint

  /** The length of the field at the start of s. Like the code it models, it
      does not compare the end of a fixed-width or delimited field with |s|:
      the caller does. */
  function Skip(s: bytes): (r: Result<nat>)
    ensures r.Ok? ==> r.value >= 1 && |s| >= 1
    decreases |s|, 1
  {
    match Decode(s)
    case Err(e) => Err(e)
    case Ok(Read(wire, n)) =>
      DecodeBounds64(s);
      Plus(n, SkipBody(wire % 8, s[n..]))
  }

  function Plus(n: nat, r: Result<nat>): Result<nat>
  {
    match r case Err(e) => Err(e) case Ok(k) => Ok(n + k)
  }

  /** The length of what follows a tag of the given wire type. */
  function SkipBody(wireType: nat, s: bytes): (r: Result<nat>)
    requires wireType < 8
    decreases |s|, 3
  {
    match wireType
    case 0 =>
      (match Decode(s)
       case Err(e) => Err(e)
       case Ok(Read(_, k)) => Ok(k))
    case 1 => Ok(8)
    case 2 =>
      (match DecodeLength(s)
       case Err(e) => Err(e)
       case Ok(Read(len, k)) => Ok(k + len))
    case 3 => SkipGroup(s)
    case 4 => Ok(0)
    case 5 => Ok(4)
    case t => Err(IllegalWireType(t))
  }

  /** The length of the fields at the start of s up to and including the end
      tag of the group they belong to. */
  function SkipGroup(s: bytes): (r: Result<nat>)
    ensures r.Ok? ==> 1 <= r.value <= |s|
    decreases |s|, 2
  {
    match Decode(s)
    case Err(e) => Err(e)
    case Ok(Read(wire, n)) =>
      DecodeBounds64(s);
      if wire % 8 == 4 then Ok(n) else
        match Skip(s)
        case Err(e) => Err(e)
        case Ok(k) => if k > |s| then Err(UnexpectedEOF) else Plus(k, SkipGroup(s[k..]))
  }

  // ---- Well-formed fields of any wire type, groups nested to any depth ----

  datatype Field =
    | Scalar(tag: bytes, value: bytes)
    | Fixed64(tag: bytes, body: bytes)
    | Delimited(tag: bytes, len: bytes, body: bytes)
    | Group(tag: bytes, fields: Fields, end: bytes)
    | Fixed32(tag: bytes, body: bytes)

  datatype Fields = Nil | Cons(head: Field, tail: Fields)

  /** s is one varint and nothing else; it need not be the shortest one. */
  ghost predicate IsVarint(s: bytes)
  {
    Decode(s).Ok? && Decode(s).value.size == |s|
  }

  ghost predicate IsTag(s: bytes, wireType: nat)
  {
    IsVarint(s) && Decode(s).value.value % 8 == wireType
  }

  ghost predicate IsLength(s: bytes, len: nat)
  {
    IsVarint(s) && Decode(s).value.value == len < TWO_63
  }

  ghost predicate WellFormed(f: Field)
  {
    match f
    case Scalar(tag, value) => IsTag(tag, 0) && IsVarint(value)
    case Fixed64(tag, body) => IsTag(tag, 1) && |body| == 8
    case Delimited(tag, len, body) => IsTag(tag, 2) && IsLength(len, |body|)
    case Group(tag, fields, end) => IsTag(tag, 3) && AllWellFormed(fields) && IsTag(end, 4)
    case Fixed32(tag, body) => IsTag(tag, 5) && |body| == 4
  }

  ghost predicate AllWellFormed(fs: Fields)
  {
    match fs
    case Nil => true
    case Cons(f, rest) => WellFormed(f) && AllWellFormed(rest)
  }

  function Print(f: Field): (s: bytes)
  {
    match f
    case Scalar(tag, value) => tag + value
    case Fixed64(tag, body) => tag + body
    case Delimited(tag, len, body) => tag + len + body
    case Group(tag, fields, end) => tag + PrintAll(fields) + end
    case Fixed32(tag, body) => tag + body
  }

  function PrintAll(fs: Fields): (s: bytes)
  {
    match fs
    case Nil => []
    case Cons(f, rest) => Print(f) + PrintAll(rest)
  }

  lemma VarintThen(s: bytes, rest: bytes)
    requires IsVarint(s)
    ensures |s| >= 1 && Decode(s + rest) == Decode(s)
    ensures (s + rest)[|s|..] == rest
  {
    DecodeBounds64(s);
    DecodeStable(s, rest, 0);
  }

  lemma SkipAfterTag(tag: bytes, wireType: nat, t: bytes)
    requires wireType < 8 && IsTag(tag, wireType)
    ensures Skip(tag + t) == Plus(|tag|, SkipBody(wireType, t))
  {
    VarintThen(tag, t);
  }

  function TypeOf(f: Field): (wireType: nat)
    ensures wireType < 6 && wireType != 4
  {
    match f case Scalar(_, _) => 0 case Fixed64(_, _) => 1 case Delimited(_, _, _) => 2
            case Group(_, _, _) => 3 case Fixed32(_, _) => 5
  }

  /** What Print writes after the tag. */
  function Body(f: Field): (s: bytes)
    ensures Print(f) == f.tag + s
  {
    Print(f)[|f.tag|..]
  }

  /** Skipping inverts printing, whatever follows the field. */
  lemma {:induction false} SkipPrint(f: Field, rest: bytes)
    requires WellFormed(f)
    ensures Skip(Print(f) + rest) == Ok(|Print(f)|)
    decreases f, 1
  {
    hide Skip, SkipBody, Decode;
    assert Print(f) + rest == f.tag + (Body(f) + rest);
    TagOf(f);
    SkipPrintBody(f, rest);
    SkipAfterTag(f.tag, TypeOf(f), Body(f) + rest);
  }

  lemma {:induction false} SkipPrintBody(f: Field, rest: bytes)
    requires WellFormed(f)
    ensures SkipBody(TypeOf(f), Body(f) + rest) == Ok(|Body(f)|)
    decreases f, 0
  {
    hide SkipGroup, PrintAll, Decode;
    match f {
      case Scalar(_, value) =>
        assert Body(f) == value;
        VarintThen(value, rest);
      case Delimited(_, len, body) =>
        assert Body(f) + rest == len + (body + rest);
        VarintThen(len, body + rest);
      case Group(_, fields, end) =>
        assert Body(f) == PrintAll(fields) + end;
        assert Body(f) + rest == PrintAll(fields) + (end + rest);
        SkipPrintGroup(fields, end, rest);
      case _ =>
    }
  }

  lemma {:induction false} SkipPrintGroup(fs: Fields, end: bytes, rest: bytes)
    requires AllWellFormed(fs) && IsTag(end, 4)
    ensures SkipGroup(PrintAll(fs) + (end + rest)) == Ok(|PrintAll(fs)| + |end|)
    decreases fs, 1
  {
    hide SkipGroup, WellFormed, Skip, Print, IsTag, Plus;
    match fs {
      case Nil =>
        SkipEnd(end, rest);
        assert PrintAll(fs) + (end + rest) == end + rest;
      case Cons(f, more) =>
        var after := PrintAll(more) + (end + rest);
        assert PrintAll(fs) + (end + rest) == Print(f) + after;
        SkipPrint(f, after);
        SkipPrintGroup(more, end, rest);
        SkipGroupStep(f, after);
        PlusOk(|Print(f)|, |PrintAll(more)| + |end|);
    }
  }

  lemma PlusOk(n: nat, k: nat)
    ensures Plus(n, Ok(k)) == Ok(n + k)
  {
  }

  lemma SkipEnd(end: bytes, rest: bytes)
    requires IsTag(end, 4)
    ensures SkipGroup(end + rest) == Ok(|end|)
  {
    VarintThen(end, rest);
  }

  lemma TagOf(f: Field)
    requires WellFormed(f)
    ensures IsTag(f.tag, TypeOf(f))
  {
  }

  lemma SkipGroupStep(f: Field, after: bytes)
    requires WellFormed(f) && Skip(Print(f) + after) == Ok(|Print(f)|)
    ensures SkipGroup(Print(f) + after) == Plus(|Print(f)|, SkipGroup(after))
  {
    hide Decode, Skip, Print, WellFormed, Body;
    assert Print(f) + after == f.tag + (Body(f) + after);
    TagOf(f);
    VarintThen(f.tag, Body(f) + after);
    assert (Print(f) + after)[|Print(f)|..] == after;
  }

  lemma SplitVarint(s: bytes, n: nat)
    requires Decode(s).Ok? && n == Decode(s).value.size
    ensures 1 <= n <= |s| && IsVarint(s[..n]) && Decode(s[..n]) == Decode(s)
    ensures s == s[..n] + s[n..]
  {
    hide Decode;
    DecodeBounds64(s);
    DecodeExact(s, 0);
  }

  /** The field that was skipped. */
  lemma SkippedField(s: bytes) returns (f: Field)
    requires Skip(s).Ok? && Skip(s).value <= |s|
    requires Decode(s).value.value % 8 != 4
    ensures WellFormed(f) && Print(f) == s[..Skip(s).value]
    decreases |s|, 1
  {
    hide WellFormed, Print, SkipBody;
    var Read(wire, n) := Decode(s).value;
    SplitVarint(s, n);
    f := SkippedBody(s[..n], wire % 8, s[n..]);
    assert s[..n] + s[n..][..Skip(s).value - n] == s[..Skip(s).value];
  }

  lemma SkippedBody(tag: bytes, wireType: nat, s: bytes) returns (f: Field)
    requires wireType < 8 && wireType != 4 && IsTag(tag, wireType)
    requires SkipBody(wireType, s).Ok? && SkipBody(wireType, s).value <= |s|
    ensures WellFormed(f) && Print(f) == tag + s[..SkipBody(wireType, s).value]
    decreases |s|, 3
  {
    match wireType
    case 0 =>
      SplitVarint(s, Decode(s).value.size);
      f := Scalar(tag, s[..Decode(s).value.size]);
    case 1 =>
      f := Fixed64(tag, s[..8]);
    case 2 =>
      var Read(len, k) := Decode(s).value;
      SplitVarint(s, k);
      JoinSlices(tag, s, k, k + len);
      f := Delimited(tag, s[..k], s[k..k + len]);
    case 3 =>
      var fields, end := SkippedGroup(s);
      assert tag + (PrintAll(fields) + end) == tag + PrintAll(fields) + end;
      f := Group(tag, fields, end);
    case 5 =>
      f := Fixed32(tag, s[..4]);
  }

  lemma JoinSlices(tag: bytes, s: bytes, k: nat, m: nat)
    requires k <= m <= |s|
    ensures tag + s[..k] + s[k..m] == tag + s[..m]
  {
    assert s[..k] + s[k..m] == s[..m];
  }

  lemma SkippedGroup(s: bytes) returns (fs: Fields, end: bytes)
    requires SkipGroup(s).Ok?
    ensures AllWellFormed(fs) && IsTag(end, 4)
    ensures PrintAll(fs) + end == s[..SkipGroup(s).value]
    decreases |s|, 2
  {
    hide Decode, WellFormed, Print, SkipBody;
    var Read(wire, n) := Decode(s).value;
    SplitVarint(s, n);
    if wire % 8 == 4 {
      fs, end := Nil, s[..n];
      assert PrintAll(fs) + end == s[..n];
    } else {
      var k := Skip(s).value;
      var f := SkippedField(s);
      fs, end := SkippedGroup(s[k..]);
      assert s[..SkipGroup(s).value] == s[..k] + s[k..][..SkipGroup(s).value - k];
      assert Print(f) + (PrintAll(fs) + end) == Print(f) + PrintAll(fs) + end;
      fs := Cons(f, fs);
    }
  }

  /** The skipper accepts exactly the well-formed fields (and, called on its
      own, a stray end-group tag): n bytes can be skipped within s if and only
      if those n bytes are such a field. */
  lemma SkipExactly(s: bytes, n: nat)
    requires n <= |s|
    ensures Skip(s) == Ok(n) <==>
            IsTag(s[..n], 4) || exists f :: WellFormed(f) && Print(f) == s[..n]
  {
    assert s == s[..n] + s[n..];
    if Skip(s) == Ok(n) {
      SkippedIsField(s, n);
    }
    if IsTag(s[..n], 4) {
      SkipAfterTag(s[..n], 4, s[n..]);
    }
    forall f | WellFormed(f) && Print(f) == s[..n]
      ensures Skip(s) == Ok(n)
    {
      SkipPrint(f, s[n..]);
    }
  }

  lemma SkippedIsField(s: bytes, n: nat)
    requires n <= |s| && Skip(s) == Ok(n)
    ensures IsTag(s[..n], 4) || exists f :: WellFormed(f) && Print(f) == s[..n]
  {
    hide WellFormed, Print, SkipGroup;
    if Decode(s).value.value % 8 == 4 {
      SplitVarint(s, Decode(s).value.size);
    } else {
      var f := SkippedField(s);
      assert WellFormed(f) && Print(f) == s[..n];
    }
  }

  /** Only "end of input" depends on the bytes that follow. */
  lemma {:induction false} SkipStable(s: bytes, rest: bytes)
    requires Skip(s) != Err(UnexpectedEOF)
    ensures Skip(s + rest) == Skip(s)
    decreases |s|, 1
  {
    DecodeStable(s, rest, 0);
    if Decode(s).Ok? {
      DecodeBounds64(s);
      var Read(wire, n) := Decode(s).value;
      assert (s + rest)[n..] == s[n..] + rest;
      SkipBodyStable(wire % 8, s[n..], rest);
    }
  }

  lemma {:induction false} SkipBodyStable(wireType: nat, s: bytes, rest: bytes)
    requires wireType < 8 && SkipBody(wireType, s) != Err(UnexpectedEOF)
    ensures SkipBody(wireType, s + rest) == SkipBody(wireType, s)
    decreases |s|, 3
  {
    hide Decode, SkipGroup;
    if wireType == 0 || wireType == 2 {
      DecodeStable(s, rest, 0);
    } else if wireType == 3 {
      SkipGroupStable(s, rest);
    }
  }

  lemma {:induction false} SkipGroupStable(s: bytes, rest: bytes)
    requires SkipGroup(s) != Err(UnexpectedEOF)
    ensures SkipGroup(s + rest) == SkipGroup(s)
    decreases |s|, 2
  {
    DecodeStable(s, rest, 0);
    if Decode(s).Ok? && Decode(s).value.value % 8 != 4 {
      SkipStable(s, rest);
      if Skip(s).Ok? {
        var k := Skip(s).value;
        assert (s + rest)[k..] == s[k..] + rest;
        SkipGroupStable(s[k..], rest);
      }
    }
  }

  /** What reading a varint from a prefix of s says. */
  lemma DecodeCut(s: bytes, j: nat)
    requires Decode(s).Ok? && j <= |s|
    ensures Decode(s[..j]) == if j < Decode(s).value.size then Err(UnexpectedEOF) else Decode(s)
  {
    hide Decode;
    var n := Decode(s).value.size;
    if j < n {
      DecodeTruncated(s, j, 0);
    } else {
      SplitVarint(s, Decode(s).value.size);
      assert s[..j] == s[..n] + s[n..j];
      VarintThen(s[..n], s[n..j]);
    }
  }

  /** A field cut short: the skipper reports the end of the input, or it asks
      for more bytes than there are. */
  lemma {:induction false} SkipTruncated(s: bytes, j: nat)
    requires Skip(s).Ok? && j < Skip(s).value && j <= |s|
    ensures Skip(s[..j]) == Err(UnexpectedEOF) || Skip(s[..j]) == Skip(s)
    decreases |s|, 1
  {
    DecodeCut(s, j);
    var Read(wire, n) := Decode(s).value;
    if n <= j {
      assert s[..j][n..] == s[n..][..j - n];
      SkipBodyTruncated(wire % 8, s[n..], j - n);
    }
  }

  lemma {:induction false} SkipBodyTruncated(wireType: nat, s: bytes, j: nat)
    requires wireType < 8 && SkipBody(wireType, s).Ok?
    requires j < SkipBody(wireType, s).value && j <= |s|
    ensures SkipBody(wireType, s[..j]) in {Err(UnexpectedEOF), SkipBody(wireType, s)}
    decreases |s|, 3
  {
    if wireType == 0 || wireType == 2 {
      DecodeCut(s, j);
    } else if wireType == 3 {
      SkipGroupTruncated(s, j);
    }
  }

  lemma {:induction false} SkipGroupTruncated(s: bytes, j: nat)
    requires SkipGroup(s).Ok? && j < SkipGroup(s).value
    ensures SkipGroup(s[..j]) == Err(UnexpectedEOF)
    decreases |s|, 2
  {
    DecodeCut(s, j);
    if Decode(s).value.value % 8 != 4 && Decode(s[..j]).Ok? {
      var k := Skip(s).value;
      if j < k {
        SkipTruncated(s, j);
      } else {
        SkipWithin(s, j);
        assert s[..j][k..] == s[k..][..j - k];
        SkipGroupTruncated(s[k..], j - k);
      }
    }
  }

  lemma SkipWithin(s: bytes, j: nat)
    requires Skip(s).Ok? && Skip(s).value <= j <= |s|
    ensures Skip(s[..j]) == Skip(s)
  {
    var k := Skip(s).value;
    SkipExactly(s, k);
    assert s[..j][..k] == s[..k];
    SkipExactly(s[..j], k);
  }
}
