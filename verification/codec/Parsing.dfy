// The loop that every generated Unmarshal runs, over any message type: read a
// tag, apply a known length-delimited field to the message, skip an unknown
// field, until the input ends or something fails.
module Parsing {
  import opened Varint
  import opened Skipping

  /** The fields 1..known of a message are the ones its Unmarshal knows. */
  datatype Schema = Schema(message: string, known: nat)

  /** Unmarshal leaves a message behind whether or not it fails. */
  datatype Outcome<+M> = Done(msg: M) | Failed(msg: M, error: Error)

  /** What the input starts with. */
  datatype Piece =
    | Known(num: nat, payload: bytes, size: nat)
    | Unknown(size: nat)
    | Broken(error: Error)

  function NextPiece(sch: Schema, s: bytes): (p: Piece)
    requires s != []
    ensures !p.Broken? ==> 1 <= p.size <= |s|
    ensures p.Known? ==> 1 <= p.num <= sch.known && |p.payload| < |s|
  {
    match Decode(s)
    case Err(e) => Broken(e)
    case Ok(Read(wire, n)) =>
      DecodeBounds64(s);
      var num, wireType := Int32(wire / 8), wire % 8;
      if wireType == 4 then Broken(EndGroupOutsideGroup(sch.message))
      else if num <= 0 then Broken(IllegalTag(sch.message, num, wire))
      else if num > sch.known then SkipPiece(s)
      else if wireType != 2 then Broken(WrongWireType(sch.message, num, wireType))
      else KnownPiece(num, n, s)
  }

  function SkipPiece(s: bytes): (p: Piece)
  {
    match Skip(s)
    case Err(e) => Broken(e)
    case Ok(n) => if n > |s| then Broken(UnexpectedEOF) else Unknown(n)
  }

  /** The known field num of which n bytes, the tag, have been read. */
  function KnownPiece(num: nat, n: nat, s: bytes): (p: Piece)
    requires n <= |s|
  {
    match DecodeLength(s[n..])
    case Err(e) => Broken(e)
    case Ok(Read(len, k)) =>
      DecodeBounds64(s[n..]);
      if n + k + len > |s| then Broken(UnexpectedEOF)
      else Known(num, s[n + k..n + k + len], n + k + len)
  }

  function Parse<M>(sch: Schema, apply: (M, nat, bytes) -> Outcome<M>, m: M, s: bytes): (r: Outcome<M>)
    decreases |s|
  {
    if s == [] then Done(m) else
      match NextPiece(sch, s)
      case Broken(e) => Failed(m, e)
      case Unknown(n) => Parse(sch, apply, m, s[n..])
      case Known(num, payload, n) =>
        match apply(m, num, payload)
        case Failed(m', e) => Failed(m', e)
        case Done(m') => Parse(sch, apply, m', s[n..])
  }

  // ---- What follows the first piece does not matter ----

  lemma NextPieceStable(sch: Schema, s: bytes, rest: bytes)
    requires s != [] && NextPiece(sch, s) != Broken(UnexpectedEOF)
    ensures NextPiece(sch, s + rest) == NextPiece(sch, s)
  {
    hide Decode, SkipPiece, KnownPiece, Int32;
    DecodeStable(s, rest, 0);
    if Decode(s).Ok? {
      DecodeBounds64(s);
      var Read(wire, n) := Decode(s).value;
      var num := Int32(wire / 8);
      if num > sch.known && wire % 8 != 4 {
        SkipPieceStable(s, rest);
      } else if wire % 8 == 2 && num > 0 {
        KnownPieceStable(num, n, s, rest);
      }
    }
  }

  lemma SkipPieceStable(s: bytes, rest: bytes)
    requires SkipPiece(s) != Broken(UnexpectedEOF)
    ensures SkipPiece(s + rest) == SkipPiece(s)
  {
    hide Skip;
    SkipStable(s, rest);
  }

  lemma KnownPieceStable(num: nat, n: nat, s: bytes, rest: bytes)
    requires n <= |s| && KnownPiece(num, n, s) != Broken(UnexpectedEOF)
    ensures KnownPiece(num, n, s + rest) == KnownPiece(num, n, s)
  {
    hide Decode;
    assert (s + rest)[n..] == s[n..] + rest;
    DecodeStable(s[n..], rest, 0);
    if KnownPiece(num, n, s).Known? {
      var Read(len, k) := DecodeLength(s[n..]).value;
      DecodeBounds64(s[n..]);
      assert (s + rest)[n + k..n + k + len] == s[n + k..n + k + len];
    }
  }

  /** Concatenation is merge: parsing a and then b is parsing a + b, in every
      outcome of b. */
  lemma {:induction false} ParseConcat<M>(sch: Schema, apply: (M, nat, bytes) -> Outcome<M>, m: M, a: bytes, b: bytes)
    requires Parse(sch, apply, m, a).Done?
    ensures Parse(sch, apply, m, a + b) == Parse(sch, apply, Parse(sch, apply, m, a).msg, b)
    decreases |a|
  {
    if a == [] {
      assert a + b == b;
    } else {
      hide NextPiece;
      var p := NextPiece(sch, a);
      NextPieceStable(sch, a, b);
      assert (a + b)[p.size..] == a[p.size..] + b;
      var m' := if p.Known? then apply(m, p.num, p.payload).msg else m;
      ParseConcat(sch, apply, m', a[p.size..], b);
    }
  }

  /** Every error but "end of input" is final: more input does not change it,
      nor the message left behind. */
  lemma {:induction false} ParseErrorFinal<M>(sch: Schema, apply: (M, nat, bytes) -> Outcome<M>, m: M,
                                              a: bytes, b: bytes)
    requires Parse(sch, apply, m, a).Failed? && Parse(sch, apply, m, a).error != UnexpectedEOF
    ensures Parse(sch, apply, m, a + b) == Parse(sch, apply, m, a)
    decreases |a|
  {
    hide NextPiece;
    var p := NextPiece(sch, a);
    NextPieceStable(sch, a, b);
    if !p.Broken? {
      assert (a + b)[p.size..] == a[p.size..] + b;
      if p.Unknown? || apply(m, p.num, p.payload).Done? {
        var m' := if p.Known? then apply(m, p.num, p.payload).msg else m;
        ParseErrorFinal(sch, apply, m', a[p.size..], b);
      }
    }
  }

  // ---- Inputs cut short ----

  /** The last field boundary of s at or before j. */
  function Floor(sch: Schema, s: bytes, j: nat): (i: nat)
    requires j <= |s|
    ensures i <= j
    decreases |s|
  {
    if s == [] || NextPiece(sch, s).Broken? || NextPiece(sch, s).size > j then 0
    else NextPiece(sch, s).size + Floor(sch, s[NextPiece(sch, s).size..], j - NextPiece(sch, s).size)
  }

  lemma NextPieceTruncated(sch: Schema, s: bytes, j: nat)
    requires s != [] && !NextPiece(sch, s).Broken? && 0 < j < NextPiece(sch, s).size
    ensures NextPiece(sch, s[..j]) == Broken(UnexpectedEOF)
  {
    hide Skip, Decode;
    DecodeCut(s, j);
    var Read(wire, n) := Decode(s).value;
    if j >= n {
      var num := Int32(wire / 8);
      if num > sch.known {
        SkipTruncated(s, j);
      } else {
        assert s[..j][n..] == s[n..][..j - n];
        DecodeCut(s[n..], j - n);
      }
    }
  }

  /** An accepted input cut at j is accepted exactly when j is a field
      boundary; otherwise the end of the input is reported, and either way the
      message left behind is that of the whole fields before j. */
  lemma {:induction false} ParseTruncated<M>(sch: Schema, apply: (M, nat, bytes) -> Outcome<M>, m: M, s: bytes, j: nat)
    requires Parse(sch, apply, m, s).Done? && j <= |s|
    ensures var i := Floor(sch, s, j);
            var whole := Parse(sch, apply, m, s[..i]);
            && whole.Done?
            && Parse(sch, apply, m, s[..j]) == if i == j then whole else Failed(whole.msg, UnexpectedEOF)
    decreases |s|
  {
    hide NextPiece;
    if j > 0 {
      var p := NextPiece(sch, s);
      if p.size > j {
        NextPieceTruncated(sch, s, j);
      } else {
        var n, i := p.size, Floor(sch, s, j);
        var m' := if p.Known? then apply(m, p.num, p.payload).msg else m;
        PieceWithin(sch, s, j);
        PieceWithin(sch, s, i);
        assert s[..j][n..] == s[n..][..j - n];
        assert s[..i][n..] == s[n..][..i - n];
        ParseTruncated(sch, apply, m', s[n..], j - n);
      }
    }
  }

  lemma PieceWithin(sch: Schema, s: bytes, j: nat)
    requires s != [] && !NextPiece(sch, s).Broken? && NextPiece(sch, s).size <= j <= |s|
    ensures NextPiece(sch, s[..j]) == NextPiece(sch, s)
  {
    hide Skip, Decode;
    KnownIsSkipped(sch, s);
    SkipCoversTag(s);
    DecodeCut(s, j);
    var Read(wire, n) := Decode(s).value;
    var num := Int32(wire / 8);
    if num > sch.known {
      SkipWithin(s, j);
    } else {
      var k := DecodeLength(s[n..]).value.size;
      var len := DecodeLength(s[n..]).value.value;
      assert s[..j][n..] == s[n..][..j - n];
      DecodeCut(s[n..], j - n);
      SliceOfPrefix(s, j, n + k, n + k + len);
    }
  }

  lemma SliceOfPrefix(s: bytes, j: nat, a: nat, b: nat)
    requires a <= b <= j <= |s|
    ensures s[..j][a..b] == s[a..b]
  {
  }

  lemma SkipCoversTag(s: bytes)
    requires Skip(s).Ok?
    ensures Decode(s).Ok? && Decode(s).value.size <= Skip(s).value
  {
    hide Decode, SkipBody;
  }

  // ---- The language that is accepted, and what it means ----

  ghost function FieldNum(f: Field): int
    requires WellFormed(f)
  {
    Int32(Decode(f.tag).value.value / 8)
  }

  /** A well-formed field that the schema admits: a positive number, and
      length-delimited if the number is a known one. */
  ghost predicate Legal(sch: Schema, f: Field)
  {
    WellFormed(f) && FieldNum(f) > 0 && (FieldNum(f) <= sch.known ==> f.Delimited?)
  }

  ghost predicate AllLegal(sch: Schema, fs: Fields)
  {
    match fs case Nil => true case Cons(f, rest) => Legal(sch, f) && AllLegal(sch, rest)
  }

  /** Known fields are applied in order, unknown ones ignored. */
  ghost function Meaning<M>(sch: Schema, apply: (M, nat, bytes) -> Outcome<M>, m: M, fs: Fields): (r: Outcome<M>)
    requires AllLegal(sch, fs)
  {
    match fs
    case Nil => Done(m)
    case Cons(f, rest) =>
      if FieldNum(f) > sch.known then Meaning(sch, apply, m, rest) else
        match apply(m, FieldNum(f), f.body)
        case Failed(m', e) => Failed(m', e)
        case Done(m') => Meaning(sch, apply, m', rest)
  }

  lemma NextPiecePrint(sch: Schema, f: Field, rest: bytes)
    requires Legal(sch, f)
    ensures Print(f) + rest != []
    ensures NextPiece(sch, Print(f) + rest) ==
            if FieldNum(f) > sch.known then Unknown(|Print(f)|) else Known(FieldNum(f), f.body, |Print(f)|)
  {
    hide Skip, Decode;
    NoEndTag(f, rest);
    SkipPrint(f, rest);
    if FieldNum(f) <= sch.known {
      assert Print(f) + rest == f.tag + (f.len + (f.body + rest));
      VarintThen(f.tag, f.len + (f.body + rest));
      VarintThen(f.len, f.body + rest);
    }
  }

  lemma NoEndTag(f: Field, rest: bytes)
    requires WellFormed(f)
    ensures Decode(Print(f) + rest) == Decode(f.tag)
    ensures Decode(f.tag).Ok? && Decode(f.tag).value.value % 8 == TypeOf(f)
  {
    assert Print(f) + rest == f.tag + (Body(f) + rest);
    VarintThen(f.tag, Body(f) + rest);
  }

  /** Parsing inverts printing, for every sequence of legal fields. */
  lemma {:induction false} ParsePrint<M>(sch: Schema, apply: (M, nat, bytes) -> Outcome<M>, m: M, fs: Fields)
    requires AllLegal(sch, fs)
    ensures Parse(sch, apply, m, PrintAll(fs)) == Meaning(sch, apply, m, fs)
  {
    match fs
    case Nil =>
    case Cons(f, rest) =>
      hide NextPiece, WellFormed, FieldNum;
      NextPiecePrint(sch, f, PrintAll(rest));
      assert (Print(f) + PrintAll(rest))[|Print(f)|..] == PrintAll(rest);
      if FieldNum(f) > sch.known {
        ParsePrint(sch, apply, m, rest);
      } else if apply(m, FieldNum(f), f.body).Done? {
        ParsePrint(sch, apply, apply(m, FieldNum(f), f.body).msg, rest);
      }
  }

  /** Every accepted input is such a sequence. */
  lemma {:induction false} ParsedFields<M>(sch: Schema, apply: (M, nat, bytes) -> Outcome<M>, m: M, s: bytes)
    returns (fs: Fields)
    requires Parse(sch, apply, m, s).Done?
    ensures AllLegal(sch, fs) && PrintAll(fs) == s
    decreases |s|
  {
    if s == [] {
      fs := Nil;
    } else {
      hide NextPiece, Legal, Print;
      var p := NextPiece(sch, s);
      var m' := if p.Known? then apply(m, p.num, p.payload).msg else m;
      var f := ParsedField(sch, s);
      var rest := ParsedFields(sch, apply, m', s[p.size..]);
      hide Parse;
      fs := Cons(f, rest);
      assert s[..p.size] + s[p.size..] == s;
    }
  }

  lemma ParsedField(sch: Schema, s: bytes) returns (f: Field)
    requires s != [] && !NextPiece(sch, s).Broken?
    ensures Legal(sch, f) && Print(f) == s[..NextPiece(sch, s).size]
  {
    hide Print;
    var p := NextPiece(sch, s);
    var Read(wire, n) := Decode(s).value;
    SplitVarint(s, n);
    assert Skip(s) == Ok(p.size) by {
      KnownIsSkipped(sch, s);
    }
    f := SkippedField(s);
    NoEndTag(f, s[p.size..]);
    assert s == s[..p.size] + s[p.size..];
  }

  /** A known field that was read could have been skipped as well. */
  lemma KnownIsSkipped(sch: Schema, s: bytes)
    requires s != [] && !NextPiece(sch, s).Broken?
    ensures Skip(s) == Ok(NextPiece(sch, s).size)
  {
    hide Decode;
  }

  /** The accepted inputs are exactly the sequences of legal fields whose
      known fields all apply, and the result is what those fields mean. */
  lemma ParseExactly<M(!new)>(sch: Schema, apply: (M, nat, bytes) -> Outcome<M>, m: M, s: bytes, m': M)
    ensures Parse(sch, apply, m, s) == Done(m') <==>
            exists fs :: AllLegal(sch, fs) && PrintAll(fs) == s && Meaning(sch, apply, m, fs) == Done(m')
  {
    if Parse(sch, apply, m, s) == Done(m') {
      var fs := ParsedFields(sch, apply, m, s);
      ParsePrint(sch, apply, m, fs);
      assert AllLegal(sch, fs) && PrintAll(fs) == s && Meaning(sch, apply, m, fs) == Done(m');
    }
    forall fs | AllLegal(sch, fs) && PrintAll(fs) == s && Meaning(sch, apply, m, fs) == Done(m')
      ensures Parse(sch, apply, m, s) == Done(m')
    {
      ParsePrint(sch, apply, m, fs);
    }
  }
}
