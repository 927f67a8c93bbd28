// Which error a refused input gets, in terms of its bytes, what is left of the
// message then, and the order in which the fields of a message are printed.
module Refusals {
  import opened Varint
  import opened Skipping
  import opened Parsing
  import opened Messages
  import opened RoundTrip

  // ---- Varints ----

  /** The first n bytes of s all say that another one follows. */
  predicate Continue(s: bytes, n: nat)
    requires n <= |s|
  {
    forall i :: 0 <= i < n ==> s[i] >= 128
  }

  /** Ten bytes that all announce another one are an overflow, fewer of them an
      early end; and these are the only refusals. */
  lemma VarintRefused(s: bytes)
    ensures Decode(s) == Err(IntOverflow) <==> |s| >= 10 && Continue(s, 10)
    ensures Decode(s) == Err(UnexpectedEOF) <==> |s| < 10 && Continue(s, |s|)
    ensures Decode(s).Err? ==> Decode(s).error in {IntOverflow, UnexpectedEOF}
  {
    VarintRefusedAfter(s, 0);
  }

  lemma {:induction false} VarintRefusedAfter(s: bytes, k: nat)
    requires k <= 10
    ensures Decode(s, k) == Err(IntOverflow) <==> |s| >= 10 - k && Continue(s, 10 - k)
    ensures Decode(s, k) == Err(UnexpectedEOF) <==> |s| < 10 - k && Continue(s, |s|)
    ensures Decode(s, k).Err? ==> Decode(s, k).error in {IntOverflow, UnexpectedEOF}
    decreases 10 - k
  {
    if k < 10 && s != [] {
      VarintRefusedAfter(s[1..], k + 1);
      if |s| >= 10 - k {
        ContinueTail(s, 10 - k);
      }
      ContinueTail(s, |s|);
    }
  }

  lemma ContinueTail(s: bytes, n: nat)
    requires 1 <= n <= |s|
    ensures Continue(s, n) <==> s[0] >= 128 && Continue(s[1..], n - 1)
  {
    if s[0] >= 128 && Continue(s[1..], n - 1) {
      assert forall i :: 1 <= i < n ==> s[i] == s[1..][i - 1];
    }
    assert forall i :: 0 <= i < n - 1 ==> s[1..][i] == s[i + 1];
  }

  // ---- Tags ----

  /** A field number as the codec sees it: the lowest 32 bits, signed. */
  predicate IsFieldNumber(n: nat, num: int)
  {
    num == if n % 0x1_0000_0000 < 0x8000_0000 then n % 0x1_0000_0000 else n % 0x1_0000_0000 - 0x1_0000_0000
  }

  lemma SkipByType(s: bytes)
    requires Decode(s).Ok?
    ensures var Read(wire, n) := Decode(s).value;
            && n <= |s|
            && (wire % 8 in {6, 7} ==> Skip(s) == Err(IllegalWireType(wire % 8)))
            && (wire % 8 == 2 ==>
                  match DecodeLength(s[n..])
                  case Err(e) => Skip(s) == Err(e)
                  case Ok(Read(length, k)) => Skip(s) == Ok(n + (k + length)))
  {
    hide Decode;
    DecodeBounds64(s);
  }

  /** The verdict on a tag of number n and wire type t, in the order of the
      checks: a stray end of a group, a number that is not positive, a known
      number on a field that is not delimited. */
  lemma TagRefused(sch: Schema, s: bytes, n: nat, t: nat, num: int)
    requires s != [] && Decode(s).Ok? && t < 8 && Decode(s).value.value == 8 * n + t && IsFieldNumber(n, num)
    ensures t == 4 ==> NextPiece(sch, s) == Broken(EndGroupOutsideGroup(sch.message))
    ensures t != 4 && num <= 0 ==> NextPiece(sch, s) == Broken(IllegalTag(sch.message, num, 8 * n + t))
    ensures t != 4 && t != 2 && 1 <= num <= sch.known ==>
              NextPiece(sch, s) == Broken(WrongWireType(sch.message, num, t))
    ensures t in {6, 7} && num > sch.known ==> NextPiece(sch, s) == Broken(IllegalWireType(t))
  {
    hide Decode, Skip, KnownPiece;
    assert (8 * n + t) / 8 == n && (8 * n + t) % 8 == t;
    if t in {6, 7} {
      SkipByType(s);
    }
  }

  /** The verdict on the length of a delimited field, known or not: an error of
      its varint, a negative length, or one that goes beyond the input. */
  lemma LengthRefused(sch: Schema, s: bytes, n: nat, num: int)
    requires s != [] && Decode(s).Ok? && Decode(s).value.value == 8 * n + 2 && IsFieldNumber(n, num) && num > 0
    ensures var rest := s[Decode(s).value.size..];
            match Decode(rest)
            case Err(e) => NextPiece(sch, s) == Broken(e)
            case Ok(Read(length, k)) =>
              && (length >= 0x8000_0000_0000_0000 ==> NextPiece(sch, s) == Broken(InvalidLength))
              && (|rest| < k + length < 0x8000_0000_0000_0000 ==> NextPiece(sch, s) == Broken(UnexpectedEOF))
              && (NextPiece(sch, s).Broken? ==> length >= 0x8000_0000_0000_0000 || |rest| < k + length)
  {
    hide Decode, Skip;
    DecodeBounds64(s);
    assert (8 * n + 2) / 8 == n && (8 * n + 2) % 8 == 2;
    SkipByType(s);
    var rest := s[Decode(s).value.size..];
    if Decode(rest).Ok? {
      DecodeBounds64(rest);
    }
  }

  /** Inside a group, however deep, the error is that of the first bad field. */
  lemma {:induction false} GroupRefused(fs: Fields, bad: bytes)
    requires AllWellFormed(fs) && Skip(bad).Err?
    ensures SkipGroup(PrintAll(fs) + bad) == Err(Skip(bad).error)
    ensures forall tag :: IsTag(tag, 3) ==> Skip(tag + (PrintAll(fs) + bad)) == Err(Skip(bad).error)
    decreases fs
  {
    match fs {
      case Nil =>
        assert PrintAll(fs) + bad == bad;
        BadHead(bad);
      case Cons(f, more) =>
        hide Skip, SkipGroup, WellFormed, Print;
        GroupRefused(more, bad);
        assert PrintAll(fs) + bad == Print(f) + (PrintAll(more) + bad);
        SkipPrint(f, PrintAll(more) + bad);
        SkipGroupStep(f, PrintAll(more) + bad);
    }
    forall tag | IsTag(tag, 3) ensures Skip(tag + (PrintAll(fs) + bad)) == Err(Skip(bad).error) {
      hide Skip, SkipGroup, PrintAll, IsTag;
      SkipAfterTag(tag, 3, PrintAll(fs) + bad);
    }
  }

  lemma BadHead(bad: bytes)
    requires Skip(bad).Err?
    ensures SkipGroup(bad) == Err(Skip(bad).error)
  {
    hide Decode;
  }

  // ---- Messages ----

  /** The loop stops at the first bad field, with the message as the fields
      before it have left it. */
  lemma FirstBadField<M>(sch: Schema, apply: (M, nat, bytes) -> Outcome<M>, m: M, fs: Fields, bad: bytes)
    requires AllLegal(sch, fs) && Meaning(sch, apply, m, fs).Done?
    requires bad != [] && NextPiece(sch, bad).Broken?
    ensures Parse(sch, apply, m, PrintAll(fs) + bad) ==
            Failed(Meaning(sch, apply, m, fs).msg, NextPiece(sch, bad).error)
  {
    hide NextPiece, AllLegal, Meaning, PrintAll;
    ParsePrint(sch, apply, m, fs);
    ParseConcat(sch, apply, m, PrintAll(fs), bad);
  }

  /** The names and the numbers of known fields that the errors speak of. */
  lemma NamedInErrors(s: bytes, n: nat, t: nat)
    requires s != [] && Decode(s).Ok? && t < 8 && Decode(s).value.value == 8 * n + t && n < 0x8000_0000
    ensures t == 4 ==>
              && ParseRequest(RequestMsg, s) == Failed(RequestMsg, EndGroupOutsideGroup("ListPodResourcesRequest"))
              && ParseDevices(NO_DEVICES, s) == Failed(NO_DEVICES, EndGroupOutsideGroup("ContainerDevices"))
              && ParseContainer(NO_CONTAINER, s) == Failed(NO_CONTAINER, EndGroupOutsideGroup("ContainerResources"))
              && ParsePod(NO_POD, s) == Failed(NO_POD, EndGroupOutsideGroup("PodResources"))
              && ParseResponse(NO_RESPONSE, s) == Failed(NO_RESPONSE, EndGroupOutsideGroup("ListPodResourcesResponse"))
    ensures t !in {2, 4} ==>
              && (n in {1, 2} ==> ParseDevices(NO_DEVICES, s) ==
                                  Failed(NO_DEVICES, WrongWireType("ContainerDevices", n, t)))
              && (n in {1, 2} ==> ParseContainer(NO_CONTAINER, s) ==
                                  Failed(NO_CONTAINER, WrongWireType("ContainerResources", n, t)))
              && (n in {1, 2, 3} ==> ParsePod(NO_POD, s) == Failed(NO_POD, WrongWireType("PodResources", n, t)))
              && (n == 1 ==> ParseResponse(NO_RESPONSE, s) ==
                             Failed(NO_RESPONSE, WrongWireType("ListPodResourcesResponse", n, t)))
  {
    hide Decode, NextPiece;
    TagRefused(REQUEST, s, n, t, n);
    TagRefused(DEVICES, s, n, t, n);
    TagRefused(CONTAINER, s, n, t, n);
    TagRefused(POD, s, n, t, n);
    TagRefused(RESPONSE, s, n, t, n);
  }

  /** A nested message that is refused stays in the outer one, as far as it got,
      and its error is the outer one's. */
  lemma RefusedInContainer(m: ContainerMsg, payload: bytes, rest: bytes)
    requires |payload| < TWO_63 && ParseDevices(NO_DEVICES, payload).Failed?
    ensures var Failed(d, e) := ParseDevices(NO_DEVICES, payload);
            ParseContainer(m, [0x12] + Encode(|payload|) + payload + rest) ==
            Failed(ContainerMsg(m.name, m.devices + [d]), e)
  {
    hide Parse, Encode, ParseDevices;
    assert Frame(0x12, payload) == [0x12] + Encode(|payload|) + payload;
    hide Frame;
    ParseFrame(CONTAINER, ApplyContainer, m, 2, payload, rest);
  }

  lemma RefusedInPod(m: PodMsg, payload: bytes, rest: bytes)
    requires |payload| < TWO_63 && ParseContainer(NO_CONTAINER, payload).Failed?
    ensures var Failed(c, e) := ParseContainer(NO_CONTAINER, payload);
            ParsePod(m, [0x1a] + Encode(|payload|) + payload + rest) ==
            Failed(PodMsg(m.name, m.namespace, m.containers + [c]), e)
  {
    hide Parse, Encode, ParseContainer;
    assert Frame(0x1a, payload) == [0x1a] + Encode(|payload|) + payload;
    hide Frame;
    ParseFrame(POD, ApplyPod, m, 3, payload, rest);
  }

  lemma RefusedInResponse(m: ResponseMsg, payload: bytes, rest: bytes)
    requires |payload| < TWO_63 && ParsePod(NO_POD, payload).Failed?
    ensures var Failed(p, e) := ParsePod(NO_POD, payload);
            ParseResponse(m, [0x0a] + Encode(|payload|) + payload + rest) ==
            Failed(ResponseMsg(m.podResources + [p]), e)
  {
    hide Parse, Encode, ParsePod;
    assert Frame(0x0a, payload) == [0x0a] + Encode(|payload|) + payload;
    hide Frame;
    ParseFrame(RESPONSE, ApplyResponse, m, 1, payload, rest);
  }

  // ---- The order of printing ----

  ghost predicate Ascending(fs: Fields)
    requires AllWellFormed(fs)
  {
    match fs
    case Nil => true
    case Cons(f, rest) =>
      && AllWellFormed(rest) && Ascending(rest)
      && match rest case Nil => true case Cons(g, _) => FieldNum(f) <= FieldNum(g)
  }

  /** s is a sequence of fields of the schema, in ascending order, before which
      a field of number num can be put. */
  ghost predicate PrintsFrom(sch: Schema, num: int, s: bytes)
  {
    exists fs :: AllLegal(sch, fs) && StartsFrom(num, fs) && PrintAll(fs) == s
  }

  ghost predicate StartsFrom(num: int, fs: Fields)
  {
    AllWellFormed(fs) && Ascending(fs) && (fs.Cons? ==> num <= FieldNum(fs.head))
  }

  lemma NothingPrinted(sch: Schema, num: int)
    ensures PrintsFrom(sch, num, [])
  {
    assert AllLegal(sch, Nil) && StartsFrom(num, Nil) && PrintAll(Nil) == [];
  }

  lemma FramePrinted(sch: Schema, num: nat, payload: bytes, s: bytes)
    requires 1 <= num <= sch.known <= 15 && |payload| < TWO_63 && PrintsFrom(sch, num, s)
    ensures PrintsFrom(sch, num, Frame(8 * num + 2, payload) + s)
  {
    hide Frame, Print, Legal, WellFormed;
    var fs :| AllLegal(sch, fs) && StartsFrom(num, fs) && PrintAll(fs) == s;
    FrameFieldLegal(sch, num, payload);
    LegalIsWellFormed(sch, FrameField(num, payload));
    var more := Cons(FrameField(num, payload), fs);
    assert AllLegal(sch, more) && StartsFrom(num, more) && PrintAll(more) == Frame(8 * num + 2, payload) + s;
  }

  lemma LegalIsWellFormed(sch: Schema, f: Field)
    requires Legal(sch, f)
    ensures WellFormed(f)
  {
  }

  lemma StringPrinted(sch: Schema, num: nat, payload: bytes, s: bytes)
    requires 1 <= num <= sch.known <= 15 && |payload| < TWO_63 && PrintsFrom(sch, num, s)
    ensures PrintsFrom(sch, num, StringFrame(8 * num + 2, payload) + s)
  {
    hide Frame, PrintsFrom;
    if payload == [] {
      assert StringFrame(8 * num + 2, payload) + s == s;
    } else {
      FramePrinted(sch, num, payload, s);
    }
  }

  lemma {:induction false} FramesPrinted<T>(sch: Schema, num: nat, encode: T -> bytes, elements: seq<T>)
    requires 1 <= num <= sch.known <= 15 && |Frames(8 * num + 2, encode, elements)| < TWO_63
    ensures PrintsFrom(sch, num, Frames(8 * num + 2, encode, elements))
  {
    hide Frame, PrintsFrom;
    if elements == [] {
      NothingPrinted(sch, num);
    } else {
      FrameLonger(8 * num + 2, encode(elements[0]));
      FramesPrinted(sch, num, encode, elements[1..]);
      FramePrinted(sch, num, encode(elements[0]), Frames(8 * num + 2, encode, elements[1..]));
    }
  }

  lemma PrintsFromLower(sch: Schema, num: int, lower: int, s: bytes)
    requires PrintsFrom(sch, num, s) && lower <= num
    ensures PrintsFrom(sch, lower, s)
  {
    hide PrintAll, AllLegal, WellFormed;
    var fs :| AllLegal(sch, fs) && StartsFrom(num, fs) && PrintAll(fs) == s;
    assert StartsFrom(lower, fs);
  }

  lemma StringLonger(tag: byte, payload: bytes)
    ensures |payload| <= |StringFrame(tag, payload)|
  {
  }

  /** The fields of every message are printed in the order of their numbers. */
  lemma DevicesInOrder(m: DevicesMsg)
    requires |EncodeDevices(m)| < TWO_63
    ensures PrintsFrom(DEVICES, 1, EncodeDevices(m))
  {
    hide PrintsFrom, StringFrame;
    StringLonger(0x0a, m.resourceName);
    FramesPrinted(DEVICES, 2, EncodeId, m.deviceIds);
    PrintsFromLower(DEVICES, 2, 1, Frames(0x12, EncodeId, m.deviceIds));
    StringPrinted(DEVICES, 1, m.resourceName, Frames(0x12, EncodeId, m.deviceIds));
  }

  lemma ContainerInOrder(m: ContainerMsg)
    requires |EncodeContainer(m)| < TWO_63
    ensures PrintsFrom(CONTAINER, 1, EncodeContainer(m))
  {
    hide PrintsFrom, StringFrame;
    StringLonger(0x0a, m.name);
    FramesPrinted(CONTAINER, 2, EncodeDevices, m.devices);
    PrintsFromLower(CONTAINER, 2, 1, Frames(0x12, EncodeDevices, m.devices));
    StringPrinted(CONTAINER, 1, m.name, Frames(0x12, EncodeDevices, m.devices));
  }

  lemma PodInOrder(m: PodMsg)
    requires |EncodePod(m)| < TWO_63
    ensures PrintsFrom(POD, 1, EncodePod(m))
  {
    hide PrintsFrom, StringFrame, Frames;
    StringLonger(0x0a, m.name);
    StringLonger(0x12, m.namespace);
    var containers := Frames(0x1a, EncodeContainer, m.containers);
    FramesPrinted(POD, 3, EncodeContainer, m.containers);
    PrintsFromLower(POD, 3, 2, containers);
    StringPrinted(POD, 2, m.namespace, containers);
    PrintsFromLower(POD, 2, 1, StringFrame(0x12, m.namespace) + containers);
    StringPrinted(POD, 1, m.name, StringFrame(0x12, m.namespace) + containers);
    assert StringFrame(0x0a, m.name) + (StringFrame(0x12, m.namespace) + containers) == EncodePod(m);
  }

  /** And byte by byte: tags, lengths and contents of a pod with one container
      that has one device with one id. */
  lemma PrintedInFull(name: bytes, namespace: bytes, container: bytes, resource: bytes, id: bytes)
    requires name != [] && namespace != [] && container != [] && resource != []
    ensures var device := [0x0a] + Encode(|resource|) + resource + ([0x12] + Encode(|id|) + id);
            var inner := [0x0a] + Encode(|container|) + container + ([0x12] + Encode(|device|) + device);
            var pod := [0x0a] + Encode(|name|) + name + ([0x12] + Encode(|namespace|) + namespace)
                       + ([0x1a] + Encode(|inner|) + inner);
            EncodeResponse(ResponseMsg([PodMsg(name, namespace, [ContainerMsg(container, [
              DevicesMsg(resource, [id])])])])) == [0x0a] + Encode(|pod|) + pod
  {
    hide Encode;
    OneFrame(0x12, EncodeId, id);
    OneFrame(0x12, EncodeDevices, DevicesMsg(resource, [id]));
    OneFrame(0x1a, EncodeContainer, ContainerMsg(container, [DevicesMsg(resource, [id])]));
    OneFrame(0x0a, EncodePod, PodMsg(name, namespace, [ContainerMsg(container, [DevicesMsg(resource, [id])])]));
  }

  lemma OneFrame<T>(tag: byte, encode: T -> bytes, element: T)
    ensures Frames(tag, encode, [element]) == [tag] + Encode(|encode(element)|) + encode(element)
  {
    assert Frames(tag, encode, [element][1..]) == [];
  }
}
