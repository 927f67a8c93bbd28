// What the codec promises about inputs it did not print itself: field order
// and unknown fields do not matter ("Last One Wins"), concatenation merges,
// printing is never longer than what was parsed, and a cut is noticed.
module Laws {
  import opened Varint
  import opened Skipping
  import opened Parsing
  import opened Messages
  import opened RoundTrip

  // ---- Order and unknown fields ----

  datatype Record = Record(num: nat, payload: bytes)

  /** The known fields among fs, in order. */
  ghost function Records(sch: Schema, fs: Fields): (rs: seq<Record>)
    requires AllLegal(sch, fs)
  {
    match fs
    case Nil => []
    case Cons(f, rest) =>
      if FieldNum(f) > sch.known then Records(sch, rest)
      else [Record(FieldNum(f), f.body)] + Records(sch, rest)
  }

  ghost function Fold<M>(apply: (M, nat, bytes) -> Outcome<M>, m: M, rs: seq<Record>): (r: Outcome<M>)
  {
    if rs == [] then Done(m) else
      var r := apply(m, rs[0].num, rs[0].payload);
      if r.Failed? then r else Fold(apply, r.msg, rs[1..])
  }

  /** Unknown fields, wherever they stand, have no part in the result. */
  lemma {:induction false} MeaningIsFold<M>(sch: Schema, apply: (M, nat, bytes) -> Outcome<M>, m: M, fs: Fields)
    requires AllLegal(sch, fs)
    ensures Meaning(sch, apply, m, fs) == Fold(apply, m, Records(sch, fs))
    decreases fs
  {
    match fs
    case Nil =>
    case Cons(f, rest) =>
      hide WellFormed, FieldNum;
      if FieldNum(f) > sch.known {
        MeaningIsFold(sch, apply, m, rest);
      } else {
        assert Records(sch, fs)[1..] == Records(sch, rest);
        if apply(m, FieldNum(f), f.body).Done? {
          MeaningIsFold(sch, apply, apply(m, FieldNum(f), f.body).msg, rest);
        }
      }
  }

  /** The payloads of field num, in order of occurrence. */
  function Payloads(num: nat, rs: seq<Record>): (ps: seq<bytes>)
  {
    if rs == [] then []
    else if rs[0].num == num then [rs[0].payload] + Payloads(num, rs[1..])
    else Payloads(num, rs[1..])
  }

  function Last(ps: seq<bytes>, default: bytes): (p: bytes)
  {
    if ps == [] then default else ps[|ps| - 1]
  }

  lemma LastOfCons(p: bytes, ps: seq<bytes>, default: bytes)
    ensures Last([p] + ps, default) == Last(ps, p)
  {
  }

  /** Every payload of a repeated message field parses on its own. */
  predicate EachParses<E>(parse: bytes -> Outcome<E>, ps: seq<bytes>)
  {
    if ps == [] then true else parse(ps[0]).Done? && EachParses(parse, ps[1..])
  }

  function ParseEach<E>(parse: bytes -> Outcome<E>, ps: seq<bytes>): (es: seq<E>)
  {
    if ps == [] then [] else [parse(ps[0]).msg] + ParseEach(parse, ps[1..])
  }

  lemma ParseEachCons<E>(parse: bytes -> Outcome<E>, p: bytes, ps: seq<bytes>)
    ensures ParseEach(parse, [p] + ps) == [parse(p).msg] + ParseEach(parse, ps)
    ensures EachParses(parse, [p] + ps) <==> parse(p).Done? && EachParses(parse, ps)
  {
    assert ([p] + ps)[1..] == ps;
  }

  lemma AppendCons<E>(a: seq<E>, e: E, b: seq<E>)
    ensures (a + [e]) + b == a + ([e] + b)
  {
  }

  function DevicesOf(s: bytes): Outcome<DevicesMsg> { ParseDevices(NO_DEVICES, s) }
  function ContainerOf(s: bytes): Outcome<ContainerMsg> { ParseContainer(NO_CONTAINER, s) }
  function PodOf(s: bytes): Outcome<PodMsg> { ParsePod(NO_POD, s) }

  lemma {:induction false} FoldDevices(m: DevicesMsg, rs: seq<Record>)
    ensures Fold(ApplyDevices, m, rs) ==
            Done(DevicesMsg(Last(Payloads(1, rs), m.resourceName), m.deviceIds + Payloads(2, rs)))
    decreases |rs|
  {
    if rs == [] {
      assert m.deviceIds + [] == m.deviceIds;
    } else {
      var p := rs[0].payload;
      FoldDevices(ApplyDevices(m, rs[0].num, p).msg, rs[1..]);
      LastOfCons(p, Payloads(1, rs[1..]), m.resourceName);
      AppendCons(m.deviceIds, p, Payloads(2, rs[1..]));
    }
  }

  lemma {:induction false} FoldContainer(m: ContainerMsg, rs: seq<Record>)
    ensures Fold(ApplyContainer, m, rs).Done? <==> EachParses(DevicesOf, Payloads(2, rs))
    ensures EachParses(DevicesOf, Payloads(2, rs)) ==>
            Fold(ApplyContainer, m, rs) ==
            Done(ContainerMsg(Last(Payloads(1, rs), m.name), m.devices + ParseEach(DevicesOf, Payloads(2, rs))))
    decreases |rs|
  {
    if rs == [] {
      assert m.devices + [] == m.devices;
    } else {
      hide ParseDevices, EachParses, ParseEach;
      var p, more := rs[0].payload, rs[1..];
      FoldContainer(ApplyContainer(m, rs[0].num, p).msg, more);
      LastOfCons(p, Payloads(1, more), m.name);
      ParseEachCons(DevicesOf, p, Payloads(2, more));
      AppendCons(m.devices, DevicesOf(p).msg, ParseEach(DevicesOf, Payloads(2, more)));
    }
  }

  lemma {:induction false} FoldPod(m: PodMsg, rs: seq<Record>)
    ensures Fold(ApplyPod, m, rs).Done? <==> EachParses(ContainerOf, Payloads(3, rs))
    ensures EachParses(ContainerOf, Payloads(3, rs)) ==>
            Fold(ApplyPod, m, rs) ==
            Done(PodMsg(Last(Payloads(1, rs), m.name), Last(Payloads(2, rs), m.namespace),
                        m.containers + ParseEach(ContainerOf, Payloads(3, rs))))
    decreases |rs|
  {
    if rs == [] {
      assert m.containers + [] == m.containers;
    } else {
      hide ParseContainer, EachParses, ParseEach;
      var p, more := rs[0].payload, rs[1..];
      FoldPod(ApplyPod(m, rs[0].num, p).msg, more);
      LastOfCons(p, Payloads(1, more), m.name);
      LastOfCons(p, Payloads(2, more), m.namespace);
      ParseEachCons(ContainerOf, p, Payloads(3, more));
      AppendCons(m.containers, ContainerOf(p).msg, ParseEach(ContainerOf, Payloads(3, more)));
    }
  }

  lemma {:induction false} FoldResponse(m: ResponseMsg, rs: seq<Record>)
    ensures Fold(ApplyResponse, m, rs).Done? <==> EachParses(PodOf, Payloads(1, rs))
    ensures EachParses(PodOf, Payloads(1, rs)) ==>
            Fold(ApplyResponse, m, rs) == Done(ResponseMsg(m.podResources + ParseEach(PodOf, Payloads(1, rs))))
    decreases |rs|
  {
    if rs == [] {
      assert m.podResources + [] == m.podResources;
    } else {
      hide ParsePod, EachParses, ParseEach;
      var p, more := rs[0].payload, rs[1..];
      FoldResponse(ApplyResponse(m, rs[0].num, p).msg, more);
      ParseEachCons(PodOf, p, Payloads(1, more));
      AppendCons(m.podResources, PodOf(p).msg, ParseEach(PodOf, Payloads(1, more)));
    }
  }

  /** ContainerDevices: the last resource name and all the ids in order. */
  lemma DevicesInAnyOrder(m: DevicesMsg, fs: Fields)
    requires AllLegal(DEVICES, fs)
    ensures var rs := Records(DEVICES, fs);
            ParseDevices(m, PrintAll(fs)) ==
            Done(DevicesMsg(Last(Payloads(1, rs), m.resourceName), m.deviceIds + Payloads(2, rs)))
  {
    ParsePrint(DEVICES, ApplyDevices, m, fs);
    MeaningIsFold(DEVICES, ApplyDevices, m, fs);
    FoldDevices(m, Records(DEVICES, fs));
  }

  /** ContainerResources: the last name and all the devices in order; refused
      exactly when one of the devices is. */
  lemma ContainerInAnyOrder(m: ContainerMsg, fs: Fields)
    requires AllLegal(CONTAINER, fs)
    ensures var rs := Records(CONTAINER, fs);
            var r := ParseContainer(m, PrintAll(fs));
            && (r.Done? <==> EachParses(DevicesOf, Payloads(2, rs)))
            && (r.Done? ==> r.msg == ContainerMsg(Last(Payloads(1, rs), m.name),
                                                  m.devices + ParseEach(DevicesOf, Payloads(2, rs))))
  {
    ParsePrint(CONTAINER, ApplyContainer, m, fs);
    MeaningIsFold(CONTAINER, ApplyContainer, m, fs);
    FoldContainer(m, Records(CONTAINER, fs));
  }

  /** PodResources: the last name, the last namespace and all the containers in
      order; refused exactly when one of the containers is. */
  lemma PodInAnyOrder(m: PodMsg, fs: Fields)
    requires AllLegal(POD, fs)
    ensures var rs := Records(POD, fs);
            var r := ParsePod(m, PrintAll(fs));
            && (r.Done? <==> EachParses(ContainerOf, Payloads(3, rs)))
            && (r.Done? ==> r.msg == PodMsg(Last(Payloads(1, rs), m.name), Last(Payloads(2, rs), m.namespace),
                                            m.containers + ParseEach(ContainerOf, Payloads(3, rs))))
  {
    ParsePrint(POD, ApplyPod, m, fs);
    MeaningIsFold(POD, ApplyPod, m, fs);
    FoldPod(m, Records(POD, fs));
  }

  /** ListPodResourcesResponse: all the pods in order. */
  lemma ResponseInAnyOrder(m: ResponseMsg, fs: Fields)
    requires AllLegal(RESPONSE, fs)
    ensures var rs := Records(RESPONSE, fs);
            var r := ParseResponse(m, PrintAll(fs));
            && (r.Done? <==> EachParses(PodOf, Payloads(1, rs)))
            && (r.Done? ==> r.msg == ResponseMsg(m.podResources + ParseEach(PodOf, Payloads(1, rs))))
  {
    ParsePrint(RESPONSE, ApplyResponse, m, fs);
    MeaningIsFold(RESPONSE, ApplyResponse, m, fs);
    FoldResponse(m, Records(RESPONSE, fs));
  }

  // ---- The printed form is the shortest ----

  lemma FrameSizeMonotone(l: nat, k: nat)
    requires l <= k
    ensures FrameSize(l) <= FrameSize(k)
  {
    SovMonotone(l, k);
  }

  /** A known field takes at least the bytes that printing it would take. */
  lemma KnownPieceSize(sch: Schema, s: bytes)
    requires s != [] && NextPiece(sch, s).Known?
    ensures NextPiece(sch, s).size >= FrameSize(|NextPiece(sch, s).payload|)
  {
    hide Decode;
    DecodeBounds64(s);
    DecodeBounds64(s[Decode(s).value.size..]);
  }

  /** If applying a payload never adds more than its frame, parsing never adds
      more than its input. */
  lemma {:induction false} ParseGrowth<M(!new)>(sch: Schema, apply: (M, nat, bytes) -> Outcome<M>, size: M -> nat,
                                                m: M, s: bytes)
    requires forall m', num, p :: apply(m', num, p).Done? ==>
               size(apply(m', num, p).msg) <= size(m') + FrameSize(|p|)
    requires Parse(sch, apply, m, s).Done?
    ensures size(Parse(sch, apply, m, s).msg) <= size(m) + |s|
    decreases |s|
  {
    if s != [] {
      hide NextPiece;
      var p := NextPiece(sch, s);
      if p.Known? {
        KnownPieceSize(sch, s);
        ParseGrowth(sch, apply, size, apply(m, p.num, p.payload).msg, s[p.size..]);
      } else {
        ParseGrowth(sch, apply, size, m, s[p.size..]);
      }
    }
  }

  lemma {:induction false} FramesSizeAppend<T>(size: T -> nat, es: seq<T>, e: T)
    ensures FramesSize(size, es + [e]) == FramesSize(size, es) + FrameSize(size(e))
  {
    if es == [] {
      assert es + [e] == [e];
    } else {
      assert (es + [e])[1..] == es[1..] + [e];
      FramesSizeAppend(size, es[1..], e);
    }
  }

  lemma DevicesShortest(m: DevicesMsg, s: bytes)
    requires ParseDevices(m, s).Done?
    ensures DevicesSize(ParseDevices(m, s).msg) <= DevicesSize(m) + |s|
  {
    forall m', num, p | ApplyDevices(m', num, p).Done?
      ensures DevicesSize(ApplyDevices(m', num, p).msg) <= DevicesSize(m') + FrameSize(|p|)
    {
      FramesSizeAppend(IdSize, m'.deviceIds, p);
    }
    ParseGrowth(DEVICES, ApplyDevices, DevicesSize, m, s);
  }

  lemma ContainerShortest(m: ContainerMsg, s: bytes)
    requires ParseContainer(m, s).Done?
    ensures ContainerSize(ParseContainer(m, s).msg) <= ContainerSize(m) + |s|
  {
    forall m', num, p | ApplyContainer(m', num, p).Done?
      ensures ContainerSize(ApplyContainer(m', num, p).msg) <= ContainerSize(m') + FrameSize(|p|)
    {
      if num == 2 {
        var d := DevicesOf(p).msg;
        DevicesShortest(NO_DEVICES, p);
        FrameSizeMonotone(DevicesSize(d), |p|);
        FramesSizeAppend(DevicesSize, m'.devices, d);
      }
    }
    ParseGrowth(CONTAINER, ApplyContainer, ContainerSize, m, s);
  }

  lemma PodShortest(m: PodMsg, s: bytes)
    requires ParsePod(m, s).Done?
    ensures PodSize(ParsePod(m, s).msg) <= PodSize(m) + |s|
  {
    forall m', num, p | ApplyPod(m', num, p).Done?
      ensures PodSize(ApplyPod(m', num, p).msg) <= PodSize(m') + FrameSize(|p|)
    {
      if num == 3 {
        var c := ContainerOf(p).msg;
        ContainerShortest(NO_CONTAINER, p);
        FrameSizeMonotone(ContainerSize(c), |p|);
        FramesSizeAppend(ContainerSize, m'.containers, c);
      }
    }
    ParseGrowth(POD, ApplyPod, PodSize, m, s);
  }

  /** Whatever was accepted, however it was written, printing the result again
      takes no more bytes. */
  lemma ResponseShortest(m: ResponseMsg, s: bytes)
    requires ParseResponse(m, s).Done?
    ensures ResponseSize(ParseResponse(m, s).msg) <= ResponseSize(m) + |s|
  {
    forall m', num, p | ApplyResponse(m', num, p).Done?
      ensures ResponseSize(ApplyResponse(m', num, p).msg) <= ResponseSize(m') + FrameSize(|p|)
    {
      if num == 1 {
        var q := PodOf(p).msg;
        PodShortest(NO_POD, p);
        FrameSizeMonotone(PodSize(q), |p|);
        FramesSizeAppend(PodSize, m'.podResources, q);
      }
    }
    ParseGrowth(RESPONSE, ApplyResponse, ResponseSize, m, s);
  }

  // ---- Normal form ----

  /** Printing what was parsed and parsing that changes nothing more: the
      printed form is a normal form of the input. */
  lemma ResponseNormalForm(s: bytes)
    requires ParseResponse(NO_RESPONSE, s).Done? && |s| < TWO_63
    ensures var m := ParseResponse(NO_RESPONSE, s).msg;
            && |EncodeResponse(m)| <= |s|
            && ParseResponse(NO_RESPONSE, EncodeResponse(m)) == Done(m)
  {
    var m := ParseResponse(NO_RESPONSE, s).msg;
    ResponseShortest(NO_RESPONSE, s);
    ResponseLength(m);
    ResponseRoundTrip(m);
  }

  // ---- Merging and cutting printed responses ----

  /** Printed responses one after the other parse to all of their pods. */
  lemma ResponsesMerge(a: ResponseMsg, b: ResponseMsg)
    requires |EncodeResponse(a) + EncodeResponse(b)| < TWO_63
    ensures ParseResponse(NO_RESPONSE, EncodeResponse(a) + EncodeResponse(b)) ==
            Done(ResponseMsg(a.podResources + b.podResources))
  {
    FramesConcat(0x0a, EncodePod, a.podResources, b.podResources);
    ResponseRoundTrip(ResponseMsg(a.podResources + b.podResources));
  }

  /** The number of pods that lie entirely within the first j bytes. */
  function WholePods(ps: seq<PodMsg>, j: nat): (k: nat)
    ensures k <= |ps|
  {
    if ps == [] || |Frame(0x0a, EncodePod(ps[0]))| > j then 0
    else 1 + WholePods(ps[1..], j - |Frame(0x0a, EncodePod(ps[0]))|)
  }

  /** A printed response cut at j yields the pods before the cut. It is
      accepted exactly when the cut falls between two pods. */
  lemma ResponseTruncated(m: ResponseMsg, j: nat)
    requires |EncodeResponse(m)| < TWO_63 && j <= |EncodeResponse(m)|
    ensures var kept := ResponseMsg(m.podResources[..WholePods(m.podResources, j)]);
            && |EncodeResponse(kept)| <= j
            && ParseResponse(NO_RESPONSE, EncodeResponse(m)[..j]) ==
               if |EncodeResponse(kept)| == j then Done(kept) else Failed(kept, UnexpectedEOF)
  {
    var ps := m.podResources;
    PodsTruncated(NO_RESPONSE, ps, j);
    assert [] + ps[..WholePods(ps, j)] == ps[..WholePods(ps, j)];
  }

  lemma {:induction false} PodsTruncated(m: ResponseMsg, ps: seq<PodMsg>, j: nat)
    requires |Frames(0x0a, EncodePod, ps)| < TWO_63 && j <= |Frames(0x0a, EncodePod, ps)|
    ensures var kept := ps[..WholePods(ps, j)];
            var r := ResponseMsg(m.podResources + kept);
            && |Frames(0x0a, EncodePod, kept)| <= j
            && ParseResponse(m, Frames(0x0a, EncodePod, ps)[..j]) ==
               if |Frames(0x0a, EncodePod, kept)| == j then Done(r) else Failed(r, UnexpectedEOF)
    decreases |ps|
  {
    hide *;
    if j == 0 {
      FirstFrameNonempty(ps);
      KeepsNothing(m, ps);
      ParseNothing(m, Frames(0x0a, EncodePod, ps));
    } else {
      CutPods(m, ps, j);
      var n := |Frame(0x0a, EncodePod(ps[0]))|;
      WholeStep(ps, j);
      if n > j {
        KeepsNothing(m, ps);
      } else {
        PodsTruncated(ResponseMsg(m.podResources + [ps[0]]), ps[1..], j - n);
        KeptPods(m.podResources, ps, WholePods(ps[1..], j - n));
      }
    }
  }

  lemma KeepsNothing(m: ResponseMsg, ps: seq<PodMsg>)
    ensures m.podResources + ps[..0] == m.podResources && ResponseMsg(m.podResources + ps[..0]) == m
    ensures Frames(0x0a, EncodePod, ps[..0]) == []
  {
  }

  lemma ParseNothing(m: ResponseMsg, s: bytes)
    ensures ParseResponse(m, s[..0]) == Done(m)
  {
  }

  lemma WholeStep(ps: seq<PodMsg>, j: nat)
    requires ps != []
    ensures var n := |Frame(0x0a, EncodePod(ps[0]))|;
            WholePods(ps, j) == if n > j then 0 else 1 + WholePods(ps[1..], j - n)
  {
  }

  lemma CutPods(m: ResponseMsg, ps: seq<PodMsg>, j: nat)
    requires |Frames(0x0a, EncodePod, ps)| < TWO_63 && 0 < j <= |Frames(0x0a, EncodePod, ps)|
    ensures ps != []
    ensures var n := |Frame(0x0a, EncodePod(ps[0]))|;
            && |Frames(0x0a, EncodePod, ps)| == n + |Frames(0x0a, EncodePod, ps[1..])|
            && ParseResponse(m, Frames(0x0a, EncodePod, ps)[..j]) ==
               if j < n then Failed(m, UnexpectedEOF)
               else ParseResponse(ResponseMsg(m.podResources + [ps[0]]), Frames(0x0a, EncodePod, ps[1..])[..j - n])
  {
    hide Parse, Frame;
    var p := EncodePod(ps[0]);
    var frame, tail := Frame(0x0a, p), Frames(0x0a, EncodePod, ps[1..]);
    FrameLonger(0x0a, p);
    if j < |frame| {
      assert (frame + tail)[..j] == frame[..j];
      FrameTruncated(RESPONSE, ApplyResponse, m, 1, p, j);
    } else {
      assert (frame + tail)[..j] == frame + tail[..j - |frame|];
      ParseFrame(RESPONSE, ApplyResponse, m, 1, p, tail[..j - |frame|]);
      PodRoundTrip(ps[0]);
    }
  }

  lemma FirstFrameNonempty(ps: seq<PodMsg>)
    ensures WholePods(ps, 0) == 0
  {
  }

  lemma KeptPods(a: seq<PodMsg>, ps: seq<PodMsg>, k: nat)
    requires ps != [] && k <= |ps| - 1
    ensures (a + [ps[0]]) + ps[1..][..k] == a + ps[..k + 1]
    ensures Frames(0x0a, EncodePod, ps[..k + 1]) ==
            Frame(0x0a, EncodePod(ps[0])) + Frames(0x0a, EncodePod, ps[1..][..k])
  {
    assert ps[..k + 1][1..] == ps[1..][..k];
    assert ps[..k + 1] == [ps[0]] + ps[1..][..k];
  }

  /** A record cut short reports the end of the input and changes nothing. */
  lemma FrameTruncated<M>(sch: Schema, apply: (M, nat, bytes) -> Outcome<M>, m: M, num: nat, payload: bytes, j: nat)
    requires 1 <= num <= sch.known <= 15 && |payload| < TWO_63
    requires 0 < j < |Frame(8 * num + 2, payload)|
    ensures Parse(sch, apply, m, Frame(8 * num + 2, payload)[..j]) == Failed(m, UnexpectedEOF)
  {
    hide NextPiece, Frame;
    var f := FrameField(num, payload);
    FrameFieldLegal(sch, num, payload);
    NextPiecePrint(sch, f, []);
    assert Print(f) + [] == Print(f);
    NextPieceTruncated(sch, Print(f), j);
  }
}
