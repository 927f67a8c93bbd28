// Parsing a printed message gives the message back, at all four levels.
module RoundTrip {
  import opened Varint
  import opened Skipping
  import opened Parsing
  import opened Messages

  /** A record at the start of the input is applied to the message. */
  lemma ParseFrame<M>(sch: Schema, apply: (M, nat, bytes) -> Outcome<M>, m: M,
                      num: nat, payload: bytes, rest: bytes)
    requires 1 <= num <= sch.known <= 15 && |payload| < TWO_63
    ensures Parse(sch, apply, m, Frame(8 * num + 2, payload) + rest) ==
            if apply(m, num, payload).Failed? then apply(m, num, payload)
            else Parse(sch, apply, apply(m, num, payload).msg, rest)
  {
    hide NextPiece;
    var f := FrameField(num, payload);
    FrameFieldLegal(sch, num, payload);
    NextPiecePrint(sch, f, rest);
    assert (Print(f) + rest)[|Print(f)|..] == rest;
  }

  function FrameField(num: nat, payload: bytes): (f: Field)
    requires num <= 15
  {
    Delimited([8 * num + 2], Encode(|payload|), payload)
  }

  lemma FrameFieldLegal(sch: Schema, num: nat, payload: bytes)
    requires 1 <= num <= sch.known <= 15 && |payload| < TWO_63
    ensures Legal(sch, FrameField(num, payload)) && FieldNum(FrameField(num, payload)) == num
    ensures Print(FrameField(num, payload)) == Frame(8 * num + 2, payload)
  {
    var n: uint64 := |payload|;
    DecodeEncode64(n, []);
    EncodeLength(n);
    assert Encode(n) + [] == Encode(n);
    assert Decode([8 * num + 2]) == Ok(Read(8 * num + 2, 1));
    assert (8 * num + 2) / 8 == num && (8 * num + 2) % 8 == 2;
  }

  lemma FrameLonger(tag: byte, payload: bytes)
    ensures |payload| < |Frame(tag, payload)|
  {
  }

  lemma MoveHead<T>(a: seq<T>, b: seq<T>)
    requires b != []
    ensures (a + [b[0]]) + b[1..] == a + b
  {
  }

  lemma {:induction false} DeviceIdsRoundTrip(m: DevicesMsg, ids: seq<bytes>)
    requires |Frames(0x12, EncodeId, ids)| < TWO_63
    ensures ParseDevices(m, Frames(0x12, EncodeId, ids)) == Done(m.(deviceIds := m.deviceIds + ids))
    decreases |ids|
  {
    if ids == [] {
      assert m.deviceIds + ids == m.deviceIds;
    } else {
      hide Parse, Frame, Encode;
      FrameLonger(0x12, ids[0]);
      ParseFrame(DEVICES, ApplyDevices, m, 2, EncodeId(ids[0]), Frames(0x12, EncodeId, ids[1..]));
      DeviceIdsRoundTrip(m.(deviceIds := m.deviceIds + [ids[0]]), ids[1..]);
      MoveHead(m.deviceIds, ids);
    }
  }

  lemma DevicesRoundTrip(m: DevicesMsg)
    requires |EncodeDevices(m)| < TWO_63
    ensures ParseDevices(NO_DEVICES, EncodeDevices(m)) == Done(m)
  {
    var ids := Frames(0x12, EncodeId, m.deviceIds);
    if m.resourceName != [] {
      FrameLonger(0x0a, m.resourceName);
      ParseFrame(DEVICES, ApplyDevices, NO_DEVICES, 1, m.resourceName, ids);
    } else {
      assert EncodeDevices(m) == ids;
    }
    DeviceIdsRoundTrip(NO_DEVICES.(resourceName := m.resourceName), m.deviceIds);
    assert [] + m.deviceIds == m.deviceIds;
  }

  lemma {:induction false} DevicesListRoundTrip(m: ContainerMsg, ds: seq<DevicesMsg>)
    requires |Frames(0x12, EncodeDevices, ds)| < TWO_63
    ensures ParseContainer(m, Frames(0x12, EncodeDevices, ds)) == Done(m.(devices := m.devices + ds))
    decreases |ds|
  {
    if ds == [] {
      assert m.devices + ds == m.devices;
    } else {
      hide Parse, Frame, Encode;
      var payload := EncodeDevices(ds[0]);
      FrameLonger(0x12, payload);
      DevicesRoundTrip(ds[0]);
      ParseFrame(CONTAINER, ApplyContainer, m, 2, payload, Frames(0x12, EncodeDevices, ds[1..]));
      DevicesListRoundTrip(m.(devices := m.devices + [ds[0]]), ds[1..]);
      MoveHead(m.devices, ds);
    }
  }

  lemma ContainerRoundTrip(m: ContainerMsg)
    requires |EncodeContainer(m)| < TWO_63
    ensures ParseContainer(NO_CONTAINER, EncodeContainer(m)) == Done(m)
  {
    var ds := Frames(0x12, EncodeDevices, m.devices);
    if m.name != [] {
      FrameLonger(0x0a, m.name);
      ParseFrame(CONTAINER, ApplyContainer, NO_CONTAINER, 1, m.name, ds);
    } else {
      assert EncodeContainer(m) == ds;
    }
    DevicesListRoundTrip(NO_CONTAINER.(name := m.name), m.devices);
    assert [] + m.devices == m.devices;
  }

  lemma {:induction false} ContainersRoundTrip(m: PodMsg, cs: seq<ContainerMsg>)
    requires |Frames(0x1a, EncodeContainer, cs)| < TWO_63
    ensures ParsePod(m, Frames(0x1a, EncodeContainer, cs)) == Done(m.(containers := m.containers + cs))
    decreases |cs|
  {
    if cs == [] {
      assert m.containers + cs == m.containers;
    } else {
      hide Parse, Frame, Encode;
      var payload := EncodeContainer(cs[0]);
      FrameLonger(0x1a, payload);
      ContainerRoundTrip(cs[0]);
      ParseFrame(POD, ApplyPod, m, 3, payload, Frames(0x1a, EncodeContainer, cs[1..]));
      ContainersRoundTrip(m.(containers := m.containers + [cs[0]]), cs[1..]);
      MoveHead(m.containers, cs);
    }
  }

  lemma PodRoundTrip(m: PodMsg)
    requires |EncodePod(m)| < TWO_63
    ensures ParsePod(NO_POD, EncodePod(m)) == Done(m)
  {
    hide Parse, Frame, Frames;
    var cs := Frames(0x1a, EncodeContainer, m.containers);
    var tail := StringFrame(0x12, m.namespace) + cs;
    assert EncodePod(m) == StringFrame(0x0a, m.name) + tail;
    if m.name != [] {
      FrameLonger(0x0a, m.name);
      ParseFrame(POD, ApplyPod, NO_POD, 1, m.name, tail);
    } else {
      assert EncodePod(m) == tail;
    }
    var named := NO_POD.(name := m.name);
    if m.namespace != [] {
      FrameLonger(0x12, m.namespace);
      ParseFrame(POD, ApplyPod, named, 2, m.namespace, cs);
    } else {
      assert tail == cs;
    }
    ContainersRoundTrip(named.(namespace := m.namespace), m.containers);
    assert [] + m.containers == m.containers;
  }

  lemma {:induction false} PodsRoundTrip(m: ResponseMsg, ps: seq<PodMsg>)
    requires |Frames(0x0a, EncodePod, ps)| < TWO_63
    ensures ParseResponse(m, Frames(0x0a, EncodePod, ps)) == Done(m.(podResources := m.podResources + ps))
    decreases |ps|
  {
    if ps == [] {
      assert m.podResources + ps == m.podResources;
    } else {
      hide Parse, Frame, Encode;
      var payload := EncodePod(ps[0]);
      FrameLonger(0x0a, payload);
      PodRoundTrip(ps[0]);
      ParseFrame(RESPONSE, ApplyResponse, m, 1, payload, Frames(0x0a, EncodePod, ps[1..]));
      PodsRoundTrip(m.(podResources := m.podResources + [ps[0]]), ps[1..]);
      MoveHead(m.podResources, ps);
    }
  }

  /** Unmarshalling what was marshalled gives the same value at every level. */
  lemma ResponseRoundTrip(m: ResponseMsg)
    requires |EncodeResponse(m)| < TWO_63
    ensures ParseResponse(NO_RESPONSE, EncodeResponse(m)) == Done(m)
  {
    PodsRoundTrip(NO_RESPONSE, m.podResources);
    assert [] + m.podResources == m.podResources;
  }
}
