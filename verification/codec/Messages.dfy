// The four nested messages of the pod resources API (and its empty request):
// what they contain, how they are printed and measured, and what parsing does
// to each of them.
module Messages {
  import opened Varint
  import opened Parsing

  datatype RequestMsg = RequestMsg
  datatype DevicesMsg = DevicesMsg(resourceName: bytes, deviceIds: seq<bytes>)
  datatype ContainerMsg = ContainerMsg(name: bytes, devices: seq<DevicesMsg>)
  datatype PodMsg = PodMsg(name: bytes, namespace: bytes, containers: seq<ContainerMsg>)
  datatype ResponseMsg = ResponseMsg(podResources: seq<PodMsg>)

  const NO_DEVICES := DevicesMsg([], [])
  const NO_CONTAINER := ContainerMsg([], [])
  const NO_POD := PodMsg([], [], [])
  const NO_RESPONSE := ResponseMsg([])

  const REQUEST := Schema("ListPodResourcesRequest", 0)
  const DEVICES := Schema("ContainerDevices", 2)
  const CONTAINER := Schema("ContainerResources", 2)
  const POD := Schema("PodResources", 3)
  const RESPONSE := Schema("ListPodResourcesResponse", 1)

  // ---- Printing ----

  /** One length-delimited record. */
  function Frame(tag: byte, payload: bytes): (s: bytes)
  {
    [tag] + Encode(|payload|) + payload
  }

  /** A string field is left out when it is empty. */
  function StringFrame(tag: byte, payload: bytes): (s: bytes)
  {
    if payload == [] then [] else Frame(tag, payload)
  }

  /** A repeated field writes every element, empty ones too. */
  function Frames<T>(tag: byte, encode: T -> bytes, elements: seq<T>): (s: bytes)
  {
    if elements == [] then [] else Frame(tag, encode(elements[0])) + Frames(tag, encode, elements[1..])
  }

  function EncodeId(id: bytes): (s: bytes)
  {
    id
  }

  function EncodeDevices(m: DevicesMsg): (s: bytes)
  {
    StringFrame(0x0a, m.resourceName) + Frames(0x12, EncodeId, m.deviceIds)
  }

  function EncodeContainer(m: ContainerMsg): (s: bytes)
  {
    StringFrame(0x0a, m.name) + Frames(0x12, EncodeDevices, m.devices)
  }

  function EncodePod(m: PodMsg): (s: bytes)
  {
    StringFrame(0x0a, m.name) + StringFrame(0x12, m.namespace) + Frames(0x1a, EncodeContainer, m.containers)
  }

  function EncodeResponse(m: ResponseMsg): (s: bytes)
  {
    Frames(0x0a, EncodePod, m.podResources)
  }

  lemma {:induction false} FramesConcat<T>(tag: byte, encode: T -> bytes, a: seq<T>, b: seq<T>)
    ensures Frames(tag, encode, a + b) == Frames(tag, encode, a) + Frames(tag, encode, b)
  {
    if a == [] {
      assert a + b == b;
    } else {
      hide Frame;
      assert (a + b)[1..] == a[1..] + b;
      FramesConcat(tag, encode, a[1..], b);
    }
  }

  // ---- Measuring ----

  function FrameSize(l: nat): (n: nat)
  {
    1 + l + Sov(l)
  }

  function StringFrameSize(l: nat): (n: nat)
  {
    if l == 0 then 0 else FrameSize(l)
  }

  function FramesSize<T>(size: T -> nat, elements: seq<T>): (n: nat)
  {
    if elements == [] then 0 else FrameSize(size(elements[0])) + FramesSize(size, elements[1..])
  }

  function IdSize(id: bytes): (n: nat)
  {
    |id|
  }

  function DevicesSize(m: DevicesMsg): (n: nat)
  {
    StringFrameSize(|m.resourceName|) + FramesSize(IdSize, m.deviceIds)
  }

  function ContainerSize(m: ContainerMsg): (n: nat)
  {
    StringFrameSize(|m.name|) + FramesSize(DevicesSize, m.devices)
  }

  function PodSize(m: PodMsg): (n: nat)
  {
    StringFrameSize(|m.name|) + StringFrameSize(|m.namespace|) + FramesSize(ContainerSize, m.containers)
  }

  function ResponseSize(m: ResponseMsg): (n: nat)
  {
    FramesSize(PodSize, m.podResources)
  }

  lemma FrameLength(tag: byte, payload: bytes)
    ensures |Frame(tag, payload)| == FrameSize(|payload|)
  {
    EncodeLength(|payload|);
  }

  lemma {:induction false} FramesLength<T(!new)>(tag: byte, encode: T -> bytes, size: T -> nat, elements: seq<T>)
    requires forall e :: |encode(e)| == size(e)
    ensures |Frames(tag, encode, elements)| == FramesSize(size, elements)
  {
    if elements != [] {
      FrameLength(tag, encode(elements[0]));
      FramesLength(tag, encode, size, elements[1..]);
    }
  }

  lemma StringFrameLength(tag: byte, payload: bytes)
    ensures |StringFrame(tag, payload)| == StringFrameSize(|payload|)
  {
    FrameLength(tag, payload);
  }

  lemma DevicesLength(m: DevicesMsg)
    ensures |EncodeDevices(m)| == DevicesSize(m)
  {
    StringFrameLength(0x0a, m.resourceName);
    FramesLength(0x12, EncodeId, IdSize, m.deviceIds);
  }

  lemma DevicesListLength(ds: seq<DevicesMsg>)
    ensures |Frames(0x12, EncodeDevices, ds)| == FramesSize(DevicesSize, ds)
  {
    forall d ensures |EncodeDevices(d)| == DevicesSize(d) { DevicesLength(d); }
    FramesLength(0x12, EncodeDevices, DevicesSize, ds);
  }

  lemma ContainerLength(m: ContainerMsg)
    ensures |EncodeContainer(m)| == ContainerSize(m)
  {
    StringFrameLength(0x0a, m.name);
    DevicesListLength(m.devices);
  }

  lemma ContainersLength(cs: seq<ContainerMsg>)
    ensures |Frames(0x1a, EncodeContainer, cs)| == FramesSize(ContainerSize, cs)
  {
    forall c ensures |EncodeContainer(c)| == ContainerSize(c) { ContainerLength(c); }
    FramesLength(0x1a, EncodeContainer, ContainerSize, cs);
  }

  lemma PodLength(m: PodMsg)
    ensures |EncodePod(m)| == PodSize(m)
  {
    StringFrameLength(0x0a, m.name);
    StringFrameLength(0x12, m.namespace);
    ContainersLength(m.containers);
  }

  lemma PodsLength(ps: seq<PodMsg>)
    ensures |Frames(0x0a, EncodePod, ps)| == FramesSize(PodSize, ps)
  {
    forall p ensures |EncodePod(p)| == PodSize(p) { PodLength(p); }
    FramesLength(0x0a, EncodePod, PodSize, ps);
  }

  /** Size is the length of what MarshalTo writes. */
  lemma ResponseLength(m: ResponseMsg)
    ensures |EncodeResponse(m)| == ResponseSize(m)
  {
    PodsLength(m.podResources);
  }

  // ---- Parsing ----

  function ApplyNothing(m: RequestMsg, num: nat, payload: bytes): (r: Outcome<RequestMsg>)
  {
    Done(m)
  }

  function ApplyDevices(m: DevicesMsg, num: nat, payload: bytes): (r: Outcome<DevicesMsg>)
  {
    match num
    case 1 => Done(m.(resourceName := payload))
    case 2 => Done(m.(deviceIds := m.deviceIds + [payload]))
    case _ => Done(m)
  }

  /** An element that fails to parse is left, as far as it got, in the message
      that fails with it. */
  function ApplyContainer(m: ContainerMsg, num: nat, payload: bytes): (r: Outcome<ContainerMsg>)
  {
    match num
    case 1 => Done(m.(name := payload))
    case 2 =>
      (match ParseDevices(NO_DEVICES, payload)
       case Done(d) => Done(m.(devices := m.devices + [d]))
       case Failed(d, e) => Failed(m.(devices := m.devices + [d]), e))
    case _ => Done(m)
  }

  function ApplyPod(m: PodMsg, num: nat, payload: bytes): (r: Outcome<PodMsg>)
  {
    match num
    case 1 => Done(m.(name := payload))
    case 2 => Done(m.(namespace := payload))
    case 3 =>
      (match ParseContainer(NO_CONTAINER, payload)
       case Done(c) => Done(m.(containers := m.containers + [c]))
       case Failed(c, e) => Failed(m.(containers := m.containers + [c]), e))
    case _ => Done(m)
  }

  function ApplyResponse(m: ResponseMsg, num: nat, payload: bytes): (r: Outcome<ResponseMsg>)
  {
    match num
    case 1 =>
      (match ParsePod(NO_POD, payload)
       case Done(p) => Done(m.(podResources := m.podResources + [p]))
       case Failed(p, e) => Failed(m.(podResources := m.podResources + [p]), e))
    case _ => Done(m)
  }

  function ParseRequest(m: RequestMsg, s: bytes): (r: Outcome<RequestMsg>)
  {
    Parse(REQUEST, ApplyNothing, m, s)
  }

  function ParseDevices(m: DevicesMsg, s: bytes): (r: Outcome<DevicesMsg>)
  {
    Parse(DEVICES, ApplyDevices, m, s)
  }

  function ParseContainer(m: ContainerMsg, s: bytes): (r: Outcome<ContainerMsg>)
  {
    Parse(CONTAINER, ApplyContainer, m, s)
  }

  function ParsePod(m: PodMsg, s: bytes): (r: Outcome<PodMsg>)
  {
    Parse(POD, ApplyPod, m, s)
  }

  function ParseResponse(m: ResponseMsg, s: bytes): (r: Outcome<ResponseMsg>)
  {
    Parse(RESPONSE, ApplyResponse, m, s)
  }
}
