// The generated codec itself: message objects whose methods measure, print
// and parse, over buffers and indexes. Every method is proved against the
// functions of modules Skipping, Parsing and Messages.
module Api {
  import opened Varint
  import opened Bits
  import opened Skipping
  import opened Parsing
  import opened Messages
  import RoundTrip

  // ---- Parsing ----

  /** skipApi. The code panics on an empty slice and is never given one; its
      outer loop never comes round, because every wire type returns. */
  method SkipApi(dAtA: seq<byte>) returns (r: Result<nat>)
    requires |dAtA| > 0
    ensures r == Skip(dAtA)
    decreases |dAtA|
  {
    hide Decode, SkipGroup;
    var iNdEx := 0;
    assert dAtA[0..] == dAtA;
    var wire := DecodeVarint(dAtA, iNdEx);
    if wire.Err? {
      return Err(wire.error);
    }
    DecodeBounds64(dAtA);
    iNdEx := iNdEx + wire.value.size;
    var wireType := wire.value.value % 8;
    match wireType {
      case 0 =>
        var v := DecodeVarint(dAtA, iNdEx);
        if v.Err? {
          return Err(v.error);
        }
        return Ok(iNdEx + v.value.size);
      case 1 =>
        iNdEx := iNdEx + 8;
        return Ok(iNdEx);
      case 2 =>
        var length := DecodeVarint(dAtA, iNdEx);
        if length.Err? {
          return Err(length.error);
        }
        iNdEx := iNdEx + length.value.size + length.value.value;
        if length.value.value >= TWO_63 {
          return Err(InvalidLength);
        }
        return Ok(iNdEx);
      case 3 =>
        r := SkipApiGroup(dAtA, iNdEx);
        return;
      case 4 =>
        return Ok(iNdEx);
      case 5 =>
        iNdEx := iNdEx + 4;
        return Ok(iNdEx);
      case _ =>
        return Err(IllegalWireType(wireType));
    }
  }

  /** The inner loop of skipApi, entered after a start-group tag. */
  method SkipApiGroup(dAtA: seq<byte>, first: nat) returns (r: Result<nat>)
    requires 1 <= first <= |dAtA|
    ensures r == Plus(first, SkipGroup(dAtA[first..]))
    decreases |dAtA|, 0
  {
    hide Skip, Decode;
    var iNdEx := first;
    while true
      invariant first <= iNdEx
      invariant Plus(first, SkipGroup(dAtA[first..])) ==
                if iNdEx > |dAtA| then Err(UnexpectedEOF) else Plus(iNdEx, SkipGroup(dAtA[iNdEx..]))
      decreases |dAtA| - iNdEx
    {
      var start := iNdEx;
      var innerWire := DecodeVarint(dAtA, iNdEx);
      if innerWire.Err? {
        return Err(innerWire.error);
      }
      DecodeBounds64(dAtA[start..]);
      iNdEx := iNdEx + innerWire.value.size;
      if innerWire.value.value % 8 == 4 {
        return Ok(iNdEx);
      }
      var next := SkipApi(dAtA[start..]);
      if next.Err? {
        return Err(next.error);
      }
      iNdEx := start + next.value;
      if iNdEx <= |dAtA| {
        assert dAtA[start..][next.value..] == dAtA[iNdEx..];
      }
    }
  }

  /** What every generated Unmarshal does at the head of its loop: read the tag
      at iNdEx, check it, and read the payload of a known field or skip an
      unknown one. */
  method ReadPiece(sch: Schema, dAtA: seq<byte>, iNdEx: nat) returns (p: Piece)
    requires iNdEx < |dAtA|
    ensures p == NextPiece(sch, dAtA[iNdEx..])
  {
    hide Decode, Skip;
    var l := |dAtA|;
    var preIndex := iNdEx;
    var wire := DecodeVarint(dAtA, iNdEx);
    if wire.Err? {
      return Broken(wire.error);
    }
    DecodeBounds64(dAtA[preIndex..]);
    var i := iNdEx + wire.value.size;
    var fieldNum := Int32(wire.value.value / 8);
    var wireType := wire.value.value % 8;
    if wireType == 4 {
      return Broken(EndGroupOutsideGroup(sch.message));
    }
    if fieldNum <= 0 {
      return Broken(IllegalTag(sch.message, fieldNum, wire.value.value));
    }
    if fieldNum > sch.known {
      i := preIndex;
      var skippy := SkipApi(dAtA[i..]);
      if skippy.Err? {
        return Broken(skippy.error);
      }
      if i + skippy.value > l {
        return Broken(UnexpectedEOF);
      }
      return Unknown(skippy.value);
    }
    if wireType != 2 {
      return Broken(WrongWireType(sch.message, fieldNum, wireType));
    }
    assert dAtA[preIndex..][wire.value.size..] == dAtA[i..];
    var len := DecodeVarint(dAtA, i);
    if len.Err? {
      return Broken(len.error);
    }
    DecodeBounds64(dAtA[i..]);
    i := i + len.value.size;
    if len.value.value >= TWO_63 {
      return Broken(InvalidLength);
    }
    var postIndex := i + len.value.value;
    if postIndex > l {
      return Broken(UnexpectedEOF);
    }
    assert dAtA[i..postIndex] == dAtA[preIndex..][i - preIndex..postIndex - preIndex];
    return Known(fieldNum, dAtA[i..postIndex], postIndex - preIndex);
  }

  datatype Status = Success | Failure(error: Error)

  /** What a call of Unmarshal amounts to: the message it leaves and its error. */
  function Report<M>(m: M, status: Status): (r: Outcome<M>)
  {
    match status case Success => Done(m) case Failure(e) => Failed(m, e)
  }

  // ---- Printing ----

  /** The tag and the length prefix of a record. */
  method PutHeader(dAtA: array<byte>, offset: nat, tag: byte, l: nat) returns (i: nat)
    requires l < TWO_63 && offset + 1 + Sov(l) <= dAtA.Length
    modifies dAtA
    ensures i == offset + 1 + Sov(l) == offset + |[tag] + Encode(l)|
    ensures dAtA[..] == Overwrite(old(dAtA[..]), offset, [tag] + Encode(l))
  {
    hide Encode, Sov;
    EncodeLength(l);
    OverwriteOne(dAtA[..], offset, tag);
    OverwriteThen(dAtA[..], offset, [tag], Encode(l));
    hide Overwrite;
    dAtA[offset] := tag;
    i := EncodeVarintApi(dAtA, offset + 1, l);
  }

  /** i += copy(dAtA[i:], s) */
  method CopyString(dAtA: array<byte>, i: nat, s: bytes) returns (end: nat)
    requires i + |s| <= dAtA.Length
    modifies dAtA
    ensures end == i + |s|
    ensures dAtA[..] == Overwrite(old(dAtA[..]), i, s)
  {
    end := i + |s|;
    forall k | 0 <= k < |s| {
      dAtA[i + k] := s[k];
    }
  }

  /** A tag, a length prefix and a string. */
  method PutString(dAtA: array<byte>, offset: nat, tag: byte, s: bytes) returns (end: nat)
    requires |s| < TWO_63 && offset + FrameSize(|s|) <= dAtA.Length
    modifies dAtA
    ensures end == offset + FrameSize(|s|) == offset + |Frame(tag, s)|
    ensures dAtA[..] == Overwrite(old(dAtA[..]), offset, Frame(tag, s))
  {
    hide Encode, Sov, Overwrite;
    FrameLength(tag, s);
    EncodeLength(|s|);
    OverwriteThen(dAtA[..], offset, [tag] + Encode(|s|), s);
    end := PutHeader(dAtA, offset, tag, |s|);
    end := CopyString(dAtA, end, s);
  }

  /** The copy of the varint loop inside ContainerDevices.MarshalTo: it writes
      the same bytes as encodeVarintApi. */
  method PutLength(dAtA: array<byte>, offset: nat, length: nat) returns (i: nat)
    requires length < TWO_63 && offset + Sov(length) <= dAtA.Length
    modifies dAtA
    ensures i == offset + Sov(length) == offset + |Encode(length)|
    ensures dAtA[..] == Overwrite(old(dAtA[..]), offset, Encode(length))
  {
    hide *;
    EncodeLength(length);
    OverwriteNothing(dAtA[..], offset);
    var l: nat := length;
    i := offset;
    ghost var written: bytes := [];
    while l >= 0x80
      invariant i == offset + |written| && i + Sov(l) == offset + Sov(length) <= dAtA.Length && Sov(l) >= 1
      invariant written + Encode(l) == Encode(length)
      invariant dAtA[..] == Overwrite(old(dAtA[..]), offset, written)
      decreases l
    {
      EncodeStep(l);
      EncodeLength(Shr(l, 7));
      AppendAssoc(written, Continued(l), Encode(Shr(l, 7)));
      WriteOne(old(dAtA[..]), offset, written, Continued(l));
      written := written + [Continued(l)];
      dAtA[i] := Continued(l);
      l := Shr(l, 7);
      i := i + 1;
    }
    EncodeStep(l);
    WriteOne(old(dAtA[..]), offset, written, l);
    dAtA[i] := l;
    i := i + 1;
  }

  /** One round of the loop over DeviceIds in ContainerDevices.MarshalTo. */
  method PutDeviceId(dAtA: array<byte>, offset: nat, s: bytes) returns (end: nat)
    requires |s| < TWO_63 && offset + FrameSize(|s|) <= dAtA.Length
    modifies dAtA
    ensures end == offset + FrameSize(|s|) == offset + |Frame(0x12, s)|
    ensures dAtA[..] == Overwrite(old(dAtA[..]), offset, Frame(0x12, s))
  {
    hide Encode, Sov, Overwrite;
    FrameLength(0x12, s);
    EncodeLength(|s|);
    OverwriteOne(dAtA[..], offset, 0x12);
    OverwriteThen(dAtA[..], offset, [0x12], Encode(|s|));
    OverwriteThen(dAtA[..], offset, [0x12] + Encode(|s|), s);
    dAtA[offset] := 0x12;
    var i := PutLength(dAtA, offset + 1, |s|);
    end := CopyString(dAtA, i, s);
  }

  // ---- The messages ----

  /** The request has no fields: marshalling writes nothing, and everything
      that is read is skipped. */
  class ListPodResourcesRequest {
    constructor ()
    {
    }

    method Unmarshal(dAtA: seq<byte>) returns (status: Status)
      ensures Report(RequestMsg, status) == ParseRequest(RequestMsg, dAtA)
    {
      hide NextPiece;
      var l := |dAtA|;
      var iNdEx := 0;
      assert dAtA[0..] == dAtA;
      while iNdEx < l
        invariant iNdEx <= l
        invariant ParseRequest(RequestMsg, dAtA[iNdEx..]) == ParseRequest(RequestMsg, dAtA)
      {
        var p := ReadPiece(REQUEST, dAtA, iNdEx);
        if p.Broken? {
          return Failure(p.error);
        }
        assert dAtA[iNdEx..][p.size..] == dAtA[iNdEx + p.size..];
        iNdEx := iNdEx + p.size;
      }
      return Success;
    }
  }

  class ContainerDevices {
    var resourceName: bytes
    var deviceIds: seq<bytes>

    constructor ()
      ensures Value() == NO_DEVICES
    {
      resourceName, deviceIds := [], [];
    }

    ghost function Value(): (m: DevicesMsg)
      reads this
    {
      DevicesMsg(resourceName, deviceIds)
    }

    method Unmarshal(dAtA: seq<byte>) returns (status: Status)
      modifies this
      ensures Report(Value(), status) == ParseDevices(old(Value()), dAtA)
    {
      hide NextPiece;
      var l := |dAtA|;
      var iNdEx := 0;
      assert dAtA[0..] == dAtA;
      while iNdEx < l
        invariant iNdEx <= l
        invariant ParseDevices(Value(), dAtA[iNdEx..]) == ParseDevices(old(Value()), dAtA)
      {
        var p := ReadPiece(DEVICES, dAtA, iNdEx);
        assert p.Broken? || dAtA[iNdEx..][p.size..] == dAtA[iNdEx + p.size..];
        match p {
          case Broken(e) =>
            return Failure(e);
          case Known(fieldNum, payload, n) =>
            if fieldNum == 1 {
              resourceName := payload;
            } else {
              deviceIds := deviceIds + [payload];
            }
            iNdEx := iNdEx + n;
          case Unknown(n) =>
            iNdEx := iNdEx + n;
        }
      }
      return Success;
    }

    method Size() returns (n: nat)
      requires DevicesSize(Value()) < TWO_63
      ensures n == DevicesSize(Value())
    {
      n := 0;
      var l := |resourceName|;
      if l > 0 {
        var k := SovApi(l);
        n := n + 1 + l + k;
      }
      for j := 0 to |deviceIds|
        invariant n + FramesSize(IdSize, deviceIds[j..]) == DevicesSize(Value())
      {
        assert deviceIds[j..][1..] == deviceIds[j + 1..];
        l := |deviceIds[j]|;
        var k := SovApi(l);
        n := n + 1 + l + k;
      }
    }

    method MarshalTo(dAtA: array<byte>, offset: nat) returns (i: nat)
      requires DevicesSize(Value()) < TWO_63 && offset + DevicesSize(Value()) <= dAtA.Length
      modifies dAtA
      ensures i == DevicesSize(Value()) == |EncodeDevices(Value())|
      ensures dAtA[..] == Overwrite(old(dAtA[..]), offset, EncodeDevices(Value()))
    {
      hide Frame, FrameSize, FramesSize, Overwrite;
      ghost var all := EncodeDevices(Value());
      DevicesLength(Value());
      hide DevicesSize;
      ghost var written: bytes := [];
      OverwriteNothing(dAtA[..], offset);
      i := 0;
      if |resourceName| > 0 {
        FitsFirst(0x0a, resourceName);
        var end := PutString(dAtA, offset + i, 0x0a, resourceName);
        i := end - offset;
        written := Frame(0x0a, resourceName);
      }
      hide StringFrame;
      for j := 0 to |deviceIds|
        invariant i == |written| && offset + |all| <= dAtA.Length
        invariant written + Frames(0x12, EncodeId, deviceIds[j..]) == all
        invariant dAtA[..] == Overwrite(old(dAtA[..]), offset, written)
      {
        FramesSplit(written, 0x12, EncodeId, deviceIds, j);
        FitsFirst(0x12, deviceIds[j]);
        OverwriteThen(old(dAtA[..]), offset, written, Frame(0x12, deviceIds[j]));
        var end := PutDeviceId(dAtA, offset + i, deviceIds[j]);
        i := end - offset;
        written := written + Frame(0x12, deviceIds[j]);
      }
      assert written + [] == written;
    }

    /** This message as a field of another: its Size as the length prefix, and
        then exactly as many bytes from MarshalTo. */
    method PutField(dAtA: array<byte>, offset: nat, tag: byte) returns (end: nat)
      requires DevicesSize(Value()) < TWO_63 && offset + FrameSize(DevicesSize(Value())) <= dAtA.Length
      modifies dAtA
      ensures end == offset + FrameSize(DevicesSize(Value())) == offset + |Frame(tag, EncodeDevices(Value()))|
      ensures dAtA[..] == Overwrite(old(dAtA[..]), offset, Frame(tag, EncodeDevices(Value())))
    {
      hide DevicesSize, EncodeDevices, Encode, Sov, Overwrite;
      ghost var payload := EncodeDevices(Value());
      DevicesLength(Value());
      FrameLength(tag, payload);
      EncodeLength(|payload|);
      OverwriteThen(dAtA[..], offset, [tag] + Encode(|payload|), payload);
      var size := Size();
      var i := PutHeader(dAtA, offset, tag, size);
      var n := MarshalTo(dAtA, i);
      assert n == size;
      end := i + n;
    }

    method Marshal() returns (data: bytes)
      requires DevicesSize(Value()) < TWO_63
      ensures data == EncodeDevices(Value())
    {
      hide EncodeDevices, DevicesSize;
      DevicesLength(Value());
      var size := Size();
      var dAtA := new byte[size];
      var n := MarshalTo(dAtA, 0);
      data := dAtA[..n];
    }
  }

  ghost function DeviceValues(es: seq<ContainerDevices>): (vs: seq<DevicesMsg>)
    reads es
  {
    seq(|es|, i requires 0 <= i < |es| reads es =>
      assert es[i] in es;
      es[i].Value())
  }

  lemma DeviceValuesOf(es: seq<ContainerDevices>)
    ensures |DeviceValues(es)| == |es| && forall i :: 0 <= i < |es| ==> es[i].Value() == DeviceValues(es)[i]
  {
  }

  class ContainerResources {
    var name: bytes
    var devices: seq<ContainerDevices>

    constructor ()
      ensures Value() == NO_CONTAINER && devices == []
    {
      name, devices := [], [];
    }

    ghost function Value(): (m: ContainerMsg)
      reads this, devices
    {
      ContainerMsg(name, DeviceValues(devices))
    }

    /** Appends an empty element and parses the payload into it. */
    method Append(payload: bytes) returns (status: Status)
      modifies this`devices
      ensures old(devices) <= devices && |devices| == |old(devices)| + 1
      ensures fresh(devices[|old(devices)|])
      ensures DeviceValues(devices) == old(DeviceValues(devices)) + [ParseDevices(NO_DEVICES, payload).msg]
      ensures Report(ParseDevices(NO_DEVICES, payload).msg, status) == ParseDevices(NO_DEVICES, payload)
    {
      hide ParseDevices;
      var e := new ContainerDevices();
      devices := devices + [e];
      status := e.Unmarshal(payload);
    }

    method Unmarshal(dAtA: seq<byte>) returns (status: Status)
      modifies this
      ensures old(devices) <= devices
      ensures forall i :: |old(devices)| <= i < |devices| ==> fresh(devices[i])
      ensures Report(Value(), status) == ParseContainer(old(Value()), dAtA)
    {
      hide NextPiece, DeviceValues, ParseDevices;
      var l := |dAtA|;
      var iNdEx := 0;
      assert dAtA[0..] == dAtA;
      while iNdEx < l
        invariant iNdEx <= l
        invariant old(devices) <= devices
        invariant forall i :: |old(devices)| <= i < |devices| ==> fresh(devices[i])
        invariant ParseContainer(Value(), dAtA[iNdEx..]) == ParseContainer(old(Value()), dAtA)
      {
        var p := ReadPiece(CONTAINER, dAtA, iNdEx);
        assert p.Broken? || dAtA[iNdEx..][p.size..] == dAtA[iNdEx + p.size..];
        match p {
          case Broken(e) =>
            return Failure(e);
          case Known(fieldNum, payload, n) =>
            if fieldNum == 1 {
              name := payload;
            } else {
              var err := Append(payload);
              if err.Failure? {
                return err;
              }
            }
            iNdEx := iNdEx + n;
          case Unknown(n) =>
            iNdEx := iNdEx + n;
        }
      }
      return Success;
    }

    /** The loop over the devices in Size. */
    method SizeOfDevices() returns (n: nat)
      requires FramesSize(DevicesSize, DeviceValues(devices)) < TWO_63
      ensures n == FramesSize(DevicesSize, DeviceValues(devices))
    {
      hide *;
      ghost var values := DeviceValues(devices);
      DeviceValuesOf(devices);
      ghost var total := FramesSize(DevicesSize, values);
      FramesSizeNone(DevicesSize);
      n := 0;
      assert values[0..] == values && values[|values|..] == [];
      for j := 0 to |devices|
        invariant forall k :: 0 <= k < |devices| ==> devices[k].Value() == values[k]
        invariant n + FramesSize(DevicesSize, values[j..]) == total < TWO_63
      {
        FramesSizeSplit(DevicesSize, values, j);
        var l := devices[j].Size();
        Below64(l);
        var k := SovApi(l);
        n := n + 1 + l + k;
      }
    }

    method Size() returns (n: nat)
      requires ContainerSize(Value()) < TWO_63
      ensures n == ContainerSize(Value())
    {
      hide DevicesSize, Sov, FramesSize, DeviceValues;
      n := 0;
      var l := |name|;
      if l > 0 {
        var k := SovApi(l);
        n := n + 1 + l + k;
      }
      var rest := SizeOfDevices();
      n := n + rest;
    }

    /** The loop over the devices in MarshalTo. */
    method PutDevices(dAtA: array<byte>, offset: nat) returns (end: nat)
      requires FramesSize(DevicesSize, DeviceValues(devices)) < TWO_63
      requires offset + FramesSize(DevicesSize, DeviceValues(devices)) <= dAtA.Length
      modifies dAtA
      ensures end == offset + old(FramesSize(DevicesSize, DeviceValues(devices)))
      ensures end == offset + |Frames(0x12, EncodeDevices, old(DeviceValues(devices)))|
      ensures dAtA[..] == Overwrite(old(dAtA[..]), offset, Frames(0x12, EncodeDevices, old(DeviceValues(devices))))
    {
      hide *;
      ghost var values := DeviceValues(devices);
      DeviceValuesOf(devices);
      ghost var all := Frames(0x12, EncodeDevices, values);
      DevicesListLength(values);
      ghost var written: bytes := [];
      OverwriteNothing(dAtA[..], offset);
      end := offset;
      FramesNone(0x12, EncodeDevices);
      assert values[0..] == values && values[|values|..] == [];
      for j := 0 to |devices|
        invariant end == offset + |written| && offset + |all| <= dAtA.Length
        invariant forall k :: 0 <= k < |devices| ==> devices[k].Value() == values[k]
        invariant written + Frames(0x12, EncodeDevices, values[j..]) == all
        invariant dAtA[..] == Overwrite(old(dAtA[..]), offset, written)
      {
        DevicesLength(values[j]);
        FramesSplit(written, 0x12, EncodeDevices, values, j);
        FitsFirst(0x12, EncodeDevices(values[j]));
        OverwriteThen(old(dAtA[..]), offset, written, Frame(0x12, EncodeDevices(values[j])));
        end := devices[j].PutField(dAtA, end, 0x12);
        written := written + Frame(0x12, EncodeDevices(values[j]));
      }
      assert written + [] == written;
    }

    method MarshalTo(dAtA: array<byte>, offset: nat) returns (i: nat)
      requires ContainerSize(Value()) < TWO_63 && offset + ContainerSize(Value()) <= dAtA.Length
      modifies dAtA
      ensures i == old(ContainerSize(Value())) == |EncodeContainer(old(Value()))|
      ensures dAtA[..] == Overwrite(old(dAtA[..]), offset, EncodeContainer(old(Value())))
    {
      hide Frame, FrameSize, Frames, FramesSize, Overwrite, Encode, Sov, EncodeDevices, DevicesSize;
      ghost var elements := Frames(0x12, EncodeDevices, DeviceValues(devices));
      ContainerLength(Value());
      DevicesListLength(DeviceValues(devices));
      ghost var written: bytes := [];
      OverwriteNothing(dAtA[..], offset);
      i := 0;
      if |name| > 0 {
        FitsFirst(0x0a, name);
        var end := PutString(dAtA, offset + i, 0x0a, name);
        i := end - offset;
        written := Frame(0x0a, name);
      }
      OverwriteThen(old(dAtA[..]), offset, written, elements);
      var end := PutDevices(dAtA, offset + i);
      i := end - offset;
    }

    /** This message as a field of another: its Size as the length prefix, and
        then exactly as many bytes from MarshalTo. */
    method PutField(dAtA: array<byte>, offset: nat, tag: byte) returns (end: nat)
      requires ContainerSize(Value()) < TWO_63 && offset + FrameSize(ContainerSize(Value())) <= dAtA.Length
      modifies dAtA
      ensures end == offset + FrameSize(old(ContainerSize(Value())))
      ensures end == offset + |Frame(tag, EncodeContainer(old(Value())))|
      ensures dAtA[..] == Overwrite(old(dAtA[..]), offset, Frame(tag, EncodeContainer(old(Value()))))
    {
      hide ContainerSize, EncodeContainer, Encode, Sov, Overwrite;
      ghost var payload := EncodeContainer(Value());
      ContainerLength(Value());
      FrameLength(tag, payload);
      EncodeLength(|payload|);
      OverwriteThen(dAtA[..], offset, [tag] + Encode(|payload|), payload);
      var size := Size();
      var i := PutHeader(dAtA, offset, tag, size);
      var n := MarshalTo(dAtA, i);
      assert n == size;
      end := i + n;
    }

    method Marshal() returns (data: bytes)
      requires ContainerSize(Value()) < TWO_63
      ensures data == EncodeContainer(Value())
    {
      hide EncodeContainer, ContainerSize;
      ContainerLength(Value());
      var size := Size();
      var dAtA := new byte[size];
      var n := MarshalTo(dAtA, 0);
      data := dAtA[..n];
    }
  }

  ghost function ContainerValues(es: seq<ContainerResources>): (vs: seq<ContainerMsg>)
    reads es, set i, j | 0 <= i < |es| && 0 <= j < |es[i].devices| :: es[i].devices[j]
  {
    seq(|es|, i requires 0 <= i < |es|
              reads es, set i, j | 0 <= i < |es| && 0 <= j < |es[i].devices| :: es[i].devices[j] =>
      es[i].Value())
  }

  lemma ContainerValuesOf(es: seq<ContainerResources>)
    ensures |ContainerValues(es)| == |es| && forall i :: 0 <= i < |es| ==> es[i].Value() == ContainerValues(es)[i]
  {
  }

  class PodResources {
    var name: bytes
    var namespace: bytes
    var containers: seq<ContainerResources>

    constructor ()
      ensures Value() == NO_POD && containers == []
    {
      name, namespace, containers := [], [], [];
    }

    ghost function Value(): (m: PodMsg)
      reads this, containers,
            set i, j | 0 <= i < |containers| && 0 <= j < |containers[i].devices| :: containers[i].devices[j]
    {
      PodMsg(name, namespace, ContainerValues(containers))
    }

    /** Appends an empty element and parses the payload into it. */
    method Append(payload: bytes) returns (status: Status)
      modifies this`containers
      ensures old(containers) <= containers && |containers| == |old(containers)| + 1
      ensures fresh(containers[|old(containers)|])
      ensures ContainerValues(containers) ==
              old(ContainerValues(containers)) + [ParseContainer(NO_CONTAINER, payload).msg]
      ensures Report(ParseContainer(NO_CONTAINER, payload).msg, status) == ParseContainer(NO_CONTAINER, payload)
    {
      hide ParseContainer;
      var e := new ContainerResources();
      containers := containers + [e];
      status := e.Unmarshal(payload);
    }

    method Unmarshal(dAtA: seq<byte>) returns (status: Status)
      modifies this
      ensures old(containers) <= containers
      ensures forall i :: |old(containers)| <= i < |containers| ==> fresh(containers[i])
      ensures Report(Value(), status) == ParsePod(old(Value()), dAtA)
    {
      hide NextPiece, ContainerValues, ParseContainer;
      var l := |dAtA|;
      var iNdEx := 0;
      assert dAtA[0..] == dAtA;
      while iNdEx < l
        invariant iNdEx <= l
        invariant old(containers) <= containers
        invariant forall i :: |old(containers)| <= i < |containers| ==> fresh(containers[i])
        invariant ParsePod(Value(), dAtA[iNdEx..]) == ParsePod(old(Value()), dAtA)
      {
        var p := ReadPiece(POD, dAtA, iNdEx);
        assert p.Broken? || dAtA[iNdEx..][p.size..] == dAtA[iNdEx + p.size..];
        match p {
          case Broken(e) =>
            return Failure(e);
          case Known(fieldNum, payload, n) =>
            if fieldNum == 1 {
              name := payload;
            } else if fieldNum == 2 {
              namespace := payload;
            } else {
              var err := Append(payload);
              if err.Failure? {
                return err;
              }
            }
            iNdEx := iNdEx + n;
          case Unknown(n) =>
            iNdEx := iNdEx + n;
        }
      }
      return Success;
    }

    /** The loop over the containers in Size. */
    method SizeOfContainers() returns (n: nat)
      requires FramesSize(ContainerSize, ContainerValues(containers)) < TWO_63
      ensures n == FramesSize(ContainerSize, ContainerValues(containers))
    {
      hide *;
      ghost var values := ContainerValues(containers);
      ContainerValuesOf(containers);
      ghost var total := FramesSize(ContainerSize, values);
      FramesSizeNone(ContainerSize);
      n := 0;
      assert values[0..] == values && values[|values|..] == [];
      for j := 0 to |containers|
        invariant forall k :: 0 <= k < |containers| ==> containers[k].Value() == values[k]
        invariant n + FramesSize(ContainerSize, values[j..]) == total < TWO_63
      {
        FramesSizeSplit(ContainerSize, values, j);
        var l := containers[j].Size();
        Below64(l);
        var k := SovApi(l);
        n := n + 1 + l + k;
      }
    }

    method Size() returns (n: nat)
      requires PodSize(Value()) < TWO_63
      ensures n == PodSize(Value())
    {
      hide ContainerSize, Sov, FramesSize, ContainerValues;
      n := 0;
      var l := |name|;
      if l > 0 {
        var k := SovApi(l);
        n := n + 1 + l + k;
      }
      l := |namespace|;
      if l > 0 {
        var k := SovApi(l);
        n := n + 1 + l + k;
      }
      var rest := SizeOfContainers();
      n := n + rest;
    }

    /** The loop over the containers in MarshalTo. */
    method PutContainers(dAtA: array<byte>, offset: nat) returns (end: nat)
      requires FramesSize(ContainerSize, ContainerValues(containers)) < TWO_63
      requires offset + FramesSize(ContainerSize, ContainerValues(containers)) <= dAtA.Length
      modifies dAtA
      ensures end == offset + old(FramesSize(ContainerSize, ContainerValues(containers)))
      ensures end == offset + |Frames(0x1a, EncodeContainer, old(ContainerValues(containers)))|
      ensures dAtA[..] ==
              Overwrite(old(dAtA[..]), offset,
                        Frames(0x1a, EncodeContainer, old(ContainerValues(containers))))
    {
      hide *;
      ghost var values := ContainerValues(containers);
      ContainerValuesOf(containers);
      ghost var all := Frames(0x1a, EncodeContainer, values);
      ContainersLength(values);
      ghost var written: bytes := [];
      OverwriteNothing(dAtA[..], offset);
      end := offset;
      FramesNone(0x1a, EncodeContainer);
      assert values[0..] == values && values[|values|..] == [];
      for j := 0 to |containers|
        invariant end == offset + |written| && offset + |all| <= dAtA.Length
        invariant forall k :: 0 <= k < |containers| ==> containers[k].Value() == values[k]
        invariant written + Frames(0x1a, EncodeContainer, values[j..]) == all
        invariant dAtA[..] == Overwrite(old(dAtA[..]), offset, written)
      {
        ContainerLength(values[j]);
        FramesSplit(written, 0x1a, EncodeContainer, values, j);
        FitsFirst(0x1a, EncodeContainer(values[j]));
        OverwriteThen(old(dAtA[..]), offset, written, Frame(0x1a, EncodeContainer(values[j])));
        end := containers[j].PutField(dAtA, end, 0x1a);
        written := written + Frame(0x1a, EncodeContainer(values[j]));
      }
      assert written + [] == written;
    }

    method MarshalTo(dAtA: array<byte>, offset: nat) returns (i: nat)
      requires PodSize(Value()) < TWO_63 && offset + PodSize(Value()) <= dAtA.Length
      modifies dAtA
      ensures i == old(PodSize(Value())) == |EncodePod(old(Value()))|
      ensures dAtA[..] == Overwrite(old(dAtA[..]), offset, EncodePod(old(Value())))
    {
      hide Frame, FrameSize, Frames, FramesSize, Overwrite, Encode, Sov, EncodeContainer, ContainerSize;
      ghost var elements := Frames(0x1a, EncodeContainer, ContainerValues(containers));
      PodLength(Value());
      ContainersLength(ContainerValues(containers));
      ghost var written: bytes := [];
      OverwriteNothing(dAtA[..], offset);
      i := 0;
      if |name| > 0 {
        FitsFirst(0x0a, name);
        var end := PutString(dAtA, offset + i, 0x0a, name);
        i := end - offset;
        written := Frame(0x0a, name);
      }
      if |namespace| > 0 {
        FitsFirst(0x12, namespace);
        OverwriteThen(old(dAtA[..]), offset, written, Frame(0x12, namespace));
        var end := PutString(dAtA, offset + i, 0x12, namespace);
        i := end - offset;
        written := written + Frame(0x12, namespace);
      }
      assert written == StringFrame(0x0a, name) + StringFrame(0x12, namespace);
      OverwriteThen(old(dAtA[..]), offset, written, elements);
      var end := PutContainers(dAtA, offset + i);
      i := end - offset;
    }

    /** This message as a field of another: its Size as the length prefix, and
        then exactly as many bytes from MarshalTo. */
    method PutField(dAtA: array<byte>, offset: nat, tag: byte) returns (end: nat)
      requires PodSize(Value()) < TWO_63 && offset + FrameSize(PodSize(Value())) <= dAtA.Length
      modifies dAtA
      ensures end == offset + FrameSize(old(PodSize(Value())))
      ensures end == offset + |Frame(tag, EncodePod(old(Value())))|
      ensures dAtA[..] == Overwrite(old(dAtA[..]), offset, Frame(tag, EncodePod(old(Value()))))
    {
      hide PodSize, EncodePod, Encode, Sov, Overwrite;
      ghost var payload := EncodePod(Value());
      PodLength(Value());
      FrameLength(tag, payload);
      EncodeLength(|payload|);
      OverwriteThen(dAtA[..], offset, [tag] + Encode(|payload|), payload);
      var size := Size();
      var i := PutHeader(dAtA, offset, tag, size);
      var n := MarshalTo(dAtA, i);
      assert n == size;
      end := i + n;
    }

    method Marshal() returns (data: bytes)
      requires PodSize(Value()) < TWO_63
      ensures data == EncodePod(Value())
    {
      hide EncodePod, PodSize;
      PodLength(Value());
      var size := Size();
      var dAtA := new byte[size];
      var n := MarshalTo(dAtA, 0);
      data := dAtA[..n];
    }
  }

  ghost function PodValues(es: seq<PodResources>): (vs: seq<PodMsg>)
    reads es, set i, j | 0 <= i < |es| && 0 <= j < |es[i].containers| :: es[i].containers[j],
          set i, j, k | 0 <= i < |es| && 0 <= j < |es[i].containers| &&
                          0 <= k < |es[i].containers[j].devices| :: es[i].containers[j].devices[k]
  {
    seq(|es|, i requires 0 <= i < |es|
              reads es, set i, j | 0 <= i < |es| && 0 <= j < |es[i].containers| :: es[i].containers[j],
                    set i, j, k | 0 <= i < |es| && 0 <= j < |es[i].containers| &&
                          0 <= k < |es[i].containers[j].devices| :: es[i].containers[j].devices[k] =>
      es[i].Value())
  }

  lemma PodValuesOf(es: seq<PodResources>)
    ensures |PodValues(es)| == |es| && forall i :: 0 <= i < |es| ==> es[i].Value() == PodValues(es)[i]
  {
  }

  class ListPodResourcesResponse {
    var podResources: seq<PodResources>

    constructor ()
      ensures Value() == NO_RESPONSE && podResources == []
    {
      podResources := [];
    }

    ghost function Value(): (m: ResponseMsg)
      reads this, podResources,
            set i, j | 0 <= i < |podResources| && 0 <= j < |podResources[i].containers| ::
              podResources[i].containers[j],
            set i, j, k | 0 <= i < |podResources| && 0 <= j < |podResources[i].containers| &&
                          0 <= k < |podResources[i].containers[j].devices| :: podResources[i].containers[j].devices[k]
    {
      ResponseMsg(PodValues(podResources))
    }

    /** Appends an empty element and parses the payload into it. */
    method Append(payload: bytes) returns (status: Status)
      modifies this`podResources
      ensures old(podResources) <= podResources && |podResources| == |old(podResources)| + 1
      ensures fresh(podResources[|old(podResources)|])
      ensures PodValues(podResources) == old(PodValues(podResources)) + [ParsePod(NO_POD, payload).msg]
      ensures Report(ParsePod(NO_POD, payload).msg, status) == ParsePod(NO_POD, payload)
    {
      hide ParsePod;
      var e := new PodResources();
      podResources := podResources + [e];
      status := e.Unmarshal(payload);
    }

    method Unmarshal(dAtA: seq<byte>) returns (status: Status)
      modifies this
      ensures old(podResources) <= podResources
      ensures forall i :: |old(podResources)| <= i < |podResources| ==> fresh(podResources[i])
      ensures Report(Value(), status) == ParseResponse(old(Value()), dAtA)
    {
      hide NextPiece, PodValues, ParsePod;
      var l := |dAtA|;
      var iNdEx := 0;
      assert dAtA[0..] == dAtA;
      while iNdEx < l
        invariant iNdEx <= l
        invariant old(podResources) <= podResources
        invariant forall i :: |old(podResources)| <= i < |podResources| ==> fresh(podResources[i])
        invariant ParseResponse(Value(), dAtA[iNdEx..]) == ParseResponse(old(Value()), dAtA)
      {
        var p := ReadPiece(RESPONSE, dAtA, iNdEx);
        assert p.Broken? || dAtA[iNdEx..][p.size..] == dAtA[iNdEx + p.size..];
        match p {
          case Broken(e) =>
            return Failure(e);
          case Known(fieldNum, payload, n) =>
            var err := Append(payload);
            if err.Failure? {
              return err;
            }
            iNdEx := iNdEx + n;
          case Unknown(n) =>
            iNdEx := iNdEx + n;
        }
      }
      return Success;
    }

    /** The loop over the podResources in Size. */
    method SizeOfPodResources() returns (n: nat)
      requires FramesSize(PodSize, PodValues(podResources)) < TWO_63
      ensures n == FramesSize(PodSize, PodValues(podResources))
    {
      hide *;
      ghost var values := PodValues(podResources);
      PodValuesOf(podResources);
      ghost var total := FramesSize(PodSize, values);
      FramesSizeNone(PodSize);
      n := 0;
      assert values[0..] == values && values[|values|..] == [];
      for j := 0 to |podResources|
        invariant forall k :: 0 <= k < |podResources| ==> podResources[k].Value() == values[k]
        invariant n + FramesSize(PodSize, values[j..]) == total < TWO_63
      {
        FramesSizeSplit(PodSize, values, j);
        var l := podResources[j].Size();
        Below64(l);
        var k := SovApi(l);
        n := n + 1 + l + k;
      }
    }

    method Size() returns (n: nat)
      requires ResponseSize(Value()) < TWO_63
      ensures n == ResponseSize(Value())
    {
      hide PodSize, Sov, FramesSize, PodValues;
      n := 0;
      var rest := SizeOfPodResources();
      n := n + rest;
    }

    /** The loop over the podResources in MarshalTo. */
    method PutPodResources(dAtA: array<byte>, offset: nat) returns (end: nat)
      requires FramesSize(PodSize, PodValues(podResources)) < TWO_63
      requires offset + FramesSize(PodSize, PodValues(podResources)) <= dAtA.Length
      modifies dAtA
      ensures end == offset + old(FramesSize(PodSize, PodValues(podResources)))
      ensures end == offset + |Frames(0x0a, EncodePod, old(PodValues(podResources)))|
      ensures dAtA[..] == Overwrite(old(dAtA[..]), offset, Frames(0x0a, EncodePod, old(PodValues(podResources))))
    {
      hide *;
      ghost var values := PodValues(podResources);
      PodValuesOf(podResources);
      ghost var all := Frames(0x0a, EncodePod, values);
      PodsLength(values);
      ghost var written: bytes := [];
      OverwriteNothing(dAtA[..], offset);
      end := offset;
      FramesNone(0x0a, EncodePod);
      assert values[0..] == values && values[|values|..] == [];
      for j := 0 to |podResources|
        invariant end == offset + |written| && offset + |all| <= dAtA.Length
        invariant forall k :: 0 <= k < |podResources| ==> podResources[k].Value() == values[k]
        invariant written + Frames(0x0a, EncodePod, values[j..]) == all
        invariant dAtA[..] == Overwrite(old(dAtA[..]), offset, written)
      {
        PodLength(values[j]);
        FramesSplit(written, 0x0a, EncodePod, values, j);
        FitsFirst(0x0a, EncodePod(values[j]));
        OverwriteThen(old(dAtA[..]), offset, written, Frame(0x0a, EncodePod(values[j])));
        end := podResources[j].PutField(dAtA, end, 0x0a);
        written := written + Frame(0x0a, EncodePod(values[j]));
      }
      assert written + [] == written;
    }

    method MarshalTo(dAtA: array<byte>, offset: nat) returns (i: nat)
      requires ResponseSize(Value()) < TWO_63 && offset + ResponseSize(Value()) <= dAtA.Length
      modifies dAtA
      ensures i == old(ResponseSize(Value())) == |EncodeResponse(old(Value()))|
      ensures dAtA[..] == Overwrite(old(dAtA[..]), offset, EncodeResponse(old(Value())))
    {
      hide Frame, FrameSize, Frames, FramesSize, Overwrite, Encode, Sov, EncodePod, PodSize;
      ghost var elements := Frames(0x0a, EncodePod, PodValues(podResources));
      ResponseLength(Value());
      PodsLength(PodValues(podResources));
      ghost var written: bytes := [];
      OverwriteNothing(dAtA[..], offset);
      i := 0;
      OverwriteThen(old(dAtA[..]), offset, written, elements);
      var end := PutPodResources(dAtA, offset + i);
      i := end - offset;
    }

    method Marshal() returns (data: bytes)
      requires ResponseSize(Value()) < TWO_63
      ensures data == EncodeResponse(Value())
    {
      hide EncodeResponse, ResponseSize;
      ResponseLength(Value());
      var size := Size();
      var dAtA := new byte[size];
      var n := MarshalTo(dAtA, 0);
      data := dAtA[..n];
    }
  }

  /** What the server writes, the client reads: a response that is marshalled
      and unmarshalled into a new object has the value it had. */
  method MarshalThenUnmarshal(response: ListPodResourcesResponse)
    returns (received: ListPodResourcesResponse, status: Status)
    requires ResponseSize(response.Value()) < TWO_63
    ensures status == Success && received.Value() == response.Value()
    ensures fresh(received) && forall i :: 0 <= i < |received.podResources| ==> fresh(received.podResources[i])
  {
    hide ResponseSize, EncodeResponse, PodValues, ParseResponse;
    var data := response.Marshal();
    received := new ListPodResourcesResponse();
    status := received.Unmarshal(data);
    ResponseLength(response.Value());
    RoundTrip.ResponseRoundTrip(response.Value());
  }

  lemma FitsFirst(tag: byte, s: bytes)
    ensures |Frame(tag, s)| == FrameSize(|s|) > |s|
  {
    FrameLength(tag, s);
  }

  lemma FramesSplit<T>(written: bytes, tag: byte, encode: T -> bytes, es: seq<T>, j: nat)
    requires j < |es|
    ensures written + Frames(tag, encode, es[j..]) ==
            written + Frame(tag, encode(es[j])) + Frames(tag, encode, es[j + 1..])
  {
    assert es[j..][1..] == es[j + 1..];
  }

  lemma FramesSizeSplit<T>(size: T -> nat, es: seq<T>, j: nat)
    requires j < |es|
    ensures FramesSize(size, es[j..]) == 1 + size(es[j]) + Sov(size(es[j])) + FramesSize(size, es[j + 1..])
  {
    assert es[j..][1..] == es[j + 1..];
  }

  lemma Below64(l: nat)
    requires l < TWO_63
    ensures l < TWO_64
  {
  }

  lemma FramesSizeNone<T>(size: T -> nat)
    ensures FramesSize(size, []) == 0
  {
  }

  lemma FramesNone<T>(tag: byte, encode: T -> bytes)
    ensures Frames(tag, encode, []) == []
  {
  }
}
