// pkg/kube/locator.go: finding the container that owns a list of device ids in
// kubelet's answer, which may give a container's ids in one entry or in many.
module Locator {
  import opened Text
  import opened Devices
  import opened Varint
  import opened Messages

  datatype PodContainer = PodContainer(namespace: string, name: string, container: string)

  /** The conversion of decoded bytes to a Go string. */
  function Str(b: bytes): (s: string)
  {
    seq(|b|, i requires 0 <= i < |b| => b[i] as char)
  }

  function Strs(bs: seq<bytes>): (ss: seq<string>)
  {
    seq(|bs|, i requires 0 <= i < |bs| => Str(bs[i]))
  }

  /** The ids of one entry, if it is about the resource. */
  function EntryIds(resource: string, e: DevicesMsg): (ids: seq<string>)
  {
    if Str(e.resourceName) == resource then Strs(e.deviceIds) else []
  }

  /** All the ids of the resource that a container has. */
  function Owned(resource: string, entries: seq<DevicesMsg>): (ids: seq<string>)
  {
    if entries == [] then [] else EntryIds(resource, entries[0]) + Owned(resource, entries[1..])
  }

  /** One entry alone has exactly the wanted ids. */
  predicate EntryMatches(hash: Hasher, resource: string, d: Device, e: DevicesMsg)
  {
    Str(e.resourceName) == resource && Equals(d, NewDevice(hash, Strs(e.deviceIds), resource))
  }

  predicate SomeEntryMatches(hash: Hasher, resource: string, d: Device, entries: seq<DevicesMsg>)
  {
    exists k :: 0 <= k < |entries| && EntryMatches(hash, resource, d, entries[k])
  }

  predicate Matches(hash: Hasher, resource: string, d: Device, c: ContainerMsg)
  {
    SomeEntryMatches(hash, resource, d, c.devices) || Equals(d, NewDevice(hash, Owned(resource, c.devices), resource))
  }

  function Named(p: PodMsg, c: ContainerMsg): (pc: PodContainer)
  {
    PodContainer(Str(p.namespace), Str(p.name), Str(c.name))
  }

  /** The string has the bytes, one character each. */
  predicate Spells(s: string, b: bytes)
  {
    |s| == |b| && forall k :: 0 <= k < |b| ==> s[k] as int == b[k]
  }

  lemma StrSpells(b: bytes, s: string)
    ensures s == Str(b) <==> Spells(s, b)
  {
    if Spells(s, b) {
      assert forall k :: 0 <= k < |b| ==> s[k] == Str(b)[k];
    }
  }

  /** The owner has the namespace and the name of the pod, and the name of the
      container, byte for byte. */
  predicate IsNamed(owner: PodContainer, p: PodMsg, c: ContainerMsg)
  {
    Spells(owner.namespace, p.namespace) && Spells(owner.name, p.name) && Spells(owner.container, c.name)
  }

  lemma NamedInFull(p: PodMsg, c: ContainerMsg)
    ensures IsNamed(Named(p, c), p, c)
  {
  }

  lemma {:induction false} OwnedConcat(resource: string, a: seq<DevicesMsg>, b: seq<DevicesMsg>)
    ensures Owned(resource, a + b) == Owned(resource, a) + Owned(resource, b)
  {
    if a == [] {
      assert a + b == b;
    } else {
      hide EntryIds;
      assert (a + b)[1..] == a[1..] + b;
      OwnedConcat(resource, a[1..], b);
    }
  }

  /** An entry contributes its ids, byte for byte, if it is about the resource. */
  lemma OwnedOfEntry(resource: string, e: DevicesMsg)
    ensures var ids := Owned(resource, [e]);
            if Spells(resource, e.resourceName)
            then |ids| == |e.deviceIds| && forall k :: 0 <= k < |ids| ==> Spells(ids[k], e.deviceIds[k])
            else ids == []
  {
    StrSpells(e.resourceName, resource);
    assert [e][1..] == [];
  }

  /** Container j of pod i. */
  predicate IsPosition(ps: seq<PodMsg>, i: int, j: int)
  {
    0 <= i < |ps| && 0 <= j < |ps[i].containers|
  }

  /** Container j of pod i matches, and none before it does. */
  ghost predicate IsFirst(hash: Hasher, resource: string, d: Device, ps: seq<PodMsg>, i: int, j: int)
  {
    && IsPosition(ps, i, j) && Matches(hash, resource, d, ps[i].containers[j])
    && forall a, b :: IsPosition(ps, a, b) && (a < i || (a == i && b < j)) ==>
                        !Matches(hash, resource, d, ps[a].containers[b])
  }

  /** The first container, in the order of the answer, that matches. */
  function InPod(hash: Hasher, resource: string, d: Device, p: PodMsg, cs: seq<ContainerMsg>): (r: Option<PodContainer>)
  {
    if cs == [] then None
    else if Matches(hash, resource, d, cs[0]) then Some(Named(p, cs[0]))
    else InPod(hash, resource, d, p, cs[1..])
  }

  function InPods(hash: Hasher, resource: string, d: Device, ps: seq<PodMsg>): (r: Option<PodContainer>)
  {
    if ps == [] then None
    else
      var r := InPod(hash, resource, d, ps[0], ps[0].containers);
      if r.Some? then r else InPods(hash, resource, d, ps[1..])
  }

  datatype Located = Found(owner: PodContainer) | NoSuchPod | CallFailed

  class KubeletDeviceLocator {
    const hash: Hasher
    const resource: string
    /** Whether the last call left an error, so that the next one redials. */
    var err: bool

    constructor (hash: Hasher, resource: string, dialled: bool)
      ensures this.hash == hash && this.resource == resource && err == !dialled
    {
      this.hash, this.resource, this.err := hash, resource, !dialled;
    }

    /** redials says whether a connection can be made when one is needed, and
        response is kubelet's answer, if the call succeeds. */
    method Locate(devices: Device, redials: bool, response: Option<ResponseMsg>) returns (r: Located)
      modifies this
      ensures err <==> (old(err) && !redials) || response.None?
      ensures r == if (old(err) && !redials) || response.None? then CallFailed
                   else match InPods(hash, resource, devices, response.value.podResources)
                        case Some(pc) => Found(pc)
                        case None => NoSuchPod
      ensures r.Found? ==>
                response.Some? &&
                exists i, j :: IsFirst(hash, resource, devices, response.value.podResources, i, j) &&
                               IsNamed(r.owner, response.value.podResources[i],
                                       response.value.podResources[i].containers[j])
      ensures r == NoSuchPod ==>
                response.Some? &&
                forall i, j :: IsPosition(response.value.podResources, i, j) ==>
                                 !Matches(hash, resource, devices, response.value.podResources[i].containers[j])
    {
      hide Matches, Named, IsNamed;
      if err {
        err := !redials;
        if err {
          // the connection is still broken, and List is not called
          return CallFailed;
        }
      }
      if response.None? {
        err := true;
        return CallFailed;
      }
      var pods := response.value.podResources;
      ghost var first, second := FirstInPods(hash, resource, devices, pods);
      if IsPosition(pods, first, second) {
        NamedInFull(pods[first], pods[first].containers[second]);
      }
      assert pods[0..] == pods;
      for i := 0 to |pods|
        invariant InPods(hash, resource, devices, pods) == InPods(hash, resource, devices, pods[i..])
        invariant !err
      {
        var pod := pods[i];
        assert pods[i..][1..] == pods[i + 1..];
        assert pod.containers[0..] == pod.containers;
        for j := 0 to |pod.containers|
          invariant InPod(hash, resource, devices, pod, pod.containers) ==
                    InPod(hash, resource, devices, pod, pod.containers[j..])
          invariant !err
        {
          var container := pod.containers[j];
          assert pod.containers[j..][1..] == pod.containers[j + 1..];
          var found := MatchContainer(devices, container);
          if found {
            return Found(Named(pod, container));
          }
        }
      }
      return NoSuchPod;
    }

    /** The innermost loop: an entry of its own, or the ids of all the entries
        put together. */
    method MatchContainer(devices: Device, container: ContainerMsg) returns (found: bool)
      ensures found <==> Matches(hash, resource, devices, container)
    {
      hide *;
      var deviceIds: seq<string> := [];
      var entries := container.devices;
      assert entries[0..] == entries && entries[|entries|..] == [];
      for k := 0 to |entries|
        invariant deviceIds + Owned(resource, entries[k..]) == Owned(resource, entries)
        invariant forall m :: 0 <= m < k ==> !EntryMatches(hash, resource, devices, entries[m])
      {
        OwnedStep(resource, entries, k, deviceIds);
        EntryCases(hash, resource, devices, entries[k]);
        var e := entries[k];
        if Str(e.resourceName) == resource {
          if Equals(devices, NewDevice(hash, Strs(e.deviceIds), resource)) {
            MatchCases(hash, resource, devices, container);
            return true;
          }
          deviceIds := deviceIds + Strs(e.deviceIds);
        }
      }
      MatchCases(hash, resource, devices, container);
      found := Equals(devices, NewDevice(hash, deviceIds, resource));
    }
  }

  lemma OwnedStep(resource: string, entries: seq<DevicesMsg>, k: nat, before: seq<string>)
    requires k < |entries|
    ensures before + Owned(resource, entries[k..]) ==
            (before + EntryIds(resource, entries[k])) + Owned(resource, entries[k + 1..])
    ensures before + [] == before
  {
    hide EntryIds;
    assert entries[k..][1..] == entries[k + 1..];
  }

  lemma EntryCases(hash: Hasher, resource: string, d: Device, e: DevicesMsg)
    ensures Str(e.resourceName) == resource ==>
              EntryIds(resource, e) == Strs(e.deviceIds) &&
              (EntryMatches(hash, resource, d, e) <==> Equals(d, NewDevice(hash, Strs(e.deviceIds), resource)))
    ensures Str(e.resourceName) != resource ==>
              EntryIds(resource, e) == [] && !EntryMatches(hash, resource, d, e)
  {
  }

  lemma MatchCases(hash: Hasher, resource: string, d: Device, c: ContainerMsg)
    ensures Matches(hash, resource, d, c) <==>
            (exists k :: 0 <= k < |c.devices| && EntryMatches(hash, resource, d, c.devices[k])) ||
            Equals(d, NewDevice(hash, Owned(resource, c.devices), resource))
    ensures forall ids: seq<string> {:trigger ids + Owned(resource, [])} :: ids + Owned(resource, []) == ids
  {
  }

  // ---- What a result says ----

  function OwnedAt(resource: string, ps: seq<PodMsg>, i: int, j: int): (ids: seq<string>)
    requires IsPosition(ps, i, j)
  {
    Owned(resource, ps[i].containers[j].devices)
  }

  lemma {:induction false} EntryIsOwned(resource: string, entries: seq<DevicesMsg>, k: nat)
    requires k < |entries|
    ensures multiset(EntryIds(resource, entries[k])) <= multiset(Owned(resource, entries))
  {
    hide EntryIds;
    var first, rest := EntryIds(resource, entries[0]), Owned(resource, entries[1..]);
    assert Owned(resource, entries) == first + rest;
    if k > 0 {
      assert entries[1..][k - 1] == entries[k];
      EntryIsOwned(resource, entries[1..], k - 1);
    }
    PartOf(first, rest);
  }

  lemma PartOf(a: seq<string>, b: seq<string>)
    ensures multiset(a) <= multiset(a + b) && multiset(b) <= multiset(a + b)
  {
  }

  /** A container that matches owns every wanted id, as often as wanted. */
  lemma MatchOwnsRequest(hash: Hasher, resource: string, request: seq<string>, c: ContainerMsg)
    requires Matches(hash, resource, NewDevice(hash, request, resource), c)
    ensures multiset(request) <= multiset(Owned(resource, c.devices))
  {
    var d := NewDevice(hash, request, resource);
    if SomeEntryMatches(hash, resource, d, c.devices) {
      var k :| 0 <= k < |c.devices| && EntryMatches(hash, resource, d, c.devices[k]);
      EqualsIffSameIds(hash, request, Strs(c.devices[k].deviceIds), resource, resource);
      EntryIsOwned(resource, c.devices, k);
    } else {
      EqualsIffSameIds(hash, request, Owned(resource, c.devices), resource, resource);
    }
  }

  lemma {:induction false} FirstInPod(hash: Hasher, resource: string, d: Device, p: PodMsg, cs: seq<ContainerMsg>)
    returns (j: nat)
    ensures j <= |cs|
    ensures forall m :: 0 <= m < j ==> !Matches(hash, resource, d, cs[m])
    ensures InPod(hash, resource, d, p, cs) == if j < |cs| then Some(Named(p, cs[j])) else None
    ensures j < |cs| ==> Matches(hash, resource, d, cs[j])
  {
    if cs == [] || Matches(hash, resource, d, cs[0]) {
      j := 0;
    } else {
      j := FirstInPod(hash, resource, d, p, cs[1..]);
      j := j + 1;
    }
  }

  /** The position a result comes from; without a result nothing matches. */
  lemma {:induction false} FirstInPods(hash: Hasher, resource: string, d: Device, ps: seq<PodMsg>)
    returns (i: nat, j: nat)
    ensures InPods(hash, resource, d, ps).Some? ==>
              IsFirst(hash, resource, d, ps, i, j) &&
              InPods(hash, resource, d, ps) == Some(Named(ps[i], ps[i].containers[j]))
    ensures InPods(hash, resource, d, ps).None? ==>
              forall a, b :: IsPosition(ps, a, b) ==> !Matches(hash, resource, d, ps[a].containers[b])
  {
    i, j := 0, 0;
    if ps != [] {
      hide Matches, Named;
      j := FirstInPod(hash, resource, d, ps[0], ps[0].containers);
      if j == |ps[0].containers| {
        i, j := FirstInPods(hash, resource, d, ps[1..]);
        i := i + 1;
        forall a, b | IsPosition(ps, a, b) && (a < i || (a == i && b < j) || InPods(hash, resource, d, ps).None?)
          ensures !Matches(hash, resource, d, ps[a].containers[b])
        {
          if a > 0 {
            assert IsPosition(ps[1..], a - 1, b) && ps[1..][a - 1] == ps[a];
          }
        }
      }
    }
  }

  /** No id belongs to two containers. */
  ghost predicate Disjoint(resource: string, ps: seq<PodMsg>)
  {
    forall i, j, a, b, x | IsPosition(ps, i, j) && IsPosition(ps, a, b) ::
      (x in OwnedAt(resource, ps, i, j) && x in OwnedAt(resource, ps, a, b)) ==> (i == a && j == b)
  }

  /** If no id belongs to two containers, then a result for a non-empty request
      names the container that owns one of the ids, and it owns them all. */
  lemma LocateFindsTheOwner(hash: Hasher, resource: string, request: seq<string>, ps: seq<PodMsg>, i: nat, j: nat)
    requires Disjoint(resource, ps)
    requires InPods(hash, resource, NewDevice(hash, request, resource), ps).Some?
    requires IsPosition(ps, i, j) && exists x :: x in request && x in OwnedAt(resource, ps, i, j)
    ensures IsNamed(InPods(hash, resource, NewDevice(hash, request, resource), ps).value, ps[i], ps[i].containers[j])
    ensures multiset(request) <= multiset(OwnedAt(resource, ps, i, j))
  {
    NamedInFull(ps[i], ps[i].containers[j]);
    var d := NewDevice(hash, request, resource);
    var a, b := FirstInPods(hash, resource, d, ps);
    MatchOwnsRequest(hash, resource, request, ps[a].containers[b]);
    var x :| x in request && x in OwnedAt(resource, ps, i, j);
    assert x in multiset(request);
    assert x in multiset(OwnedAt(resource, ps, a, b));
  }

  /** A result exists exactly when some container has the wanted ids, each as
      often as wanted, in one entry or in all its entries together. */
  lemma LocateFindsIff(hash: Hasher, resource: string, request: seq<string>, ps: seq<PodMsg>)
    ensures InPods(hash, resource, NewDevice(hash, request, resource), ps).Some? <==>
            exists i, j :: IsPosition(ps, i, j) && HasExactly(resource, request, ps[i].containers[j])
  {
    var d := NewDevice(hash, request, resource);
    forall i, j | IsPosition(ps, i, j)
      ensures Matches(hash, resource, d, ps[i].containers[j]) <==> HasExactly(resource, request, ps[i].containers[j])
    {
      MatchesIff(hash, resource, request, ps[i].containers[j]);
    }
    var i, j := FirstInPods(hash, resource, d, ps);
    if InPods(hash, resource, d, ps).Some? {
      assert IsPosition(ps, i, j) && HasExactly(resource, request, ps[i].containers[j]);
    }
  }

  ghost predicate HasExactly(resource: string, request: seq<string>, c: ContainerMsg)
  {
    || multiset(request) == multiset(Owned(resource, c.devices))
    || exists k :: 0 <= k < |c.devices| && Str(c.devices[k].resourceName) == resource &&
                   multiset(request) == multiset(Strs(c.devices[k].deviceIds))
  }

  lemma MatchesIff(hash: Hasher, resource: string, request: seq<string>, c: ContainerMsg)
    ensures Matches(hash, resource, NewDevice(hash, request, resource), c) <==> HasExactly(resource, request, c)
  {
    var d := NewDevice(hash, request, resource);
    EqualsIffSameIds(hash, request, Owned(resource, c.devices), resource, resource);
    forall k | 0 <= k < |c.devices|
      ensures EntryMatches(hash, resource, d, c.devices[k]) <==>
              Str(c.devices[k].resourceName) == resource &&
              multiset(request) == multiset(Strs(c.devices[k].deviceIds))
    {
      EqualsIffSameIds(hash, request, Strs(c.devices[k].deviceIds), resource, resource);
    }
  }

  /** How kubelet splits a container's ids over entries makes no difference to
      whether the whole of them is found. */
  lemma WholeAllocationIsFound(hash: Hasher, resource: string, request: seq<string>, ps: seq<PodMsg>, i: nat, j: nat)
    requires IsPosition(ps, i, j) && multiset(request) == multiset(OwnedAt(resource, ps, i, j))
    ensures InPods(hash, resource, NewDevice(hash, request, resource), ps).Some?
  {
    assert HasExactly(resource, request, ps[i].containers[j]);
    LocateFindsIff(hash, resource, request, ps);
  }
}
