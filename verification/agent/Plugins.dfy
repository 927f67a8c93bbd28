// pkg/plugins/gpushare.go: the device inventories, Allocate and
// PreStartContainer of the core and the memory plugin.
module Plugins {
  import opened Text
  import opened Devices
  import opened Links
  import opened Hook

  const GPU_PERCENT_EACH_CARD := 100
  const GPU_CORE := "elasticgpu.io/gpu-core"
  const GPU_MEMORY := "elasticgpu.io/gpu-memory"
  const ASSUMED_ANNOTATION := "elasticgpu.io/assumed"
  const CONTAINER_ANNOTATION := "elasticgpu.io/container-"

  // ---- The inventory ----

  /** "%d-%02d" */
  function DeviceId(card: nat, part: nat): (id: string)
  {
    Itoa(card) + "-" + Padded(part)
  }

  function Padded(part: nat): (s: string)
  {
    if part < 10 then "0" + Digits(part) else Digits(part)
  }

  function Row(card: nat, parts: nat): (ids: seq<string>)
  {
    seq(parts, j requires 0 <= j < parts => DeviceId(card, j))
  }

  /** One row per card: parts[i] ids for card i. */
  function Inventory(parts: seq<nat>): (ids: seq<string>)
  {
    if parts == [] then []
    else Inventory(parts[..|parts| - 1]) + Row(|parts| - 1, parts[|parts| - 1])
  }

  /** The loops of both constructors: parts is 100 for every card of the core
      plugin, and the megabytes of the card's memory for the memory plugin. */
  method NewDevices(parts: seq<nat>) returns (devices: seq<string>)
    ensures devices == Inventory(parts)
  {
    hide DeviceId, Row;
    devices := [];
    for i := 0 to |parts|
      invariant devices == Inventory(parts[..i])
    {
      ghost var before := devices;
      RowGrows(before, i, 0);
      for j := 0 to parts[i]
        invariant devices == before + Row(i, j)
      {
        RowGrows(before, i, j);
        devices := devices + [DeviceId(i, j)];
      }
      assert parts[..i + 1][..i] == parts[..i];
    }
    assert parts[..|parts|] == parts;
  }

  /** The inventory of the core plugin: a hundred parts of every card. */
  function Cores(cards: nat): (parts: seq<nat>)
  {
    seq(cards, _ => GPU_PERCENT_EACH_CARD)
  }

  /** The inventory of the memory plugin: the megabytes of every card, of which
      the bytes are given. */
  function Megabytes(memory: seq<nat>): (parts: seq<nat>)
  {
    seq(|memory|, i requires 0 <= i < |memory| => memory[i] / 1024 / 1024)
  }

  /** The id of a part: two digits at least. */
  predicate IsPart(id: string, card: nat, part: nat)
  {
    id == if part < 10 then Itoa(card) + "-0" + Itoa(part) else Itoa(card) + "-" + Itoa(part)
  }

  /** A hundred ids of every card before this one come before its own. */
  predicate IsCorePart(devices: seq<string>, card: nat, part: nat)
  {
    100 * card + part < |devices| && IsPart(devices[100 * card + part], card, part)
  }

  /** The whole megabytes of all cards. */
  function AllMegabytes(memory: seq<nat>): (n: nat)
  {
    if memory == [] then 0 else AllMegabytes(memory[..|memory| - 1]) + memory[|memory| - 1] / 1048576
  }

  /** As many ids as the cards before this one have megabytes come before its
      own. */
  predicate IsMemoryPart(devices: seq<string>, memory: seq<nat>, card: nat, part: nat)
    requires card < |memory|
  {
    var before := AllMegabytes(memory[..card]);
    before + part < |devices| && IsPart(devices[before + part], card, part)
  }

  method NewCoreDevices(cards: nat) returns (devices: seq<string>)
    ensures devices == Inventory(Cores(cards)) && |devices| == 100 * cards
    ensures forall i: nat, j: nat :: i < cards && j < 100 ==> IsCorePart(devices, i, j)
  {
    devices := NewDevices(Cores(cards));
    CoreIds(cards);
  }

  method NewMemoryDevices(memory: seq<nat>) returns (devices: seq<string>)
    ensures devices == Inventory(Megabytes(memory)) && |devices| == AllMegabytes(memory)
    ensures forall i: nat, j: nat :: i < |memory| && j < memory[i] / 1048576 ==> IsMemoryPart(devices, memory, i, j)
  {
    devices := NewDevices(Megabytes(memory));
    MemoryIds(memory);
  }

  function Total(parts: seq<nat>): (n: nat)
  {
    if parts == [] then 0 else Total(parts[..|parts| - 1]) + parts[|parts| - 1]
  }

  lemma PartsInFull(card: nat, part: nat)
    ensures IsPart(DeviceId(card, part), card, part)
  {
    assert Itoa(card) + "-" + ("0" + Itoa(part)) == Itoa(card) + "-0" + Itoa(part);
  }

  /** Cards come in order, and the parts of a card in order. */
  lemma {:induction false} InventoryAt(parts: seq<nat>, i: nat, j: nat)
    requires i < |parts| && j < parts[i]
    ensures |Inventory(parts)| == Total(parts)
    ensures Total(parts[..i]) + j < Total(parts)
    ensures Inventory(parts)[Total(parts[..i]) + j] == DeviceId(i, j)
  {
    hide DeviceId;
    var n := |parts| - 1;
    InventoryLength(parts);
    InventoryLength(parts[..n]);
    if i < n {
      InventoryAt(parts[..n], i, j);
      assert parts[..n][..i] == parts[..i];
    }
  }

  lemma {:induction false} InventoryLength(parts: seq<nat>)
    ensures |Inventory(parts)| == Total(parts)
  {
    if parts != [] {
      hide DeviceId;
      InventoryLength(parts[..|parts| - 1]);
    }
  }

  lemma {:induction false} CoresTotal(cards: nat)
    ensures Total(Cores(cards)) == 100 * cards
  {
    if cards > 0 {
      CoresTotal(cards - 1);
      assert Cores(cards)[..cards - 1] == Cores(cards - 1);
    }
  }

  lemma {:induction false} MegabytesTotal(memory: seq<nat>)
    ensures Total(Megabytes(memory)) == AllMegabytes(memory)
  {
    if memory != [] {
      var n := |memory| - 1;
      MegabytesTotal(memory[..n]);
      assert Megabytes(memory)[..n] == Megabytes(memory[..n]);
      assert memory[n] / 1024 / 1024 == memory[n] / 1048576;
    }
  }

  lemma CoreIds(cards: nat)
    ensures |Inventory(Cores(cards))| == 100 * cards
    ensures forall i: nat, j: nat :: i < cards && j < 100 ==> IsCorePart(Inventory(Cores(cards)), i, j)
  {
    hide DeviceId, IsPart, Inventory, Total;
    CoresTotal(cards);
    InventoryLength(Cores(cards));
    forall i: nat, j: nat | i < cards && j < 100 ensures IsCorePart(Inventory(Cores(cards)), i, j) {
      CoresTotal(i);
      assert Cores(cards)[..i] == Cores(i);
      InventoryAt(Cores(cards), i, j);
      PartsInFull(i, j);
    }
  }

  lemma MemoryIds(memory: seq<nat>)
    ensures var parts := Megabytes(memory);
            && |Inventory(parts)| == AllMegabytes(memory)
            && forall i: nat, j: nat :: i < |memory| && j < memory[i] / 1048576 ==>
                 IsMemoryPart(Inventory(parts), memory, i, j)
  {
    hide DeviceId, IsPart, Inventory, Total, AllMegabytes;
    var parts := Megabytes(memory);
    InventoryLength(parts);
    MegabytesTotal(memory);
    forall i: nat, j: nat | i < |memory| && j < memory[i] / 1048576
      ensures IsMemoryPart(Inventory(parts), memory, i, j)
    {
      assert memory[i] / 1024 / 1024 == memory[i] / 1048576;
      assert parts[..i] == Megabytes(memory[..i]);
      MegabytesTotal(memory[..i]);
      InventoryAt(parts, i, j);
      PartsInFull(i, j);
    }
  }

  lemma RowGrows(before: seq<string>, card: nat, j: nat)
    ensures before + Row(card, j + 1) == (before + Row(card, j)) + [DeviceId(card, j)]
    ensures before + Row(card, 0) == before
  {
    hide DeviceId;
    assert Row(card, j + 1) == Row(card, j) + [DeviceId(card, j)];
  }

  lemma DeviceIdInjective(card: nat, part: nat, card': nat, part': nat)
    ensures DeviceId(card, part) == DeviceId(card', part') <==> card == card' && part == part'
    ensures ':' !in DeviceId(card, part)
  {
    DeviceIdSplits(card, part);
    DeviceIdSplits(card', part');
    if DeviceId(card, part) == DeviceId(card', part') {
      ItoaInjective(card, card');
      PaddedValue(part);
      PaddedValue(part');
    }
    ItoaChars(card, ':');
    DigitsAreDigits(part);
  }

  lemma PaddedValue(part: nat)
    ensures AllDigits(Padded(part)) && DigitsValue(Padded(part)) == part
  {
    DigitsAreDigits(part);
    if part < 10 {
      assert Padded(part)[..1] == "0";
      assert "0"[..0] == "";
    }
  }

  lemma DeviceIdSplits(card: nat, part: nat)
    ensures Split(DeviceId(card, part), '-') == [Itoa(card), Padded(part)]
  {
    DigitsAreDigits(card);
    PaddedValue(part);
    SplitAppend(Itoa(card), '-', Padded(part));
    SplitFree(Padded(part), '-');
  }

  lemma {:induction false} InventoryElements(parts: seq<nat>, id: string)
    ensures id in Inventory(parts) <==> exists i: nat, j: nat :: i < |parts| && j < parts[i] && id == DeviceId(i, j)
  {
    hide DeviceId, Row;
    if parts != [] {
      var n := |parts| - 1;
      InventoryElements(parts[..n], id);
      RowElements(n, parts[n], id);
      if id in Inventory(parts[..n]) {
        var i: nat, j: nat :| i < n && j < parts[..n][i] && id == DeviceId(i, j);
        assert j < parts[i];
      }
      forall i: nat, j: nat | i < |parts| && j < parts[i] && id == DeviceId(i, j)
        ensures id in Inventory(parts)
      {
        if i < n {
          assert j < parts[..n][i];
        }
      }
    }
  }

  lemma RowElements(card: nat, parts: nat, id: string)
    ensures id in Row(card, parts) <==> exists j: nat :: j < parts && id == DeviceId(card, j)
  {
    hide DeviceId;
    forall j: nat | j < parts && id == DeviceId(card, j) ensures id in Row(card, parts) {
      assert Row(card, parts)[j] == id;
    }
  }

  /** Every part of every card has an id of its own, and no id has a colon, the
      character that joins ids before they are hashed. */
  lemma {:induction false} InventoryDistinct(parts: seq<nat>)
    ensures NoDuplicates(Inventory(parts))
    ensures forall id :: id in Inventory(parts) ==> ':' !in id
  {
    if parts != [] {
      hide DeviceId, Row, NoDuplicates;
      var n := |parts| - 1;
      var before, row := Inventory(parts[..n]), Row(n, parts[n]);
      InventoryDistinct(parts[..n]);
      RowDistinct(n, parts[n]);
      forall id | id in before ensures id !in row {
        InventoryElements(parts[..n], id);
        RowElements(n, parts[n], id);
        forall a: nat, b: nat, j: nat | a < n ensures DeviceId(a, b) != DeviceId(n, j) {
          DeviceIdInjective(a, b, n, j);
        }
      }
      DistinctConcat(before, row);
    }
  }

  lemma RowDistinct(card: nat, parts: nat)
    ensures NoDuplicates(Row(card, parts))
    ensures forall id :: id in Row(card, parts) ==> ':' !in id
  {
    hide DeviceId;
    forall i: nat, j: nat ensures DeviceId(card, i) == DeviceId(card, j) <==> i == j
                          ensures ':' !in DeviceId(card, i)
    {
      DeviceIdInjective(card, i, card, j);
    }
  }

  lemma DistinctConcat(a: seq<string>, b: seq<string>)
    requires NoDuplicates(a) && NoDuplicates(b) && forall x :: x in a ==> x !in b
    ensures NoDuplicates(a + b)
  {
    forall i, j | 0 <= i < j < |a + b| ensures (a + b)[i] != (a + b)[j] {
      if i < |a| <= j {
        assert a[i] in a && b[j - |a|] in b;
      }
    }
  }

  // ---- Allocate ----

  /** The link numbers that Allocate of the core plugin advertises. */
  function AllocatedNumbers(resource: string, ids: nat): (numbers: seq<nat>)
  {
    if resource == GPU_CORE && ids > 100 then seq(ids / 100, i => i) else [0]
  }

  /** The number of links of a device, by which the garbage collector goes. */
  function LinkCount(d: Device): (n: nat)
    ensures n >= 1
  {
    if d.resourceName == GPU_CORE && |d.list| > 100 then |d.list| / 100 else 1
  }

  datatype DeviceSpec = DeviceSpec(containerPath: string, hostPath: string, permissions: string)

  /** The answer to Allocate. */
  datatype Allocation = Allocation(envs: map<string, string>, devices: seq<DeviceSpec>)

  /** A device that is at the same place below /dev and below /host/dev. */
  function Spec(file: string): (d: DeviceSpec)
  {
    DeviceSpec("/host/dev/" + file, HostPath(file), "rwm")
  }

  function HostPath(file: string): (path: string)
  {
    "/dev/" + file
  }

  const CONTROLS := [Spec("nvidiactl"), Spec("nvidia-uvm"), Spec("nvidia-uvm-tools")]

  function LinkSpecs(hash: string, numbers: seq<nat>): (specs: seq<DeviceSpec>)
  {
    seq(|numbers|, k requires 0 <= k < |numbers| => Spec(Link(Id(hash, numbers[k]))))
  }

  function Concat(requests: seq<seq<string>>): (ids: seq<string>)
  {
    if requests == [] then [] else Concat(requests[..|requests| - 1]) + requests[|requests| - 1]
  }

  /** The links of the ids' hash, after the control devices for cores and before
      them for memory. */
  function Answer(hash: Hasher, resource: string, ids: seq<string>): (r: Allocation)
  {
    var gpu := NewDevice(hash, ids, resource).hash;
    var specs := LinkSpecs(gpu, AllocatedNumbers(resource, |ids|));
    Allocation(map["GPU" := gpu, "NVIDIA_VISIBLE_DEVICES" := "none"],
               if resource == GPU_CORE then CONTROLS + specs else specs + CONTROLS)
  }

  predicate AreControls(devices: seq<DeviceSpec>)
  {
    devices == [DeviceSpec("/host/dev/nvidiactl", "/dev/nvidiactl", "rwm"),
                DeviceSpec("/host/dev/nvidia-uvm", "/dev/nvidia-uvm", "rwm"),
                DeviceSpec("/host/dev/nvidia-uvm-tools", "/dev/nvidia-uvm-tools", "rwm")]
  }

  /** The links of the hash from number 0 on, in order. */
  predicate AreLinks(devices: seq<DeviceSpec>, gpu: string)
  {
    forall i :: 0 <= i < |devices| ==>
      devices[i] == DeviceSpec("/host/dev/elastic-gpu-" + (gpu + "-" + Itoa(i)),
                               "/dev/elastic-gpu-" + (gpu + "-" + Itoa(i)), "rwm")
  }

  lemma LinksInFull(gpu: string, numbers: seq<nat>)
    requires forall i :: 0 <= i < |numbers| ==> numbers[i] == i
    ensures AreLinks(LinkSpecs(gpu, numbers), gpu)
  {
    hide Spec, Link, Id, Itoa;
    forall i: nat | i < |numbers|
      ensures LinkSpecs(gpu, numbers)[i] == DeviceSpec("/host/dev/elastic-gpu-" + (gpu + "-" + Itoa(i)),
                                                       "/dev/elastic-gpu-" + (gpu + "-" + Itoa(i)), "rwm")
    {
      LinkInFull(gpu, i);
    }
  }

  lemma LinkInFull(gpu: string, i: nat)
    ensures Spec(Link(Id(gpu, i))) == DeviceSpec("/host/dev/elastic-gpu-" + (gpu + "-" + Itoa(i)),
                                                 "/dev/elastic-gpu-" + (gpu + "-" + Itoa(i)), "rwm")
  {
    hide Itoa;
    PathInFull("/host/dev/", "/host/dev/elastic-gpu-", gpu + "-" + Itoa(i));
    PathInFull("/dev/", "/dev/elastic-gpu-", gpu + "-" + Itoa(i));
  }

  lemma PathInFull(dir: string, prefix: string, id: string)
    requires prefix == dir + "elastic-gpu-"
    ensures dir + ("elastic-gpu-" + id) == prefix + id
  {
  }

  lemma ControlsInFull()
    ensures AreControls(CONTROLS) && |CONTROLS| == 3
  {
    assert Spec("nvidiactl") == DeviceSpec("/host/dev/nvidiactl", "/dev/nvidiactl", "rwm");
    assert Spec("nvidia-uvm") == DeviceSpec("/host/dev/nvidia-uvm", "/dev/nvidia-uvm", "rwm");
    assert Spec("nvidia-uvm-tools") == DeviceSpec("/host/dev/nvidia-uvm-tools", "/dev/nvidia-uvm-tools", "rwm");
  }

  lemma CoreAnswerInFull(hash: Hasher, ids: seq<string>)
    ensures var gpu := NewDevice(hash, ids, "elasticgpu.io/gpu-core").hash;
            var answer := Answer(hash, GPU_CORE, ids);
            && answer.envs == map["GPU" := gpu, "NVIDIA_VISIBLE_DEVICES" := "none"]
            && |answer.devices| == 3 + (if |ids| > 100 then |ids| / 100 else 1)
            && AreControls(answer.devices[..3]) && AreLinks(answer.devices[3..], gpu)
  {
    hide AreControls, AreLinks, NewDevice;
    var gpu := NewDevice(hash, ids, GPU_CORE).hash;
    var specs := LinkSpecs(gpu, AllocatedNumbers(GPU_CORE, |ids|));
    ControlsInFull();
    LinksInFull(gpu, AllocatedNumbers(GPU_CORE, |ids|));
    assert (CONTROLS + specs)[..3] == CONTROLS && (CONTROLS + specs)[3..] == specs;
  }

  lemma CoreAnswerIs(hash: Hasher, ids: seq<string>, specs: seq<DeviceSpec>)
    requires |specs| == if |ids| > 100 then |ids| / 100 else 1
    requires forall k :: 0 <= k < |specs| ==> specs[k] == Spec(Link(Id(NewDevice(hash, ids, GPU_CORE).hash, k)))
    ensures Answer(hash, GPU_CORE, ids) ==
            Allocation(map["GPU" := NewDevice(hash, ids, GPU_CORE).hash, "NVIDIA_VISIBLE_DEVICES" := "none"],
                       CONTROLS + specs)
  {
    hide Spec, Link, Id, NewDevice;
    assert specs == LinkSpecs(NewDevice(hash, ids, GPU_CORE).hash, AllocatedNumbers(GPU_CORE, |ids|));
  }

  lemma MemoryAnswerInFull(hash: Hasher, ids: seq<string>)
    ensures var gpu := NewDevice(hash, ids, "elasticgpu.io/gpu-memory").hash;
            var answer := Answer(hash, GPU_MEMORY, ids);
            && answer.envs == map["GPU" := gpu, "NVIDIA_VISIBLE_DEVICES" := "none"]
            && |answer.devices| == 4
            && AreLinks(answer.devices[..1], gpu) && AreControls(answer.devices[1..])
  {
    hide AreControls, AreLinks, NewDevice;
    assert GPU_CORE != GPU_MEMORY;
    var gpu := NewDevice(hash, ids, GPU_MEMORY).hash;
    var specs := LinkSpecs(gpu, AllocatedNumbers(GPU_MEMORY, |ids|));
    ControlsInFull();
    LinksInFull(gpu, AllocatedNumbers(GPU_MEMORY, |ids|));
    assert (specs + CONTROLS)[..1] == specs && (specs + CONTROLS)[1..] == CONTROLS;
  }

  /** The requests of several containers are put one after the other. */
  lemma {:induction false} ConcatAppend(a: seq<seq<string>>, b: seq<seq<string>>)
    ensures Concat(a + b) == Concat(a) + Concat(b)
    decreases |b|
  {
    if b == [] {
      assert a + b == a;
    } else {
      var n := |b| - 1;
      assert (a + b)[..|a + b| - 1] == a + b[..n] && (a + b)[|a + b| - 1] == b[n];
      ConcatAppend(a, b[..n]);
      Regroup(Concat(a), Concat(b[..n]), b[n]);
    }
  }

  lemma Regroup(a: seq<string>, b: seq<string>, c: seq<string>)
    ensures (a + b) + c == a + (b + c)
  {
  }

  lemma ConcatOne(ids: seq<string>)
    ensures Concat([]) == [] && Concat([ids]) == ids
  {
    assert [ids][..0] == [];
  }

  /** Allocate of the core plugin. */
  method AllocateCore(hash: Hasher, containerRequests: seq<seq<string>>) returns (r: Option<Allocation>)
    ensures r == if Concat(containerRequests) == [] then None
                 else Some(Answer(hash, GPU_CORE, Concat(containerRequests)))
    ensures var ids := Concat(containerRequests);
            var gpu := NewDevice(hash, ids, "elasticgpu.io/gpu-core").hash;
            var links := if |ids| > 100 then |ids| / 100 else 1;
            ids != [] ==>
              && r.Some? && r.value.envs == map["GPU" := gpu, "NVIDIA_VISIBLE_DEVICES" := "none"]
              && |r.value.devices| == 3 + links
              && AreControls(r.value.devices[..3]) && AreLinks(r.value.devices[3..], gpu)
  {
    hide AreControls, AreLinks, NewDevice, Answer;
    CoreAnswerInFull(hash, Concat(containerRequests));
    var devicesIDs := ConcatRequests(containerRequests);
    if |devicesIDs| == 0 {
      return None;
    }
    var device := NewDevice(hash, devicesIDs, GPU_CORE);
    var faker := device.hash;
    hide Spec, Link, Id;
    var devices := CONTROLS;
    ghost var specs: seq<DeviceSpec> := [];
    if |devicesIDs| > 100 {
      for i := 0 to |devicesIDs| / 100
        invariant devices == CONTROLS + specs
        invariant |specs| == i && forall k :: 0 <= k < i ==> specs[k] == Spec(Link(Id(faker, k)))
      {
        specs := specs + [Spec(Link(Id(faker, i)))];
        devices := devices + [Spec(Link(Id(faker, i)))];
      }
    } else {
      specs := [Spec(Link(Id(faker, 0)))];
      devices := devices + [Spec(Link(Id(faker, 0)))];
    }
    CoreAnswerIs(hash, devicesIDs, specs);
    return Some(Allocation(map["GPU" := faker, "NVIDIA_VISIBLE_DEVICES" := "none"], devices));
  }

  /** Allocate of the memory plugin. */
  method AllocateMemory(hash: Hasher, containerRequests: seq<seq<string>>) returns (r: Option<Allocation>)
    ensures r == if Concat(containerRequests) == [] then None
                 else Some(Answer(hash, GPU_MEMORY, Concat(containerRequests)))
    ensures var ids := Concat(containerRequests);
            var gpu := NewDevice(hash, ids, "elasticgpu.io/gpu-memory").hash;
            ids != [] ==>
              && r.Some? && r.value.envs == map["GPU" := gpu, "NVIDIA_VISIBLE_DEVICES" := "none"]
              && |r.value.devices| == 4
              && AreLinks(r.value.devices[..1], gpu) && AreControls(r.value.devices[1..])
  {
    hide AreControls, AreLinks;
    MemoryAnswerInFull(hash, Concat(containerRequests));
    var devicesIDs := ConcatRequests(containerRequests);
    if |devicesIDs| == 0 {
      return None;
    }
    var device := NewDevice(hash, devicesIDs, GPU_MEMORY);
    var faker := device.hash;
    hide Spec, Link, Id;
    var devices := [Spec(Link(Id(faker, 0)))] + CONTROLS;
    assert [Spec(Link(Id(faker, 0)))] == LinkSpecs(faker, AllocatedNumbers(GPU_MEMORY, |devicesIDs|));
    return Some(Allocation(map["GPU" := faker, "NVIDIA_VISIBLE_DEVICES" := "none"], devices));
  }

  method ConcatRequests(containerRequests: seq<seq<string>>) returns (devicesIDs: seq<string>)
    ensures devicesIDs == Concat(containerRequests)
  {
    devicesIDs := [];
    for k := 0 to |containerRequests|
      invariant devicesIDs == Concat(containerRequests[..k])
    {
      devicesIDs := devicesIDs + containerRequests[k];
      assert containerRequests[..k + 1][..k] == containerRequests[..k];
    }
    assert containerRequests[..|containerRequests|] == containerRequests;
  }

  // ---- Allocate and PreStartContainer agree ----

  /** The answer to Allocate for the ids of a device has link i of its hash. */
  ghost predicate Advertised(d: Device, i: nat)
  {
    exists s :: s in AnswerFor(d).devices && s.hostPath == HostPath(Link(Id(d.hash, i)))
  }

  function AnswerFor(d: Device): (r: Allocation)
  {
    Answer(_ => d.hash, d.resourceName, d.list)
  }

  /** What Allocate advertises is what the collector counts: link i is in the
      answer exactly when i is below the device's number of links. */
  lemma AdvertisedIff(d: Device, i: nat)
    ensures Advertised(d, i) <==> i < LinkCount(d)
  {
    hide Id, Link;
    var specs := LinkSpecs(d.hash, AllocatedNumbers(d.resourceName, |d.list|));
    assert |specs| == LinkCount(d) && forall k :: 0 <= k < |specs| ==> specs[k] == Spec(Link(Id(d.hash, k)));
    AnswerLinks(d, specs);
    if i < LinkCount(d) {
      assert specs[i] in specs && specs[i].hostPath == HostPath(Link(Id(d.hash, i)));
    }
    if s :| s in specs && s.hostPath == HostPath(Link(Id(d.hash, i))) {
      var k :| 0 <= k < |specs| && specs[k] == s;
      HostPathInjective(d.hash, i, k);
    }
  }

  /** No control device is a link, so the links of an answer are its links. */
  lemma AnswerLinks(d: Device, specs: seq<DeviceSpec>)
    requires specs == LinkSpecs(d.hash, AllocatedNumbers(d.resourceName, |d.list|))
    ensures forall i: nat :: Advertised(d, i) <==> exists s :: s in specs && s.hostPath == HostPath(Link(Id(d.hash, i)))
  {
    hide Id, LinkSpecs, Link, Spec, HostPath;
    MiddleOf(CONTROLS, specs, []);
    MiddleOf([], specs, CONTROLS);
    var devices := AnswerFor(d).devices;
    assert devices == if d.resourceName == GPU_CORE then CONTROLS + specs + [] else [] + specs + CONTROLS;
    forall i: nat, s | s in CONTROLS ensures s.hostPath != HostPath(Link(Id(d.hash, i))) {
      ControlsAreNotLinks(Id(d.hash, i));
    }
  }

  lemma MiddleOf(a: seq<DeviceSpec>, b: seq<DeviceSpec>, c: seq<DeviceSpec>)
    ensures forall d :: d in a + b + c <==> d in a || d in b || d in c
  {
  }

  lemma ControlsAreNotLinks(id: string)
    ensures forall s :: s in CONTROLS ==> s.hostPath != HostPath(Link(id))
  {
    assert HostPath(Link(id))[5] == 'e';
    assert forall s :: s in CONTROLS ==> s.hostPath[5] == 'n';
  }

  lemma HostPathInjective(hash: string, i: nat, k: nat)
    requires HostPath(Link(Id(hash, i))) == HostPath(Link(Id(hash, k)))
    ensures i == k
  {
    assert HostPath(Link(Id(hash, i)))[5..] == Link(Id(hash, i));
    assert HostPath(Link(Id(hash, k)))[5..] == Link(Id(hash, k));
    LinkInjective(Id(hash, i), Id(hash, k));
    IdInjective(hash, i, hash, k);
  }

  /** The links that PreStartContainer makes for a new hash are those that
      Allocate advertised, no more and no less, exactly when the annotation has
      as many indexes as the device has links. */
  lemma AdvertisedLinksAreMadeIff(links: LinkTable, d: Device, indexes: seq<int>)
    requires forall f :: f in links ==> !(LINK_PREFIX + d.hash <= f)
    ensures var table := CreatedAll(links, d.hash, indexes, ALWAYS_FINE).0;
            (forall i: nat :: Link(Id(d.hash, i)) in table <==> Advertised(d, i)) <==> |indexes| == LinkCount(d)
  {
    hide Id, Link, Advertised, LinkCount, CreatedAll;
    var table := CreatedAll(links, d.hash, indexes, ALWAYS_FINE).0;
    forall i: nat
      ensures Advertised(d, i) <==> i < LinkCount(d)
      ensures Link(Id(d.hash, i)) in table <==> i < |indexes|
    {
      AdvertisedIff(d, i);
      MadeIff(links, d.hash, indexes, i);
    }
    var i: nat := if |indexes| < LinkCount(d) then |indexes| else LinkCount(d);
    assert |indexes| != LinkCount(d) ==> !(Link(Id(d.hash, i)) in table <==> Advertised(d, i));
  }

  lemma MadeIff(links: LinkTable, hash: string, indexes: seq<int>, i: nat)
    requires forall f :: f in links ==> !(LINK_PREFIX + hash <= f)
    ensures Link(Id(hash, i)) in CreatedAll(links, hash, indexes, ALWAYS_FINE).0 <==> i < |indexes|
  {
    var table := CreatedAll(links, hash, indexes, ALWAYS_FINE).0;
    hide Id, Link;
    CreatedAllLinks(links, hash, indexes);
    OtherLinksAreSkipped(hash, hash, i);
    if Link(Id(hash, i)) in table {
      var j: nat :| j < |indexes| && Link(Id(hash, i)) == Link(Id(hash, j));
      LinkInjective(Id(hash, i), Id(hash, j));
      IdInjective(hash, i, hash, j);
    }
  }
}
