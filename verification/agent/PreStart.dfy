// PreStartContainer: the links of a container are made, then its device is
// recorded, with the rollback that the code has and the gaps it has.
module PreStart {
  import opened Text
  import opened Devices
  import opened Links
  import opened Hook
  import opened Storage
  import opened Locator
  import opened Plugins

  /** What the agent keeps: the links on disk and the stored records. */
  datatype World = World(links: LinkTable, records: Records)

  /** What the environment answers during one call: the located container and
      the annotations of its pod, if any, and the fate of every system call and
      of the database transaction. */
  datatype Answers = Answers(
    owner: Option<PodContainer>,
    annotations: Option<map<string, string>>,
    creates: nat -> Syscalls,
    rollbacks: nat -> Syscalls,
    commits: bool)

  datatype Refusal =
    | EmptyDeviceList | NoOwner | NoPod | PodNotAssumed | ContainerNotAssumed | NotAnIndex | LinkNotCreated

  datatype Reply = Started | Refused(why: Refusal)

  /** The indexes of a container's annotation: a list for the core plugin, a
      single number for the memory plugin. */
  function AnnotatedIndexes(resource: string, val: string): (indexes: Option<seq<int>>)
  {
    if resource == GPU_CORE then ParseIndexes(val)
    else match Atoi(val) case None => None case Some(i) => Some([i])
  }

  /** The decimal numbers of the cards, one for memory and comma-separated ones
      for cores. */
  predicate Annotates(resource: string, val: string, cards: seq<int>)
  {
    && cards != [] && (forall i :: 0 <= i < |cards| ==> MIN_INT <= cards[i] <= MAX_INT)
    && if resource == "elasticgpu.io/gpu-core"
       then val == Join(seq(|cards|, i requires 0 <= i < |cards| => Itoa(cards[i])), ',')
       else |cards| == 1 && val == Itoa(cards[0])
  }

  lemma AnnotatedCards(resource: string, val: string, cards: seq<int>)
    requires Annotates(resource, val, cards)
    ensures AnnotatedIndexes(resource, val) == Some(cards)
  {
    if resource == GPU_CORE {
      ArgumentReadsBack(cards);
    } else {
      AtoiItoa(cards[0]);
      assert cards == [cards[0]];
    }
  }

  /** The parts of an annotation that are to be numbers. */
  function Parts(resource: string, val: string): (parts: seq<string>)
  {
    if resource == "elasticgpu.io/gpu-core" then Split(val, ',') else [val]
  }

  /** An annotation is read exactly if all of its parts are numbers, and then as
      these. */
  lemma AnnotationIsRead(resource: string, val: string)
    ensures var parts, indexes := Parts(resource, val), AnnotatedIndexes(resource, val);
            && (indexes.Some? <==> forall k :: 0 <= k < |parts| ==> Atoi(parts[k]).Some?)
            && (indexes.Some? ==>
                  |indexes.value| == |parts| &&
                  forall k :: 0 <= k < |parts| ==> Atoi(parts[k]) == Some(indexes.value[k]))
  {
    hide Atoi, Split;
    if resource == GPU_CORE {
      AllAreRead(Split(val, ','));
    } else {
      assert Parts(resource, val)[0] == val;
    }
  }

  lemma {:induction false} AllAreRead(parts: seq<string>)
    ensures AtoiAll(parts).Some? <==> forall k :: 0 <= k < |parts| ==> Atoi(parts[k]).Some?
    ensures AtoiAll(parts).Some? ==>
              |AtoiAll(parts).value| == |parts| &&
              forall k :: 0 <= k < |parts| ==> Atoi(parts[k]) == Some(AtoiAll(parts).value[k])
  {
    hide Atoi;
    if parts != [] {
      AllAreRead(parts[1..]);
      assert forall k :: 0 < k < |parts| ==> parts[k] == parts[1..][k - 1];
    }
  }

  /** Everything before the lock is taken: what the call is about, or why it is
      refused. */
  datatype Request = Request(pod: Pod, container: string, device: Device, val: string)

  datatype Checked = Accepted(request: Request) | Rejected(why: Refusal)

  function Check(hash: Hasher, resource: string, ids: seq<string>, a: Answers): (c: Checked)
  {
    if ids == [] then Rejected(EmptyDeviceList)
    else if a.owner.None? then Rejected(NoOwner)
    else if a.annotations.None? then Rejected(NoPod)
    else if ASSUMED_ANNOTATION !in a.annotations.value then Rejected(PodNotAssumed)
    else
      var curr, key := a.owner.value, CONTAINER_ANNOTATION + a.owner.value.container;
      if key !in a.annotations.value then Rejected(ContainerNotAssumed)
      else Accepted(Request(Pod(curr.namespace, curr.name), curr.container,
                            NewDevice(hash, ids, resource), a.annotations.value[key]))
  }

  function RecordOf(records: Records, pod: Pod): (m: DeviceMap)
  {
    if pod in records then records[pod] else map[]
  }

  function Recorded(records: Records, pod: Pod, container: string, d: Device): (r: Records)
  {
    records[pod := RecordOf(records, pod)[container := d]]
  }

  /** The rollback: every link of the list is deleted, failures being ignored. */
  function RolledBack(links: LinkTable, hash: string, count: nat, os: nat -> Syscalls): (r: LinkTable)
  {
    if count == 0 then links
    else Deleted(RolledBack(links, hash, count - 1, os), Id(hash, count - 1), os(count - 1)).0
  }

  /** Everything under the lock. A record that cannot be saved is rolled back,
      and yet the reply is a success. */
  function Start(w: World, q: Request, a: Answers): (r: (World, Reply))
  {
    match AnnotatedIndexes(q.device.resourceName, q.val)
    case None => (w, Refused(NotAnIndex))
    case Some(indexes) =>
      var (links, ok) := CreatedAll(w.links, q.device.hash, indexes, a.creates);
      if !ok then (World(links, w.records), Refused(LinkNotCreated))
      else if a.commits then (World(links, Recorded(w.records, q.pod, q.container, q.device)), Started)
      else (World(RolledBack(links, q.device.hash, |indexes|, a.rollbacks), w.records), Started)
  }

  function PreStarted(hash: Hasher, resource: string, w: World, ids: seq<string>, a: Answers): (r: (World, Reply))
  {
    match Check(hash, resource, ids, a)
    case Rejected(why) => (w, Refused(why))
    case Accepted(q) => Start(w, q, a)
  }

  /** The checks in their order, with the annotations in full. */
  predicate ChecksInOrder(resource: string, ids: seq<string>, a: Answers, reply: Reply)
  {
    && (ids == [] ==> reply == Refused(EmptyDeviceList))
    && (ids != [] && a.owner.None? ==> reply == Refused(NoOwner))
    && (ids != [] && a.owner.Some? && a.annotations.None? ==> reply == Refused(NoPod))
    && (ids != [] && a.owner.Some? && a.annotations.Some? ==>
          var annotations, key := a.annotations.value, "elasticgpu.io/container-" + a.owner.value.container;
          && (reply == Refused(PodNotAssumed) <==> "elasticgpu.io/assumed" !in annotations)
          && (reply == Refused(ContainerNotAssumed) <==>
                "elasticgpu.io/assumed" in annotations && key !in annotations)
          && (reply == Refused(NotAnIndex) <==>
                "elasticgpu.io/assumed" in annotations && key in annotations &&
                exists part :: part in Parts(resource, annotations[key]) && Atoi(part).None?))
  }

  /** The device is written under the namespace, the name and the container of
      the owner, and nothing else changes. */
  predicate RecordsTheOwner(hash: Hasher, resource: string, ids: seq<string>, owner: PodContainer,
                            before: Records, after: Records)
  {
    var pod := Pod(owner.namespace, owner.name);
    var devices := if pod in before then before[pod] else map[];
    after == before[pod := devices[owner.container := NewDevice(hash, ids, resource)]]
  }

  lemma PreStartedInFull(hash: Hasher, resource: string, w: World, ids: seq<string>, a: Answers)
    ensures var (after, reply) := PreStarted(hash, resource, w, ids, a);
            && ChecksInOrder(resource, ids, a, reply)
            && (reply.Refused? && reply.why != LinkNotCreated ==> after == w)
            && (reply.Refused? || !a.commits ==> after.records == w.records)
            && (reply == Started ==> ids != [] && a.owner.Some?)
            && (reply == Started && a.commits ==>
                  RecordsTheOwner(hash, resource, ids, a.owner.value, w.records, after.records))
  {
    hide NewDevice, CreatedAll, RolledBack, AnnotatedIndexes, Parts, Atoi;
    if Check(hash, resource, ids, a).Accepted? {
      DeviceHasResource(hash, ids, resource);
      UnreadPart(resource, Check(hash, resource, ids, a).request.val);
    }
  }

  lemma DeviceHasResource(hash: Hasher, ids: seq<string>, resource: string)
    ensures NewDevice(hash, ids, resource).resourceName == resource
  {
  }

  lemma UnreadPart(resource: string, val: string)
    ensures AnnotatedIndexes(resource, val).None? <==>
            exists part :: part in Parts(resource, val) && Atoi(part).None?
  {
    hide AnnotatedIndexes, Parts, Atoi;
    AnnotationIsRead(resource, val);
    var parts := Parts(resource, val);
    assert forall k :: 0 <= k < |parts| ==> parts[k] in parts;
  }

  /** The bucket after a call: a new value under the pod's key, if the call got
      as far as saving and the transaction succeeded. */
  function BucketAfter(hash: Hasher, resource: string, json: Json, bucket: Bucket, ids: seq<string>, a: Answers,
                       reply: Reply): (b: Bucket)
  {
    match Check(hash, resource, ids, a)
    case Rejected(_) => bucket
    case Accepted(q) =>
      if reply != Started || !a.commits then bucket
      else
        var before := if Stored(json, bucket, q.pod).Some? then Stored(json, bucket, q.pod).value else map[];
        bucket[Key(q.pod) := json.marshal(before[q.container := q.device])]
  }

  /** A device plugin of either resource, with the operator and the storage it
      shares with the other one. */
  class GPUShareDevicePlugin {
    const hash: Hasher
    const resourceName: string
    const operator: GPUShareOperator
    const storage: BoltStorage

    constructor (hash: Hasher, resourceName: string, operator: GPUShareOperator, storage: BoltStorage)
      ensures this.hash == hash && this.resourceName == resourceName
      ensures this.operator == operator && this.storage == storage
    {
      this.hash, this.resourceName, this.operator, this.storage := hash, resourceName, operator, storage;
    }

    ghost function State(): (w: World)
      reads this, operator, storage
    {
      World(operator.links, storage.records)
    }

    /** The links, the reply and the bucket are determined whatever the bucket
        holds; that the records are those of the specification is promised as
        long as the bucket holds records of plainly named pods. */
    method PreStartContainer(ids: seq<string>, a: Answers) returns (reply: Reply)
      modifies operator, storage
      ensures var spec := PreStarted(hash, resourceName, old(State()), ids, a);
              operator.links == spec.0.links && reply == spec.1
      ensures storage.bucket == BucketAfter(hash, resourceName, storage.json, old(storage.bucket), ids, a, reply)
      ensures old(storage.Valid()) && (a.owner.Some? ==> Plain(Pod(a.owner.value.namespace, a.owner.value.name))) ==>
                storage.Valid() && State() == PreStarted(hash, resourceName, old(State()), ids, a).0
      ensures ChecksInOrder(resourceName, ids, a, reply)
      ensures reply.Refused? && reply.why != LinkNotCreated ==> operator.links == old(operator.links)
      ensures reply.Refused? || !a.commits ==>
                storage.bucket == old(storage.bucket) && storage.records == old(storage.records)
      ensures reply == Started ==> ids != [] && a.owner.Some?
      ensures reply == Started && a.commits && old(storage.Valid()) &&
              Plain(Pod(a.owner.value.namespace, a.owner.value.name)) ==>
                RecordsTheOwner(hash, resourceName, ids, a.owner.value, old(storage.records), storage.records)
    {
      hide ChecksInOrder, RecordsTheOwner;
      PreStartedInFull(hash, resourceName, State(), ids, a);
      if |ids| == 0 {
        return Refused(EmptyDeviceList);
      }
      var devices := NewDevice(hash, ids, resourceName);
      assert devices.resourceName == resourceName;
      hide NewDevice, AnnotatedIndexes, CreatedAll, RolledBack, Plain, Key, Stored, Inverse, Represents;
      if a.owner.None? {
        return Refused(NoOwner);
      }
      var curr := a.owner.value;
      if a.annotations.None? {
        return Refused(NoPod);
      }
      if ASSUMED_ANNOTATION !in a.annotations.value {
        return Refused(PodNotAssumed);
      }
      var containerAssumedKey := CONTAINER_ANNOTATION + curr.container;
      if containerAssumedKey !in a.annotations.value {
        return Refused(ContainerNotAssumed);
      }
      var idInts := AnnotatedIndexes(resourceName, a.annotations.value[containerAssumedKey]);
      if idInts.None? {
        return Refused(NotAnIndex);
      }
      var ok := CreateAll(idInts.value, devices.hash, a.creates);
      if !ok {
        return Refused(LinkNotCreated);
      }
      var pif := storage.LoadOrCreate(Pod(curr.namespace, curr.name));
      var saved := storage.Save(PodInfo(pif.pod, pif.containerDeviceMap[curr.container := devices]), a.commits);
      if !saved {
        DeleteAll(idInts.value, devices.hash, a.rollbacks);
      }
      return Started;
    }

    /** The loop that makes the links. */
    method CreateAll(idInts: seq<int>, hash: string, os: nat -> Syscalls) returns (ok: bool)
      modifies operator
      ensures (operator.links, ok) == CreatedAll(old(operator.links), hash, idInts, os)
    {
      hide Id, Created, CreatedAs;
      ok := true;
      for i := 0 to |idInts|
        invariant ok && (operator.links, ok) == CreatedAll(old(operator.links), hash, idInts[..i], os)
      {
        assert idInts[..i + 1][..i] == idInts[..i];
        ok := operator.Create(idInts[i], Id(hash, i), os(i));
        if !ok {
          CreatedStops(old(operator.links), hash, idInts, i + 1, os);
          return;
        }
      }
      assert idInts[..|idInts|] == idInts;
    }

    /** The loop of the deferred rollback. */
    method DeleteAll(idInts: seq<int>, hash: string, os: nat -> Syscalls)
      modifies operator
      ensures operator.links == RolledBack(old(operator.links), hash, |idInts|, os)
    {
      hide Id, Deleted, DeletedAs;
      for i := 0 to |idInts|
        invariant operator.links == RolledBack(old(operator.links), hash, i, os)
      {
        var ok := operator.Delete(idInts[i], Id(hash, i), os(i));
      }
    }
  }

  /** Once a link could not be made, no later one is tried. */
  lemma {:induction false} CreatedStops(links: LinkTable, hash: string, indexes: seq<int>, k: nat, os: nat -> Syscalls)
    requires k <= |indexes| && !CreatedAll(links, hash, indexes[..k], os).1
    ensures CreatedAll(links, hash, indexes, os) == (CreatedAll(links, hash, indexes[..k], os).0, false)
    decreases |indexes|
  {
    if k == |indexes| {
      assert indexes[..k] == indexes;
    } else {
      var shorter := indexes[..|indexes| - 1];
      assert shorter[..k] == indexes[..k];
      CreatedStops(links, hash, shorter, k, os);
    }
  }

  // ---- What a call leaves behind ----

  /** Rolling back what was just made restores the table, if the names were free
      and nothing fails. */
  lemma {:induction false} RollbackUndoesCreation(links: LinkTable, hash: string, indexes: seq<int>)
    requires forall i: nat :: Link(Id(hash, i)) !in links && Ctl(Id(hash, i)) !in links
    ensures CreatedAll(links, hash, indexes, ALWAYS_FINE).1
    ensures RolledBack(CreatedAll(links, hash, indexes, ALWAYS_FINE).0, hash, |indexes|, ALWAYS_FINE) == links
  {
    hide *;
    CreatedNames(links, hash, indexes);
    RollbackRemoves(CreatedAll(links, hash, indexes, ALWAYS_FINE).0, links, hash, |indexes|);
  }

  lemma {:induction false} GoodCreationSucceeds(links: LinkTable, hash: string, indexes: seq<int>)
    ensures CreatedAll(links, hash, indexes, ALWAYS_FINE).1
  {
    if indexes != [] {
      hide Id, Link, Ctl, GpuPath;
      GoodCreationSucceeds(links, hash, indexes[..|indexes| - 1]);
    }
  }

  /** When nothing fails, creating adds exactly the names of the indexes, if no
      link of the hash lacks its partner. */
  lemma {:induction false} CreatedAllKeys(links: LinkTable, hash: string, indexes: seq<int>)
    requires forall i: nat :: Link(Id(hash, i)) in links ==> Ctl(Id(hash, i)) in links
    ensures CreatedAll(links, hash, indexes, ALWAYS_FINE).1
    ensures forall f :: f in CreatedAll(links, hash, indexes, ALWAYS_FINE).0 <==>
                        f in links || IsName(hash, |indexes|, f)
  {
    hide Id, Link, Ctl, GpuPath, IsName;
    if indexes == [] {
      NoNames(hash);
    } else {
      var n := |indexes| - 1;
      CreatedAllKeys(links, hash, indexes[..n]);
      NotYet(hash, n);
      forall f
        ensures IsName(hash, n + 1, f) <==> IsName(hash, n, f) || f == Link(Id(hash, n)) || f == Ctl(Id(hash, n))
      {
        OneMoreName(hash, n, f);
      }
    }
  }

  /** The table with the first n links of hash, and their partners, added. */
  ghost predicate Extends(table: LinkTable, links: LinkTable, hash: string, n: nat)
  {
    && links.Keys <= table.Keys && (forall f :: f in links ==> table[f] == links[f])
    && (forall i: nat :: i < n ==> Link(Id(hash, i)) in table && Ctl(Id(hash, i)) in table)
    && (forall f :: f in table && f !in links ==> IsName(hash, n, f))
    && (forall i: nat :: Link(Id(hash, i)) !in links && Ctl(Id(hash, i)) !in links)
  }

  lemma {:induction false} CreatedNames(links: LinkTable, hash: string, indexes: seq<int>)
    requires forall i: nat :: Link(Id(hash, i)) !in links && Ctl(Id(hash, i)) !in links
    ensures CreatedAll(links, hash, indexes, ALWAYS_FINE).1
    ensures Extends(CreatedAll(links, hash, indexes, ALWAYS_FINE).0, links, hash, |indexes|)
  {
    if indexes != [] {
      var n := |indexes| - 1;
      CreatedNames(links, hash, indexes[..n]);
      CreatedName(CreatedAll(links, hash, indexes[..n], ALWAYS_FINE).0, links, hash, n, indexes[n]);
    }
  }

  lemma NumberedNames(hash: string, i: nat, j: nat)
    ensures Link(Id(hash, i)) == Link(Id(hash, j)) <==> i == j
    ensures Ctl(Id(hash, i)) == Ctl(Id(hash, j)) <==> i == j
    ensures Link(Id(hash, i)) != Ctl(Id(hash, j))
  {
    IdInjective(hash, i, hash, j);
    LinkInjective(Id(hash, i), Id(hash, j));
    LinkIsNotCtl(Id(hash, i), Id(hash, j));
  }

  lemma CreatedName(before: LinkTable, links: LinkTable, hash: string, n: nat, index: int)
    requires Extends(before, links, hash, n)
    ensures var (table, ok) := Created(before, index, Id(hash, n), FINE);
            ok && Extends(table, links, hash, n + 1)
  {
    hide Id, Link, Ctl, GpuPath, IsName;
    NewNameIsFree(before, links, hash, n);
    NumberedNames(hash, n, n);
    var table := before[Link(Id(hash, n)) := GpuPath(index)][Ctl(Id(hash, n)) := CTL_PATH];
    assert Created(before, index, Id(hash, n), FINE) == (table, true);
    forall f | f in table && f !in links ensures IsName(hash, n + 1, f) {
      OneMoreName(hash, n, f);
    }
    forall f | f in links ensures f in table && table[f] == links[f] {
      assert f != Link(Id(hash, n)) && f != Ctl(Id(hash, n));
    }
    forall i: nat | i < n + 1 ensures Link(Id(hash, i)) in table && Ctl(Id(hash, i)) in table {
      assert i < n || i == n;
    }
    assert links.Keys <= table.Keys;
  }

  lemma OneMoreName(hash: string, n: nat, f: string)
    ensures IsName(hash, n + 1, f) <==> IsName(hash, n, f) || f == Link(Id(hash, n)) || f == Ctl(Id(hash, n))
  {
    hide Id, Link, Ctl;
  }

  lemma NewNameIsFree(before: LinkTable, links: LinkTable, hash: string, n: nat)
    requires Extends(before, links, hash, n)
    ensures Link(Id(hash, n)) !in before && Ctl(Id(hash, n)) !in before
  {
    hide Id, Link, Ctl;
    if f :| f in before && (f == Link(Id(hash, n)) || f == Ctl(Id(hash, n))) {
      assert f !in links;
      var i: nat :| i < n && (f == Link(Id(hash, i)) || f == Ctl(Id(hash, i)));
      NumberedNames(hash, i, n);
      NumberedNames(hash, n, i);
    }
  }

  lemma RollbackRemoves(table: LinkTable, links: LinkTable, hash: string, n: nat)
    requires Extends(table, links, hash, n)
    ensures RolledBack(table, hash, n, ALWAYS_FINE) == links
  {
    hide Id, Link, Ctl, RolledBack;
    RollbackKeys(table, links, hash, n, n);
    forall f ensures f in RolledBack(table, hash, n, ALWAYS_FINE) <==> f in links {
    }
  }

  lemma {:induction false} RollbackKeys(table: LinkTable, links: LinkTable, hash: string, n: nat, k: nat)
    requires Extends(table, links, hash, n) && k <= n
    ensures var t := RolledBack(table, hash, k, ALWAYS_FINE);
            && (forall f :: f in t <==> f in table && !IsName(hash, k, f))
            && (forall f :: f in t ==> t[f] == table[f])
  {
    hide Id, Link, Ctl, IsName;
    if k == 0 {
      NoNames(hash);
    } else {
      RollbackKeys(table, links, hash, n, k - 1);
      NumberedNames(hash, k - 1, k - 1);
      NotYet(hash, k - 1);
      forall f
        ensures IsName(hash, k, f) <==>
                IsName(hash, k - 1, f) || f == Link(Id(hash, k - 1)) || f == Ctl(Id(hash, k - 1))
      {
        OneMoreName(hash, k - 1, f);
      }
    }
  }

  lemma NoNames(hash: string)
    ensures forall f :: !IsName(hash, 0, f)
  {
  }

  lemma NotYet(hash: string, n: nat)
    ensures !IsName(hash, n, Link(Id(hash, n))) && !IsName(hash, n, Ctl(Id(hash, n)))
  {
    hide Id, Link, Ctl;
    forall i: nat ensures Link(Id(hash, i)) == Link(Id(hash, n)) <==> i == n
                  ensures Ctl(Id(hash, i)) == Ctl(Id(hash, n)) <==> i == n
                  ensures Link(Id(hash, i)) != Ctl(Id(hash, n)) && Link(Id(hash, n)) != Ctl(Id(hash, i))
    {
      NumberedNames(hash, i, n);
      NumberedNames(hash, n, i);
    }
  }

  /** When the record of a start cannot be saved, the reply is a success all the
      same; no record changes, and no link either if the names were free and
      the rollback does not fail. */
  lemma UnsavedStartSucceeds(w: World, q: Request, a: Answers)
    requires AnnotatedIndexes(q.device.resourceName, q.val).Some? && !a.commits
    requires a.creates == ALWAYS_FINE && a.rollbacks == ALWAYS_FINE
    requires forall i: nat :: Link(Id(q.device.hash, i)) !in w.links && Ctl(Id(q.device.hash, i)) !in w.links
    ensures Start(w, q, a) == (w, Started)
  {
    RollbackUndoesCreation(w.links, q.device.hash, AnnotatedIndexes(q.device.resourceName, q.val).value);
  }

  /** Create never removes or retargets a link. */
  lemma {:induction false} CreationGrows(links: LinkTable, hash: string, indexes: seq<int>, os: nat -> Syscalls)
    ensures forall f :: f in links ==>
              f in CreatedAll(links, hash, indexes, os).0 && CreatedAll(links, hash, indexes, os).0[f] == links[f]
  {
    if indexes != [] {
      hide Id, GpuPath, Link, Ctl;
      CreationGrows(links, hash, indexes[..|indexes| - 1], os);
    }
  }

  /** There is no rollback for links made before one that could not be made: a
      start that fails so leaves the table as it was exactly when all the
      links before the failing one were there already, and the failing call
      did not even make its first link. */
  lemma {:induction false} FailedCreationLeavesNothingIff(links: LinkTable, hash: string, indexes: seq<int>,
                                                          os: nat -> Syscalls)
    requires !CreatedAll(links, hash, indexes, os).1
    ensures CreatedAll(links, hash, indexes, os).0 == links <==>
            exists k: nat :: k < |indexes| && Link(Id(hash, k)) !in links && !os(k).first &&
                             forall i: nat :: i < k ==> Link(Id(hash, i)) in links
  {
    hide Id, GpuPath, Link, Ctl;
    var n := |indexes| - 1;
    var (before, ok) := CreatedAll(links, hash, indexes[..n], os);
    if !ok {
      FailedCreationLeavesNothingIff(links, hash, indexes[..n], os);
      SomeFailedEarlier(links, hash, indexes[..n], os);
    } else {
      CreatedKeepsIff(links, hash, indexes[..n], os);
      CreationGrows(links, hash, indexes[..n], os);
      SuccessfulCalls(links, hash, indexes[..n], os);
    }
  }

  /** Creation adds names of the hash only. */
  lemma {:induction false} CreatedOnlyNames(links: LinkTable, hash: string, indexes: seq<int>, os: nat -> Syscalls)
    ensures forall f :: f in CreatedAll(links, hash, indexes, os).0 ==> f in links || IsName(hash, |indexes|, f)
  {
    hide Id, GpuPath, Link, Ctl;
    if indexes != [] {
      CreatedOnlyNames(links, hash, indexes[..|indexes| - 1], os);
    }
  }

  /** In a loop that succeeds, every link was there or its first call
      succeeded. */
  lemma {:induction false} SuccessfulCalls(links: LinkTable, hash: string, indexes: seq<int>, os: nat -> Syscalls)
    requires CreatedAll(links, hash, indexes, os).1
    ensures forall k: nat :: k < |indexes| ==> Link(Id(hash, k)) in links || os(k).first
  {
    hide Id, GpuPath, Link, Ctl, IsName;
    if indexes != [] {
      var n := |indexes| - 1;
      SuccessfulCalls(links, hash, indexes[..n], os);
      CreatedOnlyNames(links, hash, indexes[..n], os);
      NotYet(hash, n);
    }
  }

  /** A loop that succeeds changes nothing exactly when all its links exist. */
  lemma {:induction false} CreatedKeepsIff(links: LinkTable, hash: string, indexes: seq<int>, os: nat -> Syscalls)
    requires CreatedAll(links, hash, indexes, os).1
    ensures CreatedAll(links, hash, indexes, os).0 == links <==>
            forall i: nat :: i < |indexes| ==> Link(Id(hash, i)) in links
    ensures forall i: nat :: i < |indexes| ==> Link(Id(hash, i)) in CreatedAll(links, hash, indexes, os).0
  {
    hide Id, GpuPath, Link, Ctl, Created;
    if indexes != [] {
      var n := |indexes| - 1;
      CreatedKeepsIff(links, hash, indexes[..n], os);
      CreationGrows(links, hash, indexes[..n], os);
      CreatedOne(CreatedAll(links, hash, indexes[..n], os).0, indexes[n], Id(hash, n), os(n));
    }
  }

  lemma CreatedOne(before: LinkTable, index: int, id: string, os: Syscalls)
    ensures var (table, ok) := Created(before, index, id, os);
            && (forall f :: f in before ==> f in table)
            && (Link(id) in before ==> table == before)
            && (ok ==> Link(id) in table)
  {
    hide Link, Ctl, GpuPath;
  }

  /** A loop that fails meets a link that is not there yet. */
  lemma {:induction false} SomeFailedEarlier(links: LinkTable, hash: string, indexes: seq<int>, os: nat -> Syscalls)
    requires !CreatedAll(links, hash, indexes, os).1
    ensures exists k: nat :: k < |indexes| && Link(Id(hash, k)) !in links
  {
    hide Id, GpuPath, Link, Ctl;
    var n := |indexes| - 1;
    if CreatedAll(links, hash, indexes[..n], os).1 {
      CreationGrows(links, hash, indexes[..n], os);
    } else {
      SomeFailedEarlier(links, hash, indexes[..n], os);
    }
  }
}
