// The hash of a device leaves out its resource, and both inventories number the
// parts of a card alike: two containers, one with cores and one with memory, may
// share a hash, and then they share their links. A new pod that is handed the ids
// of one that has not been collected yet does the same with its predecessor.
module Sharing {
  import opened Text
  import opened Devices
  import opened Links
  import opened Storage
  import opened Plugins
  import opened PreStart
  import opened Gc
  import opened Lifecycle

  // ---- Which ids collide ----

  /** An id is in both inventories exactly when it numbers one of the first
      hundred parts of a card, and one of the megabytes of its memory. */
  lemma CommonId(memory: seq<nat>, id: string)
    ensures id in Inventory(Cores(|memory|)) && id in Inventory(memory) <==>
            exists i: nat, j: nat :: i < |memory| && j < 100 && j < memory[i] && id == DeviceId(i, j)
  {
    hide DeviceId, Inventory;
    InventoryElements(Cores(|memory|), id);
    InventoryElements(memory, id);
    if id in Inventory(Cores(|memory|)) && id in Inventory(memory) {
      var i: nat, j: nat :| i < |memory| && j < Cores(|memory|)[i] && id == DeviceId(i, j);
      var a: nat, b: nat :| a < |memory| && b < memory[a] && id == DeviceId(a, b);
      DeviceIdInjective(i, j, a, b);
    }
    if i: nat, j: nat :| i < |memory| && j < 100 && j < memory[i] && id == DeviceId(i, j) {
      assert j < Cores(|memory|)[i];
    }
  }

  /** The two plugins hand out some id in common exactly when some card has a
      megabyte of memory. */
  lemma InventoriesCollideIff(memory: seq<nat>)
    ensures (exists id :: id in Inventory(Cores(|memory|)) && id in Inventory(memory)) <==>
            exists i :: 0 <= i < |memory| && memory[i] > 0
  {
    hide DeviceId, Inventory, Cores;
    if id :| id in Inventory(Cores(|memory|)) && id in Inventory(memory) {
      CommonId(memory, id);
    }
    if i :| 0 <= i < |memory| && memory[i] > 0 {
      CommonId(memory, DeviceId(i, 0));
    }
  }

  /** A container with cores and one with memory have the same hash under every
      hash function exactly when they were handed out the same ids; they are
      never equal as devices. */
  lemma ResourcesShareHashIff(memory: seq<nat>, ids: seq<string>, others: seq<string>)
    requires ids != [] && others != []
    requires forall id :: id in ids ==> id in Inventory(Cores(|memory|))
    requires forall id :: id in others ==> id in Inventory(memory)
    ensures multiset(ids) == multiset(others) <==>
            forall hash: Hasher :: NewDevice(hash, ids, GPU_CORE).hash == NewDevice(hash, others, GPU_MEMORY).hash
    ensures forall hash: Hasher :: !Equals(NewDevice(hash, ids, GPU_CORE), NewDevice(hash, others, GPU_MEMORY))
  {
    hide *;
    InventoryDistinct(Cores(|memory|));
    InventoryDistinct(memory);
    HashedTextDeterminesIds(ids, others);
    forall hash: Hasher
      ensures NewDevice(hash, ids, GPU_CORE).hash == hash(Join(Sort(ids), ':'))
      ensures NewDevice(hash, others, GPU_MEMORY).hash == hash(Join(Sort(others), ':'))
      ensures !Equals(NewDevice(hash, ids, GPU_CORE), NewDevice(hash, others, GPU_MEMORY))
    {
      HashOf(hash, ids, others);
    }
    var identity: Hasher := text => text;
    assert NewDevice(identity, ids, GPU_CORE).hash == Join(Sort(ids), ':');
    assert NewDevice(identity, others, GPU_MEMORY).hash == Join(Sort(others), ':');
  }

  lemma HashOf(hash: Hasher, ids: seq<string>, others: seq<string>)
    ensures NewDevice(hash, ids, GPU_CORE).hash == hash(Join(Sort(ids), ':'))
    ensures NewDevice(hash, others, GPU_MEMORY).hash == hash(Join(Sort(others), ':'))
    ensures !Equals(NewDevice(hash, ids, GPU_CORE), NewDevice(hash, others, GPU_MEMORY))
  {
    hide Sort, Join;
    assert GPU_CORE[18] != GPU_MEMORY[18];
  }

  // ---- What a start with a shared hash does ----

  /** Some recorded container has the hash and at least n links. */
  ghost predicate Covered(records: Records, hash: string, n: nat)
  {
    exists p, c :: Has(records, p, c) && records[p][c].hash == hash && n <= LinkCount(records[p][c])
  }

  /** A container that was not recorded starts and is recorded, with success.
      It gets no link of its own exactly when some recorded container has its
      hash and as many links. */
  lemma StartMakesNoLinkIff(w: World, q: Request)
    requires Inv(w) && |q.device.hash| == 8 && Indexes(q).Some? && !Has(w.records, q.pod, q.container)
    ensures var (after, reply) := Start(w, q, GOOD_ANSWERS);
            && reply == Started && after.records == Recorded(w.records, q.pod, q.container, q.device)
            && (after.links == w.links <==> Covered(w.records, q.device.hash, |Indexes(q).value|))
  {
    hide Inv, AnnotatedIndexes, CreatedAll, Recorded, Id, Link, Ctl, IsName, Covered;
    var hash, n := q.device.hash, |Indexes(q).value|;
    var after := Apply(w, Starting(q));
    InvIsPaired(w);
    CreatedAllKeys(w.links, hash, Indexes(q).value);
    CreationGrows(w.links, hash, Indexes(q).value, ALWAYS_FINE);
    SomeIndex(q);
    if Covered(w.records, hash, n) {
      CoveredIsLinked(w, hash, n);
      assert forall f :: f in after.links <==> f in w.links;
    } else {
      NumberOfName(hash, n, n - 1);
      UncoveredLink(w, hash, n - 1);
    }
  }

  lemma CoveredIsLinked(w: World, hash: string, n: nat)
    requires Inv(w) && Covered(w.records, hash, n)
    ensures forall f :: IsName(hash, n, f) ==> f in w.links
  {
    hide Id, Link, Ctl, Implied;
    var p, c :| Has(w.records, p, c) && w.records[p][c].hash == hash && n <= LinkCount(w.records[p][c]);
    forall f | IsName(hash, n, f) ensures f in w.links {
      ImpliedBy(w.records, p, c, f);
    }
  }

  lemma UncoveredLink(w: World, hash: string, i: nat)
    requires Inv(w) && |hash| == 8 && !Covered(w.records, hash, i + 1)
    ensures Link(Id(hash, i)) !in w.links
  {
    hide Id, Link, Ctl, IsName;
    if Link(Id(hash, i)) in w.links {
      var p, c :| Has(w.records, p, c) && IsNameOf(w.records[p][c], Link(Id(hash, i)));
      ForeignName(hash, i, w.records[p][c]);
      NumberOfName(hash, LinkCount(w.records[p][c]), i);
    }
  }

  /** Memory after cores: the container with the same ids for memory always finds
      its only link there. */
  lemma MemoryAfterCores(hash: Hasher, ids: seq<string>, w: World, p: Pod, c: string, q: Request)
    requires Inv(w) && Has(w.records, p, c) && w.records[p][c] == NewDevice(hash, ids, GPU_CORE)
    requires q.device == NewDevice(hash, ids, GPU_MEMORY) && Indexes(q).Some? && !Has(w.records, q.pod, q.container)
    ensures Start(w, q, GOOD_ANSWERS) ==
            (World(w.links, Recorded(w.records, q.pod, q.container, q.device)), Started)
  {
    hide LinksMatch, Start, Recorded, Atoi;
    StartMakesNoLinkIff(w, q);
    assert |Indexes(q).value| == 1;
    assert Covered(w.records, q.device.hash, 1);
  }

  // ---- What collecting one of the two does ----

  /** In any state in which the links match the records: a pass without failures
      that finds gone one of two pods whose containers share a hash removes the
      link of the other, which stays on record. */
  lemma SharedLinkIsLost(w: World, view: View, lines: seq<Line>, p: Pod, c: string, q: Pod, e: string)
    requires LinksMatch(w) && HashLengths(w.records) && GoneHashesDiffer(w.records, view)
    requires AllLinesOf(w.records, view, lines) && Distinct(lines)
    requires Has(w.records, p, c) && Has(w.records, q, e) && w.records[p][c].hash == w.records[q][e].hash
    requires IsGone(view, p) && !IsGone(view, q)
    ensures var after := Apply(w, Collecting(view, lines));
            && Has(after.records, q, e) && after.records[q][e] == w.records[q][e]
            && Link(Id(w.records[q][e].hash, 0)) !in after.links && !LinksMatch(after)
  {
    hide LinksMatch, HashLengths, GoneHashesDiffer, AllLinesOf, Distinct, IsGone, Apply, GoneName, SharedWithGone;
    hide Id, Link, Ctl, IsName;
    LinksAreThere(w, view);
    CollectEffect(w, view, lines);
    IsShared(w.records, view, p, c, q, e);
    CollectKeepsLinksIff(w, view, lines);
    FirstName(w.records[p][c]);
    IsGoneName(w.records, view, p, c, Link(Id(w.records[p][c].hash, 0)));
    StillHas(w.records, Apply(w, Collecting(view, lines)).records, q, e);
  }

  lemma IsShared(records: Records, view: View, p: Pod, c: string, q: Pod, e: string)
    requires Has(records, p, c) && Has(records, q, e) && records[p][c].hash == records[q][e].hash
    requires IsGone(view, p) && !IsGone(view, q)
    ensures SharedWithGone(records, view)
  {
    hide IsGone;
  }

  lemma StillHas(records: Records, after: Records, q: Pod, e: string)
    requires Has(records, q, e) && q in after && after[q] == records[q]
    ensures Has(after, q, e)
  {
  }

  lemma LinksAreThere(w: World, view: View)
    requires LinksMatch(w)
    ensures forall f :: GoneName(w.records, view, f) ==> f in w.links
  {
    hide Implied, GoneName;
    GoneIsImplied(w.records, view);
  }

  /** The container starts for the first time, and its links are among those of
      a recorded one with the same hash. */
  ghost predicate StartsShared(w: World, q: Request, p: Pod, c: string)
  {
    && Indexes(q).Some? && !Has(w.records, q.pod, q.container)
    && Has(w.records, p, c) && w.records[p][c].hash == q.device.hash
    && |Indexes(q).value| == LinkCount(q.device) <= LinkCount(w.records[p][c])
  }

  /** So collecting either one after such a start takes the link of the other. */
  lemma CollectingOneLosesTheOther(w: World, q: Request, p: Pod, c: string, both: World, view: View, lines: seq<Line>)
    requires Inv(w) && StartsShared(w, q, p, c) && both == Apply(w, Starting(q))
    requires AllLinesOf(both.records, view, lines) && Distinct(lines)
    requires IsGone(view, p) != IsGone(view, q.pod)
    ensures var after := Apply(both, Collecting(view, lines));
            && Link(Id(q.device.hash, 0)) !in after.links && !LinksMatch(after)
            && (IsGone(view, p) ==>
                  Has(after.records, q.pod, q.container) && after.records[q.pod][q.container] == q.device)
            && (IsGone(view, q.pod) ==> Has(after.records, p, c) && after.records[p][c] == w.records[p][c])
  {
    hide *;
    BothMatch(w, q, p, c);
    BothRecorded(w, q, p, c);
    OneOfTwoIsGone(w, q, p, c, view);
    if IsGone(view, p) {
      SharedLinkIsLost(both, view, lines, p, c, q.pod, q.container);
    } else {
      SharedLinkIsLost(both, view, lines, q.pod, q.container, p, c);
    }
  }

  lemma BothRecorded(w: World, q: Request, p: Pod, c: string)
    requires Inv(w) && StartsShared(w, q, p, c)
    ensures var both := Apply(w, Starting(q)).records;
            && Has(both, p, c) && both[p][c] == w.records[p][c] && both[p][c].hash == q.device.hash
            && Has(both, q.pod, q.container) && both[q.pod][q.container] == q.device
  {
    hide Inv, AnnotatedIndexes, Apply, LinkCount, Recorded;
    StartedTable(w, q);
    RecordedHas(w.records, q);
  }

  /** The links still match the records, although two containers share theirs. */
  lemma BothMatch(w: World, q: Request, p: Pod, c: string)
    requires Inv(w) && StartsShared(w, q, p, c)
    ensures LinksMatch(Apply(w, Starting(q))) && HashLengths(Apply(w, Starting(q)).records)
  {
    hide AnnotatedIndexes, Apply, Id, Link, Ctl, LinkCount, Recorded, Implied, IsName, ImpliedElsewhere;
    var both := Apply(w, Starting(q));
    StartedTable(w, q);
    RecordedHas(w.records, q);
    assert Covered(w.records, q.device.hash, |Indexes(q).value|);
    CoveredIsLinked(w, q.device.hash, LinkCount(q.device));
    forall f ensures Implied(both.records, f) <==> Implied(w.records, f) {
      SharedImplies(w, q, p, c, f);
    }
  }

  lemma SharedImplies(w: World, q: Request, p: Pod, c: string, f: string)
    requires StartsShared(w, q, p, c)
    ensures Implied(Recorded(w.records, q.pod, q.container, q.device), f) <==> Implied(w.records, f)
  {
    hide AnnotatedIndexes, Id, Link, Ctl, LinkCount, Recorded, Implied, IsName, ImpliedElsewhere;
    RecordedImplies(w.records, q, f);
    ImpliedSplits(w.records, q.pod, q.container, f);
    if IsNameOf(q.device, f) {
      NamesTogether(q.device.hash, LinkCount(q.device), LinkCount(w.records[p][c]), f);
      ImpliedBy(w.records, p, c, f);
    }
  }

  lemma OneOfTwoIsGone(w: World, q: Request, p: Pod, c: string, view: View)
    requires Inv(w) && StartsShared(w, q, p, c)
    requires IsGone(view, p) != IsGone(view, q.pod)
    ensures GoneHashesDiffer(Apply(w, Starting(q)).records, view)
  {
    hide IsGone, Recorded, Apply, AnnotatedIndexes, LinkCount, LinksMatch;
    StartedTable(w, q);
    RecordedHas(w.records, q);
    var records := Apply(w, Starting(q)).records;
    forall a, b, d, e | Has(records, a, b) && Has(records, d, e) && IsGone(view, a) && IsGone(view, d)
      ensures records[a][b].hash == records[d][e].hash ==> a == d && b == e
    {
    }
  }
}
