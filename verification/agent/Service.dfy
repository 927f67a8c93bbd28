// What a started container is served with, over whole histories of the agent in
// which anything may fail: whether it stays on record, and which cards the hook
// finds for it.
module Service {
  import opened Text
  import opened Devices
  import opened Links
  import opened Hook
  import opened Storage
  import opened PreStart
  import opened Gc
  import opened Lifecycle
  import opened Interleaving

  /** A start or a pass, with all that the environment answers in it. */
  datatype Happening =
    | Starts(request: Request, answers: Answers)
    | Collects(view: View, lines: seq<Line>, fates: Fates)

  function Happen(w: World, h: Happening): (r: World)
  {
    match h
    case Starts(q, a) => Start(w, q, a).0
    case Collects(view, lines, fates) => Sweep(w, lines, fates)
  }

  ghost predicate MayHappen(w: World, h: Happening)
  {
    match h
    case Starts(q, _) => |q.device.hash| == 8
    case Collects(view, lines, _) => LinesOf(w.records, view, lines)
  }

  ghost predicate IsHistory(w: World, hs: seq<Happening>)
    decreases |hs|
  {
    hs != [] ==> MayHappen(w, hs[0]) && IsHistory(Happen(w, hs[0]), hs[1..])
  }

  function After(w: World, hs: seq<Happening>): (r: World)
    decreases |hs|
  {
    if hs == [] then w else After(Happen(w, hs[0]), hs[1..])
  }

  // ---- Staying on record ----

  /** No pass finds the pod gone. */
  ghost predicate StaysAlive(hs: seq<Happening>, p: Pod)
  {
    forall k :: 0 <= k < |hs| && hs[k].Collects? ==> !IsGone(hs[k].view, p)
  }

  /** The device of the last start of the container that saved one, if any. */
  function LastSaved(w: World, hs: seq<Happening>, p: Pod, c: string, d: Device): (r: Device)
    decreases |hs|
  {
    if hs == [] then d
    else
      var d' := match hs[0]
        case Starts(q, a) => if q.pod == p && q.container == c && Saves(w, q, a) then q.device else d
        case Collects(_, _, _) => d;
      LastSaved(Happen(w, hs[0]), hs[1..], p, c, d')
  }

  /** Over every history, whatever fails in it: a recorded container whose pod no
      pass finds gone stays on record, with the device of its last start that
      saved one. */
  lemma {:induction false} LiveContainersStay(w: World, hs: seq<Happening>, p: Pod, c: string)
    requires IsHistory(w, hs) && StaysAlive(hs, p) && Has(w.records, p, c)
    ensures Has(After(w, hs).records, p, c)
    ensures After(w, hs).records[p][c] == LastSaved(w, hs, p, c, w.records[p][c])
    decreases |hs|
  {
    if hs != [] {
      hide Happen, Saves, IsGone, MayHappen;
      assert forall k :: 0 <= k < |hs[1..]| ==> hs[1..][k] == hs[k + 1];
      HappeningKeepsContainer(w, hs[0], p, c);
      LiveContainersStay(Happen(w, hs[0]), hs[1..], p, c);
    }
  }

  lemma HappeningKeepsContainer(w: World, h: Happening, p: Pod, c: string)
    requires MayHappen(w, h) && (h.Collects? ==> !IsGone(h.view, p)) && Has(w.records, p, c)
    ensures var after := Happen(w, h).records;
            && Has(after, p, c)
            && after[p][c] ==
               if h.Starts? && h.request.pod == p && h.request.container == c && Saves(w, h.request, h.answers)
               then h.request.device else w.records[p][c]
  {
    hide Start, Sweep, Saves, IsNameOf, Recorded;
    match h {
      case Starts(q, a) =>
        StartSplits(w, q, a);
        RecordedHas(w.records, q);
      case Collects(view, lines, fates) =>
        PassIsSafe(w, view, lines, fates);
    }
  }

  // ---- Keeping the cards ----

  /** What happens leaves n links of the hash as they are: a start with the hash
      asks for no more of them and saves its record, and a pass has no container
      with the hash among those found gone. */
  ghost predicate Spares(h: Happening, hash: string, n: nat)
  {
    match h
    case Starts(q, a) => q.device.hash == hash && Indexes(q).Some? ==> |Indexes(q).value| <= n && a.commits
    case Collects(_, lines, _) => forall l :: l in lines ==> l.device.hash != hash
  }

  ghost predicate AllSpare(hs: seq<Happening>, hash: string, n: nat)
  {
    forall h :: h in hs ==> Spares(h, hash, n)
  }

  /** Tables that agree on the links of a hash. */
  lemma SameLinks(before: LinkTable, after: LinkTable, hash: string, cards: seq<int>)
    requires HasLinks(before, hash, cards)
    requires forall f :: LINK_PREFIX + hash <= f ==> SameAt(before, after, f)
    ensures HasLinks(after, hash, cards)
  {
    hide Id, Link, GpuPath;
    forall i: nat | i < |cards|
      ensures Link(Id(hash, i)) in after && after[Link(Id(hash, i))] == GpuPath(cards[i])
    {
      OtherLinksAreSkipped(hash, hash, i);
      assert SameAt(before, after, Link(Id(hash, i)));
    }
    forall f | f in after && LINK_PREFIX + hash <= f ensures f in before {
      assert SameAt(before, after, f);
    }
  }

  lemma NoNameOfOther(hash: string, other: string, f: string)
    requires |hash| == |other| && hash != other && LINK_PREFIX + other <= f
    ensures !IsAnyName(hash, f)
  {
    hide Id, Link, Ctl;
    forall i: nat ensures f != Link(Id(hash, i)) && f != Ctl(Id(hash, i)) {
      OtherLinksAreSkipped(other, hash, i);
    }
  }

  lemma OtherStartKeepsLinks(w: World, q: Request, a: Answers, hash: string, cards: seq<int>)
    requires HasLinks(w.links, hash, cards) && |q.device.hash| == |hash| && q.device.hash != hash
    ensures HasLinks(Start(w, q, a).0.links, hash, cards)
  {
    hide HasLinks, Start, StartedLinks, SameInside, AnnotatedIndexes, IsAnyName;
    StartSplits(w, q, a);
    if Indexes(q).Some? {
      InsideReflexive(w.links, q.device.hash);
      StartedLinksLocal(w.links, w.links, q.device.hash, Indexes(q).value, a);
      forall f | LINK_PREFIX + hash <= f ensures SameAt(w.links, Start(w, q, a).0.links, f) {
        NoNameOfOther(q.device.hash, hash, f);
      }
      SameLinks(w.links, Start(w, q, a).0.links, hash, cards);
    }
  }

  lemma PassKeepsLinks(w: World, view: View, lines: seq<Line>, fates: Fates, hash: string, cards: seq<int>)
    requires HasLinks(w.links, hash, cards) && |hash| == 8 && HashLengths(w.records) && LinesOf(w.records, view, lines)
    requires forall l :: l in lines ==> l.device.hash != hash
    ensures HasLinks(Sweep(w, lines, fates).links, hash, cards)
  {
    hide HasLinks, Sweep, IsNameOf, IsGone;
    SweepRemovesOnlyLines(w, lines, fates, 0);
    var after := Sweep(w, lines, fates).links;
    forall f | LINK_PREFIX + hash <= f ensures SameAt(w.links, after, f) {
      if f in w.links && f !in after {
        var k :| 0 <= k < |lines| && IsNameOf(lines[k].device, f);
        assert Has(w.records, lines[k].pod, lines[k].container) && lines[k] in lines;
        NameIsAnyName(lines[k].device, f);
        NoNameOfOther(lines[k].device.hash, hash, f);
      }
    }
    SameLinks(w.links, after, hash, cards);
  }

  lemma NameIsAnyName(d: Device, f: string)
    requires IsNameOf(d, f)
    ensures IsAnyName(d.hash, f)
  {
    hide Id, Link, Ctl;
  }

  /** A start with the hash of links that are there already, and no more of them:
      a restart, whatever cards its annotation names by now; the same ids for the
      other resource; or a new pod that is given the ids of one that has not been
      collected yet. It is recorded with success and changes no link, so the hook
      finds the cards that were there before. */
  lemma LaterStartGetsOldCards(w: World, q: Request, a: Answers, cards: seq<int>, listing: seq<string>)
    requires HasLinks(w.links, q.device.hash, cards)
    requires forall i :: 0 <= i < |cards| ==> MIN_INT <= cards[i] <= MAX_INT
    requires Indexes(q).Some? && |Indexes(q).value| <= |cards| && a.commits
    requires Lists(listing, w.links)
    ensures var (after, reply) := Start(w, q, a);
            && reply == Started && after.links == w.links
            && Has(after.records, q.pod, q.container) && after.records[q.pod][q.container] == q.device
            && multiset(IndexesIn(q.device.hash, after.links, listing)) == multiset(cards)
  {
    hide AnnotatedIndexes, CreatedAll, IndexesIn, Lists, Recorded;
    AllThere(w.links, q.device.hash, Indexes(q).value, a.creates);
    RecordedHas(w.records, q);
    HookFindsLinks(w.links, q.device.hash, cards, listing);
  }

  lemma SameHashKeepsLinks(w: World, q: Request, a: Answers, cards: seq<int>)
    requires HasLinks(w.links, q.device.hash, cards)
    requires Indexes(q).Some? ==> |Indexes(q).value| <= |cards| && a.commits
    ensures Start(w, q, a).0.links == w.links
  {
    hide AnnotatedIndexes, CreatedAll, Recorded;
    if Indexes(q).Some? {
      AllThere(w.links, q.device.hash, Indexes(q).value, a.creates);
    }
  }

  /** Of the starts with the hash that save a record, exactly those that ask for
      no more links leave them as they are. */
  lemma SavedStartSparesIff(w: World, q: Request, a: Answers, cards: seq<int>)
    requires HasLinks(w.links, q.device.hash, cards) && Saves(w, q, a)
    ensures HasLinks(Start(w, q, a).0.links, q.device.hash, cards) <==> |Indexes(q).value| <= |cards|
  {
    hide AnnotatedIndexes, Start, Id, Link, GpuPath, CreatedAll;
    if |Indexes(q).value| <= |cards| {
      SameHashKeepsLinks(w, q, a, cards);
    } else {
      SavedLinksAreThere(w, q, a);
      var n := |Indexes(q).value| - 1;
      OtherLinksAreSkipped(q.device.hash, q.device.hash, n);
      forall i: nat | i < |cards| ensures Link(Id(q.device.hash, i)) != Link(Id(q.device.hash, n)) {
        NumberedNames(q.device.hash, i, n);
      }
    }
  }

  lemma HappeningKeepsLinks(w: World, h: Happening, hash: string, cards: seq<int>)
    requires HashLengths(w.records) && MayHappen(w, h) && Spares(h, hash, |cards|)
    requires |hash| == 8 && HasLinks(w.links, hash, cards)
    ensures HasLinks(Happen(w, h).links, hash, cards) && HashLengths(Happen(w, h).records)
  {
    hide HasLinks, Start, Sweep, LinesOf, Recorded, AnnotatedIndexes, Saves;
    match h {
      case Starts(q, a) =>
        if q.device.hash == hash {
          SameHashKeepsLinks(w, q, a, cards);
        } else {
          OtherStartKeepsLinks(w, q, a, hash, cards);
        }
        StartSplits(w, q, a);
        RecordedHas(w.records, q);
      case Collects(view, lines, fates) =>
        PassKeepsLinks(w, view, lines, fates, hash, cards);
        SweepKeepsRest(w, lines, fates, 0);
        FewerLengths(w.records, Sweep(w, lines, fates).records);
    }
  }

  lemma FewerLengths(records: Records, after: Records)
    requires HashLengths(records) && forall p :: p in after ==> p in records && after[p] == records[p]
    ensures HashLengths(after)
  {
    assert forall p, c :: Has(after, p, c) ==> Has(records, p, c) && after[p][c] == records[p][c];
  }

  lemma {:induction false} HistoryKeepsLinks(w: World, hs: seq<Happening>, hash: string, cards: seq<int>)
    requires HashLengths(w.records) && IsHistory(w, hs) && AllSpare(hs, hash, |cards|)
    requires |hash| == 8 && HasLinks(w.links, hash, cards)
    ensures HasLinks(After(w, hs).links, hash, cards)
    decreases |hs|
  {
    if hs != [] {
      hide HasLinks, Happen, HashLengths, MayHappen, Spares;
      HappeningKeepsLinks(w, hs[0], hash, cards);
      HistoryKeepsLinks(Happen(w, hs[0]), hs[1..], hash, cards);
    }
  }

  /** A first start whose annotation names the cards: the links of its hash, in
      full, are those of these cards, in their order; and the hook finds them. */
  lemma StartGetsItsCards(w: World, q: Request, a: Answers, cards: seq<int>, listing: seq<string>)
    requires Annotates(q.device.resourceName, q.val, cards)
    requires forall f :: f in w.links ==> !("elastic-gpu-" + q.device.hash <= f)
    requires a.creates == ALWAYS_FINE && a.commits
    requires Lists(listing, Start(w, q, a).0.links)
    ensures var (after, reply) := Start(w, q, a);
            && reply == Started
            && (forall i: nat :: i < |cards| ==> LinksTo(after.links, q.device.hash, i, cards[i]))
            && (forall f :: f in after.links && "elastic-gpu-" + q.device.hash <= f ==>
                  exists i: nat :: i < |cards| && f == "elastic-gpu-" + (q.device.hash + "-" + Itoa(i)))
            && multiset(IndexesIn(q.device.hash, after.links, listing)) == multiset(cards)
  {
    hide AnnotatedIndexes, Annotates, Lists, IndexesIn, CreatedAll, Itoa;
    AnnotatedCards(q.device.resourceName, q.val, cards);
    CardsAreInts(q.device.resourceName, q.val, cards);
    CreatedAllLinks(w.links, q.device.hash, cards);
    HookFindsLinks(Start(w, q, a).0.links, q.device.hash, cards, listing);
  }

  lemma CardsAreInts(resource: string, val: string, cards: seq<int>)
    requires Annotates(resource, val, cards)
    ensures forall i :: 0 <= i < |cards| ==> MIN_INT <= cards[i] <= MAX_INT
  {
  }

  /** Link number i of the hash is there and points at the card. */
  predicate LinksTo(links: LinkTable, hash: string, i: nat, card: int)
  {
    var f := "elastic-gpu-" + (hash + "-" + Itoa(i));
    f in links && links[f] == "/dev/nvidia" + Itoa(card)
  }

  /** Memory of one card: the annotation is its number. */
  lemma MemoryStartGetsItsCard(w: World, q: Request, a: Answers, n: int, listing: seq<string>)
    requires q.device.resourceName == "elasticgpu.io/gpu-memory" && q.val == Itoa(n)
    requires -0x8000_0000_0000_0000 <= n <= 0x7fff_ffff_ffff_ffff
    requires forall f :: f in w.links ==> !("elastic-gpu-" + q.device.hash <= f)
    requires a.creates == ALWAYS_FINE && a.commits
    requires Lists(listing, Start(w, q, a).0.links)
    ensures var (after, reply) := Start(w, q, a);
            var link := "elastic-gpu-" + (q.device.hash + "-" + Itoa(0));
            && reply == Started && link in after.links && after.links[link] == "/dev/nvidia" + Itoa(n)
            && multiset(IndexesIn(q.device.hash, after.links, listing)) == multiset{n}
  {
    hide Start, Lists, IndexesIn, Itoa;
    assert q.device.resourceName[18] != "elasticgpu.io/gpu-core"[18];
    StartGetsItsCards(w, q, a, [n], listing);
    assert LinksTo(Start(w, q, a).0.links, q.device.hash, 0, [n][0]);
  }

  /** Cores of some cards: the annotation is their numbers, separated by
      commas. */
  lemma CoreStartGetsItsCards(w: World, q: Request, a: Answers, cards: seq<int>, listing: seq<string>)
    requires q.device.resourceName == "elasticgpu.io/gpu-core" && cards != []
    requires q.val == Join(seq(|cards|, i requires 0 <= i < |cards| => Itoa(cards[i])), ',')
    requires forall i :: 0 <= i < |cards| ==> -0x8000_0000_0000_0000 <= cards[i] <= 0x7fff_ffff_ffff_ffff
    requires forall f :: f in w.links ==> !("elastic-gpu-" + q.device.hash <= f)
    requires a.creates == ALWAYS_FINE && a.commits
    requires Lists(listing, Start(w, q, a).0.links)
    ensures var (after, reply) := Start(w, q, a);
            && reply == Started && (forall i: nat :: i < |cards| ==> LinksTo(after.links, q.device.hash, i, cards[i]))
            && multiset(IndexesIn(q.device.hash, after.links, listing)) == multiset(cards)
  {
    hide Start, Lists, IndexesIn, Itoa, LinksTo;
    StartGetsItsCards(w, q, a, cards, listing);
  }

  /** From the annotation to the container runtime, over whole histories and
      whatever fails in them: a container starts with a hash that has no link
      yet, and its record is saved. Then, as long as no start with its hash asks
      for more links or fails to be saved, and no container with its hash is
      found gone, the hook finds exactly the cards of that start's annotation,
      however the directory is listed, and never a link that it cannot read. */
  lemma HookAlongHistory(w: World, q: Request, a: Answers, hs: seq<Happening>, listing: seq<string>)
    requires HashLengths(w.records) && |q.device.hash| == 8 && Saves(w, q, a)
    requires forall f :: f in w.links ==> !(LINK_PREFIX + q.device.hash <= f)
    requires IsHistory(Start(w, q, a).0, hs) && AllSpare(hs, q.device.hash, |Indexes(q).value|)
    requires Lists(listing, After(Start(w, q, a).0, hs).links)
    ensures var after := After(Start(w, q, a).0, hs);
            && (forall f :: IsGpuSymlink(q.device.hash, after.links, f) ==> Indexable(after.links[f]))
            && multiset(IndexesIn(q.device.hash, after.links, listing)) == multiset(Indexes(q).value)
            && forall cards :: Annotates(q.device.resourceName, q.val, cards) ==>
                 multiset(IndexesIn(q.device.hash, after.links, listing)) == multiset(cards)
  {
    forall cards | Annotates(q.device.resourceName, q.val, cards) ensures Indexes(q) == Some(cards) {
      AnnotatedCards(q.device.resourceName, q.val, cards);
    }
    hide Annotates;
    hide AnnotatedIndexes, CreatedAll, HasLinks, Lists, IndexesIn, Indexable, IsGpuSymlink, IsHistory, AllSpare, After;
    hide HashLengths, Recorded;
    var started := Start(w, q, a).0;
    CreatedLinks(w.links, q.device.hash, Indexes(q).value, a.creates);
    StartKeepsLengths(w, q, a);
    HistoryKeepsLinks(started, hs, q.device.hash, Indexes(q).value);
    IndexesAreInts(q);
    HookFindsLinks(After(started, hs).links, q.device.hash, Indexes(q).value, listing);
    LinksAreIndexable(After(started, hs).links, q.device.hash, Indexes(q).value);
  }

  lemma StartKeepsLengths(w: World, q: Request, a: Answers)
    requires HashLengths(w.records) && |q.device.hash| == 8
    ensures HashLengths(Start(w, q, a).0.records)
  {
    hide Start, Recorded, Saves;
    StartSplits(w, q, a);
    RecordedHas(w.records, q);
  }

  // ---- What links point at ----

  lemma {:induction false} CreationKeepsTargets(links: LinkTable, hash: string, indexes: seq<int>, os: nat -> Syscalls)
    requires ProperTargets(links)
    ensures ProperTargets(CreatedAll(links, hash, indexes, os).0)
  {
    if indexes != [] {
      hide Id, Created, ProperTargets;
      var n := |indexes| - 1;
      CreationKeepsTargets(links, hash, indexes[..n], os);
      CreatedKeepsTargets(CreatedAll(links, hash, indexes[..n], os).0, indexes[n], Id(hash, n), os(n));
    }
  }

  lemma {:induction false} RollbackShrinks(links: LinkTable, hash: string, n: nat, os: nat -> Syscalls)
    ensures Fewer(RolledBack(links, hash, n, os), links)
  {
    if n > 0 {
      hide Id, Link, Ctl;
      RollbackShrinks(links, hash, n - 1, os);
      DeletedSafe(RolledBack(links, hash, n - 1, os), hash, n - 1, os(n - 1));
    }
  }

  lemma FewerKeepTargets(after: LinkTable, before: LinkTable)
    requires ProperTargets(before) && Fewer(after, before)
    ensures ProperTargets(after)
  {
  }

  lemma HappeningKeepsTargets(w: World, h: Happening)
    requires ProperTargets(w.links)
    ensures ProperTargets(Happen(w, h).links)
  {
    hide ProperTargets, AnnotatedIndexes, CreatedAll, RolledBack, Sweep, Recorded, IsNameOf;
    match h {
      case Starts(q, a) =>
        if Indexes(q).Some? {
          var links := CreatedAll(w.links, q.device.hash, Indexes(q).value, a.creates).0;
          CreationKeepsTargets(w.links, q.device.hash, Indexes(q).value, a.creates);
          RollbackShrinks(links, q.device.hash, |Indexes(q).value|, a.rollbacks);
          FewerKeepTargets(RolledBack(links, q.device.hash, |Indexes(q).value|, a.rollbacks), links);
        }
      case Collects(_, lines, fates) =>
        SweepRemovesOnlyLines(w, lines, fates, 0);
        FewerKeepTargets(Sweep(w, lines, fates).links, w.links);
    }
  }

  /** Over every history, whatever fails in it: the agent's links point at cards,
      and all their partners at the control device. */
  lemma {:induction false} TargetsAlongHistory(w: World, hs: seq<Happening>)
    requires ProperTargets(w.links)
    ensures ProperTargets(After(w, hs).links)
    decreases |hs|
  {
    if hs != [] {
      hide ProperTargets, Happen;
      HappeningKeepsTargets(w, hs[0]);
      TargetsAlongHistory(Happen(w, hs[0]), hs[1..]);
    }
  }

  /** And over every run. */
  lemma {:induction false} TargetsAlongRun(w: World, events: seq<Event>)
    requires ProperTargets(w.links)
    ensures ProperTargets(Run(w, events).links)
    decreases |events|
  {
    if events != [] {
      hide ProperTargets, Start, Sweep;
      match events[0]
      case Starting(q) =>
        HappeningKeepsTargets(w, Starts(q, GOOD_ANSWERS));
        TargetsAlongRun(Apply(w, events[0]), events[1..]);
      case Collecting(view, lines) =>
        HappeningKeepsTargets(w, Collects(view, lines, GOOD_FATES));
        TargetsAlongRun(Apply(w, events[0]), events[1..]);
    }
  }
}
