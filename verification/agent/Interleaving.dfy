// A pass of the garbage collector takes no lock: containers may start between
// its scan and its sweep, and between any two lines of the sweep. When the
// outcome is that of a pass in one step, and when it is not.
module Interleaving {
  import opened Links
  import opened Storage
  import opened Plugins
  import opened PreStart
  import opened Gc
  import opened Lifecycle
  import opened Failures

  datatype Action = SweepNext | Begin(request: Request, answers: Answers)

  /** The lines that are still to be swept, and the world. */
  datatype Passing = Passing(w: World, todo: seq<Line>, t: nat)

  /** One action of a pass that is under way. Sweeping after the pass has ended
      does nothing. */
  function Act(s: Passing, fates: Fates, action: Action): (r: Passing)
  {
    match action
    case Begin(q, a) => s.(w := Start(s.w, q, a).0)
    case SweepNext =>
      if s.todo == [] then s
      else
        var (after, swept, t') := SweepLine(s.w, s.todo[0], fates, s.t);
        Passing(after, if swept == FirstStuck then [] else s.todo[1..], t')
  }

  function ActAll(s: Passing, fates: Fates, schedule: seq<Action>): (r: Passing)
    decreases |schedule|
  {
    if schedule == [] then s else ActAll(Act(s, fates, schedule[0]), fates, schedule[1..])
  }

  /** The starts of a schedule, one after the other. */
  function StartAll(w: World, schedule: seq<Action>): (r: World)
    decreases |schedule|
  {
    if schedule == [] then w
    else match schedule[0]
      case SweepNext => StartAll(w, schedule[1..])
      case Begin(q, a) => StartAll(Start(w, q, a).0, schedule[1..])
  }

  // ---- What an operation on one hash depends on and touches ----

  ghost predicate IsAnyName(hash: string, f: string)
  {
    exists i: nat :: f == Link(Id(hash, i)) || f == Ctl(Id(hash, i))
  }

  ghost predicate SameAt(a: LinkTable, b: LinkTable, f: string)
  {
    (f in a <==> f in b) && (f in a ==> a[f] == b[f])
  }

  ghost predicate SameInside(a: LinkTable, b: LinkTable, hash: string)
  {
    forall f :: IsAnyName(hash, f) ==> SameAt(a, b, f)
  }

  ghost predicate SameOutside(a: LinkTable, b: LinkTable, hash: string)
  {
    forall f :: !IsAnyName(hash, f) ==> SameAt(a, b, f)
  }

  lemma NamesOf(hash: string, i: nat)
    ensures IsAnyName(hash, Link(Id(hash, i))) && IsAnyName(hash, Ctl(Id(hash, i)))
  {
  }

  lemma NamesOfOtherHash(h: string, g: string, f: string)
    requires |h| == |g| && h != g
    ensures !(IsAnyName(h, f) && IsAnyName(g, f))
  {
    hide Id, Link, Ctl;
    if IsAnyName(h, f) && IsAnyName(g, f) {
      var i: nat :| f == Link(Id(h, i)) || f == Ctl(Id(h, i));
      var j: nat :| f == Link(Id(g, j)) || f == Ctl(Id(g, j));
      LinkInjective(Id(h, i), Id(g, j));
      LinkIsNotCtl(Id(h, i), Id(g, j));
      LinkIsNotCtl(Id(g, j), Id(h, i));
      IdInjective(h, i, g, j);
    }
  }

  lemma CreatedLocal(a: LinkTable, b: LinkTable, hash: string, index: int, i: nat, os: Syscalls)
    requires SameInside(a, b, hash)
    ensures Created(a, index, Id(hash, i), os).1 == Created(b, index, Id(hash, i), os).1
    ensures SameInside(Created(a, index, Id(hash, i), os).0, Created(b, index, Id(hash, i), os).0, hash)
    ensures SameOutside(a, Created(a, index, Id(hash, i), os).0, hash)
  {
    hide Id, Link, Ctl, GpuPath, IsAnyName;
    NamesOf(hash, i);
    assert SameAt(a, b, Link(Id(hash, i))) && SameAt(a, b, Ctl(Id(hash, i)));
  }

  lemma DeletedLocal(a: LinkTable, b: LinkTable, hash: string, i: nat, os: Syscalls)
    requires SameInside(a, b, hash)
    ensures Deleted(a, Id(hash, i), os).1 == Deleted(b, Id(hash, i), os).1
    ensures SameInside(Deleted(a, Id(hash, i), os).0, Deleted(b, Id(hash, i), os).0, hash)
    ensures SameOutside(a, Deleted(a, Id(hash, i), os).0, hash)
  {
    hide Id, Link, Ctl, IsAnyName;
    NamesOf(hash, i);
    assert SameAt(a, b, Link(Id(hash, i))) && SameAt(a, b, Ctl(Id(hash, i)));
  }

  lemma OutsideTransitive(a: LinkTable, b: LinkTable, c: LinkTable, hash: string)
    requires SameOutside(a, b, hash) && SameOutside(b, c, hash)
    ensures SameOutside(a, c, hash)
  {
    hide IsAnyName;
    forall f | !IsAnyName(hash, f) ensures SameAt(a, c, f) {
      assert SameAt(a, b, f) && SameAt(b, c, f);
    }
  }

  lemma {:induction false} CreatedAllLocal(a: LinkTable, b: LinkTable, hash: string, indexes: seq<int>,
                                           os: nat -> Syscalls)
    requires SameInside(a, b, hash)
    ensures CreatedAll(a, hash, indexes, os).1 == CreatedAll(b, hash, indexes, os).1
    ensures SameInside(CreatedAll(a, hash, indexes, os).0, CreatedAll(b, hash, indexes, os).0, hash)
    ensures SameOutside(a, CreatedAll(a, hash, indexes, os).0, hash)
  {
    if indexes != [] {
      hide Id, Created, SameInside, SameOutside;
      var n := |indexes| - 1;
      CreatedAllLocal(a, b, hash, indexes[..n], os);
      var a', b' := CreatedAll(a, hash, indexes[..n], os).0, CreatedAll(b, hash, indexes[..n], os).0;
      CreatedLocal(a', b', hash, indexes[n], n, os(n));
      OutsideTransitive(a, a', Created(a', indexes[n], Id(hash, n), os(n)).0, hash);
    }
  }

  lemma {:induction false} RolledBackLocal(a: LinkTable, b: LinkTable, hash: string, count: nat, os: nat -> Syscalls)
    requires SameInside(a, b, hash)
    ensures SameInside(RolledBack(a, hash, count, os), RolledBack(b, hash, count, os), hash)
    ensures SameOutside(a, RolledBack(a, hash, count, os), hash)
  {
    if count > 0 {
      hide Id, Deleted, SameInside, SameOutside;
      RolledBackLocal(a, b, hash, count - 1, os);
      var a', b' := RolledBack(a, hash, count - 1, os), RolledBack(b, hash, count - 1, os);
      DeletedLocal(a', b', hash, count - 1, os(count - 1));
      OutsideTransitive(a, a', RolledBack(a, hash, count, os), hash);
    }
  }

  lemma {:induction false} SweepFromLocal(a: LinkTable, b: LinkTable, hash: string, i: nat, n: nat,
                                          deletes: nat -> Syscalls, t: nat)
    requires SameInside(a, b, hash)
    ensures var (a', swept, u) := SweepFrom(a, hash, i, n, deletes, t);
            var (b', swept', u') := SweepFrom(b, hash, i, n, deletes, t);
            swept == swept' && u == u' && SameInside(a', b', hash) && SameOutside(a, a', hash)
    decreases n - i
  {
    if i < n {
      hide Id, Deleted, SameInside, SameOutside;
      var a', b' := Deleted(a, Id(hash, i), deletes(t)).0, Deleted(b, Id(hash, i), deletes(t)).0;
      DeletedLocal(a, b, hash, i, deletes(t));
      SweepFromLocal(a', b', hash, i + 1, n, deletes, t + 1);
      OutsideTransitive(a, a', SweepFrom(a', hash, i + 1, n, deletes, t + 1).0, hash);
    }
  }

  lemma SweepLinksLocal(a: LinkTable, b: LinkTable, l: Line, deletes: nat -> Syscalls, t: nat)
    requires SameInside(a, b, l.device.hash)
    ensures var (a', swept, u) := SweepLinks(a, l.device, deletes, t);
            var (b', swept', u') := SweepLinks(b, l.device, deletes, t);
            swept == swept' && u == u' && SameInside(a', b', l.device.hash) && SameOutside(a, a', l.device.hash)
  {
    hide Id, Deleted, SameInside, SameOutside, SweepFrom;
    var hash := l.device.hash;
    var a', b' := Deleted(a, Id(hash, 0), deletes(t)).0, Deleted(b, Id(hash, 0), deletes(t)).0;
    DeletedLocal(a, b, hash, 0, deletes(t));
    SweepFromLocal(a', b', hash, 1, LinkCount(l.device), deletes, t + 1);
    OutsideTransitive(a, a', SweepFrom(a', hash, 1, LinkCount(l.device), deletes, t + 1).0, hash);
  }

  /** What a start does to the links, and whether it records the container. */
  function StartedLinks(links: LinkTable, hash: string, indexes: seq<int>, a: Answers): (r: (LinkTable, bool))
  {
    var (created, ok) := CreatedAll(links, hash, indexes, a.creates);
    if ok && !a.commits then (RolledBack(created, hash, |indexes|, a.rollbacks), ok) else (created, ok)
  }

  lemma StartedLinksLocal(x: LinkTable, y: LinkTable, hash: string, indexes: seq<int>, a: Answers)
    requires SameInside(x, y, hash)
    ensures StartedLinks(x, hash, indexes, a).1 == StartedLinks(y, hash, indexes, a).1
    ensures SameInside(StartedLinks(x, hash, indexes, a).0, StartedLinks(y, hash, indexes, a).0, hash)
    ensures SameOutside(x, StartedLinks(x, hash, indexes, a).0, hash)
  {
    hide CreatedAll, RolledBack, SameInside, SameOutside;
    CreatedAllLocal(x, y, hash, indexes, a.creates);
    var x', y' := CreatedAll(x, hash, indexes, a.creates).0, CreatedAll(y, hash, indexes, a.creates).0;
    RolledBackLocal(x', y', hash, |indexes|, a.rollbacks);
    OutsideTransitive(x, x', RolledBack(x', hash, |indexes|, a.rollbacks), hash);
  }

  // ---- Operations on different hashes commute ----

  lemma OutsideIsInside(a: LinkTable, b: LinkTable, h: string, g: string)
    requires SameOutside(a, b, g) && |h| == |g| && h != g
    ensures SameInside(b, a, h)
  {
    hide IsAnyName;
    forall f | IsAnyName(h, f) ensures SameAt(b, a, f) {
      NamesOfOtherHash(h, g, f);
      assert SameAt(a, b, f);
    }
  }

  /** From x, one operation leads to u and another to v; both then lead to the
      same table. */
  lemma TablesCommute(x: LinkTable, u: LinkTable, v: LinkTable, uv: LinkTable, vu: LinkTable, h: string, g: string)
    requires |h| == |g| && h != g
    requires SameOutside(x, u, h) && SameOutside(x, v, g)
    requires SameInside(vu, u, h) && SameOutside(v, vu, h)
    requires SameInside(uv, v, g) && SameOutside(u, uv, g)
    ensures uv == vu
  {
    hide IsAnyName;
    forall f ensures SameAt(uv, vu, f) {
      NamesOfOtherHash(h, g, f);
      if IsAnyName(h, f) {
        assert SameAt(vu, u, f) && SameAt(u, uv, f);
      } else if IsAnyName(g, f) {
        assert SameAt(uv, v, f) && SameAt(v, vu, f);
      } else {
        assert SameAt(x, u, f) && SameAt(u, uv, f) && SameAt(x, v, f) && SameAt(v, vu, f);
      }
    }
    SameEverywhere(uv, vu);
  }

  lemma SameEverywhere(a: LinkTable, b: LinkTable)
    requires forall f :: SameAt(a, b, f)
    ensures a == b
  {
    forall f ensures f in a <==> f in b {
      assert SameAt(a, b, f);
    }
    forall f | f in a ensures a[f] == b[f] {
      assert SameAt(a, b, f);
    }
  }

  lemma LinksCommute(x: LinkTable, l: Line, deletes: nat -> Syscalls, t: nat, hash: string, indexes: seq<int>,
                     a: Answers)
    requires |hash| == |l.device.hash| && hash != l.device.hash
    ensures var (swept, s, u) := SweepLinks(x, l.device, deletes, t);
            var (started, ok) := StartedLinks(x, hash, indexes, a);
            && SweepLinks(started, l.device, deletes, t) == (StartedLinks(swept, hash, indexes, a).0, s, u)
            && StartedLinks(swept, hash, indexes, a).1 == ok
  {
    hide SweepLinks, StartedLinks, SameInside, SameOutside;
    var swept := SweepLinks(x, l.device, deletes, t).0;
    var started := StartedLinks(x, hash, indexes, a).0;
    InsideReflexive(x, l.device.hash);
    InsideReflexive(x, hash);
    SweepLinksLocal(x, x, l, deletes, t);
    StartedLinksLocal(x, x, hash, indexes, a);
    OutsideIsInside(x, started, l.device.hash, hash);
    OutsideIsInside(x, swept, hash, l.device.hash);
    SweepLinksLocal(started, x, l, deletes, t);
    StartedLinksLocal(swept, x, hash, indexes, a);
    TablesCommute(x, swept, started, StartedLinks(swept, hash, indexes, a).0,
                  SweepLinks(started, l.device, deletes, t).0, l.device.hash, hash);
  }

  lemma InsideReflexive(x: LinkTable, hash: string)
    ensures SameInside(x, x, hash)
  {
  }

  /** The hash of the line is not that of the container that starts. */
  predicate Apart(l: Line, q: Request)
  {
    |l.device.hash| == |q.device.hash| && l.device.hash != q.device.hash
  }

  /** The start makes its links and saves its record. */
  predicate Saves(w: World, q: Request, a: Answers)
  {
    Indexes(q).Some? && CreatedAll(w.links, q.device.hash, Indexes(q).value, a.creates).1 && a.commits
  }

  /** The links of the line all go, and the record of its pod with them. */
  predicate LineDrops(w: World, l: Line, fates: Fates, t: nat)
  {
    SweepLine(w, l, fates, t).1 == LinksGone && fates.commits(SweepLine(w, l, fates, t).2)
  }

  /** A start is what it does to the links and to the records. */
  lemma StartSplits(w: World, q: Request, a: Answers)
    ensures Indexes(q).None? ==> Start(w, q, a) == (w, Refused(NotAnIndex)) && !Saves(w, q, a)
    ensures Indexes(q).Some? ==>
              var (links, ok) := StartedLinks(w.links, q.device.hash, Indexes(q).value, a);
              && Start(w, q, a).0.links == links
              && Start(w, q, a).1 == (if ok then Started else Refused(LinkNotCreated))
              && (Saves(w, q, a) <==> ok && a.commits)
    ensures Start(w, q, a).0.records ==
            if Saves(w, q, a) then Recorded(w.records, q.pod, q.container, q.device) else w.records
  {
    hide AnnotatedIndexes, CreatedAll, RolledBack, Recorded;
  }

  /** Sweeping a line and starting a container of another hash: the order makes
      no difference to the links, to how far the sweep gets, or to the reply. */
  lemma LineLinksCommute(w: World, l: Line, fates: Fates, t: nat, q: Request, a: Answers)
    requires Apart(l, q)
    ensures var (after, swept, u) := SweepLine(w, l, fates, t);
            var (after', swept', u') := SweepLine(Start(w, q, a).0, l, fates, t);
            && swept' == swept && u' == u
            && after'.links == Start(after, q, a).0.links
            && Start(after, q, a).1 == Start(w, q, a).1
            && Saves(after, q, a) == Saves(w, q, a)
  {
    hide AnnotatedIndexes, SweepLinks, StartedLinks, Start, Saves;
    var after := SweepLine(w, l, fates, t).0;
    StartSplits(w, q, a);
    StartSplits(after, q, a);
    if Indexes(q).Some? {
      LinksCommute(w.links, l, fates.deletes, t, q.device.hash, Indexes(q).value, a);
    }
  }

  /** Nor to the records, exactly unless the pod is the same, the line takes its
      record away, and the start writes it. */
  lemma LineCommutesIff(w: World, l: Line, fates: Fates, t: nat, q: Request, a: Answers)
    requires Apart(l, q)
    ensures SweepLine(Start(w, q, a).0, l, fates, t).0 == Start(SweepLine(w, l, fates, t).0, q, a).0 <==>
            !(l.pod == q.pod && LineDrops(w, l, fates, t) && Saves(w, q, a))
  {
    hide Start, Saves, SweepLinks, Recorded;
    var after := SweepLine(w, l, fates, t).0;
    LineLinksCommute(w, l, fates, t, q, a);
    StartSplits(w, q, a);
    StartSplits(after, q, a);
    RecordsCommuteIff(w.records, l.pod, q);
  }

  lemma RecordsCommuteIff(records: Records, pod: Pod, q: Request)
    ensures pod != q.pod <==> Recorded(records - {pod}, q.pod, q.container, q.device) ==
                              Recorded(records, q.pod, q.container, q.device) - {pod}
  {
  }

  /** The pass gets to a line of the pod whose links all go, and whose record
      goes with them. */
  predicate Drops(w: World, lines: seq<Line>, fates: Fates, t: nat, pod: Pod)
    decreases |lines|
  {
    lines != [] &&
    var (after, swept, u) := SweepLine(w, lines[0], fates, t);
    || (lines[0].pod == pod && LineDrops(w, lines[0], fates, t))
    || (swept != FirstStuck && Drops(after, lines[1..], fates, u, pod))
  }

  /** For a pod on record: that the record is not there after the pass. */
  lemma {:induction false} DropsIff(w: World, lines: seq<Line>, fates: Fates, t: nat, pod: Pod)
    requires pod in w.records
    ensures Drops(w, lines, fates, t, pod) <==> pod !in Sweep(w, lines, fates, t).records
    decreases |lines|
  {
    if lines != [] {
      hide SweepLinks;
      var (after, swept, u) := SweepLine(w, lines[0], fates, t);
      if pod in after.records {
        DropsIff(after, lines[1..], fates, u, pod);
      } else {
        SweepKeepsRest(after, lines[1..], fates, u);
      }
    }
  }

  lemma {:induction false} PassLinksCommute(w: World, lines: seq<Line>, fates: Fates, t: nat, q: Request, a: Answers)
    requires forall k :: 0 <= k < |lines| ==> Apart(lines[k], q)
    ensures Start(Sweep(w, lines, fates, t), q, a).1 == Start(w, q, a).1
    ensures Saves(Sweep(w, lines, fates, t), q, a) == Saves(w, q, a)
    decreases |lines|
  {
    if lines != [] {
      hide SweepLine, Start, Apart, Saves;
      LineLinksCommute(w, lines[0], fates, t, q, a);
      var (after, swept, u) := SweepLine(w, lines[0], fates, t);
      if swept != FirstStuck {
        PassLinksCommute(after, lines[1..], fates, u, q, a);
      }
    }
  }

  /** A start before a whole pass, or what is left of one, is a start after it
      if and only if the pass does not drop the record of its pod or the start
      records nothing. */
  lemma {:induction false} PassCommutesIff(w: World, lines: seq<Line>, fates: Fates, t: nat, q: Request, a: Answers)
    requires forall k :: 0 <= k < |lines| ==> Apart(lines[k], q)
    ensures Sweep(Start(w, q, a).0, lines, fates, t) == Start(Sweep(w, lines, fates, t), q, a).0 <==>
            !(Drops(w, lines, fates, t, q.pod) && Saves(w, q, a))
    decreases |lines|
  {
    if lines != [] {
      hide SweepLine, Start, Apart, Saves, LineDrops;
      var (after, swept, u) := SweepLine(w, lines[0], fates, t);
      LineLinksCommute(w, lines[0], fates, t, q, a);
      LineCommutesIff(w, lines[0], fates, t, q, a);
      if lines[0].pod == q.pod && LineDrops(w, lines[0], fates, t) && Saves(w, q, a) {
        LostByPass(w, lines, fates, t, q, a);
      } else if swept != FirstStuck {
        PassCommutesIff(after, lines[1..], fates, u, q, a);
      }
    }
  }

  /** A record that the first line takes away does not come back. */
  lemma LostByPass(w: World, lines: seq<Line>, fates: Fates, t: nat, q: Request, a: Answers)
    requires lines != [] && forall k :: 0 <= k < |lines| ==> Apart(lines[k], q)
    requires lines[0].pod == q.pod && LineDrops(w, lines[0], fates, t) && Saves(w, q, a)
    ensures q.pod !in Sweep(Start(w, q, a).0, lines, fates, t).records
    ensures q.pod in Start(Sweep(w, lines, fates, t), q, a).0.records
  {
    hide Start, Apart, Saves, SweepLinks, Recorded, Sweep;
    LineLinksCommute(w, lines[0], fates, t, q, a);
    var (after', swept, u) := SweepLine(Start(w, q, a).0, lines[0], fates, t);
    SweepKeepsRest(after', lines[1..], fates, u);
    SweepGoesOn(Start(w, q, a).0, lines, fates, t);
    PassLinksCommute(w, lines, fates, t, q, a);
    StartSplits(Sweep(w, lines, fates, t), q, a);
    var atEnd := Sweep(w, lines, fates, t).records;
    RecordedHas(atEnd, q);
    assert Has(Recorded(atEnd, q.pod, q.container, q.device), q.pod, q.container);
  }

  lemma {:induction false} SweepOfLinks(w: World, v: World, lines: seq<Line>, fates: Fates, t: nat)
    requires w.links == v.links
    ensures Sweep(w, lines, fates, t).links == Sweep(v, lines, fates, t).links
    decreases |lines|
  {
    if lines != [] {
      hide SweepLinks;
      var (after, swept, u) := SweepLine(w, lines[0], fates, t);
      SweepOfLinks(after, SweepLine(v, lines[0], fates, t).0, lines[1..], fates, u);
    }
  }

  lemma {:induction false} PassLinks(w: World, lines: seq<Line>, fates: Fates, t: nat, q: Request, a: Answers)
    requires forall k :: 0 <= k < |lines| ==> Apart(lines[k], q)
    ensures Sweep(Start(w, q, a).0, lines, fates, t).links == Start(Sweep(w, lines, fates, t), q, a).0.links
    decreases |lines|
  {
    if lines != [] {
      hide SweepLine, Start, Apart;
      LineLinksCommute(w, lines[0], fates, t, q, a);
      var (after, swept, u) := SweepLine(w, lines[0], fates, t);
      if swept != FirstStuck {
        PassLinks(after, lines[1..], fates, u, q, a);
        SweepOfLinks(SweepLine(Start(w, q, a).0, lines[0], fates, t).0, Start(after, q, a).0, lines[1..], fates, u);
      }
    }
  }

  /** What goes wrong otherwise: what the pod has recorded since the scan goes
      with its old record, and the links it has made stay behind. */
  lemma {:induction false} DroppedIsForgotten(w: World, lines: seq<Line>, fates: Fates, t: nat, q: Request, a: Answers)
    requires forall k :: 0 <= k < |lines| ==> Apart(lines[k], q)
    requires Drops(w, lines, fates, t, q.pod) && Saves(w, q, a)
    ensures var after := Sweep(Start(w, q, a).0, lines, fates, t);
            && q.pod !in after.records
            && forall i: nat :: i < |Indexes(q).value| ==> Link(Id(q.device.hash, i)) in after.links
    decreases |lines|
  {
    hide SweepLine, Start, Apart, LineDrops, Id, Link, CreatedAll, AnnotatedIndexes;
    if lines[0].pod == q.pod && LineDrops(w, lines[0], fates, t) {
      LostByPass(w, lines, fates, t, q, a);
    } else {
      LineLinksCommute(w, lines[0], fates, t, q, a);
      LineCommutesIff(w, lines[0], fates, t, q, a);
      var (after, swept, u) := SweepLine(w, lines[0], fates, t);
      DroppedIsForgotten(after, lines[1..], fates, u, q, a);
    }
    PassLinks(w, lines, fates, t, q, a);
    PassLinksCommute(w, lines, fates, t, q, a);
    SavedLinksAreThere(Sweep(w, lines, fates, t), q, a);
  }

  lemma SavedLinksAreThere(w: World, q: Request, a: Answers)
    requires Saves(w, q, a)
    ensures forall i: nat :: i < |Indexes(q).value| ==> Link(Id(q.device.hash, i)) in Start(w, q, a).0.links
  {
    hide Id, Link, CreatedAll, AnnotatedIndexes, Recorded;
    CreatedKeepsIff(w.links, q.device.hash, Indexes(q).value, a.creates);
  }

  /** Every schedule in which the pass comes to its end leaves the links and the
      records of a run in which the pass is one step and the starts follow it,
      whatever the environment answers, provided that the starts are of other
      pods and other hashes than the lines still to be swept. */
  lemma {:induction false} InterleavedPassIsAtomic(s: Passing, fates: Fates, schedule: seq<Action>)
    requires ActAll(s, fates, schedule).todo == []
    requires forall k, i :: 0 <= k < |s.todo| && 0 <= i < |schedule| && schedule[i].Begin? ==>
                              Unrelated(s.todo[k], schedule[i].request)
    ensures ActAll(s, fates, schedule).w == StartAll(Sweep(s.w, s.todo, fates, s.t), schedule)
    decreases |schedule|
  {
    if schedule != [] {
      hide SweepLine, Start, Unrelated;
      var next := Act(s, fates, schedule[0]);
      InterleavedPassIsAtomic(next, fates, schedule[1..]);
      match schedule[0]
      case SweepNext =>
      case Begin(q, a) =>
        UnrelatedCommutes(s.w, s.todo, fates, s.t, q, a);
    }
  }

  predicate Unrelated(l: Line, q: Request)
  {
    l.pod != q.pod && Apart(l, q)
  }

  lemma UnrelatedCommutes(w: World, lines: seq<Line>, fates: Fates, t: nat, q: Request, a: Answers)
    requires forall k :: 0 <= k < |lines| ==> Unrelated(lines[k], q)
    ensures Sweep(Start(w, q, a).0, lines, fates, t) == Start(Sweep(w, lines, fates, t), q, a).0
  {
    hide Start, Sweep, Apart;
    PassCommutesIff(w, lines, fates, t, q, a);
    NotDropped(w, lines, fates, t, q.pod);
  }

  lemma {:induction false} NotDropped(w: World, lines: seq<Line>, fates: Fates, t: nat, pod: Pod)
    requires forall k :: 0 <= k < |lines| ==> lines[k].pod != pod
    ensures !Drops(w, lines, fates, t, pod)
    decreases |lines|
  {
    if lines != [] {
      hide SweepLine;
      var (after, swept, u) := SweepLine(w, lines[0], fates, t);
      NotDropped(after, lines[1..], fates, u, pod);
    }
  }

  /** In terms of the scan: if no pod that it found gone starts again before the
      sweep ends, and new hashes differ from those of the pods found gone, the
      pass might as well have taken place in one step, at the time of the scan. */
  lemma TwoPhasePassIsAtomic(w: World, view: View, lines: seq<Line>, fates: Fates, schedule: seq<Action>)
    requires LinesOf(w.records, view, lines)
    requires ActAll(Passing(w, lines, 0), fates, schedule).todo == []
    requires forall i :: 0 <= i < |schedule| && schedule[i].Begin? ==>
               !IsGone(view, schedule[i].request.pod) &&
               forall k :: 0 <= k < |lines| ==> Apart(lines[k], schedule[i].request)
    ensures ActAll(Passing(w, lines, 0), fates, schedule).w == StartAll(Sweep(w, lines, fates), schedule)
  {
    hide Apart;
    InterleavedPassIsAtomic(Passing(w, lines, 0), fates, schedule);
  }

  // ---- A pod that starts again between the scan and the sweep ----

  /** A container that the scan found gone has the hash. */
  ghost predicate GoneHash(records: Records, view: View, hash: string)
  {
    exists p, c :: Has(records, p, c) && IsGone(view, p) && records[p][c].hash == hash
  }

  /** The pod is one that the scan found gone with a container on record. */
  predicate GonePod(records: Records, view: View, pod: Pod)
  {
    IsGone(view, pod) && pod in records && records[pod] != map[]
  }

  /** When nothing fails, any start between the scan and the sweep is a start
      after the pass if and only if it is refused for its annotation, or neither
      its hash nor its pod is that of a container found gone. A pod that is
      given the ids of its former self has the hash of one. */
  lemma StartAndPassCommuteIff(w: World, view: View, lines: seq<Line>, q: Request)
    requires Inv(w) && AllLinesOf(w.records, view, lines) && Distinct(lines) && |q.device.hash| == 8
    ensures var startFirst := Sweep(Apply(w, Starting(q)), lines, GOOD_FATES);
            var passFirst := Apply(Sweep(w, lines, GOOD_FATES), Starting(q));
            startFirst == passFirst <==>
              Indexes(q).None? || !(GoneHash(w.records, view, q.device.hash) || GonePod(w.records, view, q.pod))
  {
    hide Inv, AllLinesOf, Distinct, Sweep, IsGone, Start, GoneHash, Saves, AnnotatedIndexes, GOOD_ANSWERS;
    if Indexes(q).None? {
      StartSplits(w, q, GOOD_ANSWERS);
      StartSplits(Sweep(w, lines, GOOD_FATES), q, GOOD_ANSWERS);
    } else if GoneHash(w.records, view, q.device.hash) {
      FirstLinkDiffers(w, view, lines, q);
    } else {
      OtherHashIsApart(w, view, lines, q);
      PassCommutesIff(w, lines, GOOD_FATES, 0, q, GOOD_ANSWERS);
      GoodStartSaves(w, q);
      GoodPassDrops(w, view, lines, q.pod);
    }
  }

  lemma OtherHashIsApart(w: World, view: View, lines: seq<Line>, q: Request)
    requires Inv(w) && AllLinesOf(w.records, view, lines) && |q.device.hash| == 8
    requires !GoneHash(w.records, view, q.device.hash)
    ensures forall k :: 0 <= k < |lines| ==> Apart(lines[k], q)
  {
    hide IsGone, LinksMatch;
    forall k | 0 <= k < |lines| ensures Apart(lines[k], q) {
      assert Has(w.records, lines[k].pod, lines[k].container);
    }
  }

  lemma GoodStartSaves(w: World, q: Request)
    requires Indexes(q).Some?
    ensures Saves(w, q, GOOD_ANSWERS)
  {
    hide AnnotatedIndexes, CreatedAll;
    GoodCreationSucceeds(w.links, q.device.hash, Indexes(q).value);
  }

  lemma GoodPassDrops(w: World, view: View, lines: seq<Line>, pod: Pod)
    requires Inv(w) && AllLinesOf(w.records, view, lines) && Distinct(lines)
    ensures Drops(w, lines, GOOD_FATES, 0, pod) <==> GonePod(w.records, view, pod)
  {
    hide Inv, AllLinesOf, Distinct, Sweep, IsGone, Drops;
    CollectKeepsInv(w, view, lines);
    if pod in w.records {
      DropsIff(w, lines, GOOD_FATES, 0, pod);
    } else {
      NewPodIsNotDropped(w, view, lines, pod);
    }
  }

  lemma NewPodIsNotDropped(w: World, view: View, lines: seq<Line>, pod: Pod)
    requires AllLinesOf(w.records, view, lines) && pod !in w.records
    ensures !Drops(w, lines, GOOD_FATES, 0, pod)
  {
    hide IsGone;
    NotDropped(w, lines, GOOD_FATES, 0, pod);
  }

  /** With the hash of a container found gone, the sweep takes the first link of
      the start that precedes it, and leaves that of the start that follows. */
  lemma FirstLinkDiffers(w: World, view: View, lines: seq<Line>, q: Request)
    requires Inv(w) && AllLinesOf(w.records, view, lines) && Distinct(lines) && |q.device.hash| == 8
    requires Indexes(q).Some? && GoneHash(w.records, view, q.device.hash)
    ensures Link(Id(q.device.hash, 0)) !in Sweep(Apply(w, Starting(q)), lines, GOOD_FATES).links
    ensures Link(Id(q.device.hash, 0)) in Apply(Sweep(w, lines, GOOD_FATES), Starting(q)).links
  {
    hide Inv, AllLinesOf, Distinct, Sweep, IsGone, Start, AnnotatedIndexes, LineName, NamesDiffer;
    hide Id, Link, Ctl, IsName;
    var started, f := Apply(w, Starting(q)), Link(Id(q.device.hash, 0));
    LineNamesAreLinked(w, view, lines);
    StartedTable(w, q);
    SweepFine(started, lines, 0);
    GoneFirstLink(w.records, view, lines, q.device.hash);
    CollectKeepsInv(w, view, lines);
    StartedTable(Sweep(w, lines, GOOD_FATES), q);
    SomeIndex(q);
    NumberOfName(q.device.hash, |Indexes(q).value|, 0);
  }

  lemma GoneFirstLink(records: Records, view: View, lines: seq<Line>, hash: string)
    requires AllLinesOf(records, view, lines) && GoneHash(records, view, hash)
    ensures LineName(lines, Link(Id(hash, 0)))
  {
    hide IsGone, LineName, AllLinesOf, Id, Link, Ctl, IsName, GoneName;
    var p, c :| Has(records, p, c) && IsGone(view, p) && records[p][c].hash == hash;
    FirstName(records[p][c]);
    IsGoneName(records, view, p, c, Link(Id(hash, 0)));
    LineNamesAreGone(records, view, lines);
  }

  /** The pod comes back with the same ids: its start finds all the links there,
      changes nothing, and replies with success. If the scan had found the pod
      gone, the sweep then removes those links and the record. */
  lemma RestartDuringPass(w: World, view: View, lines: seq<Line>, q: Request)
    requires Inv(w) && AllLinesOf(w.records, view, lines) && Distinct(lines)
    requires MayStart(w, q) && Has(w.records, q.pod, q.container)
    ensures Start(w, q, GOOD_ANSWERS) == (w, Started)
    ensures var after := Sweep(Apply(w, Starting(q)), lines, GOOD_FATES);
            if IsGone(view, q.pod)
            then q.pod !in after.records && forall f :: f in after.links ==> !(LINK_PREFIX + q.device.hash <= f)
            else after == Apply(Sweep(w, lines, GOOD_FATES), Starting(q))
    ensures IsGone(view, q.pod) ==> q.pod in Apply(Sweep(w, lines, GOOD_FATES), Starting(q)).records
  {
    hide Inv, AllLinesOf, Distinct, Sweep, IsGone, Start, AnnotatedIndexes;
    RestartChangesNothing(w, q);
    CollectKeepsInv(w, view, lines);
    var after := Sweep(w, lines, GOOD_FATES);
    assert after == Apply(w, Collecting(view, lines));
    if IsGone(view, q.pod) {
      NoLinkIsLeft(w, view, lines, q.pod, q.container);
      StartRecords(after, q);
    } else {
      RestartIsNoEvent(after, q);
    }
  }

  lemma StartRecords(w: World, q: Request)
    requires Inv(w) && Indexes(q).Some?
    ensures Has(Apply(w, Starting(q)).records, q.pod, q.container)
  {
    hide Inv, Apply, AnnotatedIndexes, Recorded;
    StartedTable(w, q);
    RecordedHas(w.records, q);
  }
}
