// The finest interleaving: starting containers and collecting garbage, one system
// call or database transaction at a time.
module Steps {
  import opened Links
  import opened Storage
  import opened Plugins
  import opened PreStart
  import opened Gc
  import opened Lifecycle
  import opened Interleaving

  // ---- Starting, call by call ----

  /** The starts of a plugin, which its lock puts one after the other. Making is
      about to make call pc of Create for index i: is the link there, make it,
      is its partner there, make it. Undoing is about to remove link j, or its
      partner. */
  datatype Starter =
    | Idle(todo: seq<(Request, Answers)>)
    | Making(q: Request, a: Answers, indexes: seq<int>, i: nat, pc: nat, todo: seq<(Request, Answers)>)
    | Loading(q: Request, a: Answers, indexes: seq<int>, todo: seq<(Request, Answers)>)
    | Saving(q: Request, a: Answers, indexes: seq<int>, pif: DeviceMap, todo: seq<(Request, Answers)>)
    | Undoing(q: Request, a: Answers, n: nat, j: nat, partner: bool, todo: seq<(Request, Answers)>)

  function Make(links: LinkTable, s: Starter): (r: (LinkTable, Starter))
    requires s.Making? && s.i < |s.indexes|
  {
    var id, os := Id(s.q.device.hash, s.i), s.a.creates(s.i);
    var next, failed := s.(i := s.i + 1, pc := 0), Idle(s.todo);
    if s.pc == 0 then (links, if Link(id) in links then next else s.(pc := 1))
    else if s.pc == 1 then
      if Link(id) in links || !os.first then (links, failed)
      else (links[Link(id) := GpuPath(s.indexes[s.i])], s.(pc := 2))
    else if s.pc == 2 then (links, if Ctl(id) in links then next else s.(pc := 3))
    else if Ctl(id) in links || !os.second then (links, failed)
    else (links[Ctl(id) := CTL_PATH], next)
  }

  function Undo(links: LinkTable, s: Starter): (r: (LinkTable, Starter))
    requires s.Undoing? && s.j < s.n
  {
    var id, os := Id(s.q.device.hash, s.j), s.a.rollbacks(s.j);
    var next := s.(j := s.j + 1, partner := false);
    if !s.partner then
      if Link(id) !in links || !os.first then (links, next) else (links - {Link(id)}, s.(partner := true))
    else if Ctl(id) !in links || !os.second then (links, next)
    else (links - {Ctl(id)}, next)
  }

  function StartStep(w: World, s: Starter): (r: (World, Starter))
  {
    match s
    case Idle(todo) =>
      if todo == [] then (w, s)
      else
        var (q, a) := todo[0];
        (w, if Indexes(q).None? then Idle(todo[1..]) else Making(q, a, Indexes(q).value, 0, 0, todo[1..]))
    case Making(q, a, indexes, i, _, todo) =>
      if i >= |indexes| then (w, Loading(q, a, indexes, todo))
      else
        var (links, s') := Make(w.links, s);
        (w.(links := links), s')
    case Loading(q, a, indexes, todo) => (w, Saving(q, a, indexes, RecordOf(w.records, q.pod), todo))
    case Saving(q, a, indexes, pif, todo) =>
      if a.commits then (w.(records := w.records[q.pod := pif[q.container := q.device]]), Idle(todo))
      else (w, Undoing(q, a, |indexes|, 0, false, todo))
    case Undoing(q, a, n, j, _, todo) =>
      if j >= n then (w, Idle(todo))
      else
        var (links, s') := Undo(w.links, s);
        (w.(links := links), s')
  }

  // ---- Collecting, call by call ----

  /** Removing is about to remove link i of a line, or its partner; t counts the
      calls of Delete in the pass. */
  datatype Collector =
    | Next(lines: seq<Line>, t: nat)
    | Removing(l: Line, rest: seq<Line>, i: nat, partner: bool, t: nat)
    | Dropping(l: Line, rest: seq<Line>, t: nat)

  function Remove(links: LinkTable, c: Collector, os: Syscalls): (r: (LinkTable, Collector))
    requires c.Removing?
  {
    var id := Id(c.l.device.hash, c.i);
    var stuck := Next(if c.i == 0 then [] else c.rest, c.t + 1);
    if !c.partner then
      if Link(id) !in links || !os.first then (links, stuck) else (links - {Link(id)}, c.(partner := true))
    else if Ctl(id) !in links || !os.second then (links, stuck)
    else (links - {Ctl(id)}, c.(i := c.i + 1, partner := false, t := c.t + 1))
  }

  function CollectStep(w: World, c: Collector, fates: Fates): (r: (World, Collector))
  {
    match c
    case Next(lines, t) => (w, if lines == [] then c else Removing(lines[0], lines[1..], 0, false, t))
    case Removing(l, rest, i, partner, t) =>
      if i >= LinkCount(l.device) && !partner then (w, Dropping(l, rest, t))
      else
        var (links, c') := Remove(w.links, c, fates.deletes(t));
        (w.(links := links), c')
    case Dropping(l, rest, t) =>
      (if fates.commits(t) then w.(records := w.records - {l.pod}) else w, Next(rest, t))
  }

  // ---- What is still to come: running to the end, in big steps ----

  function MakeRest(links: LinkTable, q: Request, a: Answers, indexes: seq<int>, i: nat, pc: nat)
    : (r: (LinkTable, bool))
    decreases |indexes| - i, 4 - pc
  {
    if i >= |indexes| then (links, true)
    else
      var id, os := Id(q.device.hash, i), a.creates(i);
      if pc == 0 then
        if Link(id) in links then MakeRest(links, q, a, indexes, i + 1, 0) else MakeRest(links, q, a, indexes, i, 1)
      else if pc == 1 then
        if Link(id) in links || !os.first then (links, false)
        else MakeRest(links[Link(id) := GpuPath(indexes[i])], q, a, indexes, i, 2)
      else if pc == 2 then
        if Ctl(id) in links then MakeRest(links, q, a, indexes, i + 1, 0) else MakeRest(links, q, a, indexes, i, 3)
      else if Ctl(id) in links || !os.second then (links, false)
      else MakeRest(links[Ctl(id) := CTL_PATH], q, a, indexes, i + 1, 0)
  }

  function UndoRest(links: LinkTable, q: Request, a: Answers, n: nat, j: nat, partner: bool): (r: LinkTable)
    decreases n - j, if partner then 0 else 1
  {
    if j >= n then links
    else
      var id, os := Id(q.device.hash, j), a.rollbacks(j);
      if !partner then
        if Link(id) !in links || !os.first then UndoRest(links, q, a, n, j + 1, false)
        else UndoRest(links - {Link(id)}, q, a, n, j, true)
      else if Ctl(id) !in links || !os.second then UndoRest(links, q, a, n, j + 1, false)
      else UndoRest(links - {Ctl(id)}, q, a, n, j + 1, false)
  }

  function StartMany(w: World, todo: seq<(Request, Answers)>): (r: World)
    decreases |todo|
  {
    if todo == [] then w else StartMany(Start(w, todo[0].0, todo[0].1).0, todo[1..])
  }

  function SaveRest(w: World, q: Request, a: Answers, n: nat, pif: DeviceMap): (r: World)
  {
    if a.commits then w.(records := w.records[q.pod := pif[q.container := q.device]])
    else w.(links := UndoRest(w.links, q, a, n, 0, false))
  }

  function StartRest(w: World, s: Starter): (r: World)
  {
    match s
    case Idle(todo) => StartMany(w, todo)
    case Making(q, a, indexes, i, pc, todo) =>
      var (links, ok) := MakeRest(w.links, q, a, indexes, i, pc);
      var made := w.(links := links);
      StartMany(if ok then SaveRest(made, q, a, |indexes|, RecordOf(made.records, q.pod)) else made, todo)
    case Loading(q, a, indexes, todo) => StartMany(SaveRest(w, q, a, |indexes|, RecordOf(w.records, q.pod)), todo)
    case Saving(q, a, indexes, pif, todo) => StartMany(SaveRest(w, q, a, |indexes|, pif), todo)
    case Undoing(q, a, n, j, partner, todo) => StartMany(w.(links := UndoRest(w.links, q, a, n, j, partner)), todo)
  }

  function RemoveRest(links: LinkTable, c: Collector, deletes: nat -> Syscalls): (r: (LinkTable, Swept, nat))
    requires c.Removing?
  {
    var id, n := Id(c.l.device.hash, c.i), LinkCount(c.l.device);
    if c.partner then
      if Ctl(id) !in links || !deletes(c.t).second then (links, if c.i == 0 then FirstStuck else LaterStuck, c.t + 1)
      else SweepFrom(links - {Ctl(id)}, c.l.device.hash, c.i + 1, n, deletes, c.t + 1)
    else if c.i == 0 then SweepLinks(links, c.l.device, deletes, c.t)
    else SweepFrom(links, c.l.device.hash, c.i, n, deletes, c.t)
  }

  function DropRest(w: World, l: Line, rest: seq<Line>, fates: Fates, t: nat): (r: World)
  {
    Sweep(if fates.commits(t) then w.(records := w.records - {l.pod}) else w, rest, fates, t)
  }

  function CollectRest(w: World, c: Collector, fates: Fates): (r: World)
  {
    match c
    case Next(lines, t) => Sweep(w, lines, fates, t)
    case Removing(l, rest, _, _, _) =>
      var (links, swept, u) := RemoveRest(w.links, c, fates.deletes);
      var after := w.(links := links);
      (match swept
       case FirstStuck => after
       case LaterStuck => Sweep(after, rest, fates, u)
       case LinksGone => DropRest(after, l, rest, fates, u))
    case Dropping(l, rest, t) => DropRest(w, l, rest, fates, t)
  }

  // ---- The steps lead where the big steps do ----

  /** The loop of creations, forwards. */
  lemma {:induction false} MakeRestIsCreatedAll(links: LinkTable, q: Request, a: Answers, indexes: seq<int>, i: nat)
    requires i <= |indexes| && CreatedAll(links, q.device.hash, indexes[..i], a.creates).1
    ensures MakeRest(CreatedAll(links, q.device.hash, indexes[..i], a.creates).0, q, a, indexes, i, 0) ==
            CreatedAll(links, q.device.hash, indexes, a.creates)
    decreases |indexes| - i
  {
    var before := CreatedAll(links, q.device.hash, indexes[..i], a.creates).0;
    if i == |indexes| {
      assert indexes[..i] == indexes;
    } else {
      hide Id, Link, Ctl, GpuPath;
      assert indexes[..i + 1][..i] == indexes[..i];
      MakeOne(before, q, a, indexes, i);
      if CreatedAll(links, q.device.hash, indexes[..i + 1], a.creates).1 {
        MakeRestIsCreatedAll(links, q, a, indexes, i + 1);
      } else {
        CreatedStops(links, q.device.hash, indexes, i + 1, a.creates);
      }
    }
  }

  lemma MakeOne(links: LinkTable, q: Request, a: Answers, indexes: seq<int>, i: nat)
    requires i < |indexes|
    ensures var (table, ok) := Created(links, indexes[i], Id(q.device.hash, i), a.creates(i));
            MakeRest(links, q, a, indexes, i, 0) ==
            if ok then MakeRest(table, q, a, indexes, i + 1, 0) else (table, false)
  {
    hide Id, GpuPath;
    var id := Id(q.device.hash, i);
    LinkIsNotCtl(id, id);
    var made := links[Link(id) := GpuPath(indexes[i])];
    assert MakeRest(links, q, a, indexes, i, 1) ==
           if Link(id) in links || !a.creates(i).first then (links, false) else MakeRest(made, q, a, indexes, i, 2);
    assert MakeRest(made, q, a, indexes, i, 2) ==
           if Ctl(id) in made then MakeRest(made, q, a, indexes, i + 1, 0) else MakeRest(made, q, a, indexes, i, 3);
  }

  lemma {:induction false} UndoRestIsRolledBack(links: LinkTable, q: Request, a: Answers, n: nat, i: nat)
    requires i <= n
    ensures UndoRest(RolledBack(links, q.device.hash, i, a.rollbacks), q, a, n, i, false) ==
            RolledBack(links, q.device.hash, n, a.rollbacks)
    decreases n - i
  {
    if i < n {
      hide UndoRest, Deleted, Id;
      UndoOne(RolledBack(links, q.device.hash, i, a.rollbacks), q, a, n, i);
      UndoRestIsRolledBack(links, q, a, n, i + 1);
    } else {
      hide RolledBack;
    }
  }

  lemma UndoOne(links: LinkTable, q: Request, a: Answers, n: nat, i: nat)
    requires i < n
    ensures UndoRest(links, q, a, n, i, false) ==
            UndoRest(Deleted(links, Id(q.device.hash, i), a.rollbacks(i)).0, q, a, n, i + 1, false)
  {
    hide Id, Link, Ctl;
    var id := Id(q.device.hash, i);
    var unlinked := links - {Link(id)};
    assert UndoRest(unlinked, q, a, n, i, true) ==
           if Ctl(id) !in unlinked || !a.rollbacks(i).second then UndoRest(unlinked, q, a, n, i + 1, false)
           else UndoRest(unlinked - {Ctl(id)}, q, a, n, i + 1, false);
  }

  lemma StartIsMaking(w: World, q: Request, a: Answers)
    requires Indexes(q).Some?
    ensures var n := |Indexes(q).value|;
            var (links, ok) := MakeRest(w.links, q, a, Indexes(q).value, 0, 0);
            var made := w.(links := links);
            Start(w, q, a).0 == if ok then SaveRest(made, q, a, n, RecordOf(made.records, q.pod)) else made
  {
    hide AnnotatedIndexes, MakeRest, CreatedAll, UndoRest, RolledBack;
    var indexes := Indexes(q).value;
    assert indexes[..0] == [];
    NoneCreated(w.links, q.device.hash, a);
    MakeRestIsCreatedAll(w.links, q, a, indexes, 0);
    NoneUndone(CreatedAll(w.links, q.device.hash, indexes, a.creates).0, q.device.hash, a);
    UndoRestIsRolledBack(CreatedAll(w.links, q.device.hash, indexes, a.creates).0, q, a, |indexes|, 0);
  }

  lemma NoneCreated(links: LinkTable, hash: string, a: Answers)
    ensures CreatedAll(links, hash, [], a.creates) == (links, true)
  {
  }

  lemma NoneUndone(links: LinkTable, hash: string, a: Answers)
    ensures RolledBack(links, hash, 0, a.rollbacks) == links
  {
  }

  lemma StartStepLeadsOn(w: World, s: Starter)
    ensures StartRest(StartStep(w, s).0, StartStep(w, s).1) == StartRest(w, s)
  {
    hide Start, AnnotatedIndexes, Id, Link, Ctl, GpuPath, StartMany, Recorded;
    match s {
      case Idle(todo) =>
        if todo != [] {
          ManyStep(w, todo);
          var (q, a) := todo[0];
          if Indexes(q).None? {
            RefusedIsNothing(w, q, a);
          } else {
            hide MakeRest, SaveRest;
            StartIsMaking(w, q, a);
          }
        }
      case Making(_, _, indexes, i, _, _) =>
        hide SaveRest;
        if i < |indexes| {
          hide Make, MakeRest;
          MakeStep(w.links, s);
        }
      case _ =>
    }
  }

  /** One creation call, and then what was still to come. */
  lemma MakeStep(links: LinkTable, s: Starter)
    requires s.Making? && s.i < |s.indexes|
    ensures var (links', s') := Make(links, s);
            && (s'.Making? || s' == Idle(s.todo))
            && MakeRest(links, s.q, s.a, s.indexes, s.i, s.pc) ==
               (if s'.Idle? then (links', false) else MakeRest(links', s.q, s.a, s.indexes, s'.i, s'.pc))
            && (s'.Making? ==> s' == s.(i := s'.i, pc := s'.pc))
  {
    hide Id, Link, Ctl, GpuPath;
  }

  lemma ManyStep(w: World, todo: seq<(Request, Answers)>)
    requires todo != []
    ensures StartMany(w, todo) == StartMany(Start(w, todo[0].0, todo[0].1).0, todo[1..])
  {
    hide Start;
  }

  lemma RefusedIsNothing(w: World, q: Request, a: Answers)
    requires Indexes(q).None?
    ensures Start(w, q, a).0 == w
  {
    hide AnnotatedIndexes;
  }

  lemma CollectStepLeadsOn(w: World, c: Collector, fates: Fates)
    ensures CollectRest(CollectStep(w, c, fates).0, CollectStep(w, c, fates).1, fates) == CollectRest(w, c, fates)
  {
    hide Id, Link, Ctl, LinkCount;
    match c {
      case Next(lines, t) =>
        if lines != [] {
          SweepStartsRemoving(w, lines, fates, t);
        }
      case Removing(l, rest, i, partner, t) =>
        hide Sweep;
        RemoveStep(w.links, c, fates.deletes(t), fates.deletes);
        NoLines(w, fates, t + 1);
      case Dropping(_, _, _) =>
    }
  }

  lemma NoLines(w: World, fates: Fates, t: nat)
    ensures forall links :: Sweep(w.(links := links), [], fates, t) == w.(links := links)
  {
  }

  lemma SweepStartsRemoving(w: World, lines: seq<Line>, fates: Fates, t: nat)
    requires lines != []
    ensures Sweep(w, lines, fates, t) == CollectRest(w, Removing(lines[0], lines[1..], 0, false, t), fates)
  {
    hide SweepLinks;
  }

  /** One removal, and then what was still to come. */
  lemma RemoveStep(links: LinkTable, c: Collector, os: Syscalls, deletes: nat -> Syscalls)
    requires c.Removing? && os == deletes(c.t)
    ensures var (links', c') := Remove(links, c, os);
            c'.Removing? && (c.i < LinkCount(c.l.device) || c.partner) ==>
              RemoveRest(links', c', deletes) == RemoveRest(links, c, deletes)
    ensures var (links', c') := Remove(links, c, os);
            c'.Next? && (c.i < LinkCount(c.l.device) || c.partner) ==>
              RemoveRest(links, c, deletes) == (links', if c.i == 0 then FirstStuck else LaterStuck, c.t + 1)
    ensures c.i >= LinkCount(c.l.device) && !c.partner ==> RemoveRest(links, c, deletes) == (links, LinksGone, c.t)
  {
    hide Id;
    var id := Id(c.l.device.hash, c.i);
    LinkIsNotCtl(id, id);
  }

  // ---- What a step depends on and touches ----

  /** Hashes whose names, and pods whose records, belong to one of the two. */
  datatype Footprint = Footprint(hashes: set<string>, pods: set<Pod>)

  ghost predicate InNames(p: Footprint, f: string)
  {
    exists h :: h in p.hashes && IsAnyName(h, f)
  }

  ghost predicate SameRecord(a: Records, b: Records, pod: Pod)
  {
    (pod in a <==> pod in b) && (pod in a ==> a[pod] == b[pod])
  }

  ghost predicate Inside(a: World, b: World, p: Footprint)
  {
    && (forall f :: InNames(p, f) ==> SameAt(a.links, b.links, f))
    && (forall pod :: pod in p.pods ==> SameRecord(a.records, b.records, pod))
  }

  ghost predicate Outside(a: World, b: World, p: Footprint)
  {
    && (forall f :: !InNames(p, f) ==> SameAt(a.links, b.links, f))
    && (forall pod :: pod !in p.pods ==> SameRecord(a.records, b.records, pod))
  }

  predicate OwnsStart(p: Footprint, q: Request)
  {
    q.device.hash in p.hashes && q.pod in p.pods
  }

  ghost predicate OwnsStarts(p: Footprint, todo: seq<(Request, Answers)>)
  {
    forall k :: 0 <= k < |todo| ==> OwnsStart(p, todo[k].0)
  }

  ghost predicate OwnsStarter(p: Footprint, s: Starter)
  {
    (s.Idle? || OwnsStart(p, s.q)) && OwnsStarts(p, s.todo)
  }

  predicate OwnsLine(p: Footprint, l: Line)
  {
    l.device.hash in p.hashes && l.pod in p.pods
  }

  ghost predicate OwnsLines(p: Footprint, lines: seq<Line>)
  {
    forall k :: 0 <= k < |lines| ==> OwnsLine(p, lines[k])
  }

  ghost predicate OwnsCollector(p: Footprint, c: Collector)
  {
    match c
    case Next(lines, _) => OwnsLines(p, lines)
    case Removing(l, rest, _, _, _) => OwnsLine(p, l) && OwnsLines(p, rest)
    case Dropping(l, rest, _) => OwnsLine(p, l) && OwnsLines(p, rest)
  }

  lemma OwnNames(p: Footprint, hash: string, i: nat)
    requires hash in p.hashes
    ensures InNames(p, Link(Id(hash, i))) && InNames(p, Ctl(Id(hash, i)))
  {
    hide IsAnyName;
    NamesOf(hash, i);
  }

  /** The table, or the same with one own name added or removed. */
  lemma LinksLocal(a: World, b: World, p: Footprint, f: string, target: string)
    requires Inside(a, b, p) && InNames(p, f)
    ensures f in a.links <==> f in b.links
    ensures Inside(a.(links := a.links[f := target]), b.(links := b.links[f := target]), p)
    ensures Outside(a, a.(links := a.links[f := target]), p)
    ensures Inside(a.(links := a.links - {f}), b.(links := b.links - {f}), p)
    ensures Outside(a, a.(links := a.links - {f}), p)
  {
    hide InNames;
    assert SameAt(a.links, b.links, f);
  }

  lemma RecordsLocal(a: World, b: World, p: Footprint, pod: Pod, m: DeviceMap)
    requires Inside(a, b, p) && pod in p.pods
    ensures RecordOf(a.records, pod) == RecordOf(b.records, pod)
    ensures Inside(a.(records := a.records[pod := m]), b.(records := b.records[pod := m]), p)
    ensures Outside(a, a.(records := a.records[pod := m]), p)
    ensures Inside(a.(records := a.records - {pod}), b.(records := b.records - {pod}), p)
    ensures Outside(a, a.(records := a.records - {pod}), p)
  {
    hide InNames;
    assert SameRecord(a.records, b.records, pod);
  }

  lemma UntouchedOutside(a: World, p: Footprint)
    ensures Outside(a, a, p)
  {
    hide InNames;
  }

  lemma StartStepLocal(a: World, b: World, s: Starter, p: Footprint)
    requires OwnsStarter(p, s) && Inside(a, b, p)
    ensures StartStep(a, s).1 == StartStep(b, s).1 && OwnsStarter(p, StartStep(a, s).1)
    ensures Inside(StartStep(a, s).0, StartStep(b, s).0, p) && Outside(a, StartStep(a, s).0, p)
  {
    hide AnnotatedIndexes, Id, Link, Ctl, GpuPath, InNames, Inside, Outside, Make, Undo;
    UntouchedOutside(a, p);
    match s {
      case Idle(todo) =>
      case Making(_, _, indexes, i, _, _) =>
        if i < |indexes| {
          MakeLocal(a, b, s, p);
        }
      case Loading(q, _, _, _) => RecordsLocal(a, b, p, q.pod, map[]);
      case Saving(q, _, _, pif, _) => RecordsLocal(a, b, p, q.pod, pif[q.container := q.device]);
      case Undoing(_, _, n, j, _, _) =>
        if j < n {
          UndoLocal(a, b, s, p);
        }
    }
  }

  lemma MakeLocal(a: World, b: World, s: Starter, p: Footprint)
    requires s.Making? && s.i < |s.indexes| && OwnsStarter(p, s) && Inside(a, b, p)
    ensures Make(a.links, s).1 == Make(b.links, s).1 && OwnsStarter(p, Make(a.links, s).1)
    ensures Inside(a.(links := Make(a.links, s).0), b.(links := Make(b.links, s).0), p)
    ensures Outside(a, a.(links := Make(a.links, s).0), p)
  {
    hide Id, Link, Ctl, GpuPath, InNames, Inside, Outside;
    UntouchedOutside(a, p);
    OwnNames(p, s.q.device.hash, s.i);
    LinksLocal(a, b, p, Link(Id(s.q.device.hash, s.i)), GpuPath(s.indexes[s.i]));
    LinksLocal(a, b, p, Ctl(Id(s.q.device.hash, s.i)), CTL_PATH);
  }

  lemma UndoLocal(a: World, b: World, s: Starter, p: Footprint)
    requires s.Undoing? && s.j < s.n && OwnsStarter(p, s) && Inside(a, b, p)
    ensures Undo(a.links, s).1 == Undo(b.links, s).1 && OwnsStarter(p, Undo(a.links, s).1)
    ensures Inside(a.(links := Undo(a.links, s).0), b.(links := Undo(b.links, s).0), p)
    ensures Outside(a, a.(links := Undo(a.links, s).0), p)
  {
    hide Id, Link, Ctl, InNames, Inside, Outside;
    UntouchedOutside(a, p);
    OwnNames(p, s.q.device.hash, s.j);
    LinksLocal(a, b, p, Link(Id(s.q.device.hash, s.j)), "");
    LinksLocal(a, b, p, Ctl(Id(s.q.device.hash, s.j)), "");
  }

  lemma CollectStepLocal(a: World, b: World, c: Collector, fates: Fates, p: Footprint)
    requires OwnsCollector(p, c) && Inside(a, b, p)
    ensures CollectStep(a, c, fates).1 == CollectStep(b, c, fates).1 && OwnsCollector(p, CollectStep(a, c, fates).1)
    ensures Inside(CollectStep(a, c, fates).0, CollectStep(b, c, fates).0, p)
    ensures Outside(a, CollectStep(a, c, fates).0, p)
  {
    hide Id, Link, Ctl, InNames, Inside, Outside, LinkCount;
    UntouchedOutside(a, p);
    match c {
      case Next(lines, _) =>
      case Removing(l, _, i, _, _) =>
        OwnNames(p, l.device.hash, i);
        LinksLocal(a, b, p, Link(Id(l.device.hash, i)), "");
        LinksLocal(a, b, p, Ctl(Id(l.device.hash, i)), "");
      case Dropping(l, _, _) => RecordsLocal(a, b, p, l.pod, map[]);
    }
  }

  // ---- Steps of the two commute ----

  /** They have no hash and no pod in common. */
  ghost predicate Disjoint(p: Footprint, r: Footprint)
  {
    p.hashes !! r.hashes && p.pods !! r.pods && forall h, g :: h in p.hashes && g in r.hashes ==> |h| == |g|
  }

  lemma NamesDisjoint(p: Footprint, r: Footprint, f: string)
    requires Disjoint(p, r)
    ensures !(InNames(p, f) && InNames(r, f))
  {
    hide IsAnyName;
    if h, g :| h in p.hashes && IsAnyName(h, f) && g in r.hashes && IsAnyName(g, f) {
      NamesOfOtherHash(h, g, f);
    }
  }

  lemma OutsideIsInsideOther(a: World, b: World, p: Footprint, r: Footprint)
    requires Disjoint(p, r) && Outside(a, b, p)
    ensures Inside(b, a, r)
  {
    hide InNames;
    forall f | InNames(r, f) ensures SameAt(b.links, a.links, f) {
      NamesDisjoint(p, r, f);
      assert SameAt(a.links, b.links, f);
    }
    forall pod | pod in r.pods ensures SameRecord(b.records, a.records, pod) {
      assert SameRecord(a.records, b.records, pod);
    }
  }

  /** From x, one step leads to u and the other to v; both then lead to the same
      state. */
  lemma WorldsCommute(x: World, u: World, v: World, uv: World, vu: World, p: Footprint, r: Footprint)
    requires Disjoint(p, r)
    requires Outside(x, u, p) && Outside(x, v, r)
    requires Inside(vu, u, p) && Outside(v, vu, p)
    requires Inside(uv, v, r) && Outside(u, uv, r)
    ensures uv == vu
  {
    hide InNames;
    forall f ensures SameAt(uv.links, vu.links, f) {
      NamesDisjoint(p, r, f);
      if InNames(p, f) {
        assert SameAt(vu.links, u.links, f) && SameAt(u.links, uv.links, f);
      } else if InNames(r, f) {
        assert SameAt(uv.links, v.links, f) && SameAt(v.links, vu.links, f);
      } else {
        assert SameAt(x.links, u.links, f) && SameAt(u.links, uv.links, f);
        assert SameAt(x.links, v.links, f) && SameAt(v.links, vu.links, f);
      }
    }
    SameEverywhere(uv.links, vu.links);
    forall pod ensures SameRecord(uv.records, vu.records, pod) {
      if pod in p.pods {
        assert SameRecord(vu.records, u.records, pod) && SameRecord(u.records, uv.records, pod);
      } else if pod in r.pods {
        assert SameRecord(uv.records, v.records, pod) && SameRecord(v.records, vu.records, pod);
      } else {
        assert SameRecord(x.records, u.records, pod) && SameRecord(u.records, uv.records, pod);
        assert SameRecord(x.records, v.records, pod) && SameRecord(v.records, vu.records, pod);
      }
    }
    SameRecords(uv.records, vu.records);
  }

  lemma SameRecords(a: Records, b: Records)
    requires forall pod :: SameRecord(a, b, pod)
    ensures a == b
  {
    forall pod ensures pod in a <==> pod in b {
      assert SameRecord(a, b, pod);
    }
    forall pod | pod in a ensures a[pod] == b[pod] {
      assert SameRecord(a, b, pod);
    }
  }

  lemma SameInsideItself(w: World, p: Footprint)
    ensures Inside(w, w, p)
  {
    hide InNames;
  }

  lemma StepsCommute(w: World, s: Starter, c: Collector, fates: Fates, p: Footprint, r: Footprint)
    requires Disjoint(p, r) && OwnsStarter(p, s) && OwnsCollector(r, c)
    ensures var (u, s') := StartStep(w, s);
            var (v, c') := CollectStep(w, c, fates);
            CollectStep(u, c, fates).1 == c' && StartStep(v, s) == (CollectStep(u, c, fates).0, s')
  {
    hide *;
    var u, v := StartStep(w, s).0, CollectStep(w, c, fates).0;
    SameInsideItself(w, p);
    SameInsideItself(w, r);
    StartStepLocal(w, w, s, p);
    CollectStepLocal(w, w, c, fates, r);
    OutsideIsInsideOther(w, u, p, r);
    DisjointSwaps(p, r);
    OutsideIsInsideOther(w, v, r, p);
    StartStepLocal(v, w, s, p);
    CollectStepLocal(u, w, c, fates, r);
    WorldsCommute(w, u, v, CollectStep(u, c, fates).0, StartStep(v, s).0, p, r);
  }

  lemma DisjointSwaps(p: Footprint, r: Footprint)
    requires Disjoint(p, r)
    ensures Disjoint(r, p)
  {
  }

  // ---- Any interleaving ----

  datatype Turn = Starts | Collects

  /** Both, in any order of turns. */
  function RunBoth(w: World, s: Starter, c: Collector, fates: Fates, turns: seq<Turn>): (r: (World, Starter, Collector))
    decreases |turns|
  {
    if turns == [] then (w, s, c)
    else match turns[0]
      case Starts =>
        var (w', s') := StartStep(w, s);
        RunBoth(w', s', c, fates, turns[1..])
      case Collects =>
        var (w', c') := CollectStep(w, c, fates);
        RunBoth(w', s, c', fates, turns[1..])
  }

  function StartSteps(w: World, s: Starter, n: nat): (r: (World, Starter))
    decreases n
  {
    if n == 0 then (w, s) else
      var (w', s') := StartStep(w, s);
      StartSteps(w', s', n - 1)
  }

  function CollectSteps(w: World, c: Collector, fates: Fates, n: nat): (r: (World, Collector))
    decreases n
  {
    if n == 0 then (w, c) else
      var (w', c') := CollectStep(w, c, fates);
      CollectSteps(w', c', fates, n - 1)
  }

  function Count(turns: seq<Turn>, turn: Turn): (n: nat)
  {
    if turns == [] then 0 else (if turns[0] == turn then 1 else 0) + Count(turns[1..], turn)
  }

  lemma StillOwned(w: World, s: Starter, c: Collector, fates: Fates, p: Footprint, r: Footprint)
    requires OwnsStarter(p, s) && OwnsCollector(r, c)
    ensures OwnsStarter(p, StartStep(w, s).1) && OwnsCollector(r, CollectStep(w, c, fates).1)
  {
    hide *;
    SameInsideItself(w, p);
    SameInsideItself(w, r);
    StartStepLocal(w, w, s, p);
    CollectStepLocal(w, w, c, fates, r);
  }

  /** A step of a start may as well come after any number of steps of a pass. */
  lemma {:induction false} StartStepLast(w: World, s: Starter, c: Collector, fates: Fates, n: nat,
                                         p: Footprint, r: Footprint)
    requires Disjoint(p, r) && OwnsStarter(p, s) && OwnsCollector(r, c)
    ensures var (w', s') := StartStep(w, s);
            var (v, c') := CollectSteps(w, c, fates, n);
            CollectSteps(w', c, fates, n) == (StartStep(v, s).0, c') && StartStep(v, s).1 == s'
    decreases n
  {
    hide *;
    if n == 0 {
      NoMoreSteps(w, s, c, fates);
      NoMoreSteps(StartStep(w, s).0, s, c, fates);
    } else {
      OneMoreStep(w, s, c, fates, n);
      OneMoreStep(StartStep(w, s).0, s, c, fates, n);
      StepsCommute(w, s, c, fates, p, r);
      StillOwned(w, s, c, fates, p, r);
      var (v, c') := CollectStep(w, c, fates);
      StartStepLast(v, s, c', fates, n - 1, p, r);
    }
  }

  lemma NoMoreSteps(w: World, s: Starter, c: Collector, fates: Fates)
    ensures StartSteps(w, s, 0) == (w, s) && CollectSteps(w, c, fates, 0) == (w, c)
    ensures RunBoth(w, s, c, fates, []) == (w, s, c) && Count([], Starts) == 0 && Count([], Collects) == 0
  {
  }

  lemma OneMoreStep(w: World, s: Starter, c: Collector, fates: Fates, n: nat)
    requires n > 0
    ensures StartSteps(w, s, n) == StartSteps(StartStep(w, s).0, StartStep(w, s).1, n - 1)
    ensures CollectSteps(w, c, fates, n) ==
            CollectSteps(CollectStep(w, c, fates).0, CollectStep(w, c, fates).1, fates, n - 1)
  {
    hide StartStep, CollectStep;
  }

  lemma OneMoreTurn(w: World, s: Starter, c: Collector, fates: Fates, turns: seq<Turn>)
    requires turns != []
    ensures var rest := turns[1..];
            if turns[0] == Starts
            then RunBoth(w, s, c, fates, turns) == RunBoth(StartStep(w, s).0, StartStep(w, s).1, c, fates, rest) &&
                 Count(turns, Starts) == Count(rest, Starts) + 1 && Count(turns, Collects) == Count(rest, Collects)
            else RunBoth(w, s, c, fates, turns) ==
                 RunBoth(CollectStep(w, c, fates).0, s, CollectStep(w, c, fates).1, fates, rest) &&
                 Count(turns, Starts) == Count(rest, Starts) && Count(turns, Collects) == Count(rest, Collects) + 1
  {
    hide StartStep, CollectStep;
  }

  /** Any interleaving is the steps of the pass and then the steps of the
      starts. */
  lemma {:induction false} TurnsSort(w: World, s: Starter, c: Collector, fates: Fates, turns: seq<Turn>,
                                     p: Footprint, r: Footprint)
    requires Disjoint(p, r) && OwnsStarter(p, s) && OwnsCollector(r, c)
    ensures var (v, c') := CollectSteps(w, c, fates, Count(turns, Collects));
            var (x, s') := StartSteps(v, s, Count(turns, Starts));
            RunBoth(w, s, c, fates, turns) == (x, s', c')
    decreases |turns|
  {
    hide *;
    if turns == [] {
      NoMoreSteps(w, s, c, fates);
    } else {
      var rest := turns[1..];
      OneMoreTurn(w, s, c, fates, turns);
      StillOwned(w, s, c, fates, p, r);
      if turns[0] == Starts {
        var (w', s') := StartStep(w, s);
        TurnsSort(w', s', c, fates, rest, p, r);
        StartStepLast(w, s, c, fates, Count(rest, Collects), p, r);
        OneMoreStep(CollectSteps(w, c, fates, Count(rest, Collects)).0, s, c, fates, Count(rest, Starts) + 1);
      } else {
        var (w', c') := CollectStep(w, c, fates);
        TurnsSort(w', s, c', fates, rest, p, r);
        OneMoreStep(w, s, c, fates, Count(rest, Collects) + 1);
      }
    }
  }

  lemma {:induction false} StartStepsLeadOn(w: World, s: Starter, n: nat)
    ensures StartRest(StartSteps(w, s, n).0, StartSteps(w, s, n).1) == StartRest(w, s)
    decreases n
  {
    if n > 0 {
      hide StartStep, StartRest;
      StartStepLeadsOn(w, s);
      StartStepsLeadOn(StartStep(w, s).0, StartStep(w, s).1, n - 1);
    }
  }

  lemma {:induction false} CollectStepsLeadOn(w: World, c: Collector, fates: Fates, n: nat)
    ensures var (v, c') := CollectSteps(w, c, fates, n); CollectRest(v, c', fates) == CollectRest(w, c, fates)
    decreases n
  {
    if n > 0 {
      hide CollectStep, CollectRest;
      CollectStepLeadsOn(w, c, fates);
      CollectStepsLeadOn(CollectStep(w, c, fates).0, CollectStep(w, c, fates).1, fates, n - 1);
    }
  }

  /** One system call or transaction at a time, in any order, whatever fails:
      when a pass over some lines and a series of starts have both come to their
      ends, links and records are those of the whole pass followed by the whole
      starts, if no hash and no pod of a start is one of a line. */
  lemma InterleavedCallsAreAtomic(w: World, lines: seq<Line>, fates: Fates, todo: seq<(Request, Answers)>,
                                  turns: seq<Turn>, p: Footprint, r: Footprint)
    requires Disjoint(p, r) && OwnsStarts(p, todo) && OwnsLines(r, lines)
    requires RunBoth(w, Idle(todo), Next(lines, 0), fates, turns).1 == Idle([])
    requires RunBoth(w, Idle(todo), Next(lines, 0), fates, turns).2.Next?
    requires RunBoth(w, Idle(todo), Next(lines, 0), fates, turns).2.lines == []
    ensures RunBoth(w, Idle(todo), Next(lines, 0), fates, turns).0 == StartMany(Sweep(w, lines, fates), todo)
  {
    hide Disjoint, OwnsStarts, OwnsLines, StartSteps, CollectSteps, RunBoth;
    TurnsSort(w, Idle(todo), Next(lines, 0), fates, turns, p, r);
    CollectStepsLeadOn(w, Next(lines, 0), fates, Count(turns, Collects));
    var v := CollectSteps(w, Next(lines, 0), fates, Count(turns, Collects)).0;
    StartStepsLeadOn(v, Idle(todo), Count(turns, Starts));
  }

  /** Why the pods must differ: a start of the same pod reads the record in one
      transaction and writes it in another. If the pass drops it in between, the
      record comes back with the containers that were collected. That is as if
      the pass had come first exactly when there is no other container. */
  lemma DroppedRecordReturnsIff(w: World, q: Request, a: Answers, indexes: seq<int>, l: Line, fates: Fates, t: nat)
    requires l.pod == q.pod && q.pod in w.records && a.commits && fates.commits(t)
    ensures var (w1, s1) := StartStep(w, Loading(q, a, indexes, []));
            var w2 := CollectStep(w1, Dropping(l, [], t), fates).0;
            var w3 := StartStep(w2, s1).0;
            var passFirst := StartRest(CollectStep(w, Dropping(l, [], t), fates).0, Loading(q, a, indexes, []));
            && q.pod in w3.records && w3.records[q.pod] == w.records[q.pod][q.container := q.device]
            && (w3 == passFirst <==> forall c :: c in w.records[q.pod] ==> c == q.container)
  {
    var m := w.records[q.pod];
    var dropped := w.records - {q.pod};
    assert RecordOf(dropped, q.pod) == map[];
    assert StartRest(w.(records := dropped), Loading(q, a, indexes, [])).records ==
           dropped[q.pod := map[q.container := q.device]];
    if forall c :: c in m ==> c == q.container {
      assert m[q.container := q.device] == map[q.container := q.device];
    } else {
      var c :| c in m && c != q.container;
      assert c in m[q.container := q.device] && c !in map[q.container := q.device];
    }
  }
}
