// Whole runs of the agent: containers start and passes of the garbage
// collector remove what is left of pods that are gone.
module Lifecycle {
  import opened Text
  import opened Devices
  import opened Links
  import opened Hook
  import opened Storage
  import opened Plugins
  import opened PreStart
  import opened Gc

  /** Container c of pod p is recorded. */
  predicate Has(records: Records, p: Pod, c: string)
  {
    p in records && c in records[p]
  }

  /** Some record stands for this link or control link. */
  ghost predicate Implied(records: Records, name: string)
  {
    exists p, c :: Has(records, p, c) && IsNameOf(records[p][c], name)
  }

  /** The links on disk are exactly those that the records stand for. */
  ghost predicate LinksMatch(w: World)
  {
    && (forall f :: Implied(w.records, f) ==> f in w.links)
    && (forall id :: Link(id) in w.links ==> Implied(w.records, Link(id)))
    && (forall id :: Ctl(id) in w.links ==> Implied(w.records, Ctl(id)))
  }

  /** A hash is eight hexadecimal digits. */
  ghost predicate HashLengths(records: Records)
  {
    forall p, c :: Has(records, p, c) ==> |records[p][c].hash| == 8
  }

  /** No two recorded containers share a hash. */
  ghost predicate HashesDiffer(records: Records)
  {
    && HashLengths(records)
    && (forall p, c, q, e :: Has(records, p, c) && Has(records, q, e) && records[p][c].hash == records[q][e].hash ==>
                               p == q && c == e)
  }

  ghost predicate Inv(w: World)
  {
    LinksMatch(w) && HashesDiffer(w.records)
  }

  // ---- Runs ----

  datatype Event = Starting(request: Request) | Collecting(view: View, lines: seq<Line>)

  const GOOD_ANSWERS := Answers(None, None, ALWAYS_FINE, ALWAYS_FINE, true)

  function Apply(w: World, e: Event): (r: World)
  {
    match e
    case Starting(q) => Start(w, q, GOOD_ANSWERS).0
    case Collecting(view, lines) => Sweep(w, lines, GOOD_FATES)
  }

  /** Any container may start, and a pass sweeps what it has scanned. */
  ghost predicate Possible(w: World, e: Event)
  {
    match e
    case Starting(q) => |q.device.hash| == 8
    case Collecting(view, lines) => AllLinesOf(w.records, view, lines) && Distinct(lines)
  }

  ghost predicate IsRun(w: World, events: seq<Event>)
    decreases |events|
  {
    events != [] ==> Possible(w, events[0]) && IsRun(Apply(w, events[0]), events[1..])
  }

  function Run(w: World, events: seq<Event>): (r: World)
    decreases |events|
  {
    if events == [] then w else Run(Apply(w, events[0]), events[1..])
  }

  // ---- Names and hashes ----

  /** A name belongs to one hash. */
  lemma NameHasOneHash(d: Device, e: Device, f: string)
    requires |d.hash| == |e.hash| && IsNameOf(d, f) && IsNameOf(e, f)
    ensures d.hash == e.hash
  {
    hide Id, Link, Ctl;
    var i: nat :| i < LinkCount(d) && (f == Link(Id(d.hash, i)) || f == Ctl(Id(d.hash, i)));
    var j: nat :| j < LinkCount(e) && (f == Link(Id(e.hash, j)) || f == Ctl(Id(e.hash, j)));
    LinkInjective(Id(d.hash, i), Id(e.hash, j));
    LinkIsNotCtl(Id(d.hash, i), Id(e.hash, j));
    LinkIsNotCtl(Id(e.hash, j), Id(d.hash, i));
    IdInjective(d.hash, i, e.hash, j);
  }

  /** A link name of any number of a hash is not a name of another hash. */
  lemma ForeignName(hash: string, i: nat, d: Device)
    requires |hash| == |d.hash| && (IsNameOf(d, Link(Id(hash, i))) || IsNameOf(d, Ctl(Id(hash, i))))
    ensures hash == d.hash
  {
    hide Id, Link, Ctl;
    var f := if IsNameOf(d, Link(Id(hash, i))) then Link(Id(hash, i)) else Ctl(Id(hash, i));
    var j: nat :| j < LinkCount(d) && (f == Link(Id(d.hash, j)) || f == Ctl(Id(d.hash, j)));
    LinkInjective(Id(hash, i), Id(d.hash, j));
    LinkIsNotCtl(Id(hash, i), Id(d.hash, j));
    LinkIsNotCtl(Id(d.hash, j), Id(hash, i));
    IdInjective(hash, i, d.hash, j);
  }

  lemma NewNamesAreFree(w: World, hash: string)
    requires Inv(w) && |hash| == 8
    requires forall p, c :: Has(w.records, p, c) ==> w.records[p][c].hash != hash
    ensures forall i: nat :: Link(Id(hash, i)) !in w.links && Ctl(Id(hash, i)) !in w.links
  {
    hide Id, Link, Ctl, IsNameOf;
    forall i: nat ensures Link(Id(hash, i)) !in w.links && Ctl(Id(hash, i)) !in w.links {
      if Link(Id(hash, i)) in w.links {
        var p, c :| Has(w.records, p, c) && IsNameOf(w.records[p][c], Link(Id(hash, i)));
        ForeignName(hash, i, w.records[p][c]);
      }
      if Ctl(Id(hash, i)) in w.links {
        var p, c :| Has(w.records, p, c) && IsNameOf(w.records[p][c], Ctl(Id(hash, i)));
        ForeignName(hash, i, w.records[p][c]);
      }
    }
  }

  lemma NumberOfName(hash: string, n: nat, i: nat)
    ensures IsName(hash, n, Link(Id(hash, i))) <==> i < n
  {
    hide Id, Link, Ctl;
    if j: nat :| j < n && (Link(Id(hash, i)) == Link(Id(hash, j)) || Link(Id(hash, i)) == Ctl(Id(hash, j))) {
      NumberedNames(hash, i, j);
    }
  }

  lemma ImpliedBy(records: Records, p: Pod, c: string, f: string)
    requires Has(records, p, c) && IsNameOf(records[p][c], f)
    ensures Implied(records, f)
  {
  }

  /** When hashes differ, a container's records stand for as many of its links
      as its device has. */
  lemma ImpliedNumber(records: Records, p: Pod, c: string, i: nat)
    requires HashesDiffer(records) && Has(records, p, c)
    ensures Implied(records, Link(Id(records[p][c].hash, i))) <==> i < LinkCount(records[p][c])
  {
    hide Id, Link, Ctl, IsName;
    var d := records[p][c];
    var f := Link(Id(d.hash, i));
    NumberOfName(d.hash, LinkCount(d), i);
    if q, e :| Has(records, q, e) && IsNameOf(records[q][e], f) {
      ForeignName(d.hash, i, records[q][e]);
    }
  }

  // ---- Starting a container ----

  lemma RecordedHas(records: Records, q: Request)
    ensures var r := Recorded(records, q.pod, q.container, q.device);
            forall p, c :: (Has(r, p, c) <==> Has(records, p, c) || (p == q.pod && c == q.container)) &&
                           (Has(r, p, c) ==>
                              r[p][c] == if p == q.pod && c == q.container then q.device else records[p][c])
  {
  }

  /** Some other container than c of p stands for the name. */
  ghost predicate ImpliedElsewhere(records: Records, p: Pod, c: string, f: string)
  {
    exists q, e :: Has(records, q, e) && (q != p || e != c) && IsNameOf(records[q][e], f)
  }

  lemma ImpliedSplits(records: Records, p: Pod, c: string, f: string)
    ensures Implied(records, f) <==>
            ImpliedElsewhere(records, p, c, f) || (Has(records, p, c) && IsNameOf(records[p][c], f))
  {
    hide IsNameOf;
  }

  lemma RecordedElsewhere(records: Records, q: Request, f: string)
    ensures ImpliedElsewhere(Recorded(records, q.pod, q.container, q.device), q.pod, q.container, f) <==>
            ImpliedElsewhere(records, q.pod, q.container, f)
  {
    hide IsNameOf, Recorded;
    RecordedHas(records, q);
    var r := Recorded(records, q.pod, q.container, q.device);
    if p, c :| Has(records, p, c) && (p != q.pod || c != q.container) && IsNameOf(records[p][c], f) {
      assert Has(r, p, c) && IsNameOf(r[p][c], f);
    }
    if p, c :| Has(r, p, c) && (p != q.pod || c != q.container) && IsNameOf(r[p][c], f) {
      assert Has(records, p, c) && IsNameOf(records[p][c], f);
    }
  }

  lemma RecordedImplies(records: Records, q: Request, f: string)
    ensures Implied(Recorded(records, q.pod, q.container, q.device), f) <==>
            ImpliedElsewhere(records, q.pod, q.container, f) || IsNameOf(q.device, f)
  {
    hide IsNameOf, ImpliedElsewhere, Implied, Recorded;
    RecordedHas(records, q);
    RecordedElsewhere(records, q, f);
    ImpliedSplits(Recorded(records, q.pod, q.container, q.device), q.pod, q.container, f);
  }

  function Indexes(q: Request): (n: Option<seq<int>>)
  {
    AnnotatedIndexes(q.device.resourceName, q.val)
  }

  function Max(a: nat, b: nat): (m: nat)
  {
    if a < b then b else a
  }

  /** No other container holds the hash of the one that starts. */
  ghost predicate HashIsOwn(records: Records, q: Request)
  {
    forall p, c :: Has(records, p, c) && (p != q.pod || c != q.container) ==> records[p][c].hash != q.device.hash
  }

  /** The number of links of the hash after the start: those of the container's
      record, if it has this hash, and those that the annotation asks for. */
  ghost predicate CountFits(records: Records, q: Request, n: nat)
  {
    if !Has(records, q.pod, q.container) then n == LinkCount(q.device)
    else
      var before := records[q.pod][q.container];
      before.hash == q.device.hash && Max(n, LinkCount(before)) == LinkCount(q.device)
  }

  /** The annotation cannot be read, and nothing happens; or the hash is the
      container's own and the links come out at the number of the device. */
  ghost predicate Fits(w: World, q: Request)
  {
    Indexes(q).Some? ==> HashIsOwn(w.records, q) && CountFits(w.records, q, |Indexes(q).value|)
  }

  /** Which starts keep the invariant, of all that there are. */
  lemma StartKeepsInvIff(w: World, q: Request)
    requires Inv(w) && |q.device.hash| == 8
    ensures Inv(Apply(w, Starting(q))) <==> Fits(w, q)
  {
    hide Inv, HashIsOwn, CountFits, AnnotatedIndexes;
    if Indexes(q).Some? {
      if Fits(w, q) {
        FittingKeepsInv(w, q);
      }
      if Inv(Apply(w, Starting(q))) {
        KeptInvFits(w, q);
      }
    }
  }

  /** The table and the records after a start. */
  lemma StartedTable(w: World, q: Request)
    requires Inv(w) && Indexes(q).Some?
    ensures var after := Apply(w, Starting(q));
            && (forall f :: f in after.links <==> f in w.links || IsName(q.device.hash, |Indexes(q).value|, f))
            && after.records == Recorded(w.records, q.pod, q.container, q.device)
  {
    hide Id, Link, Ctl, IsName, AnnotatedIndexes, CreatedAll, Inv, Recorded;
    InvIsPaired(w);
    CreatedAllKeys(w.links, q.device.hash, Indexes(q).value);
  }

  lemma NamesTogether(hash: string, a: nat, b: nat, f: string)
    ensures IsName(hash, Max(a, b), f) <==> IsName(hash, a, f) || IsName(hash, b, f)
  {
    hide Id, Link, Ctl;
  }

  lemma FittingKeepsInv(w: World, q: Request)
    requires Inv(w) && |q.device.hash| == 8 && Indexes(q).Some? && Fits(w, q)
    ensures Inv(Apply(w, Starting(q)))
  {
    hide Id, Link, Ctl, IsName, AnnotatedIndexes, Apply, Implied, Recorded, ImpliedElsewhere, LinkCount;
    var after, n := Apply(w, Starting(q)), |Indexes(q).value|;
    var recorded := Has(w.records, q.pod, q.container);
    StartedTable(w, q);
    forall f
      ensures Implied(after.records, f) <==>
              Implied(w.records, f) || IsName(q.device.hash, n, f)
    {
      RecordedImplies(w.records, q, f);
      ImpliedSplits(w.records, q.pod, q.container, f);
      if recorded {
        NamesTogether(q.device.hash, n, LinkCount(w.records[q.pod][q.container]), f);
      }
    }
    RecordedHas(w.records, q);
  }

  lemma KeptInvFits(w: World, q: Request)
    requires Inv(w) && |q.device.hash| == 8 && Indexes(q).Some? && Inv(Apply(w, Starting(q)))
    ensures Fits(w, q)
  {
    hide Id, Link, Ctl, IsName, AnnotatedIndexes, Apply, Implied, Recorded;
    StartedTable(w, q);
    RecordedHas(w.records, q);
    OthersKeepHash(w.records, q);
    if !Has(w.records, q.pod, q.container) {
      NewNamesAreFree(w, q.device.hash);
      CountIs(w, q, |Indexes(q).value|);
    } else if w.records[q.pod][q.container].hash != q.device.hash {
      ReplacedIsNotImplied(w.records, q);
      ImpliedNumber(w.records, q.pod, q.container, 0);
    } else {
      var before := w.records[q.pod][q.container];
      forall i: nat ensures Link(Id(q.device.hash, i)) in w.links <==> i < LinkCount(before) {
        ImpliedNumber(w.records, q.pod, q.container, i);
      }
      CountIs(w, q, Max(|Indexes(q).value|, LinkCount(before)));
    }
  }

  lemma OthersKeepHash(records: Records, q: Request)
    requires HashesDiffer(Recorded(records, q.pod, q.container, q.device))
    ensures HashIsOwn(records, q)
  {
    hide Recorded;
    RecordedHas(records, q);
    var r := Recorded(records, q.pod, q.container, q.device);
    forall p, c | Has(records, p, c) && (p != q.pod || c != q.container)
      ensures records[p][c].hash != q.device.hash
    {
      assert Has(r, p, c) && Has(r, q.pod, q.container);
    }
  }

  /** If the links match the records after the start, there are as many of the
      hash as the device has. */
  lemma CountIs(w: World, q: Request, m: nat)
    requires Indexes(q).Some? && Inv(w) && Inv(Apply(w, Starting(q)))
    requires forall i: nat :: Link(Id(q.device.hash, i)) in w.links || i < |Indexes(q).value| <==> i < m
    ensures m == LinkCount(q.device)
  {
    hide Id, Link, Ctl, IsName, AnnotatedIndexes, Apply, Implied, Recorded;
    var after := Apply(w, Starting(q));
    StartedTable(w, q);
    RecordedHas(w.records, q);
    var i: nat := if m < LinkCount(q.device) then m else LinkCount(q.device);
    ImpliedNumber(after.records, q.pod, q.container, i);
    NumberOfName(q.device.hash, |Indexes(q).value|, i);
    assert Link(Id(q.device.hash, i)) in after.links <==> Implied(after.records, Link(Id(q.device.hash, i)));
  }

  /** The link of a device that another one replaces in the record. */
  lemma ReplacedIsNotImplied(records: Records, q: Request)
    requires HashesDiffer(records) && Has(records, q.pod, q.container) && |q.device.hash| == 8
    requires records[q.pod][q.container].hash != q.device.hash
    ensures !Implied(Recorded(records, q.pod, q.container, q.device), Link(Id(records[q.pod][q.container].hash, 0)))
  {
    hide Id, Link, Ctl, IsNameOf, Recorded;
    RecordedHas(records, q);
    var before, after := records[q.pod][q.container], Recorded(records, q.pod, q.container, q.device);
    forall p, c | Has(after, p, c) ensures !IsNameOf(after[p][c], Link(Id(before.hash, 0))) {
      if IsNameOf(after[p][c], Link(Id(before.hash, 0))) {
        ForeignName(before.hash, 0, after[p][c]);
      }
    }
  }

  // ---- The starts of an orderly run ----

  /** A container starts first with a new hash and as many indexes as its device
      has links, and again with the same device and no more indexes. */
  ghost predicate MayStart(w: World, q: Request)
  {
    && |q.device.hash| == 8 && Indexes(q).Some?
    && if Has(w.records, q.pod, q.container)
       then w.records[q.pod][q.container] == q.device && |Indexes(q).value| <= LinkCount(q.device)
       else |Indexes(q).value| == LinkCount(q.device) && HashIsNew(w.records, q.device.hash)
  }

  ghost predicate HashIsNew(records: Records, hash: string)
  {
    forall p, c :: Has(records, p, c) ==> records[p][c].hash != hash
  }

  lemma StartKeepsInv(w: World, q: Request)
    requires Inv(w) && MayStart(w, q)
    ensures Fits(w, q) && Inv(Apply(w, Starting(q)))
  {
    hide LinksMatch, Apply, AnnotatedIndexes, LinkCount;
    StartKeepsInvIff(w, q);
  }

  /** Starting a recorded container again changes nothing, whatever cards its
      annotation names by now. */
  lemma RestartChangesNothing(w: World, q: Request)
    requires Inv(w) && MayStart(w, q) && Has(w.records, q.pod, q.container)
    ensures Start(w, q, GOOD_ANSWERS) == (w, Started)
  {
    hide AnnotatedIndexes, HashesDiffer, Recorded, CreatedAll;
    AllLinked(w, q, Indexes(q).value);
    AllThere(w.links, q.device.hash, Indexes(q).value, ALWAYS_FINE);
    RecordedAgain(w.records, q);
  }

  lemma RecordedAgain(records: Records, q: Request)
    requires Has(records, q.pod, q.container) && records[q.pod][q.container] == q.device
    ensures Recorded(records, q.pod, q.container, q.device) == records
  {
    assert records[q.pod][q.container := q.device] == records[q.pod];
  }

  lemma RestartIsNoEvent(w: World, q: Request)
    requires Inv(w) && MayStart(w, q) && Has(w.records, q.pod, q.container)
    ensures Apply(w, Starting(q)) == w
  {
    hide Inv, MayStart, Start;
    RestartChangesNothing(w, q);
  }

  lemma AllLinked(w: World, q: Request, indexes: seq<int>)
    requires LinksMatch(w) && Has(w.records, q.pod, q.container) && w.records[q.pod][q.container] == q.device
    requires |indexes| <= LinkCount(q.device)
    ensures forall i: nat :: i < |indexes| ==> Link(Id(q.device.hash, i)) in w.links
  {
    hide Id, Link, Ctl, IsName, Implied;
    forall i: nat | i < |indexes| ensures Link(Id(q.device.hash, i)) in w.links {
      NumberOfName(q.device.hash, LinkCount(q.device), i);
      ImpliedBy(w.records, q.pod, q.container, Link(Id(q.device.hash, i)));
    }
  }

  lemma {:induction false} AllThere(links: LinkTable, hash: string, indexes: seq<int>, os: nat -> Syscalls)
    requires forall i: nat :: i < |indexes| ==> Link(Id(hash, i)) in links
    ensures CreatedAll(links, hash, indexes, os) == (links, true)
  {
    if indexes != [] {
      hide Id, Link, Ctl, GpuPath;
      AllThere(links, hash, indexes[..|indexes| - 1], os);
    }
  }

  // ---- Starting a container whose record cannot be saved ----

  const UNSAVED := Answers(None, None, ALWAYS_FINE, ALWAYS_FINE, false)

  /** The rollback deletes the links of the hash whether or not this call made
      them. So a start that cannot be recorded keeps the invariant exactly when
      no container on record has the hash: in particular a restart loses the
      links of a container that stays on record, and yet replies with success. */
  lemma UnsavedStartKeepsInvIff(w: World, q: Request)
    requires Inv(w) && |q.device.hash| == 8 && Indexes(q).Some?
    ensures var (after, reply) := Start(w, q, UNSAVED);
            && reply == Started && after.records == w.records
            && (Inv(after) <==> HashIsNew(w.records, q.device.hash))
            && (Inv(after) ==> after == w)
  {
    var d, indexes := q.device, Indexes(q).value;
    hide AnnotatedIndexes, Id, Link, Ctl, Implied, IsName, HashIsNew;
    if HashIsNew(w.records, d.hash) {
      NoNameOfNewHash(w, d.hash);
      UnsavedStartSucceeds(w, q, UNSAVED);
    } else {
      var p, c := Holder(w.records, d.hash);
      InvIsPaired(w);
      CreatedAllKeys(w.links, d.hash, indexes);
      SomeIndex(q);
      FirstLinkRolledBack(CreatedAll(w.links, d.hash, indexes, ALWAYS_FINE).0, d.hash, |indexes|);
      ImpliedNumber(w.records, p, c, 0);
    }
  }

  lemma NoNameOfNewHash(w: World, hash: string)
    requires Inv(w) && |hash| == 8 && HashIsNew(w.records, hash)
    ensures forall i: nat :: Link(Id(hash, i)) !in w.links && Ctl(Id(hash, i)) !in w.links
  {
    hide Inv;
    NewNamesAreFree(w, hash);
  }

  lemma Holder(records: Records, hash: string) returns (p: Pod, c: string)
    requires !HashIsNew(records, hash)
    ensures Has(records, p, c) && records[p][c].hash == hash
  {
    p, c :| Has(records, p, c) && records[p][c].hash == hash;
  }

  lemma SomeIndex(q: Request)
    requires Indexes(q).Some?
    ensures |Indexes(q).value| >= 1
  {
    assert q.device.resourceName == GPU_CORE ==> |Split(q.val, ',')| >= 1;
  }

  lemma {:induction false} FirstLinkRolledBack(links: LinkTable, hash: string, n: nat)
    requires n >= 1
    ensures Link(Id(hash, 0)) !in RolledBack(links, hash, n, ALWAYS_FINE)
  {
    hide Id, Link, Ctl;
    if n > 1 {
      FirstLinkRolledBack(links, hash, n - 1);
    }
  }

  // ---- Collecting garbage ----

  /** One of the names of links i to n - 1 of a hash. */
  ghost predicate IsNameFrom(hash: string, i: nat, n: nat, f: string)
  {
    exists j: nat :: i <= j < n && (f == Link(Id(hash, j)) || f == Ctl(Id(hash, j)))
  }

  /** Links i to n - 1 go, if none of the calls for them fails. */
  lemma {:induction false} SweepFromFine(links: LinkTable, hash: string, i: nat, n: nat,
                                         deletes: nat -> Syscalls, t: nat)
    requires i <= n && forall f :: IsNameFrom(hash, i, n, f) ==> f in links
    requires forall u: nat :: t <= u < t + n - i ==> deletes(u) == FINE
    ensures var (after, swept, t') := SweepFrom(links, hash, i, n, deletes, t);
            && swept == LinksGone && t' == t + n - i
            && forall f :: f in after <==> f in links && !IsNameFrom(hash, i, n, f)
    decreases n - i
  {
    hide Id, Link, Ctl, IsNameFrom;
    if i == n {
      forall f ensures !IsNameFrom(hash, i, n, f) {
        NoNameFrom(hash, i, n, f);
      }
    } else {
      forall f
        ensures IsNameFrom(hash, i, n, f) <==>
                IsNameFrom(hash, i + 1, n, f) || f == Link(Id(hash, i)) || f == Ctl(Id(hash, i))
      {
        FirstNameFrom(hash, i, n, f);
      }
      var links' := links - {Link(Id(hash, i))} - {Ctl(Id(hash, i))};
      NumberedNames(hash, i, i);
      assert Deleted(links, Id(hash, i), FINE) == (links', true);
      forall f | IsNameFrom(hash, i + 1, n, f) ensures f in links' {
        LaterName(hash, i, n, f);
      }
      SweepFromFine(links', hash, i + 1, n, deletes, t + 1);
    }
  }

  lemma NoNameFrom(hash: string, i: nat, n: nat, f: string)
    requires i >= n
    ensures !IsNameFrom(hash, i, n, f)
  {
  }

  lemma FirstNameFrom(hash: string, i: nat, n: nat, f: string)
    requires i < n
    ensures IsNameFrom(hash, i, n, f) <==>
            IsNameFrom(hash, i + 1, n, f) || f == Link(Id(hash, i)) || f == Ctl(Id(hash, i))
  {
    hide Id, Link, Ctl;
  }

  lemma LaterName(hash: string, i: nat, n: nat, f: string)
    requires IsNameFrom(hash, i + 1, n, f)
    ensures f != Link(Id(hash, i)) && f != Ctl(Id(hash, i))
  {
    hide Id, Link, Ctl;
    var j: nat :| i + 1 <= j < n && (f == Link(Id(hash, j)) || f == Ctl(Id(hash, j)));
    NumberedNames(hash, i, j);
    NumberedNames(hash, j, i);
  }

  lemma NamesFromZero(d: Device, f: string)
    ensures IsNameFrom(d.hash, 0, LinkCount(d), f) <==> IsNameOf(d, f)
  {
    hide Id, Link, Ctl;
  }

  /** All the calls for the links of a line that starts at call t succeed. */
  ghost predicate CallsFine(d: Device, deletes: nat -> Syscalls, t: nat)
  {
    forall u: nat :: t <= u < t + LinkCount(d) ==> deletes(u) == FINE
  }

  lemma SweepLinksFine(links: LinkTable, d: Device, deletes: nat -> Syscalls, t: nat)
    requires forall f :: IsNameOf(d, f) ==> f in links
    requires CallsFine(d, deletes, t)
    ensures var (after, swept, t') := SweepLinks(links, d, deletes, t);
            && swept == LinksGone && t' == t + LinkCount(d)
            && forall f :: f in after <==> f in links && !IsNameOf(d, f)
  {
    hide Id, Link, Ctl, IsNameFrom, IsNameOf, LinkCount;
    forall f ensures IsNameFrom(d.hash, 0, LinkCount(d), f) <==> IsNameOf(d, f) {
      NamesFromZero(d, f);
    }
    SweepFromFine(links, d.hash, 0, LinkCount(d), deletes, t);
  }

  /** A name that one of the lines stands for. */
  ghost predicate LineName(lines: seq<Line>, f: string)
  {
    exists k :: 0 <= k < |lines| && IsNameOf(lines[k].device, f)
  }

  ghost predicate LinePod(lines: seq<Line>, p: Pod)
  {
    exists k :: 0 <= k < |lines| && lines[k].pod == p
  }

  /** No two lines stand for the same name. */
  ghost predicate NamesDiffer(lines: seq<Line>)
  {
    forall j, k, f :: 0 <= j < k < |lines| && IsNameOf(lines[j].device, f) ==> !IsNameOf(lines[k].device, f)
  }

  lemma FirstLine(lines: seq<Line>)
    requires lines != []
    ensures forall f :: LineName(lines, f) <==> IsNameOf(lines[0].device, f) || LineName(lines[1..], f)
    ensures forall p :: LinePod(lines, p) <==> lines[0].pod == p || LinePod(lines[1..], p)
    ensures NamesDiffer(lines) ==>
              NamesDiffer(lines[1..]) && forall f :: IsNameOf(lines[0].device, f) ==> !LineName(lines[1..], f)
  {
    hide IsNameOf;
    forall f ensures LineName(lines, f) <==> IsNameOf(lines[0].device, f) || LineName(lines[1..], f) {
      if LineName(lines[1..], f) {
        var k :| 0 <= k < |lines[1..]| && IsNameOf(lines[1..][k].device, f);
        assert IsNameOf(lines[k + 1].device, f);
      }
      if LineName(lines, f) {
        var k :| 0 <= k < |lines| && IsNameOf(lines[k].device, f);
        assert k > 0 ==> IsNameOf(lines[1..][k - 1].device, f);
      }
    }
    forall p ensures LinePod(lines, p) <==> lines[0].pod == p || LinePod(lines[1..], p) {
      if LinePod(lines[1..], p) {
        var k :| 0 <= k < |lines[1..]| && lines[1..][k].pod == p;
        assert lines[k + 1].pod == p;
      }
      if LinePod(lines, p) {
        var k :| 0 <= k < |lines| && lines[k].pod == p;
        assert k > 0 ==> lines[1..][k - 1].pod == p;
      }
    }
  }

  /** One line, when nothing fails. */
  lemma SweepLineFine(w: World, l: Line, fates: Fates, t: nat)
    requires forall f :: IsNameOf(l.device, f) ==> f in w.links
    requires CallsFine(l.device, fates.deletes, t) && fates.commits(t + LinkCount(l.device))
    ensures var (after, swept, t') := SweepLine(w, l, fates, t);
            && swept == LinksGone && t' == t + LinkCount(l.device) && after.records == w.records - {l.pod}
            && forall f :: f in after.links <==> f in w.links && !IsNameOf(l.device, f)
  {
    hide IsNameOf, SweepLinks, LinkCount, CallsFine;
    SweepLinksFine(w.links, l.device, fates.deletes, t);
  }

  lemma GoodCallsFine(d: Device, t: nat)
    ensures CallsFine(d, GOOD_FATES.deletes, t) && GOOD_FATES.commits(t + LinkCount(d))
  {
  }

  /** When nothing fails, a pass removes exactly the links and the records of
      its lines. */
  lemma {:induction false} SweepFine(w: World, lines: seq<Line>, t: nat)
    requires forall f :: LineName(lines, f) ==> f in w.links
    requires NamesDiffer(lines)
    ensures var after := Sweep(w, lines, GOOD_FATES, t);
            && (forall f :: f in after.links <==> f in w.links && !LineName(lines, f))
            && (forall p :: p in after.records <==> p in w.records && !LinePod(lines, p))
    decreases |lines|
  {
    if lines == [] {
      NoLineNames();
    } else {
      hide *;
      FirstLine(lines);
      GoodCallsFine(lines[0].device, t);
      SweepLineFine(w, lines[0], GOOD_FATES, t);
      var (mid, swept, t') := SweepLine(w, lines[0], GOOD_FATES, t);
      SweepFine(mid, lines[1..], t');
      SweepGoesOn(w, lines, GOOD_FATES, t);
    }
  }

  lemma SweepGoesOn(w: World, lines: seq<Line>, fates: Fates, t: nat)
    requires lines != [] && SweepLine(w, lines[0], fates, t).1 != FirstStuck
    ensures Sweep(w, lines, fates, t) ==
            Sweep(SweepLine(w, lines[0], fates, t).0, lines[1..], fates, SweepLine(w, lines[0], fates, t).2)
  {
    hide SweepLine;
  }

  lemma NoLineNames()
    ensures forall f :: !LineName([], f)
    ensures forall p :: !LinePod([], p)
  {
  }

  /** A container of a pod that is gone stands for the name. */
  ghost predicate GoneName(records: Records, view: View, f: string)
  {
    exists p, c :: Has(records, p, c) && IsGone(view, p) && IsNameOf(records[p][c], f)
  }

  /** Among the pods that are gone no two containers share a hash. */
  ghost predicate GoneHashesDiffer(records: Records, view: View)
  {
    forall p, c, q, e | Has(records, p, c) && Has(records, q, e) && IsGone(view, p) && IsGone(view, q) ::
      records[p][c].hash == records[q][e].hash ==> p == q && c == e
  }

  lemma LinesOfRun(records: Records, view: View, lines: seq<Line>)
    requires HashLengths(records) && GoneHashesDiffer(records, view)
    requires AllLinesOf(records, view, lines) && Distinct(lines)
    ensures NamesDiffer(lines)
    ensures forall f :: LineName(lines, f) <==> GoneName(records, view, f)
    ensures forall p :: LinePod(lines, p) <==> p in records && records[p] != map[] && IsGone(view, p)
  {
    hide IsNameOf, IsGone;
    forall j, k, f | 0 <= j < k < |lines| && IsNameOf(lines[j].device, f) ensures !IsNameOf(lines[k].device, f) {
      assert lines[j] != lines[k];
      assert Has(records, lines[j].pod, lines[j].container) && Has(records, lines[k].pod, lines[k].container);
      if IsNameOf(lines[k].device, f) {
        NameHasOneHash(lines[j].device, lines[k].device, f);
      }
    }
    LineNamesAreGone(records, view, lines);
    forall p ensures LinePod(lines, p) <==> p in records && records[p] != map[] && IsGone(view, p) {
      if p in records && records[p] != map[] && IsGone(view, p) {
        var c :| c in records[p];
        var k :| 0 <= k < |lines| && lines[k] == Line(p, c, records[p][c]);
      }
    }
  }

  lemma LineNamesAreGone(records: Records, view: View, lines: seq<Line>)
    requires AllLinesOf(records, view, lines)
    ensures forall f :: LineName(lines, f) <==> GoneName(records, view, f)
  {
    hide IsNameOf, IsGone;
    forall f ensures LineName(lines, f) <==> GoneName(records, view, f) {
      if k :| 0 <= k < |lines| && IsNameOf(lines[k].device, f) {
        assert Has(records, lines[k].pod, lines[k].container);
      }
      if p, c :| Has(records, p, c) && IsGone(view, p) && IsNameOf(records[p][c], f) {
        assert Line(p, c, records[p][c]) in lines;
        var k :| 0 <= k < |lines| && lines[k] == Line(p, c, records[p][c]);
      }
    }
  }

  /** What a pass without failures does when the links are there and the hashes
      of what is gone differ. A pod that is gone and has no container on record
      keeps its record. */
  lemma CollectEffect(w: World, view: View, lines: seq<Line>)
    requires HashLengths(w.records) && GoneHashesDiffer(w.records, view)
    requires forall f :: GoneName(w.records, view, f) ==> f in w.links
    requires AllLinesOf(w.records, view, lines) && Distinct(lines)
    ensures var after := Apply(w, Collecting(view, lines));
            && (forall f :: f in after.links <==> f in w.links && !GoneName(w.records, view, f))
            && (forall f :: f in after.links ==> after.links[f] == w.links[f])
            && (forall p :: p in after.records <==> p in w.records && !(IsGone(view, p) && w.records[p] != map[]))
            && (forall p :: p in after.records ==> after.records[p] == w.records[p])
  {
    hide *;
    LinesOfRun(w.records, view, lines);
    SweepFine(w, lines, 0);
    SweepKeepsRest(w, lines, GOOD_FATES, 0);
    CollectIsSweep(w, view, lines);
  }

  lemma CollectIsSweep(w: World, view: View, lines: seq<Line>)
    ensures Apply(w, Collecting(view, lines)) == Sweep(w, lines, GOOD_FATES)
  {
  }

  lemma SweepKeepsRest(w: World, lines: seq<Line>, fates: Fates, t: nat)
    ensures var after := Sweep(w, lines, fates, t);
            && after.links.Keys <= w.links.Keys && after.records.Keys <= w.records.Keys
            && (forall f :: f in after.links ==> after.links[f] == w.links[f])
            && (forall p :: p in after.records ==> after.records[p] == w.records[p])
  {
    hide Sweep, IsNameOf;
    SweepRemovesOnlyLines(w, lines, fates, t);
  }

  /** Some live container shares the hash of one that is gone. */
  ghost predicate SharedWithGone(records: Records, view: View)
  {
    exists p, c, q, e :: Has(records, p, c) && Has(records, q, e) && IsGone(view, p) && !IsGone(view, q) &&
                         records[p][c].hash == records[q][e].hash
  }

  /** A pass keeps the links matched with the records exactly when no container
      that is gone shares its hash with one that is not. */
  lemma CollectKeepsLinksIff(w: World, view: View, lines: seq<Line>)
    requires LinksMatch(w) && HashLengths(w.records) && GoneHashesDiffer(w.records, view)
    requires AllLinesOf(w.records, view, lines) && Distinct(lines)
    ensures LinksMatch(Apply(w, Collecting(view, lines))) <==> !SharedWithGone(w.records, view)
  {
    hide Implied, IsNameOf, IsGone, Apply, HashLengths, AllLinesOf, GoneName, Distinct, Link, Ctl, Id, GoneHashesDiffer;
    GoneIsImplied(w.records, view);
    CollectEffect(w, view, lines);
    var after := Apply(w, Collecting(view, lines));
    if SharedWithGone(w.records, view) {
      var p, c, q, e :| Has(w.records, p, c) && Has(w.records, q, e) && IsGone(view, p) && !IsGone(view, q) &&
                        w.records[p][c].hash == w.records[q][e].hash;
      var f := Link(Id(w.records[p][c].hash, 0));
      FirstName(w.records[p][c]);
      FirstName(w.records[q][e]);
      IsGoneName(w.records, view, p, c, f);
      ImpliedBy(after.records, q, e, f);
    } else {
      forall f ensures Implied(after.records, f) <==> Implied(w.records, f) && !GoneName(w.records, view, f) {
        StillImplied(w.records, view, after.records, f);
      }
    }
  }

  lemma IsGoneName(records: Records, view: View, p: Pod, c: string, f: string)
    requires Has(records, p, c) && IsGone(view, p) && IsNameOf(records[p][c], f)
    ensures GoneName(records, view, f)
  {
  }

  lemma GoneIsImplied(records: Records, view: View)
    ensures forall f :: GoneName(records, view, f) ==> Implied(records, f)
  {
    hide IsNameOf, IsGone;
  }

  lemma StillImplied(records: Records, view: View, after: Records, f: string)
    requires HashLengths(records) && !SharedWithGone(records, view)
    requires forall p :: p in after <==> p in records && !(IsGone(view, p) && records[p] != map[])
    requires forall p :: p in after ==> after[p] == records[p]
    ensures Implied(after, f) <==> Implied(records, f) && !GoneName(records, view, f)
  {
    hide IsNameOf, IsGone;
    if p, c :| Has(after, p, c) && IsNameOf(after[p][c], f) {
      assert Has(records, p, c) && !IsGone(view, p);
      if q, e :| Has(records, q, e) && IsGone(view, q) && IsNameOf(records[q][e], f) {
        NameHasOneHash(records[p][c], records[q][e], f);
      }
    }
    if Implied(records, f) && !GoneName(records, view, f) {
      var p, c :| Has(records, p, c) && IsNameOf(records[p][c], f);
      assert Has(after, p, c);
    }
  }

  lemma FirstName(d: Device)
    ensures IsNameOf(d, Link(Id(d.hash, 0)))
  {
    hide Id, Link, Ctl;
  }

  /** A pass that meets no failure keeps the invariant. It drops the records of
      exactly the pods that are gone and have a container on record, and their
      links with them. */
  lemma CollectKeepsInv(w: World, view: View, lines: seq<Line>)
    requires Inv(w) && AllLinesOf(w.records, view, lines) && Distinct(lines)
    ensures var after := Apply(w, Collecting(view, lines));
            && Inv(after)
            && (forall p :: p in after.records <==> p in w.records && !(IsGone(view, p) && w.records[p] != map[]))
            && (forall p :: p in after.records ==> after.records[p] == w.records[p])
            && (forall f :: f in after.links <==> f in w.links && !GoneName(w.records, view, f))
            && (forall f :: f in after.links ==> after.links[f] == w.links[f])
  {
    hide IsNameOf, IsGone, AllLinesOf, Distinct, Apply, Implied, GoneName;
    GoneIsImplied(w.records, view);
    CollectEffect(w, view, lines);
    CollectKeepsLinksIff(w, view, lines);
    FewerHashesDiffer(w.records, Apply(w, Collecting(view, lines)).records);
  }

  lemma FewerHashesDiffer(records: Records, after: Records)
    requires HashesDiffer(records)
    requires forall p :: p in after ==> p in records && after[p] == records[p]
    ensures HashesDiffer(after)
  {
    assert forall p, c :: Has(after, p, c) ==> Has(records, p, c) && after[p][c] == records[p][c];
  }

  // ---- Whole runs ----

  /** The invariant holds at every point of a run. */
  ghost predicate InvAlong(w: World, events: seq<Event>)
    decreases |events|
  {
    Inv(w) && (events != [] ==> InvAlong(Apply(w, events[0]), events[1..]))
  }

  /** Every start of a run fits the state in which it happens. */
  ghost predicate FitsAlong(w: World, events: seq<Event>)
    decreases |events|
  {
    events != [] ==>
      (events[0].Starting? ==> Fits(w, events[0].request)) && FitsAlong(Apply(w, events[0]), events[1..])
  }

  /** Over whole runs of any starts and passes, the links on disk are at every
      point exactly those that the records stand for, and no two recorded
      containers share a hash, if and only if every start fits. */
  lemma {:induction false} RunsKeepInvIff(w: World, events: seq<Event>)
    requires Inv(w) && IsRun(w, events)
    ensures InvAlong(w, events) <==> FitsAlong(w, events)
    decreases |events|
  {
    if events != [] {
      hide Inv, Apply, Fits, AllLinesOf, Distinct;
      match events[0] {
        case Starting(q) => StartKeepsInvIff(w, q);
        case Collecting(view, lines) => CollectKeepsInv(w, view, lines);
      }
      if Inv(Apply(w, events[0])) {
        RunsKeepInvIff(Apply(w, events[0]), events[1..]);
      }
    }
  }

  /** A run all of whose starts are first starts with a new hash or restarts. */
  ghost predicate Orderly(w: World, events: seq<Event>)
    decreases |events|
  {
    events != [] ==>
      && (events[0].Starting? ==> MayStart(w, events[0].request))
      && (events[0].Collecting? ==> Possible(w, events[0]))
      && Orderly(Apply(w, events[0]), events[1..])
  }

  lemma EventKeepsInv(w: World, e: Event)
    requires Inv(w) && (e.Starting? ==> MayStart(w, e.request)) && (e.Collecting? ==> Possible(w, e))
    ensures Inv(Apply(w, e))
  {
    hide Inv, Apply, MayStart, AllLinesOf, Distinct;
    match e {
      case Starting(q) => StartKeepsInv(w, q);
      case Collecting(view, lines) => CollectKeepsInv(w, view, lines);
    }
  }

  lemma {:induction false} OrderlyRunsKeepInv(w: World, events: seq<Event>)
    requires Inv(w) && Orderly(w, events)
    ensures Inv(Run(w, events))
    decreases |events|
  {
    if events != [] {
      hide Inv, Apply, MayStart, Possible;
      EventKeepsInv(w, events[0]);
      OrderlyRunsKeepInv(Apply(w, events[0]), events[1..]);
    }
  }

  /** A new agent, on a disk without links of its own, satisfies the invariant. */
  lemma InitInv(links: LinkTable)
    requires forall id :: Link(id) !in links && Ctl(id) !in links
    ensures Inv(World(links, map[]))
  {
  }

  /** So from a new agent on: over every run, links and records match and hashes
      differ at every point if and only if every start fits. */
  lemma NewAgentKeepsInvIff(links: LinkTable, events: seq<Event>)
    requires forall id :: Link(id) !in links && Ctl(id) !in links
    requires IsRun(World(links, map[]), events)
    ensures InvAlong(World(links, map[]), events) <==> FitsAlong(World(links, map[]), events)
    ensures Orderly(World(links, map[]), events) ==> Inv(Run(World(links, map[]), events))
  {
    hide Inv, IsRun, Orderly, InvAlong, FitsAlong, Run, Link, Ctl;
    InitInv(links);
    RunsKeepInvIff(World(links, map[]), events);
    if Orderly(World(links, map[]), events) {
      OrderlyRunsKeepInv(World(links, map[]), events);
    }
  }

  /** In particular every link has its control partner. */
  lemma InvIsPaired(w: World)
    requires Inv(w)
    ensures Paired(w.links)
  {
    forall id ensures Link(id) in w.links <==> Ctl(id) in w.links {
      PartnersImplied(w.records, id);
    }
  }

  lemma PartnersImplied(records: Records, id: string)
    ensures Implied(records, Link(id)) <==> Implied(records, Ctl(id))
  {
    hide Id, Link, Ctl;
    forall d: Device ensures IsNameOf(d, Link(id)) <==> IsNameOf(d, Ctl(id)) {
      forall i: nat ensures Link(id) == Link(Id(d.hash, i)) <==> id == Id(d.hash, i)
                    ensures Ctl(id) == Ctl(Id(d.hash, i)) <==> id == Id(d.hash, i)
                    ensures Link(id) != Ctl(Id(d.hash, i)) && Ctl(id) != Link(Id(d.hash, i))
      {
        LinkInjective(id, Id(d.hash, i));
        LinkIsNotCtl(id, Id(d.hash, i));
        LinkIsNotCtl(Id(d.hash, i), id);
      }
    }
  }

  /** So in any state that a run can reach, the operator's Check finds link i of a
      recorded container exactly when i is below its number of links. */
  lemma CheckTellsRecord(w: World, p: Pod, c: string, i: nat)
    requires Inv(w) && Has(w.records, p, c)
    ensures HasPair(w.links, Id(w.records[p][c].hash, i)) <==> i < LinkCount(w.records[p][c])
  {
    hide Id, Link, Ctl, Implied, LinkCount;
    ImpliedNumber(w.records, p, c, i);
    InvIsPaired(w);
  }

  /** Under the invariant no link on disk would be taken for one of a new
      hash. */
  lemma NoLinkOfNewHash(w: World, hash: string)
    requires Inv(w) && |hash| == 8
    requires HashIsNew(w.records, hash)
    ensures forall f :: f in w.links ==> !(LINK_PREFIX + hash <= f)
  {
    hide Id, Ctl, IsNameOf;
    forall f | f in w.links ensures !(LINK_PREFIX + hash <= f) {
      if LINK_PREFIX + hash <= f {
        var id := f[|LINK_PREFIX|..];
        assert f == Link(id);
        var p, c :| Has(w.records, p, c) && IsNameOf(w.records[p][c], Link(id));
        NameOfLink(w.records[p][c], id);
        var i: nat :| id == Id(w.records[p][c].hash, i);
        OtherLinksAreSkipped(hash, w.records[p][c].hash, i);
      }
    }
  }

  lemma NameOfLink(d: Device, id: string)
    requires IsNameOf(d, Link(id))
    ensures exists i: nat :: id == Id(d.hash, i)
  {
    hide Id, Link, Ctl;
    var i: nat :| i < LinkCount(d) && (Link(id) == Link(Id(d.hash, i)) || Link(id) == Ctl(Id(d.hash, i)));
    LinkInjective(id, Id(d.hash, i));
    LinkIsNotCtl(id, Id(d.hash, i));
  }

  lemma IndexesAreInts(q: Request)
    requires Indexes(q).Some?
    ensures forall i :: 0 <= i < |Indexes(q).value| ==> MIN_INT <= Indexes(q).value[i] <= MAX_INT
  {
    hide Split;
    if q.device.resourceName == GPU_CORE {
      AtoiAllInts(Split(q.val, ','));
    }
  }

  lemma {:induction false} AtoiAllInts(ids: seq<string>)
    requires AtoiAll(ids).Some?
    ensures forall i :: 0 <= i < |AtoiAll(ids).value| ==> MIN_INT <= AtoiAll(ids).value[i] <= MAX_INT
  {
    if ids != [] {
      AtoiAllInts(ids[1..]);
    }
  }

  /** The number of links of a hash that the records stand for. */
  ghost function Held(records: Records, hash: string): (n: nat)
  {
    if p, c :| Has(records, p, c) && records[p][c].hash == hash then LinkCount(records[p][c]) else 0
  }

  lemma HeldLinks(w: World, hash: string, i: nat)
    requires Inv(w) && |hash| == 8
    ensures Link(Id(hash, i)) in w.links <==> i < Held(w.records, hash)
  {
    hide Id, Link, Ctl, Implied, LinkCount, HashIsNew;
    if HashIsNew(w.records, hash) {
      NoNameOfNewHash(w, hash);
      NothingHeld(w.records, hash);
    } else {
      var p, c := Holder(w.records, hash);
      ImpliedNumber(w.records, p, c, i);
      HeldBy(w.records, p, c);
    }
  }

  lemma NothingHeld(records: Records, hash: string)
    requires HashIsNew(records, hash)
    ensures Held(records, hash) == 0
  {
  }

  lemma HeldBy(records: Records, p: Pod, c: string)
    requires HashesDiffer(records) && Has(records, p, c)
    ensures Held(records, records[p][c].hash) == LinkCount(records[p][c])
  {
    hide LinkCount;
  }

  /** From Allocate to the garbage collector: in any state that a run can reach,
      after a container has started exactly the links that Allocate advertised
      for it are there, if and only if the larger of what its hash had and what
      its annotation asks for is the number of links of its device. */
  lemma AdvertisedLinksAreThereIff(w: World, q: Request)
    requires Inv(w) && |q.device.hash| == 8 && Indexes(q).Some?
    ensures var links := Apply(w, Starting(q)).links;
            (forall i: nat :: Link(Id(q.device.hash, i)) in links <==> Advertised(q.device, i)) <==>
            Max(|Indexes(q).value|, Held(w.records, q.device.hash)) == LinkCount(q.device)
  {
    hide Inv, Id, Link, Advertised, Apply, AnnotatedIndexes, LinkCount, IsName, Held;
    var hash, n, m := q.device.hash, |Indexes(q).value|, LinkCount(q.device);
    var there := Max(n, Held(w.records, hash));
    var after := Apply(w, Starting(q));
    StartedTable(w, q);
    forall i: nat
      ensures Link(Id(hash, i)) in after.links <==> i < there
      ensures Advertised(q.device, i) <==> i < m
    {
      HeldLinks(w, hash, i);
      NumberOfName(hash, n, i);
      AdvertisedIff(q.device, i);
    }
    var i: nat := if there < m then there else m;
    assert there != m ==> !(Link(Id(hash, i)) in after.links <==> Advertised(q.device, i));
  }

  /** And once a pass has found the container's pod gone, no link of its hash is
      left. */
  lemma NoLinkIsLeft(w: World, view: View, lines: seq<Line>, p: Pod, c: string)
    requires Inv(w) && AllLinesOf(w.records, view, lines) && Distinct(lines)
    requires Has(w.records, p, c) && IsGone(view, p)
    ensures forall f :: f in Apply(w, Collecting(view, lines)).links ==> !(LINK_PREFIX + w.records[p][c].hash <= f)
  {
    hide LinksMatch, Distinct, AllLinesOf, IsGone, Apply, GoneName;
    var after := Apply(w, Collecting(view, lines));
    CollectKeepsInv(w, view, lines);
    forall q, e | Has(after.records, q, e) ensures after.records[q][e].hash != w.records[p][c].hash {
      assert Has(w.records, q, e) && q != p;
    }
    NoLinkOfNewHash(after, w.records[p][c].hash);
  }

  // ---- The methods are the events ----

  /** A pass of the collector that meets no failure is an event of a run. */
  method CollectEvent(plugin: GPUSharePlugin, keys: seq<string>, view: View) returns (lines: seq<Line>)
    requires plugin.storage.Valid()
    requires NoDuplicates(keys) && forall k :: k in keys <==> k in plugin.storage.bucket
    modifies plugin.operator, plugin.storage
    ensures plugin.storage.Valid()
    ensures Possible(old(plugin.State()), Collecting(view, lines))
    ensures plugin.State() == Apply(old(plugin.State()), Collecting(view, lines))
    ensures Inv(old(plugin.State())) ==>
              forall p, c :: Has(old(plugin.storage.records), p, c) && p !in view.informer && p in view.notFound ==>
                p !in plugin.storage.records &&
                NoTrace(plugin.operator.links, old(plugin.storage.records)[p][c].hash)
  {
    hide Inv, AllLinesOf, Distinct, Sweep, Represents, NoTrace;
    ghost var before := plugin.State();
    lines := plugin.Collect(keys, view, GOOD_FATES);
    if Inv(before) {
      AllGoneAreCollected(before, view, lines);
    }
  }

  /** No link of the hash is there, and no partner of one. */
  ghost predicate NoTrace(links: LinkTable, hash: string)
  {
    && (forall f :: f in links ==> !("elastic-gpu-" + hash <= f))
    && (forall i: nat :: "elastic-gpuctl-" + (hash + "-" + Itoa(i)) !in links)
  }

  lemma AllGoneAreCollected(w: World, view: View, lines: seq<Line>)
    requires Inv(w) && AllLinesOf(w.records, view, lines) && Distinct(lines)
    ensures var after := Apply(w, Collecting(view, lines));
            forall p, c :: Has(w.records, p, c) && p !in view.informer && p in view.notFound ==>
                             p !in after.records && NoTrace(after.links, w.records[p][c].hash)
  {
    hide Inv, AllLinesOf, Distinct, Apply, GoneName, NoTrace;
    CollectKeepsInv(w, view, lines);
    var after := Apply(w, Collecting(view, lines));
    forall p, c | Has(w.records, p, c) && p !in view.informer && p in view.notFound
      ensures p !in after.records && NoTrace(after.links, w.records[p][c].hash)
    {
      NoLinkIsLeft(w, view, lines, p, c);
      NoPartnerIsLeft(after, w.records[p][c].hash);
    }
  }

  lemma NoPartnerIsLeft(w: World, hash: string)
    requires Inv(w) && forall f :: f in w.links ==> !(LINK_PREFIX + hash <= f)
    ensures NoTrace(w.links, hash)
  {
    hide Inv, Itoa;
    InvIsPaired(w);
    forall i: nat ensures "elastic-gpuctl-" + (hash + "-" + Itoa(i)) !in w.links {
      OtherLinksAreSkipped(hash, hash, i);
      assert Link(Id(hash, i)) !in w.links;
      assert "elastic-gpuctl-" + (hash + "-" + Itoa(i)) == Ctl(Id(hash, i));
    }
  }

  /** A call of PreStartContainer that passes the checks and meets no failure is
      an event of a run. */
  method StartEvent(plugin: GPUShareDevicePlugin, ids: seq<string>, a: Answers) returns (reply: Reply, q: Request)
    requires plugin.storage.Valid()
    requires a.owner.Some? ==> Plain(Pod(a.owner.value.namespace, a.owner.value.name))
    requires Check(plugin.hash, plugin.resourceName, ids, a).Accepted?
    requires a.creates == ALWAYS_FINE && a.commits
    modifies plugin.operator, plugin.storage
    ensures plugin.storage.Valid()
    ensures q == Check(plugin.hash, plugin.resourceName, ids, a).request
    ensures q.device == NewDevice(plugin.hash, ids, plugin.resourceName)
    ensures (plugin.State(), reply) == Start(old(plugin.State()), q, GOOD_ANSWERS)
    ensures plugin.State() == Apply(old(plugin.State()), Starting(q))
  {
    hide CreatedAll, AnnotatedIndexes, Recorded, Key;
    q := Check(plugin.hash, plugin.resourceName, ids, a).request;
    reply := plugin.PreStartContainer(ids, a);
  }
}
