// GPUSharePlugin.GC, pkg/plugins/base.go: one pass scans the records for pods
// that are gone, and then sweeps their links and records step by step.
module Gc {
  import opened Text
  import opened Devices
  import opened Links
  import Hook
  import opened Storage
  import opened Plugins
  import opened PreStart

  /** A container whose links and record are to be deleted. */
  datatype Line = Line(pod: Pod, container: string, device: Device)

  // ---- Scanning ----

  /** What the informer and the API server say about a pod. The pod is gone if
      the informer does not have it and the API server reports "not found";
      any other answer of the server leaves it alone. */
  datatype View = View(informer: set<Pod>, notFound: set<Pod>)

  predicate IsGone(view: View, pod: Pod)
  {
    pod !in view.informer && pod in view.notFound
  }

  /** The lines are records of pods that are gone. */
  ghost predicate LinesOf(records: Records, view: View, lines: seq<Line>)
  {
    forall i :: 0 <= i < |lines| ==>
      var l := lines[i];
      && IsGone(view, l.pod) && l.pod in records
      && l.container in records[l.pod] && records[l.pod][l.container] == l.device
  }

  /** The lines are all of them. */
  ghost predicate AllLinesOf(records: Records, view: View, lines: seq<Line>)
  {
    && LinesOf(records, view, lines)
    && forall pod, c :: pod in records && IsGone(view, pod) && c in records[pod] ==>
                          Line(pod, c, records[pod][c]) in lines
  }

  /** No container is listed twice. */
  ghost predicate Distinct(lines: seq<Line>)
  {
    forall i, j :: 0 <= i < j < |lines| ==> lines[i] != lines[j]
  }

  // ---- Sweeping ----

  /** The fate of the k-th Delete and of the k-th database deletion of a pass. */
  datatype Fates = Fates(deletes: nat -> Syscalls, commits: nat -> bool)

  const GOOD_FATES := Fates(ALWAYS_FINE, (k: nat) => true)

  /** How far the links of one line got: its first link could not be deleted, a
      later one could not, or all are gone. */
  datatype Swept = FirstStuck | LaterStuck | LinksGone

  /** Links i, i + 1, .. of a line, until one cannot be deleted; t counts the
      deletions of the pass. */
  function SweepFrom(links: LinkTable, hash: string, i: nat, n: nat, deletes: nat -> Syscalls, t: nat)
    : (r: (LinkTable, Swept, nat))
    decreases n - i
  {
    if i >= n then (links, LinksGone, t)
    else
      var (after, ok) := Deleted(links, Id(hash, i), deletes(t));
      if !ok then (after, LaterStuck, t + 1) else SweepFrom(after, hash, i + 1, n, deletes, t + 1)
  }

  function SweepLinks(links: LinkTable, d: Device, deletes: nat -> Syscalls, t: nat): (r: (LinkTable, Swept, nat))
  {
    var (after, ok) := Deleted(links, Id(d.hash, 0), deletes(t));
    if !ok then (after, FirstStuck, t + 1)
    else SweepFrom(after, d.hash, 1, LinkCount(d), deletes, t + 1)
  }

  /** One line: its links, and if they are all gone the record of its pod. */
  function SweepLine(w: World, l: Line, fates: Fates, t: nat): (r: (World, Swept, nat))
  {
    var (links, swept, t') := SweepLinks(w.links, l.device, fates.deletes, t);
    (World(links, if swept == LinksGone && fates.commits(t') then w.records - {l.pod} else w.records), swept, t')
  }

  /** A pass over the lines; it is abandoned when a first link is stuck. */
  function Sweep(w: World, lines: seq<Line>, fates: Fates, t: nat := 0): (r: World)
    decreases |lines|
  {
    if lines == [] then w
    else
      var (after, swept, t') := SweepLine(w, lines[0], fates, t);
      if swept == FirstStuck then after else Sweep(after, lines[1..], fates, t')
  }

  class GPUSharePlugin {
    const operator: GPUShareOperator
    const storage: BoltStorage

    constructor (operator: GPUShareOperator, storage: BoltStorage)
      ensures this.operator == operator && this.storage == storage
    {
      this.operator, this.storage := operator, storage;
    }

    ghost function State(): (w: World)
      reads this, operator, storage
    {
      World(operator.links, storage.records)
    }

    /** The callback of ForEach over the records in the order of the keys. The
        containers of one pod come in any order. */
    method Scan(keys: seq<string>, view: View) returns (devicesToDelete: seq<Line>)
      requires storage.Valid()
      requires forall k :: k in keys ==> k in storage.bucket
      ensures LinesOf(storage.records, view, devicesToDelete)
      ensures (forall k :: k in storage.bucket ==> k in keys) ==> AllLinesOf(storage.records, view, devicesToDelete)
      ensures Hook.NoDuplicates(keys) ==> Distinct(devicesToDelete)
      ensures forall l :: l in devicesToDelete ==>
                l.pod !in view.informer && l.pod in view.notFound && l.pod in storage.records &&
                l.container in storage.records[l.pod] && l.device == storage.records[l.pod][l.container]
      ensures (forall k :: k in storage.bucket ==> k in keys) ==>
                forall p, c | p in storage.records && p !in view.informer && p in view.notFound ::
                  c in storage.records[p] ==> Line(p, c, storage.records[p][c]) in devicesToDelete
    {
      hide NewPIFromRaw, Key, Represents, Inverse, LinesOf, AllLinesOf, Scanned, Distinct;
      devicesToDelete := [];
      var infos, ok := storage.ForEach(keys);
      ScanSucceeds(keys, infos, ok);
      NothingScanned(view);
      assert infos[..0] == [];
      for i := 0 to |infos|
        invariant Scanned(view, infos[..i], devicesToDelete)
        invariant Hook.NoDuplicates(keys) ==> Distinct(devicesToDelete)
      {
        var info := infos[i];
        ghost var before := devicesToDelete;
        var lines: seq<Line> := [];
        NothingScanned(view);
        if info.pod !in view.informer {
          if info.pod in view.notFound {
            lines := LinesOfPod(info);
            devicesToDelete := devicesToDelete + lines;
          }
        }
        assert devicesToDelete == before + lines;
        ScannedNext(view, infos, i, before, lines);
        if Hook.NoDuplicates(keys) {
          PodsDiffer(keys, infos);
          StillDistinct(view, infos, i, before, lines);
        }
      }
      assert infos[..|infos|] == infos;
      ScannedLines(storage.records, view, infos, devicesToDelete);
      if forall k :: k in storage.bucket ==> k in keys {
        EveryRecordVisited(keys, infos);
        ScannedAllLines(storage.records, view, infos, devicesToDelete);
      }
      LinesInFull(storage.records, view, devicesToDelete);
    }

    lemma ScanSucceeds(keys: seq<string>, infos: seq<PodInfo>, ok: bool)
      requires storage.Valid()
      requires forall k :: k in keys ==> k in storage.bucket
      requires |infos| <= |keys| && (ok <==> |infos| == |keys|)
      requires forall i :: 0 <= i < |infos| ==>
                 NewPIFromRaw(storage.json, keys[i], storage.bucket[keys[i]]) == Some(infos[i])
      requires !ok ==> NewPIFromRaw(storage.json, keys[|infos|], storage.bucket[keys[|infos|]]).None?
      ensures ok && |infos| == |keys|
      ensures forall i :: 0 <= i < |infos| ==>
                infos[i].pod in storage.records && Key(infos[i].pod) == keys[i] &&
                infos[i].containerDeviceMap == storage.records[infos[i].pod]
    {
      hide NewPIFromRaw, Key;
      forall i | 0 <= i < |keys|
        ensures var info := NewPIFromRaw(storage.json, keys[i], storage.bucket[keys[i]]);
                && info.Some? && info.value.pod in storage.records && Key(info.value.pod) == keys[i]
                && info.value.containerDeviceMap == storage.records[info.value.pod]
      {
        ForEachVisitsRecords(storage.json, storage.bucket, storage.records, keys[i]);
      }
    }

    lemma EveryRecordVisited(keys: seq<string>, infos: seq<PodInfo>)
      requires storage.Valid()
      requires |infos| == |keys|
      requires forall i :: 0 <= i < |infos| ==>
                 infos[i].pod in storage.records && Key(infos[i].pod) == keys[i] &&
                 infos[i].containerDeviceMap == storage.records[infos[i].pod]
      requires forall k :: k in storage.bucket ==> k in keys
      ensures forall pod :: pod in storage.records ==>
                exists i :: 0 <= i < |infos| && infos[i].pod == pod &&
                            infos[i].containerDeviceMap == storage.records[pod]
    {
      hide Key;
      forall pod | pod in storage.records
        ensures exists i :: 0 <= i < |infos| && infos[i].pod == pod &&
                            infos[i].containerDeviceMap == storage.records[pod]
      {
        assert Key(pod) in keys;
        var i :| 0 <= i < |keys| && keys[i] == Key(pod);
        KeyInjective(infos[i].pod, pod);
      }
    }

    /** Keys that differ belong to pods that differ. */
    lemma PodsDiffer(keys: seq<string>, infos: seq<PodInfo>)
      requires Hook.NoDuplicates(keys) && |infos| == |keys|
      requires forall i :: 0 <= i < |infos| ==> Key(infos[i].pod) == keys[i]
      ensures forall i, j :: 0 <= i < j < |infos| ==> infos[i].pod != infos[j].pod
    {
      hide Key;
    }

    /** One round of the sweeping loop. */
    method SweepOne(l: Line, fates: Fates, t: nat) returns (swept: Swept, t': nat)
      requires storage.Valid() && Plain(l.pod)
      modifies operator, storage
      ensures storage.Valid()
      ensures (State(), swept, t') == SweepLine(old(State()), l, fates, t)
    {
      hide Deleted, Id, DeletedAs;
      t' := t + 1;
      var ok := operator.Delete(-1, Id(l.device.hash, 0), fates.deletes(t));
      if !ok {
        return FirstStuck, t';
      }
      if l.device.resourceName == GPU_CORE {
        if |l.device.list| > 100 {
          var i := 1;
          while i < |l.device.list| / 100
            invariant 1 <= i && ok
            invariant SweepLinks(old(operator.links), l.device, fates.deletes, t) ==
                      SweepFrom(operator.links, l.device.hash, i, LinkCount(l.device), fates.deletes, t')
            invariant storage.records == old(storage.records) && storage.Valid()
          {
            ok := operator.Delete(-1, Id(l.device.hash, i), fates.deletes(t'));
            t' := t' + 1;
            if !ok {
              return LaterStuck, t';
            }
            i := i + 1;
          }
        }
      }
      // the pass goes on whether or not the record could be deleted
      var deleted := storage.Delete(l.pod, fates.commits(t'));
      return LinksGone, t';
    }

    /** The sweeping loop of a pass. */
    method SweepPass(devicesToDelete: seq<Line>, fates: Fates)
      requires storage.Valid() && forall l :: l in devicesToDelete ==> Plain(l.pod)
      modifies operator, storage
      ensures storage.Valid()
      ensures State() == Sweep(old(State()), devicesToDelete, fates)
    {
      hide SweepLine;
      var t := 0;
      assert devicesToDelete[0..] == devicesToDelete;
      for k := 0 to |devicesToDelete|
        invariant storage.Valid()
        invariant Sweep(old(State()), devicesToDelete, fates) == Sweep(State(), devicesToDelete[k..], fates, t)
      {
        assert devicesToDelete[k..][1..] == devicesToDelete[k + 1..];
        var swept;
        swept, t := SweepOne(devicesToDelete[k], fates, t);
        if swept == FirstStuck {
          return;
        }
      }
    }

    /** One pass: the keys are those of the bucket, each once. */
    method Collect(keys: seq<string>, view: View, fates: Fates) returns (devicesToDelete: seq<Line>)
      requires storage.Valid()
      requires Hook.NoDuplicates(keys) && forall k :: k in keys <==> k in storage.bucket
      modifies operator, storage
      ensures storage.Valid()
      ensures AllLinesOf(old(storage.records), view, devicesToDelete) && Distinct(devicesToDelete)
      ensures State() == Sweep(old(State()), devicesToDelete, fates)
      ensures forall p :: p in old(storage.records) && (p in view.informer || p !in view.notFound) ==>
                p in storage.records && storage.records[p] == old(storage.records)[p]
      ensures forall p :: p in storage.records ==>
                p in old(storage.records) && storage.records[p] == old(storage.records)[p]
      ensures forall f :: f in operator.links ==>
                f in old(operator.links) && operator.links[f] == old(operator.links)[f]
      ensures forall f :: f in old(operator.links) && f !in operator.links ==>
                exists p, c :: p in old(storage.records) && p !in view.informer && p in view.notFound &&
                               c in old(storage.records)[p] && IsFullName(old(storage.records)[p][c], f)
    {
      hide AllLinesOf, LinesOf, Distinct, Sweep, IsFullName, Represents;
      ghost var before := State();
      devicesToDelete := Scan(keys, view);
      LinesArePlain(view, devicesToDelete);
      SweepPass(devicesToDelete, fates);
      PassInFull(before, view, devicesToDelete, fates);
    }

    lemma LinesArePlain(view: View, lines: seq<Line>)
      requires storage.Valid() && LinesOf(storage.records, view, lines)
      ensures forall l :: l in lines ==> Plain(l.pod)
    {
      hide Key, Plain, Inverse;
    }
  }

  /** What a pass may change, in terms of the two answers. */
  lemma PassInFull(w: World, view: View, lines: seq<Line>, fates: Fates)
    requires LinesOf(w.records, view, lines)
    ensures var after := Sweep(w, lines, fates);
            && (forall p :: p in w.records && (p in view.informer || p !in view.notFound) ==>
                  p in after.records && after.records[p] == w.records[p])
            && (forall p :: p in after.records ==> p in w.records && after.records[p] == w.records[p])
            && (forall f :: f in after.links ==> f in w.links && after.links[f] == w.links[f])
            && (forall f :: f in w.links && f !in after.links ==>
                  exists p, c :: p in w.records && p !in view.informer && p in view.notFound &&
                                 c in w.records[p] && IsFullName(w.records[p][c], f))
  {
    hide IsNameOf, IsFullName, Sweep;
    PassIsSafe(w, view, lines, fates);
    SweepRemovesOnlyLines(w, lines, fates, 0);
    forall d: Device, f: string ensures IsNameOf(d, f) <==> IsFullName(d, f) {
      NameInFull(d, f);
    }
  }

  /** The lines are the containers of the pods among infos that are gone. */
  ghost predicate Scanned(view: View, infos: seq<PodInfo>, lines: seq<Line>)
  {
    && (forall l :: l in lines ==> exists info :: info in infos && IsLineOf(view, info, l))
    && (forall info, l :: info in infos && IsLineOf(view, info, l) ==> l in lines)
  }

  ghost predicate IsLineOf(view: View, info: PodInfo, l: Line)
  {
    && IsGone(view, info.pod) && l.pod == info.pod
    && l.container in info.containerDeviceMap && info.containerDeviceMap[l.container] == l.device
  }

  lemma LinesInFull(records: Records, view: View, lines: seq<Line>)
    requires LinesOf(records, view, lines)
    ensures forall l :: l in lines ==>
              l.pod !in view.informer && l.pod in view.notFound && l.pod in records &&
              l.container in records[l.pod] && l.device == records[l.pod][l.container]
    ensures AllLinesOf(records, view, lines) ==>
              forall p, c :: p in records && p !in view.informer && p in view.notFound && c in records[p] ==>
                               Line(p, c, records[p][c]) in lines
  {
  }

  lemma NothingScanned(view: View)
    ensures Scanned(view, [], []) && Distinct([])
  {
  }

  lemma ScannedNext(view: View, infos: seq<PodInfo>, i: nat, before: seq<Line>, lines: seq<Line>)
    requires i < |infos| && Scanned(view, infos[..i], before)
    requires forall l :: l in lines <==> IsLineOf(view, infos[i], l)
    ensures Scanned(view, infos[..i + 1], before + lines)
  {
    hide IsLineOf;
    assert infos[..i + 1] == infos[..i] + [infos[i]];
  }

  lemma StillDistinct(view: View, infos: seq<PodInfo>, i: nat, before: seq<Line>, lines: seq<Line>)
    requires i < |infos| && Scanned(view, infos[..i], before) && Distinct(before) && Distinct(lines)
    requires forall l :: l in lines ==> IsLineOf(view, infos[i], l)
    requires forall j, k :: 0 <= j < k < |infos| ==> infos[j].pod != infos[k].pod
    ensures Distinct(before + lines)
  {
    forall j, k | 0 <= j < k < |before + lines| ensures (before + lines)[j] != (before + lines)[k] {
      if j < |before| <= k {
        assert before[j] in before && lines[k - |before|] in lines;
      }
    }
  }

  lemma ScannedLines(records: Records, view: View, infos: seq<PodInfo>, lines: seq<Line>)
    requires Scanned(view, infos, lines)
    requires forall i :: 0 <= i < |infos| ==>
               infos[i].pod in records && infos[i].containerDeviceMap == records[infos[i].pod]
    ensures LinesOf(records, view, lines)
  {
    hide IsGone;
    forall i | 0 <= i < |lines|
      ensures var l := lines[i];
              && IsGone(view, l.pod) && l.pod in records
              && l.container in records[l.pod] && records[l.pod][l.container] == l.device
    {
      assert lines[i] in lines;
    }
  }

  lemma ScannedAllLines(records: Records, view: View, infos: seq<PodInfo>, lines: seq<Line>)
    requires Scanned(view, infos, lines) && LinesOf(records, view, lines)
    requires forall pod :: pod in records ==>
               exists i :: 0 <= i < |infos| && infos[i].pod == pod && infos[i].containerDeviceMap == records[pod]
    ensures AllLinesOf(records, view, lines)
  {
    hide LinesOf, IsGone;
    forall pod, c | pod in records && IsGone(view, pod) && c in records[pod]
      ensures Line(pod, c, records[pod][c]) in lines
    {
      var i :| 0 <= i < |infos| && infos[i].pod == pod && infos[i].containerDeviceMap == records[pod];
      assert IsLineOf(view, infos[i], Line(pod, c, records[pod][c]));
    }
  }

  /** The lines of a pod, one per container, in any order. */
  method LinesOfPod(info: PodInfo) returns (lines: seq<Line>)
    ensures forall l :: l in lines <==>
              l.pod == info.pod && l.container in info.containerDeviceMap &&
              info.containerDeviceMap[l.container] == l.device
    ensures Distinct(lines)
  {
    lines := [];
    var rest := info.containerDeviceMap.Keys;
    while rest != {}
      invariant rest <= info.containerDeviceMap.Keys
      invariant forall l :: l in lines <==>
                  l.pod == info.pod && l.container in info.containerDeviceMap && l.container !in rest &&
                  info.containerDeviceMap[l.container] == l.device
      invariant Distinct(lines)
      decreases rest
    {
      var name :| name in rest;
      ghost var before := lines;
      assert forall i :: 0 <= i < |before| ==> before[i] in before;
      lines := lines + [Line(info.pod, name, info.containerDeviceMap[name])];
      rest := rest - {name};
    }
  }

  // ---- Safety, whatever fails ----

  /** A name of one of the links that a line stands for. */
  ghost predicate IsNameOf(d: Device, name: string)
  {
    IsName(d.hash, LinkCount(d), name)
  }

  /** after is before without some names. */
  ghost predicate Fewer(after: LinkTable, before: LinkTable)
  {
    after.Keys <= before.Keys && forall f :: f in after ==> after[f] == before[f]
  }

  lemma {:induction false} SweepFromSafe(links: LinkTable, hash: string, i: nat, n: nat,
                                         deletes: nat -> Syscalls, t: nat)
    ensures var (after, swept, t') := SweepFrom(links, hash, i, n, deletes, t);
            && Fewer(after, links) && swept != FirstStuck
            && (forall f :: f in links && f !in after ==> IsName(hash, n, f))
            && (swept == LinksGone ==>
                  forall j: nat :: i <= j < n ==> Link(Id(hash, j)) !in after && Ctl(Id(hash, j)) !in after)
    decreases n - i
  {
    hide Id, Link, Ctl;
    if i < n {
      SweepFromSafe(Deleted(links, Id(hash, i), deletes(t)).0, hash, i + 1, n, deletes, t + 1);
    }
  }

  lemma SweepLinksSafe(links: LinkTable, d: Device, deletes: nat -> Syscalls, t: nat)
    ensures var (after, swept, t') := SweepLinks(links, d, deletes, t);
            && Fewer(after, links)
            && (forall f :: f in links && f !in after ==> IsNameOf(d, f))
            && (swept == LinksGone ==> forall f :: IsNameOf(d, f) ==> f !in after)
  {
    hide Id, Link, Ctl, Deleted, SweepFrom, IsName;
    var (first, ok) := Deleted(links, Id(d.hash, 0), deletes(t));
    DeletedSafe(links, d.hash, 0, deletes(t));
    NameCases(d.hash, LinkCount(d));
    SweepFromSafe(first, d.hash, 1, LinkCount(d), deletes, t + 1);
  }

  lemma DeletedSafe(links: LinkTable, hash: string, i: nat, os: Syscalls)
    ensures var (after, ok) := Deleted(links, Id(hash, i), os);
            && Fewer(after, links)
            && (forall f :: f in links && f !in after ==> f == Link(Id(hash, i)) || f == Ctl(Id(hash, i)))
            && (ok ==> Link(Id(hash, i)) !in after && Ctl(Id(hash, i)) !in after)
  {
    hide Id, Link, Ctl;
  }

  /** The names of number 0 and the other ones. */
  lemma NameCases(hash: string, n: nat)
    requires n >= 1
    ensures IsName(hash, n, Link(Id(hash, 0))) && IsName(hash, n, Ctl(Id(hash, 0)))
    ensures forall f :: IsName(hash, n, f) ==>
              f == Link(Id(hash, 0)) || f == Ctl(Id(hash, 0)) ||
              exists j: nat :: 1 <= j < n && (f == Link(Id(hash, j)) || f == Ctl(Id(hash, j)))
  {
    hide Id, Link, Ctl;
  }

  /** A pass removes only links that some line stands for and only records of
      pods that some line names, and adds or changes nothing. */
  lemma {:induction false} SweepRemovesOnlyLines(w: World, lines: seq<Line>, fates: Fates, t: nat)
    ensures var after := Sweep(w, lines, fates, t);
            && Fewer(after.links, w.links)
            && (forall f :: f in w.links && f !in after.links ==>
                  exists k :: 0 <= k < |lines| && IsNameOf(lines[k].device, f))
            && after.records.Keys <= w.records.Keys
            && (forall p :: p in after.records ==> after.records[p] == w.records[p])
            && (forall p :: p in w.records && p !in after.records ==> exists k :: 0 <= k < |lines| && lines[k].pod == p)
    decreases |lines|
  {
    if lines != [] {
      hide IsNameOf, SweepLinks;
      var l := lines[0];
      SweepLinksSafe(w.links, l.device, fates.deletes, t);
      var (mid, swept, t') := SweepLine(w, l, fates, t);
      if swept != FirstStuck {
        SweepRemovesOnlyLines(mid, lines[1..], fates, t');
      }
      var after := Sweep(w, lines, fates, t);
      forall f | f in w.links && f !in after.links
        ensures exists k :: 0 <= k < |lines| && IsNameOf(lines[k].device, f)
      {
        if f in mid.links {
          var k :| 0 <= k < |lines[1..]| && IsNameOf(lines[1..][k].device, f);
          assert lines[k + 1] == lines[1..][k];
        } else {
          assert IsNameOf(lines[0].device, f);
        }
      }
      forall p | p in w.records && p !in after.records ensures exists k :: 0 <= k < |lines| && lines[k].pod == p {
        if p in mid.records {
          var k :| 0 <= k < |lines[1..]| && lines[1..][k].pod == p;
          assert lines[k + 1] == lines[1..][k];
        } else {
          assert lines[0].pod == p;
        }
      }
    }
  }

  /** The record of a pod goes only after all the links of one of its lines. */
  lemma {:induction false} RecordGoesAfterLinks(w: World, lines: seq<Line>, fates: Fates, t: nat, pod: Pod)
    requires pod in w.records && pod !in Sweep(w, lines, fates, t).records
    ensures exists k :: 0 <= k < |lines| && lines[k].pod == pod &&
                        forall f :: IsNameOf(lines[k].device, f) ==> f !in Sweep(w, lines, fates, t).links
    decreases |lines|
  {
    hide IsNameOf, SweepLinks;
    var l := lines[0];
    SweepLinksSafe(w.links, l.device, fates.deletes, t);
    var (mid, swept, t') := SweepLine(w, l, fates, t);
    if swept != FirstStuck {
      SweepRemovesOnlyLines(mid, lines[1..], fates, t');
    }
    if pod in mid.records {
      RecordGoesAfterLinks(mid, lines[1..], fates, t', pod);
      var k :| 0 <= k < |lines[1..]| && lines[1..][k].pod == pod &&
               forall f :: IsNameOf(lines[1..][k].device, f) ==> f !in Sweep(w, lines, fates, t).links;
      assert lines[k + 1] == lines[1..][k];
    } else {
      assert lines[0].pod == pod;
    }
  }

  /** The names of a device's links and their partners, in full. */
  ghost predicate IsFullName(d: Device, f: string)
  {
    exists i: nat :: i < LinkCount(d) &&
      (f == "elastic-gpu-" + (d.hash + "-" + Itoa(i)) || f == "elastic-gpuctl-" + (d.hash + "-" + Itoa(i)))
  }

  lemma NameInFull(d: Device, f: string)
    ensures IsNameOf(d, f) <==> IsFullName(d, f)
  {
    if i: nat :| i < LinkCount(d) && (f == Link(Id(d.hash, i)) || f == Ctl(Id(d.hash, i))) {
      assert f == "elastic-gpu-" + (d.hash + "-" + Itoa(i)) || f == "elastic-gpuctl-" + (d.hash + "-" + Itoa(i));
    }
    if i: nat :| i < LinkCount(d) && (f == "elastic-gpu-" + (d.hash + "-" + Itoa(i)) ||
                                      f == "elastic-gpuctl-" + (d.hash + "-" + Itoa(i))) {
      assert f == Link(Id(d.hash, i)) || f == Ctl(Id(d.hash, i));
    }
  }

  /** One pass, under any pattern of failing deletions: the record of a pod stays
      as it is unless the informer does not have the pod and the API server does
      not find it; a link goes only if a record of such a pod stands for it; and
      the record of a pod with one container goes only after all its links. */
  lemma PassIsSafe(w: World, view: View, lines: seq<Line>, fates: Fates)
    requires LinesOf(w.records, view, lines)
    ensures var after := Sweep(w, lines, fates);
            && (forall p :: p in w.records && !(p !in view.informer && p in view.notFound) ==>
                  p in after.records && after.records[p] == w.records[p])
            && (forall f :: f in w.links && f !in after.links ==>
                  exists p, c :: p in w.records && p !in view.informer && p in view.notFound && c in w.records[p] &&
                                 IsNameOf(w.records[p][c], f))
            && (forall p, c :: p in w.records && p !in after.records && w.records[p].Keys == {c} ==>
                  forall f :: IsNameOf(w.records[p][c], f) ==> f !in after.links)
  {
    hide IsNameOf, Sweep;
    var after := Sweep(w, lines, fates);
    SweepRemovesOnlyLines(w, lines, fates, 0);
    forall f | f in w.links && f !in after.links
      ensures exists p, c :: p in w.records && p !in view.informer && p in view.notFound && c in w.records[p] &&
                             IsNameOf(w.records[p][c], f)
    {
      var k :| 0 <= k < |lines| && IsNameOf(lines[k].device, f);
      assert IsNameOf(w.records[lines[k].pod][lines[k].container], f);
    }
    forall p, c | p in w.records && p !in after.records && w.records[p].Keys == {c}
      ensures forall f :: IsNameOf(w.records[p][c], f) ==> f !in after.links
    {
      RecordGoesAfterLinks(w, lines, fates, 0, p);
      var k :| 0 <= k < |lines| && lines[k].pod == p && forall f :: IsNameOf(lines[k].device, f) ==> f !in after.links;
      assert lines[k].container in w.records[p].Keys;
    }
  }
}
