// Passes of the garbage collector that meet a failure, or what one has left: when
// the record of a pod may go before all of its links, and when it never goes.
module Failures {
  import Devices
  import opened Links
  import opened Storage
  import opened Plugins
  import opened PreStart
  import opened Gc
  import opened Lifecycle

  /** The number of Delete calls for the links of some lines. */
  function Calls(lines: seq<Line>): (n: nat)
  {
    if lines == [] then 0 else LinkCount(lines[0].device) + Calls(lines[1..])
  }

  /** Everything succeeds but one call of Delete. */
  function FailingAt(call: nat): (fates: Fates)
  {
    Fates(u => if u == call then Syscalls(false, false) else FINE, _ => true)
  }

  lemma StuckAtFirst(w: World, l: Line, fates: Fates, t: nat)
    requires !fates.deletes(t).first
    ensures SweepLine(w, l, fates, t).0 == w && SweepLine(w, l, fates, t).1 == FirstStuck
  {
  }

  lemma FineUntil(call: nat, d: Devices.Device, t: nat)
    requires t + LinkCount(d) <= call
    ensures CallsFine(d, FailingAt(call).deletes, t) && FailingAt(call).commits(t + LinkCount(d))
  {
  }

  /** A pass that fails at the first link of line k leaves that line's links,
      and it has dropped the records of the lines before. */
  lemma {:induction false} SweepUntil(w: World, lines: seq<Line>, k: nat, t: nat)
    requires k < |lines| && NamesDiffer(lines) && forall f :: LineName(lines, f) ==> f in w.links
    ensures var after := Sweep(w, lines, FailingAt(t + Calls(lines[..k])), t);
            && (forall f :: IsNameOf(lines[k].device, f) ==> f in after.links)
            && (forall p :: LinePod(lines[..k], p) ==> p !in after.records)
    decreases k
  {
    hide *;
    var call := t + Calls(lines[..k]);
    FirstLine(lines);
    CallsBefore(lines, k);
    if k == 0 {
      NoLineNames();
      CallFails(call);
      SweepStops(w, lines, FailingAt(call), t);
      assert lines[..0] == [];
    } else {
      var first := lines[0];
      FirstLine(lines[..k]);
      FineUntil(call, first.device, t);
      SweepLineFine(w, first, FailingAt(call), t);
      var (mid, swept, t') := SweepLine(w, first, FailingAt(call), t);
      SweepUntil(mid, lines[1..], k - 1, t');
      SweepKeepsRest(mid, lines[1..], FailingAt(call), t');
      SweepGoesOn(w, lines, FailingAt(call), t);
    }
  }

  lemma CallsBefore(lines: seq<Line>, k: nat)
    requires k < |lines|
    ensures k == 0 ==> Calls(lines[..k]) == 0
    ensures k > 0 ==> lines[..k][1..] == lines[1..][..k - 1]
    ensures k > 0 ==> Calls(lines[..k]) == LinkCount(lines[0].device) + Calls(lines[1..][..k - 1])
  {
    hide LinkCount;
    assert k > 0 ==> lines[..k][1..] == lines[1..][..k - 1];
  }

  lemma SweepStops(w: World, lines: seq<Line>, fates: Fates, t: nat)
    requires lines != [] && !fates.deletes(t).first
    ensures Sweep(w, lines, fates, t) == w
  {
    hide SweepLine;
    StuckAtFirst(w, lines[0], fates, t);
  }

  lemma CallFails(call: nat)
    ensures !FailingAt(call).deletes(call).first
  {
  }

  /** If the record of the pod has gone, so have all the links that it stood
      for. */
  ghost predicate LinksWentFirst(w: World, p: Pod, after: World)
    requires p in w.records
  {
    p !in after.records ==> forall c, f :: c in w.records[p] && IsNameOf(w.records[p][c], f) ==> f !in after.links
  }

  /** Whatever fails, the record of a pod that is gone goes only after all of
      its links: that holds exactly of the pods with one container on record. */
  lemma RecordGoesLastIff(w: World, view: View, lines: seq<Line>, p: Pod)
    requires Inv(w) && AllLinesOf(w.records, view, lines) && Distinct(lines)
    requires p in w.records && IsGone(view, p) && w.records[p] != map[]
    ensures (forall fates: Fates :: LinksWentFirst(w, p, Sweep(w, lines, fates))) <==> |w.records[p]| == 1
  {
    hide Sweep, IsNameOf, Inv, AllLinesOf, Distinct, IsGone;
    if |w.records[p]| == 1 {
      forall fates: Fates ensures LinksWentFirst(w, p, Sweep(w, lines, fates)) {
        OneContainer(w, view, lines, p, fates);
      }
    } else {
      var c, e := TwoContainers(w.records[p]);
      var call := WitnessCall(w, view, lines, p, c, e);
      assert !LinksWentFirst(w, p, Sweep(w, lines, FailingAt(call)));
    }
  }

  lemma OneContainer(w: World, view: View, lines: seq<Line>, p: Pod, fates: Fates)
    requires AllLinesOf(w.records, view, lines) && p in w.records && |w.records[p]| == 1
    ensures LinksWentFirst(w, p, Sweep(w, lines, fates))
  {
    hide Sweep, IsNameOf;
    PassIsSafe(w, view, lines, fates);
    var c :| c in w.records[p];
    assert w.records[p].Keys == {c} by {
      assert |w.records[p].Keys - {c}| == 0;
    }
  }

  lemma TwoContainers(m: DeviceMap) returns (c: string, e: string)
    requires m != map[] && |m| != 1
    ensures c in m && e in m && c != e
  {
    c :| c in m;
    assert m.Keys == {c} + (m.Keys - {c});
    e :| e in m.Keys - {c};
  }

  /** The call whose failure leaves a link without a record. */
  lemma WitnessCall(w: World, view: View, lines: seq<Line>, p: Pod, c: string, e: string) returns (call: nat)
    requires Inv(w) && AllLinesOf(w.records, view, lines) && Distinct(lines)
    requires p in w.records && IsGone(view, p) && c in w.records[p] && e in w.records[p] && c != e
    ensures !LinksWentFirst(w, p, Sweep(w, lines, FailingAt(call)))
  {
    hide Sweep, IsNameOf, IsGone, NamesDiffer, LineName, LinePod, AllLinesOf, Distinct, FailingAt;
    hide LinksMatch, HashesDiffer;
    LineNamesAreLinked(w, view, lines);
    var i := LineAt(w.records, view, lines, p, c);
    var j := LineAt(w.records, view, lines, p, e);
    var k := if i < j then j else i;
    SweepUntil(w, lines, k, 0);
    PodIsBefore(lines, if i < j then i else j, k);
    FirstName(lines[k].device);
    call := Calls(lines[..k]);
    var d := w.records[p][lines[k].container];
    assert IsNameOf(d, Link(Id(d.hash, 0)));
  }

  lemma LineNamesAreLinked(w: World, view: View, lines: seq<Line>)
    requires Inv(w) && AllLinesOf(w.records, view, lines) && Distinct(lines)
    ensures NamesDiffer(lines) && forall f :: LineName(lines, f) ==> f in w.links
  {
    hide IsNameOf, IsGone, NamesDiffer, LineName, LinePod, AllLinesOf, Distinct, Implied, GoneName;
    LinesOfRun(w.records, view, lines);
    GoneIsImplied(w.records, view);
  }

  lemma LineAt(records: Records, view: View, lines: seq<Line>, p: Pod, c: string) returns (i: nat)
    requires AllLinesOf(records, view, lines) && Has(records, p, c) && IsGone(view, p)
    ensures i < |lines| && lines[i] == Line(p, c, records[p][c])
  {
    i :| i < |lines| && lines[i] == Line(p, c, records[p][c]);
  }

  lemma PodIsBefore(lines: seq<Line>, i: nat, k: nat)
    requires i < k < |lines|
    ensures LinePod(lines[..k], lines[i].pod)
  {
    assert lines[..k][i] == lines[i];
  }

  // ---- Records that never go ----

  /** For all the links of a line to go, they must all be there. */
  lemma {:induction false} GoneWereThere(links: LinkTable, hash: string, i: nat, n: nat,
                                         deletes: nat -> Syscalls, t: nat)
    requires SweepFrom(links, hash, i, n, deletes, t).1 == LinksGone
    ensures forall j: nat :: i <= j < n ==> Link(Id(hash, j)) in links && Ctl(Id(hash, j)) in links
    decreases n - i
  {
    hide Id, Link, Ctl;
    if i < n {
      GoneWereThere(Deleted(links, Id(hash, i), deletes(t)).0, hash, i + 1, n, deletes, t + 1);
    }
  }

  lemma LinksGoneWereThere(links: LinkTable, d: Devices.Device, deletes: nat -> Syscalls, t: nat)
    requires SweepLinks(links, d, deletes, t).1 == LinksGone
    ensures forall f :: IsNameOf(d, f) ==> f in links
  {
    hide Id, Link, Ctl, SweepFrom, IsName;
    var first := Deleted(links, Id(d.hash, 0), deletes(t)).0;
    NameCases(d.hash, LinkCount(d));
    GoneWereThere(first, d.hash, 1, LinkCount(d), deletes, t + 1);
  }

  /** Some name that the line stands for is not there. */
  ghost predicate Lacking(l: Line, links: LinkTable)
  {
    exists f :: IsNameOf(l.device, f) && f !in links
  }

  lemma LackingLine(w: World, l: Line, fates: Fates, t: nat)
    requires Lacking(l, w.links)
    ensures SweepLine(w, l, fates, t).1 != LinksGone && SweepLine(w, l, fates, t).0.records == w.records
  {
    hide SweepLinks, IsNameOf;
    if SweepLine(w, l, fates, t).1 == LinksGone {
      LinksGoneWereThere(w.links, l.device, fates.deletes, t);
    }
  }

  lemma StillLacking(w: World, l: Line, fates: Fates, t: nat, other: Line)
    requires Lacking(other, w.links)
    ensures Lacking(other, SweepLine(w, l, fates, t).0.links)
  {
    hide SweepLinks, IsNameOf;
    SweepLinksSafe(w.links, l.device, fates.deletes, t);
    var f :| IsNameOf(other.device, f) && f !in w.links;
    assert f !in SweepLine(w, l, fates, t).0.links;
  }

  /** A pod each of whose containers lacks a link keeps its record in every pass,
      whatever fails or does not: what a deletion that stopped halfway, a record
      that could not be deleted, or a link lost to another container has left
      stays for good. */
  lemma {:induction false} LackingKeepsRecord(w: World, lines: seq<Line>, fates: Fates, t: nat, p: Pod)
    requires p in w.records
    requires forall k :: 0 <= k < |lines| && lines[k].pod == p ==> Lacking(lines[k], w.links)
    ensures p in Sweep(w, lines, fates, t).records && Sweep(w, lines, fates, t).records[p] == w.records[p]
    decreases |lines|
  {
    if lines != [] {
      hide SweepLine, Lacking, Sweep;
      var (mid, swept, u) := SweepLine(w, lines[0], fates, t);
      if lines[0].pod == p {
        LackingLine(w, lines[0], fates, t);
      } else {
        LineKeepsOthers(w, lines[0], fates, t, p);
      }
      if swept != FirstStuck {
        forall k | 0 <= k < |lines[1..]| && lines[1..][k].pod == p ensures Lacking(lines[1..][k], mid.links) {
          assert lines[1..][k] == lines[k + 1];
          StillLacking(w, lines[0], fates, t, lines[k + 1]);
        }
        LackingKeepsRecord(mid, lines[1..], fates, u, p);
      }
      SweepStep(w, lines, fates, t);
    } else {
      SweepNothing(w, fates, t);
    }
  }

  lemma LineKeepsOthers(w: World, l: Line, fates: Fates, t: nat, p: Pod)
    requires l.pod != p && p in w.records
    ensures var mid := SweepLine(w, l, fates, t).0; p in mid.records && mid.records[p] == w.records[p]
  {
    hide SweepLinks;
  }

  lemma SweepStep(w: World, lines: seq<Line>, fates: Fates, t: nat)
    requires lines != []
    ensures var (mid, swept, u) := SweepLine(w, lines[0], fates, t);
            Sweep(w, lines, fates, t) == if swept == FirstStuck then mid else Sweep(mid, lines[1..], fates, u)
  {
    hide SweepLine;
  }

  lemma SweepNothing(w: World, fates: Fates, t: nat)
    ensures Sweep(w, [], fates, t) == w
  {
  }

  // ---- Passes that get through ----

  /** The links of every line go. */
  predicate AllGo(w: World, lines: seq<Line>, fates: Fates, t: nat)
    decreases |lines|
  {
    lines == [] ||
    var (mid, swept, u) := SweepLine(w, lines[0], fates, t);
    swept == LinksGone && AllGo(mid, lines[1..], fates, u)
  }

  lemma GoodLineGoesIff(w: World, l: Line, t: nat)
    ensures SweepLine(w, l, GOOD_FATES, t).1 == LinksGone <==> forall f :: IsNameOf(l.device, f) ==> f in w.links
  {
    hide SweepLinks, IsNameOf, CallsFine, LinkCount;
    GoodCallsFine(l.device, t);
    if forall f :: IsNameOf(l.device, f) ==> f in w.links {
      SweepLinksFine(w.links, l.device, GOOD_FATES.deletes, t);
    }
    if SweepLine(w, l, GOOD_FATES, t).1 == LinksGone {
      LinksGoneWereThere(w.links, l.device, GOOD_FATES.deletes, t);
    }
  }

  /** When nothing fails, all links go exactly if they are all there and no name
      belongs to two lines. */
  lemma {:induction false} AllGoIff(w: World, lines: seq<Line>, t: nat)
    ensures AllGo(w, lines, GOOD_FATES, t) <==>
            NamesDiffer(lines) && forall f :: LineName(lines, f) ==> f in w.links
    decreases |lines|
  {
    if lines == [] {
      NoLineNames();
    } else {
      hide *;
      FirstLine(lines);
      FirstLineDiffers(lines);
      GoodLineGoesIff(w, lines[0], t);
      AllGoStep(w, lines, t);
      if SweepLine(w, lines[0], GOOD_FATES, t).1 == LinksGone {
        GoodCallsFine(lines[0].device, t);
        SweepLineFine(w, lines[0], GOOD_FATES, t);
        var (mid, swept, u) := SweepLine(w, lines[0], GOOD_FATES, t);
        AllGoIff(mid, lines[1..], u);
      }
    }
  }

  lemma AllGoStep(w: World, lines: seq<Line>, t: nat)
    requires lines != []
    ensures var (mid, swept, u) := SweepLine(w, lines[0], GOOD_FATES, t);
            AllGo(w, lines, GOOD_FATES, t) <==> swept == LinksGone && AllGo(mid, lines[1..], GOOD_FATES, u)
  {
    hide SweepLine;
  }

  lemma FirstLineDiffers(lines: seq<Line>)
    requires lines != []
    ensures NamesDiffer(lines[1..]) && (forall f :: IsNameOf(lines[0].device, f) ==> !LineName(lines[1..], f)) ==>
              NamesDiffer(lines)
  {
    hide IsNameOf;
    forall j, k, f | 0 <= j < k < |lines| && IsNameOf(lines[j].device, f) && IsNameOf(lines[k].device, f)
      ensures if j == 0 then LineName(lines[1..], f) else !NamesDiffer(lines[1..])
    {
      assert lines[1..][k - 1] == lines[k];
      if j > 0 {
        assert lines[1..][j - 1] == lines[j];
      }
    }
  }

  lemma NamesDifferIff(records: Records, view: View, lines: seq<Line>)
    requires HashLengths(records) && AllLinesOf(records, view, lines) && Distinct(lines)
    ensures NamesDiffer(lines) <==> GoneHashesDiffer(records, view)
  {
    hide IsGone, IsNameOf, AllLinesOf, Distinct, NamesDiffer, LineName, LinePod, HashLengths;
    if GoneHashesDiffer(records, view) {
      LinesOfRun(records, view, lines);
    }
    if NamesDiffer(lines) {
      forall p, c, q, e | Has(records, p, c) && Has(records, q, e) && IsGone(view, p) && IsGone(view, q)
        ensures records[p][c].hash == records[q][e].hash ==> p == q && c == e
      {
        var j := LineAt(records, view, lines, p, c);
        var k := LineAt(records, view, lines, q, e);
        FirstName(lines[j].device);
        FirstName(lines[k].device);
        NamesApart(lines, j, k, Link(Id(records[p][c].hash, 0)));
      }
    }
  }

  lemma NamesApart(lines: seq<Line>, j: nat, k: nat, f: string)
    requires NamesDiffer(lines) && j < |lines| && k < |lines|
    ensures IsNameOf(lines[j].device, f) && IsNameOf(lines[k].device, f) ==> j == k
  {
    hide IsNameOf;
  }

  /** In any state, a pass that meets no failure gets through all of its lines if
      and only if no two containers of gone pods share a hash and all their
      links are there. */
  lemma PassGoesThroughIff(w: World, view: View, lines: seq<Line>)
    requires HashLengths(w.records) && AllLinesOf(w.records, view, lines) && Distinct(lines)
    ensures AllGo(w, lines, GOOD_FATES, 0) <==>
            GoneHashesDiffer(w.records, view) && forall f :: GoneName(w.records, view, f) ==> f in w.links
  {
    hide *;
    AllGoIff(w, lines, 0);
    NamesDifferIff(w.records, view, lines);
    LineNamesAreGone(w.records, view, lines);
  }

  /** No line is of the pod of another. */
  ghost predicate PodsDiffer(lines: seq<Line>)
  {
    forall j, k :: 0 <= j < k < |lines| ==> lines[j].pod != lines[k].pod
  }

  /** A pass that does not get through leaves a line with its record and without
      one of its links. */
  lemma {:induction false} StuckLine(w: World, lines: seq<Line>, t: nat) returns (k: nat, f: string)
    requires !AllGo(w, lines, GOOD_FATES, t) && PodsDiffer(lines)
    requires forall i :: 0 <= i < |lines| ==> lines[i].pod in w.records
    ensures k < |lines| && lines[k].pod in Sweep(w, lines, GOOD_FATES, t).records
    ensures IsNameOf(lines[k].device, f) && f !in Sweep(w, lines, GOOD_FATES, t).links
    decreases |lines|
  {
    hide SweepLine, IsNameOf, Sweep;
    var (mid, swept, u) := SweepLine(w, lines[0], GOOD_FATES, t);
    SweepStep(w, lines, GOOD_FATES, t);
    GoodLineGoesIff(w, lines[0], t);
    if swept == LinksGone {
      forall i | 0 <= i < |lines[1..]| ensures lines[1..][i].pod in mid.records {
        LineKeepsOthers(w, lines[0], GOOD_FATES, t, lines[i + 1].pod);
      }
      k, f := StuckLine(mid, lines[1..], u);
      k := k + 1;
    } else {
      k := 0;
      f :| IsNameOf(lines[0].device, f) && f !in w.links;
      assert Lacking(lines[0], w.links);
      LackingLine(w, lines[0], GOOD_FATES, t);
      LackingKeepsRecord(w, lines, GOOD_FATES, t, lines[0].pod);
      SweepKeepsRest(w, lines, GOOD_FATES, t);
    }
  }

  /** Every pod that is gone has at most one container on record. */
  ghost predicate OneEach(records: Records, view: View)
  {
    forall p, c, e :: IsGone(view, p) && Has(records, p, c) && Has(records, p, e) ==> c == e
  }

  lemma OneLineEach(records: Records, view: View, lines: seq<Line>)
    requires LinesOf(records, view, lines) && Distinct(lines) && OneEach(records, view)
    ensures PodsDiffer(lines) && forall i :: 0 <= i < |lines| ==> lines[i].pod in records
  {
    hide IsGone;
    forall j, k | 0 <= j < k < |lines| ensures lines[j].pod != lines[k].pod {
      assert lines[j] != lines[k];
      assert Has(records, lines[j].pod, lines[j].container) && Has(records, lines[k].pod, lines[k].container);
    }
  }

  /** The records of all pods that are gone have gone. */
  ghost predicate AllCollected(w: World, view: View, after: World)
  {
    forall p :: p in w.records && IsGone(view, p) && w.records[p] != map[] ==> p !in after.records
  }

  /** In any state in which the pods that are gone have one container each: a
      pass that meets no failure collects them all if and only if no two of them
      share a hash and all their links are there. When the links match the
      records, that is if and only if no two of them share a hash. */
  lemma CollectsAllIff(w: World, view: View, lines: seq<Line>)
    requires HashLengths(w.records) && AllLinesOf(w.records, view, lines) && Distinct(lines) && OneEach(w.records, view)
    ensures AllCollected(w, view, Sweep(w, lines, GOOD_FATES)) <==>
            GoneHashesDiffer(w.records, view) && forall f :: GoneName(w.records, view, f) ==> f in w.links
    ensures LinksMatch(w) ==>
              (AllCollected(w, view, Sweep(w, lines, GOOD_FATES)) <==> GoneHashesDiffer(w.records, view))
  {
    hide LinksMatch, HashLengths, AllLinesOf, Distinct, OneEach, Sweep, IsGone, AllGo, GoneName, PodsDiffer, IsNameOf;
    hide GoneHashesDiffer;
    PassGoesThroughIff(w, view, lines);
    if LinksMatch(w) {
      AllNamesAreThere(w, view);
    }
    if AllGo(w, lines, GOOD_FATES, 0) {
      CollectEffect(w, view, lines);
    } else {
      LinesAreLines(w.records, view, lines);
      OneLineEach(w.records, view, lines);
      var k, f := StuckLine(w, lines, 0);
      GoneLine(w.records, view, lines, k);
    }
  }

  lemma LinesAreLines(records: Records, view: View, lines: seq<Line>)
    requires AllLinesOf(records, view, lines)
    ensures LinesOf(records, view, lines)
  {
  }

  lemma GoneLine(records: Records, view: View, lines: seq<Line>, k: nat)
    requires LinesOf(records, view, lines) && k < |lines|
    ensures Has(records, lines[k].pod, lines[k].container) && IsGone(view, lines[k].pod)
    ensures records[lines[k].pod][lines[k].container] == lines[k].device
  {
    hide IsGone;
  }

  lemma AllNamesAreThere(w: World, view: View)
    requires LinksMatch(w)
    ensures forall f :: GoneName(w.records, view, f) ==> f in w.links
  {
    hide Implied, GoneName;
    GoneIsImplied(w.records, view);
  }

  /** With one container each, a pass keeps links and records matched if and only
      if no container of a gone pod shares its hash with any other container. */
  lemma CollectKeepsLinksAloneIff(w: World, view: View, lines: seq<Line>)
    requires LinksMatch(w) && HashLengths(w.records) && OneEach(w.records, view)
    requires AllLinesOf(w.records, view, lines) && Distinct(lines)
    ensures LinksMatch(Apply(w, Collecting(view, lines))) <==>
            GoneHashesDiffer(w.records, view) && !SharedWithGone(w.records, view)
  {
    hide LinksMatch, HashLengths, AllLinesOf, Distinct, OneEach, Sweep, IsGone, AllGo, GoneName, PodsDiffer, IsNameOf;
    hide GoneHashesDiffer, SharedWithGone;
    if GoneHashesDiffer(w.records, view) {
      CollectKeepsLinksIff(w, view, lines);
    } else {
      PassGoesThroughIff(w, view, lines);
      LinesAreLines(w.records, view, lines);
      OneLineEach(w.records, view, lines);
      var k, f := StuckLine(w, lines, 0);
      GoneLine(w.records, view, lines, k);
      SweepKeepsRest(w, lines, GOOD_FATES, 0);
      Unmatched(Apply(w, Collecting(view, lines)), lines[k].pod, lines[k].container, f);
    }
  }

  lemma Unmatched(w: World, p: Pod, c: string, f: string)
    requires Has(w.records, p, c) && IsNameOf(w.records[p][c], f) && f !in w.links
    ensures !LinksMatch(w)
  {
    hide IsNameOf;
    ImpliedBy(w.records, p, c, f);
  }
}
