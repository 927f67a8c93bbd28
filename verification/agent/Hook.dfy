// The runtime hook, cmd/elastic-gpu-hook/main.go: it finds a container's cards
// by the links the agent made, and hands their indexes on.
module Hook {
  import opened Text
  import opened Links

  /** Whether a directory entry is a link of the given gpu (a hash). */
  predicate IsGpuSymlink(gpu: string, links: LinkTable, file: string)
  {
    file in links && LINK_PREFIX + gpu <= file
  }

  /** The code indexes the third path segment of a target from its seventh
      character on, and panics when there is no such thing. */
  predicate Indexable(target: string)
  {
    |Split(target, '/')| > 2 && |Split(target, '/')[2]| >= 6
  }

  function GPUIndex(target: string): (index: Option<int>)
    requires Indexable(target)
  {
    Atoi(Split(target, '/')[2][6..])
  }

  /** The indexes that the links of gpu stand for, in listing order; a target
      that does not end in a number is passed over. */
  function IndexesIn(gpu: string, links: LinkTable, listing: seq<string>): (indexes: seq<int>)
  {
    if listing == [] then []
    else IndexesOf(gpu, links, listing[0]) + IndexesIn(gpu, links, listing[1..])
  }

  function IndexesOf(gpu: string, links: LinkTable, file: string): (indexes: seq<int>)
  {
    if IsGpuSymlink(gpu, links, file) && Indexable(links[file]) && GPUIndex(links[file]).Some?
    then [GPUIndex(links[file]).value]
    else []
  }

  method FindGPUIndexes(gpu: string, links: LinkTable, devFiles: seq<string>) returns (gpuIndexes: seq<int>)
    requires forall f :: f in devFiles && IsGpuSymlink(gpu, links, f) ==> Indexable(links[f])
    ensures gpuIndexes == IndexesIn(gpu, links, devFiles)
    ensures forall n :: n in gpuIndexes <==> exists f :: f in devFiles && PointsAt(gpu, links, f, n)
  {
    hide Indexable, GPUIndex, IndexesIn, IndexesOf, PointsAt;
    IndexesArePointedAt(gpu, links, devFiles);
    gpuIndexes := [];
    assert devFiles[0..] == devFiles;
    for i := 0 to |devFiles|
      invariant gpuIndexes + IndexesIn(gpu, links, devFiles[i..]) == IndexesIn(gpu, links, devFiles)
    {
      var f := devFiles[i];
      IndexesStep(gpu, links, devFiles, i);
      if IsGpuSymlink(gpu, links, f) {
        assert f in devFiles;
        var gpuIndex := GPUIndex(links[f]);
        if gpuIndex.Some? {
          gpuIndexes := gpuIndexes + [gpuIndex.value];
        }
      }
    }
    NoFiles(gpu, links);
    assert devFiles[|devFiles|..] == [];
  }

  /** The file is a link of gpu whose target has the number n after the first six
      characters of its third segment. */
  predicate PointsAt(gpu: string, links: LinkTable, f: string, n: int)
  {
    f in links && "elastic-gpu-" + gpu <= f &&
    var segments := Split(links[f], '/');
    |segments| > 2 && |segments[2]| >= 6 && Atoi(segments[2][6..]) == Some(n)
  }

  lemma {:induction false} IndexIsPointedAt(gpu: string, links: LinkTable, listing: seq<string>, n: int)
    ensures n in IndexesIn(gpu, links, listing) <==> exists f :: f in listing && PointsAt(gpu, links, f, n)
  {
    if listing != [] {
      hide Split, Atoi;
      IndexIsPointedAt(gpu, links, listing[1..], n);
      assert n in IndexesOf(gpu, links, listing[0]) <==> PointsAt(gpu, links, listing[0], n);
    }
  }

  lemma IndexesArePointedAt(gpu: string, links: LinkTable, listing: seq<string>)
    ensures forall n :: n in IndexesIn(gpu, links, listing) <==> exists f :: f in listing && PointsAt(gpu, links, f, n)
  {
    hide PointsAt, IndexesIn;
    forall n ensures n in IndexesIn(gpu, links, listing) <==> exists f :: f in listing && PointsAt(gpu, links, f, n) {
      IndexIsPointedAt(gpu, links, listing, n);
    }
  }

  lemma NoFiles(gpu: string, links: LinkTable)
    ensures IndexesIn(gpu, links, []) == []
  {
  }

  lemma IndexesStep(gpu: string, links: LinkTable, listing: seq<string>, i: nat)
    requires i < |listing|
    ensures var f := listing[i];
            IndexesIn(gpu, links, listing[i..]) ==
            (if IsGpuSymlink(gpu, links, f) && Indexable(links[f]) && GPUIndex(links[f]).Some?
             then [GPUIndex(links[f]).value] else []) + IndexesIn(gpu, links, listing[i + 1..])
  {
    hide Indexable, GPUIndex, IsGpuSymlink;
    assert listing[i..][1..] == listing[i + 1..];
  }

  // ---- The hook inverts the agent ----

  ghost predicate NoDuplicates(s: seq<string>)
  {
    forall i, j :: 0 <= i < j < |s| ==> s[i] != s[j]
  }

  /** A listing of a directory that holds the links, and perhaps other files,
      each once, in any order. */
  ghost predicate Lists(listing: seq<string>, links: LinkTable)
  {
    NoDuplicates(listing) && forall name :: name in links ==> name in listing
  }

  /** The target the agent gives a link reads back as the card's index. */
  lemma GPUIndexOfPath(index: int)
    requires MIN_INT <= index <= MAX_INT
    ensures Indexable(GpuPath(index)) && GPUIndex(GpuPath(index)) == Some(index)
  {
    hide Split, Atoi, Itoa;
    var last := "nvidia" + Itoa(index);
    PathSegments(Itoa(index));
    ItoaChars(index, '/');
    SplitFree(last, '/');
    SplitAppend("dev", '/', last);
    SplitAppend("", '/', "dev" + ['/'] + last);
    AtoiItoa(index);
  }

  lemma PathSegments(number: string)
    ensures GPU_PATH + number == "" + ['/'] + ("dev" + ['/'] + ("nvidia" + number))
    ensures ("nvidia" + number)[6..] == number
    ensures '/' !in "dev" && '/' !in ""
    ensures '/' !in number ==> '/' !in "nvidia" + number
  {
  }

  /** A link of another hash, or a control link, is none of gpu's links. */
  lemma OtherLinksAreSkipped(gpu: string, hash: string, i: nat)
    requires |gpu| == |hash|
    ensures LINK_PREFIX + gpu <= Link(Id(hash, i)) <==> gpu == hash
    ensures !(LINK_PREFIX + gpu <= Ctl(Id(hash, i)))
  {
    var prefix, link := LINK_PREFIX + gpu, Link(Id(hash, i));
    assert link[..|prefix|] == LINK_PREFIX + hash;
    assert prefix[12..] == gpu && (LINK_PREFIX + hash)[12..] == hash;
    assert prefix[11] == '-' && Ctl(Id(hash, i))[11] == 'c';
  }

  lemma {:induction false} IndexesInConcat(gpu: string, links: LinkTable, a: seq<string>, b: seq<string>)
    ensures IndexesIn(gpu, links, a + b) == IndexesIn(gpu, links, a) + IndexesIn(gpu, links, b)
  {
    if a == [] {
      assert a + b == b;
    } else {
      assert (a + b)[1..] == a[1..] + b;
      IndexesInConcat(gpu, links, a[1..], b);
    }
  }

  /** Only the files that are links of gpu matter. */
  lemma {:induction false} IndexesInSame(gpu: string, links: LinkTable, table: LinkTable, listing: seq<string>)
    requires forall f :: f in listing ==> IndexesOf(gpu, links, f) == IndexesOf(gpu, table, f)
    ensures IndexesIn(gpu, links, listing) == IndexesIn(gpu, table, listing)
  {
    if listing != [] {
      IndexesInSame(gpu, links, table, listing[1..]);
    }
  }

  lemma {:induction false} NothingMatches(gpu: string, links: LinkTable, listing: seq<string>)
    requires forall f :: f in links ==> !(LINK_PREFIX + gpu <= f)
    ensures IndexesIn(gpu, links, listing) == []
  {
    if listing != [] {
      NothingMatches(gpu, links, listing[1..]);
    }
  }

  /** The links of hash in the table are those of the indexes, and no others. */
  ghost predicate HasLinks(table: LinkTable, hash: string, indexes: seq<int>)
  {
    && (forall i: nat :: i < |indexes| ==>
          Link(Id(hash, i)) in table && table[Link(Id(hash, i))] == GpuPath(indexes[i]))
    && (forall f :: f in table && LINK_PREFIX + hash <= f ==> exists i: nat :: i < |indexes| && f == Link(Id(hash, i)))
  }

  /** What the agent's loop leaves in the table when nothing fails. */
  lemma {:induction false} CreatedAllLinks(links: LinkTable, hash: string, indexes: seq<int>)
    requires forall f :: f in links ==> !(LINK_PREFIX + hash <= f)
    ensures CreatedAll(links, hash, indexes, ALWAYS_FINE).1
    ensures HasLinks(CreatedAll(links, hash, indexes, ALWAYS_FINE).0, hash, indexes)
  {
    if indexes != [] {
      CreatedAllLinks(links, hash, indexes[..|indexes| - 1]);
      CreatedNext(CreatedAll(links, hash, indexes[..|indexes| - 1], ALWAYS_FINE).0, hash, indexes, FINE);
    }
  }

  /** The same whatever fails, if the loop comes to its end. */
  lemma {:induction false} CreatedLinks(links: LinkTable, hash: string, indexes: seq<int>, os: nat -> Syscalls)
    requires forall f :: f in links ==> !(LINK_PREFIX + hash <= f)
    ensures CreatedAll(links, hash, indexes, os).1 ==> HasLinks(CreatedAll(links, hash, indexes, os).0, hash, indexes)
  {
    if indexes != [] {
      hide Created, Id;
      var n := |indexes| - 1;
      CreatedLinks(links, hash, indexes[..n], os);
      if CreatedAll(links, hash, indexes[..n], os).1 {
        CreatedNext(CreatedAll(links, hash, indexes[..n], os).0, hash, indexes, os(n));
      }
    }
  }

  lemma CreatedNext(before: LinkTable, hash: string, indexes: seq<int>, os: Syscalls)
    requires indexes != [] && HasLinks(before, hash, indexes[..|indexes| - 1])
    ensures var n := |indexes| - 1;
            var (table, ok) := Created(before, indexes[n], Id(hash, n), os);
            && (os == FINE ==> ok) && (ok ==> HasLinks(table, hash, indexes))
  {
    hide Link, Ctl, Id, GpuPath;
    var n := |indexes| - 1;
    var (table, ok) := Created(before, indexes[n], Id(hash, n), os);
    if !ok {
      return;
    }
    FreshId(hash, n, before);
    LinkIsNotCtl(Id(hash, n), Id(hash, n));
    OtherLinksAreSkipped(hash, hash, n);
    forall i: nat | i < n
      ensures Link(Id(hash, i)) in table && table[Link(Id(hash, i))] == GpuPath(indexes[i])
    {
      IdInjective(hash, i, hash, n);
      LinkInjective(Id(hash, i), Id(hash, n));
      LinkIsNotCtl(Id(hash, i), Id(hash, n));
    }
    forall f | f in table && LINK_PREFIX + hash <= f
      ensures exists i: nat :: i < |indexes| && f == Link(Id(hash, i))
    {
      if f in before {
        var i: nat :| i < n && f == Link(Id(hash, i));
      }
    }
  }

  lemma FreshId(hash: string, n: nat, table: LinkTable)
    requires forall f :: f in table && LINK_PREFIX + hash <= f ==> exists i: nat :: i < n && f == Link(Id(hash, i))
    ensures Link(Id(hash, n)) !in table
  {
    OtherLinksAreSkipped(hash, hash, n);
    if Link(Id(hash, n)) in table {
      var i: nat :| i < n && Link(Id(hash, n)) == Link(Id(hash, i));
      LinkInjective(Id(hash, n), Id(hash, i));
      IdInjective(hash, n, hash, i);
    }
  }

  /** A table whose links of a hash are those of the indexes: the hook finds
      exactly these indexes, each as often, whatever other links there are and
      in whatever order the directory is listed. */
  lemma {:induction false} HookFindsLinks(table: LinkTable, hash: string, indexes: seq<int>, listing: seq<string>)
    requires HasLinks(table, hash, indexes)
    requires forall i :: 0 <= i < |indexes| ==> MIN_INT <= indexes[i] <= MAX_INT
    requires Lists(listing, table)
    ensures multiset(IndexesIn(hash, table, listing)) == multiset(indexes)
    decreases |indexes|
  {
    hide *;
    if indexes == [] {
      NoLinks(table, hash);
      NothingMatches(hash, table, listing);
    } else {
      var n := |indexes| - 1;
      var name := Link(Id(hash, n));
      var before := table - {name};
      OneLinkLess(table, hash, indexes);
      var p := PositionIn(listing, table, name);
      var a, b := listing[..p], listing[p + 1..];
      Removed(listing, p, before, table, hash, n);
      HookFindsLinks(before, hash, indexes[..n], a + b);
      OthersUnchanged(table, hash, name, a + b);
      IndexesInMiddle(hash, table, a, name, b);
      LinkReadsBack(table, hash, indexes, n);
      assert indexes == indexes[..n] + [indexes[n]];
      assert listing == a + [name] + b;
    }
  }

  lemma NoLinks(table: LinkTable, hash: string)
    requires HasLinks(table, hash, [])
    ensures forall f :: f in table ==> !(LINK_PREFIX + hash <= f)
  {
  }

  lemma OneLinkLess(table: LinkTable, hash: string, indexes: seq<int>)
    requires indexes != [] && HasLinks(table, hash, indexes)
    ensures var n := |indexes| - 1;
            var before := table - {Link(Id(hash, n))};
            && HasLinks(before, hash, indexes[..n]) && Link(Id(hash, n)) in table
            && before.Keys <= table.Keys && Link(Id(hash, n)) !in before
  {
    hide Link, Id, GpuPath;
    var n := |indexes| - 1;
    forall i: nat | i < n ensures Link(Id(hash, i)) != Link(Id(hash, n)) {
      IdInjective(hash, i, hash, n);
      LinkInjective(Id(hash, i), Id(hash, n));
    }
  }

  lemma PositionIn(listing: seq<string>, table: LinkTable, name: string) returns (p: nat)
    requires Lists(listing, table) && name in table
    ensures p < |listing| && listing[p] == name
  {
    p :| p < |listing| && listing[p] == name;
  }

  lemma IndexesInMiddle(gpu: string, links: LinkTable, a: seq<string>, f: string, b: seq<string>)
    ensures multiset(IndexesIn(gpu, links, a + [f] + b)) ==
            multiset(IndexesIn(gpu, links, a + b)) + multiset(IndexesIn(gpu, links, [f]))
  {
    hide IndexesIn;
    IndexesInConcat(gpu, links, a + [f], b);
    IndexesInConcat(gpu, links, a, [f]);
    IndexesInConcat(gpu, links, a, b);
  }

  /** The listing without one link lists the table without it. */
  lemma Removed(listing: seq<string>, p: nat, before: LinkTable, table: LinkTable, hash: string, n: nat)
    requires Lists(listing, table) && p < |listing| && listing[p] == Link(Id(hash, n))
    requires before.Keys <= table.Keys && listing[p] !in before
    ensures Lists(listing[..p] + listing[p + 1..], before)
    ensures listing[p] !in listing[..p] + listing[p + 1..]
  {
    hide Link, Id;
    var rest := listing[..p] + listing[p + 1..];
    assert forall i :: 0 <= i < |rest| ==> rest[i] == listing[if i < p then i else i + 1];
    forall name | name in before ensures name in rest {
      var q :| 0 <= q < |listing| && listing[q] == name;
      assert rest[if q < p then q else q - 1] == name;
    }
  }

  lemma OthersUnchanged(table: LinkTable, hash: string, name: string, rest: seq<string>)
    requires name !in rest
    ensures IndexesIn(hash, table, rest) == IndexesIn(hash, table - {name}, rest)
  {
    IndexesInSame(hash, table, table - {name}, rest);
  }

  lemma LinkReadsBack(table: LinkTable, hash: string, indexes: seq<int>, n: nat)
    requires HasLinks(table, hash, indexes) && n < |indexes| && MIN_INT <= indexes[n] <= MAX_INT
    ensures IndexesIn(hash, table, [Link(Id(hash, n))]) == [indexes[n]]
  {
    OtherLinksAreSkipped(hash, hash, n);
    GPUIndexOfPath(indexes[n]);
  }

  /** Starting with no link of this hash, whatever other links there are, after
      the agent has made a link for every index the hook finds exactly these
      indexes. */
  lemma HookFindsWhatAgentMade(links: LinkTable, hash: string, indexes: seq<int>, listing: seq<string>)
    requires forall f :: f in links ==> !(LINK_PREFIX + hash <= f)
    requires forall i :: 0 <= i < |indexes| ==> MIN_INT <= indexes[i] <= MAX_INT
    requires Lists(listing, CreatedAll(links, hash, indexes, ALWAYS_FINE).0)
    ensures multiset(IndexesIn(hash, CreatedAll(links, hash, indexes, ALWAYS_FINE).0, listing)) == multiset(indexes)
  {
    hide *;
    CreatedAllLinks(links, hash, indexes);
    HookFindsLinks(CreatedAll(links, hash, indexes, ALWAYS_FINE).0, hash, indexes, listing);
  }

  /** And the hook meets no target that it cannot index. */
  lemma LinksAreIndexable(table: LinkTable, hash: string, indexes: seq<int>)
    requires HasLinks(table, hash, indexes)
    requires forall i :: 0 <= i < |indexes| ==> MIN_INT <= indexes[i] <= MAX_INT
    ensures forall f :: IsGpuSymlink(hash, table, f) ==> Indexable(table[f])
  {
    forall f | IsGpuSymlink(hash, table, f) ensures Indexable(table[f]) {
      var i: nat :| i < |indexes| && f == Link(Id(hash, i));
      GPUIndexOfPath(indexes[i]);
    }
  }

  // ---- Handing the indexes on ----

  /** The argument of the container toolkit: the indexes, comma-separated. */
  function Argument(indexes: seq<int>): (arg: string)
  {
    Join(seq(|indexes|, i requires 0 <= i < |indexes| => Itoa(indexes[i])), ',')
  }

  method JoinIndexes(gpuIndexes: seq<int>) returns (arg: string)
    ensures arg == Argument(gpuIndexes)
  {
    var ids: seq<string> := [];
    for i := 0 to |gpuIndexes|
      invariant |ids| == i && forall j :: 0 <= j < i ==> ids[j] == Itoa(gpuIndexes[j])
    {
      ids := ids + [Itoa(gpuIndexes[i])];
    }
    assert ids == seq(|gpuIndexes|, i requires 0 <= i < |gpuIndexes| => Itoa(gpuIndexes[i]));
    arg := Join(ids, ',');
  }

  /** The command of the prestart hook: without indexes it has no argument of its
      own. */
  method PrestartCommand(gpuIndexes: seq<int>) returns (command: seq<string>)
    ensures gpuIndexes == [] ==> command == ["/usr/bin/nvidia-container-toolkit", "prestart"]
    ensures gpuIndexes != [] ==>
              |command| == 3 && command[..2] == ["/usr/bin/nvidia-container-toolkit", "prestart"] &&
              command[2] == Join(seq(|gpuIndexes|, i requires 0 <= i < |gpuIndexes| => Itoa(gpuIndexes[i])), ',')
  {
    if |gpuIndexes| > 0 {
      var arg := JoinIndexes(gpuIndexes);
      return ["/usr/bin/nvidia-container-toolkit", "prestart", arg];
    }
    return ["/usr/bin/nvidia-container-toolkit", "prestart"];
  }

  /** The numbers of a comma-separated list, or nothing if one is not a number:
      how PreStartContainer reads a container's annotation. */
  function ParseIndexes(val: string): (indexes: Option<seq<int>>)
  {
    AtoiAll(Split(val, ','))
  }

  function AtoiAll(ids: seq<string>): (indexes: Option<seq<int>>)
  {
    if ids == [] then Some([])
    else
      var first, rest := Atoi(ids[0]), AtoiAll(ids[1..]);
      if first.None? || rest.None? then None else Some([first.value] + rest.value)
  }

  /** The argument reads back, by the rule for annotations, as the indexes. */
  lemma ArgumentReadsBack(indexes: seq<int>)
    requires indexes != []
    requires forall i :: 0 <= i < |indexes| ==> MIN_INT <= indexes[i] <= MAX_INT
    ensures ParseIndexes(Argument(indexes)) == Some(indexes)
  {
    var ids := seq(|indexes|, i requires 0 <= i < |indexes| => Itoa(indexes[i]));
    forall p | p in ids ensures ',' !in p {
      var i :| 0 <= i < |ids| && ids[i] == p;
      ItoaChars(indexes[i], ',');
    }
    SplitJoin(ids, ',');
    AtoiAllItoa(ids, indexes);
  }

  lemma {:induction false} AtoiAllItoa(ids: seq<string>, indexes: seq<int>)
    requires |ids| == |indexes| && forall i :: 0 <= i < |ids| ==> ids[i] == Itoa(indexes[i])
    requires forall i :: 0 <= i < |indexes| ==> MIN_INT <= indexes[i] <= MAX_INT
    ensures AtoiAll(ids) == Some(indexes)
  {
    if ids != [] {
      hide Atoi, Itoa, AtoiAll;
      AtoiItoa(indexes[0]);
      AtoiAllItoa(ids[1..], indexes[1..]);
      AtoiAllCons(ids, indexes[0], indexes[1..]);
      assert indexes == [indexes[0]] + indexes[1..];
    }
  }

  lemma AtoiAllCons(ids: seq<string>, first: int, rest: seq<int>)
    requires ids != [] && Atoi(ids[0]) == Some(first) && AtoiAll(ids[1..]) == Some(rest)
    ensures AtoiAll(ids) == Some([first] + rest)
  {
    hide Atoi;
  }
}
