// The table of symbolic links under /host/dev, the operations of
// pkg/operator/gpushare.go on it, and the names they use. The hook sees the
// same table as /dev.
module Links {
  import opened Text

  /** File name to link target; every target exists. */
  type LinkTable = map<string, string>

  const LINK_PREFIX := "elastic-gpu-"
  const CTL_PREFIX := "elastic-gpuctl-"
  const GPU_PATH := "/dev/nvidia"
  const CTL_PATH := "/dev/nvidiactl"

  function Link(id: string): (name: string)
  {
    LINK_PREFIX + id
  }

  function Ctl(id: string): (name: string)
  {
    CTL_PREFIX + id
  }

  /** "<hash>-<i>" */
  function Id(hash: string, i: nat): (id: string)
  {
    hash + "-" + Itoa(i)
  }

  function GpuPath(index: int): (path: string)
  {
    GPU_PATH + Itoa(index)
  }

  // ---- Names do not collide ----

  lemma LinkIsNotCtl(id: string, other: string)
    ensures Link(id) != Ctl(other)
    ensures !(LINK_PREFIX <= Ctl(other))
  {
    assert Link(id)[11] == '-' && Ctl(other)[11] == 'c' && LINK_PREFIX[11] == '-';
  }

  lemma LinkInjective(a: string, b: string)
    ensures Link(a) == Link(b) <==> a == b
    ensures Ctl(a) == Ctl(b) <==> a == b
  {
    assert Link(a)[12..] == a && Link(b)[12..] == b;
    assert Ctl(a)[15..] == a && Ctl(b)[15..] == b;
  }

  /** Hashes have one length, so ids of different hashes differ. */
  lemma IdInjective(h: string, i: nat, g: string, j: nat)
    requires |h| == |g|
    ensures Id(h, i) == Id(g, j) <==> h == g && i == j
  {
    if Id(h, i) == Id(g, j) {
      assert Id(h, i)[..|h|] == h && Id(g, j)[..|h|] == g;
      assert Id(h, i)[|h| + 1..] == Itoa(i) && Id(g, j)[|h| + 1..] == Itoa(j);
      ItoaInjective(i, j);
    }
  }

  // ---- Create, Delete and Check ----

  /** Whether the operating system lets the first and the second of the two
      calls of an operation succeed. */
  datatype Syscalls = Syscalls(first: bool, second: bool)

  const FINE := Syscalls(true, true)

  /** What Create does to the table, and whether it reports success. Success is
      also reported when a link was there already. */
  function Created(links: LinkTable, index: int, id: string, os: Syscalls): (r: (LinkTable, bool))
  {
    if Link(id) in links then (links, true)
    else if !os.first then (links, false)
    else
      var linked := links[Link(id) := GpuPath(index)];
      if Ctl(id) in linked then (linked, true)
      else if !os.second then (linked, false)
      else (linked[Ctl(id) := CTL_PATH], true)
  }

  /** What Delete does: a link that is not there is an error, and then the
      control link is not touched. */
  function Deleted(links: LinkTable, id: string, os: Syscalls): (r: (LinkTable, bool))
  {
    if Link(id) !in links || !os.first then (links, false)
    else
      var unlinked := links - {Link(id)};
      if Ctl(id) !in unlinked || !os.second then (unlinked, false)
      else (unlinked - {Ctl(id)}, true)
  }

  /** What Check reports. */
  predicate HasPair(links: LinkTable, id: string)
  {
    Link(id) in links && Ctl(id) in links
  }

  /** The entries of a table but for two names. */
  ghost predicate SameBut(before: LinkTable, after: LinkTable, link: string, ctl: string)
  {
    forall f :: f != link && f != ctl ==> (f in before <==> f in after) && (f in before ==> before[f] == after[f])
  }

  /** How the two calls of a creation come out: what is there stays as it is,
      and what is not is made as far as the calls succeed. */
  ghost predicate CreatedAs(link: string, target: string, ctl: string, ctlTarget: string, os: Syscalls,
                            before: LinkTable, after: LinkTable, ok: bool)
  {
    && SameBut(before, after, link, ctl)
    && (link in before || !os.first ==> after == before && (ok <==> link in before))
    && (link !in before && os.first ==>
          && link in after && after[link] == target
          && (ctl in before ==> ok && ctl in after && after[ctl] == before[ctl])
          && (ctl !in before ==> (ok <==> os.second) && (ctl in after <==> os.second) &&
                                 (os.second ==> after[ctl] == ctlTarget)))
  }

  ghost predicate DeletedAs(link: string, ctl: string, os: Syscalls, before: LinkTable, after: LinkTable, ok: bool)
  {
    && SameBut(before, after, link, ctl)
    && (link !in before || !os.first ==> after == before && !ok)
    && (link in before && os.first ==>
          && link !in after
          && (ok <==> ctl in before && os.second)
          && (ctl in after <==> ctl in before && !os.second)
          && (ctl in after ==> after[ctl] == before[ctl]))
  }

  /** In plain names: the link points at the card, its partner at the control
      device. */
  lemma CreatedIs(links: LinkTable, index: int, id: string, os: Syscalls)
    ensures CreatedAs("elastic-gpu-" + id, "/dev/nvidia" + Itoa(index), "elastic-gpuctl-" + id, "/dev/nvidiactl",
                      os, links, Created(links, index, id, os).0, Created(links, index, id, os).1)
  {
    LinkIsNotCtl(id, id);
  }

  lemma DeletedIs(links: LinkTable, id: string, os: Syscalls)
    ensures DeletedAs("elastic-gpu-" + id, "elastic-gpuctl-" + id, os, links,
                      Deleted(links, id, os).0, Deleted(links, id, os).1)
  {
    LinkIsNotCtl(id, id);
  }

  /** The agent's links point at cards, and their partners at the control
      device. */
  ghost predicate ProperTargets(links: LinkTable)
  {
    && (forall id: string :: "elastic-gpu-" + id in links ==> IsCard(links["elastic-gpu-" + id]))
    && (forall id: string :: "elastic-gpuctl-" + id in links ==> links["elastic-gpuctl-" + id] == "/dev/nvidiactl")
  }

  ghost predicate IsCard(target: string)
  {
    exists n: int :: target == "/dev/nvidia" + Itoa(n)
  }

  lemma CreatedKeepsTargets(links: LinkTable, index: int, id: string, os: Syscalls)
    requires ProperTargets(links)
    ensures ProperTargets(Created(links, index, id, os).0)
  {
    hide Created, Itoa;
    CreatedIs(links, index, id, os);
    var after := Created(links, index, id, os).0;
    var link, ctl := "elastic-gpu-" + id, "elastic-gpuctl-" + id;
    assert IsCard("/dev/nvidia" + Itoa(index));
    forall x: string | "elastic-gpu-" + x in after ensures IsCard(after["elastic-gpu-" + x]) {
      NamesInFull(x, id);
    }
    forall x: string | "elastic-gpuctl-" + x in after ensures after["elastic-gpuctl-" + x] == "/dev/nvidiactl" {
      NamesInFull(x, id);
    }
  }

  lemma NamesInFull(x: string, id: string)
    ensures "elastic-gpu-" + x == "elastic-gpu-" + id <==> x == id
    ensures "elastic-gpuctl-" + x == "elastic-gpuctl-" + id <==> x == id
    ensures "elastic-gpu-" + x != "elastic-gpuctl-" + id && "elastic-gpuctl-" + x != "elastic-gpu-" + id
  {
    LinkInjective(x, id);
    LinkIsNotCtl(x, id);
    LinkIsNotCtl(id, x);
  }

  class GPUShareOperator {
    var links: LinkTable

    constructor (table: LinkTable)
      ensures links == table
    {
      links := table;
    }

    method IsExist(path: string) returns (exist: bool)
      ensures exist <==> path in links
    {
      exist := path in links;
    }

    method Create(index: int, id: string, os: Syscalls) returns (ok: bool)
      modifies this
      ensures (links, ok) == Created(old(links), index, id, os)
      ensures CreatedAs("elastic-gpu-" + id, "/dev/nvidia" + Itoa(index), "elastic-gpuctl-" + id, "/dev/nvidiactl",
                        os, old(links), links, ok)
    {
      CreatedIs(links, index, id, os);
      var symLink, symCtlLink := Link(id), Ctl(id);
      var exist := IsExist(symLink);
      if exist {
        return true;
      }
      if !os.first {
        return false;
      }
      links := links[symLink := GpuPath(index)];
      exist := IsExist(symCtlLink);
      if exist {
        return true;
      }
      if !os.second {
        return false;
      }
      links := links[symCtlLink := CTL_PATH];
      return true;
    }

    method Delete(index: int, id: string, os: Syscalls) returns (ok: bool)
      modifies this
      ensures (links, ok) == Deleted(old(links), id, os)
      ensures DeletedAs("elastic-gpu-" + id, "elastic-gpuctl-" + id, os, old(links), links, ok)
    {
      DeletedIs(links, id, os);
      var symLink, symCtlLink := Link(id), Ctl(id);
      if symLink !in links || !os.first {
        return false;
      }
      links := links - {symLink};
      if symCtlLink !in links || !os.second {
        return false;
      }
      links := links - {symCtlLink};
      return true;
    }

    method Check(index: int, id: string) returns (present: bool)
      ensures present <==> "elastic-gpu-" + id in links && "elastic-gpuctl-" + id in links
    {
      present := Link(id) in links && Ctl(id) in links;
    }
  }

  // ---- What one operation undoes and leaves alone ----

  /** Delete undoes Create when the two names were free. */
  lemma DeleteUndoesCreate(links: LinkTable, index: int, id: string)
    requires Link(id) !in links && Ctl(id) !in links
    ensures var (created, ok) := Created(links, index, id, FINE);
            ok && Deleted(created, id, FINE) == (links, true)
  {
    LinkIsNotCtl(id, id);
    var created := links[Link(id) := GpuPath(index)][Ctl(id) := CTL_PATH];
    assert created - {Link(id)} - {Ctl(id)} == links;
  }

  /** After a Create that reports success Check finds the pair, unless the link
      was there already without its partner; after one that fails it never
      does. */
  lemma CheckAfterCreate(links: LinkTable, index: int, id: string, os: Syscalls)
    ensures var (created, ok) := Created(links, index, id, os);
            HasPair(created, id) <==> ok && (Link(id) in links ==> Ctl(id) in links)
  {
    LinkIsNotCtl(id, id);
  }

  /** After a Delete, Check still finds the pair exactly when it was there and
      the first call did not succeed. */
  lemma CheckAfterDelete(links: LinkTable, id: string, os: Syscalls)
    ensures var (deleted, ok) := Deleted(links, id, os);
            && (HasPair(deleted, id) <==> HasPair(links, id) && !os.first)
            && (ok ==> !HasPair(deleted, id))
  {
    LinkIsNotCtl(id, id);
  }

  /** Every link has its control partner, and the other way round. */
  ghost predicate Paired(links: LinkTable)
  {
    forall id :: Link(id) in links <==> Ctl(id) in links
  }

  /** Create keeps links paired exactly when it does not stop between its two
      calls. */
  lemma CreateKeepsPairs(links: LinkTable, index: int, id: string, os: Syscalls)
    requires Paired(links)
    ensures Paired(Created(links, index, id, os).0) <==> Link(id) in links || !os.first || os.second
  {
    LinkIsNotCtl(id, id);
    var created := Created(links, index, id, os).0;
    forall x
      ensures Link(x) in created <==> Link(x) in links || (Link(id) !in links && os.first && x == id)
      ensures Ctl(x) in created <==> Ctl(x) in links || (Link(id) !in links && os.first && os.second && x == id)
    {
      LinkInjective(x, id);
      LinkIsNotCtl(x, id);
      LinkIsNotCtl(id, x);
    }
    assert Link(id) in created <==> Link(id) in links || os.first;
  }

  /** Delete keeps links paired exactly when it does not stop between its two
      calls. */
  lemma DeleteKeepsPairs(links: LinkTable, id: string, os: Syscalls)
    requires Paired(links)
    ensures Paired(Deleted(links, id, os).0) <==> Link(id) !in links || !os.first || os.second
  {
    LinkIsNotCtl(id, id);
    var deleted := Deleted(links, id, os).0;
    forall x
      ensures Link(x) in deleted <==> Link(x) in links && !(Link(id) in links && os.first && x == id)
      ensures Ctl(x) in deleted <==> Ctl(x) in links && !(Link(id) in links && os.first && os.second && x == id)
    {
      LinkInjective(x, id);
      LinkIsNotCtl(x, id);
      LinkIsNotCtl(id, x);
    }
    assert Ctl(id) in deleted <==> Ctl(id) in links && !(os.first && os.second);
  }

  // ---- One link per card of a container ----

  /** The loop of PreStartContainer: a link for every index, in order, until
      one cannot be created. */
  function CreatedAll(links: LinkTable, hash: string, indexes: seq<int>, os: nat -> Syscalls): (r: (LinkTable, bool))
  {
    if indexes == [] then (links, true)
    else
      var n := |indexes| - 1;
      var (before, ok) := CreatedAll(links, hash, indexes[..n], os);
      if !ok then (before, false) else Created(before, indexes[n], Id(hash, n), os(n))
  }

  const ALWAYS_FINE := (call: nat) => FINE

  /** A name of one of the first n links of hash, or of a control partner. */
  ghost predicate IsName(hash: string, n: nat, name: string)
  {
    exists i: nat :: i < n && (name == Link(Id(hash, i)) || name == Ctl(Id(hash, i)))
  }
}
