// Lists of device ids in canonical form, and the names derived from them:
// pkg/types/device.go and the inventories and link names of the plugins.
module Devices {
  import opened Text

  /** The first eight hexadecimal digits of a SHA-256 sum, as a function that
      nothing is assumed about unless a lemma says so. */
  type Hasher = string -> string

  datatype Device = Device(hash: string, list: seq<string>, resourceName: string)

  // ---- sort.Strings ----

  /** The byte order of strings. */
  predicate Le(a: string, b: string)
  {
    a == "" || (b != "" && (a[0] < b[0] || (a[0] == b[0] && Le(a[1..], b[1..]))))
  }

  /** At the first place where they differ a is smaller, or a ends there. */
  lemma {:induction false} LeIsByteOrder(a: string, b: string)
    ensures Le(a, b) <==> exists k :: 0 <= k <= |a| && k <= |b| && a[..k] == b[..k] &&
                                      (k == |a| || (k < |b| && a[k] < b[k]))
  {
    if a == "" {
      assert a[..0] == b[..0];
    } else if b != "" && a[0] == b[0] {
      LeIsByteOrder(a[1..], b[1..]);
      if k :| 0 <= k <= |a[1..]| && k <= |b[1..]| && a[1..][..k] == b[1..][..k] &&
              (k == |a[1..]| || (k < |b[1..]| && a[1..][k] < b[1..][k])) {
        assert a[..k + 1] == [a[0]] + a[1..][..k] && b[..k + 1] == [b[0]] + b[1..][..k];
      }
      if k :| 0 <= k <= |a| && k <= |b| && a[..k] == b[..k] && (k == |a| || (k < |b| && a[k] < b[k])) {
        assert k > 0;
        assert a[1..][..k - 1] == a[..k][1..] && b[1..][..k - 1] == b[..k][1..];
      }
    } else if b != "" {
      assert a[..0] == b[..0];
      if k :| 0 < k <= |a| && k <= |b| && a[..k] == b[..k] {
        assert a[..k][0] == a[0] && b[..k][0] == b[0];
      }
    }
  }

  predicate IsSorted(s: seq<string>)
  {
    forall i, j :: 0 <= i < j < |s| ==> Le(s[i], s[j])
  }

  function Insert(x: string, s: seq<string>): (r: seq<string>)
  {
    if s == [] || Le(x, s[0]) then [x] + s else [s[0]] + Insert(x, s[1..])
  }

  function Sort(s: seq<string>): (r: seq<string>)
  {
    if s == [] then [] else Insert(s[0], Sort(s[1..]))
  }

  lemma {:induction false} LeTotal(a: string, b: string)
    ensures Le(a, b) || Le(b, a)
  {
    if a != "" && b != "" && a[0] == b[0] {
      LeTotal(a[1..], b[1..]);
    }
  }

  lemma {:induction false} LeAntisymmetric(a: string, b: string)
    requires Le(a, b) && Le(b, a)
    ensures a == b
  {
    if a != "" {
      LeAntisymmetric(a[1..], b[1..]);
      assert a == [a[0]] + a[1..] && b == [b[0]] + b[1..];
    }
  }

  lemma {:induction false} LeTransitive(a: string, b: string, c: string)
    requires Le(a, b) && Le(b, c)
    ensures Le(a, c)
  {
    if a != "" && a[0] == b[0] == c[0] {
      LeTransitive(a[1..], b[1..], c[1..]);
    }
  }

  lemma {:induction false} InsertElements(x: string, s: seq<string>)
    ensures multiset(Insert(x, s)) == multiset{x} + multiset(s)
    ensures forall y :: y in Insert(x, s) ==> y == x || y in s
  {
    if s != [] && !Le(x, s[0]) {
      InsertElements(x, s[1..]);
      TailElements(s);
    }
  }

  lemma ConsSorted(x: string, s: seq<string>)
    requires IsSorted(s) && forall y :: y in s ==> Le(x, y)
    ensures IsSorted([x] + s)
  {
  }

  lemma {:induction false} InsertSorted(x: string, s: seq<string>)
    requires IsSorted(s)
    ensures IsSorted(Insert(x, s))
  {
    if s == [] {
    } else if Le(x, s[0]) {
      forall y | y in s ensures Le(x, y) {
        var j :| 0 <= j < |s| && s[j] == y;
        if j > 0 { LeTransitive(x, s[0], y); }
      }
      ConsSorted(x, s);
    } else {
      hide Le;
      LeTotal(x, s[0]);
      InsertSorted(x, s[1..]);
      InsertElements(x, s[1..]);
      ConsSorted(s[0], Insert(x, s[1..]));
    }
  }

  lemma {:induction false} SortSorts(s: seq<string>)
    ensures IsSorted(Sort(s)) && multiset(Sort(s)) == multiset(s)
  {
    if s != [] {
      SortSorts(s[1..]);
      InsertSorted(s[0], Sort(s[1..]));
      InsertElements(s[0], Sort(s[1..]));
      TailElements(s);
    }
  }

  /** A sorted list is determined by its elements. */
  lemma {:induction false} SortedUnique(a: seq<string>, b: seq<string>)
    requires IsSorted(a) && IsSorted(b) && multiset(a) == multiset(b)
    ensures a == b
  {
    SameLength(a, b);
    if a != [] {
      HeadAtMost(a, b);
      HeadAtMost(b, a);
      LeAntisymmetric(a[0], b[0]);
      TailElements(a);
      TailElements(b);
      SortedUnique(a[1..], b[1..]);
    }
  }

  lemma SameLength(a: seq<string>, b: seq<string>)
    requires multiset(a) == multiset(b)
    ensures |a| == |b|
  {
    assert |multiset(a)| == |a| && |multiset(b)| == |b|;
  }

  lemma TailElements(a: seq<string>)
    requires a != []
    ensures a == [a[0]] + a[1..] && multiset(a[1..]) == multiset(a) - multiset{a[0]}
  {
    assert a == [a[0]] + a[1..];
  }

  lemma HeadAtMost(a: seq<string>, b: seq<string>)
    requires IsSorted(a) && multiset(a) == multiset(b) && a != [] && b != []
    ensures Le(a[0], b[0])
  {
    assert b[0] in multiset(a);
    var j :| 0 <= j < |a| && a[j] == b[0];
    LeTotal(a[0], a[0]);
  }

  /** Any sorting algorithm computes Sort, and Sort forgets exactly the order. */
  lemma SortCanonical(a: seq<string>, b: seq<string>)
    ensures Sort(a) == Sort(b) <==> multiset(a) == multiset(b)
    ensures IsSorted(b) && multiset(a) == multiset(b) ==> b == Sort(a)
  {
    SortSorts(a);
    SortSorts(b);
    if multiset(a) == multiset(b) {
      SortedUnique(Sort(a), Sort(b));
      if IsSorted(b) {
        SortedUnique(Sort(a), b);
      }
    }
  }

  // ---- NewDevice and Equals ----

  function NewDevice(hash: Hasher, list: seq<string>, resourceName: string): (d: Device)
  {
    Device(hash(Join(Sort(list), ':')), Sort(list), resourceName)
  }

  /** A device has its ids in byte order, and the hash of these joined with
      colons. */
  lemma NewDeviceIs(hash: Hasher, list: seq<string>, resourceName: string, sorted: seq<string>)
    requires IsSorted(sorted) && multiset(sorted) == multiset(list)
    ensures NewDevice(hash, list, resourceName) == Device(hash(Join(sorted, ':')), sorted, resourceName)
  {
    SortCanonical(list, sorted);
  }

  predicate Equals(d: Device, o: Device)
  {
    d.hash == o.hash && d.list == o.list && d.resourceName == o.resourceName
  }

  /** equals: the comparison of two lists element by element. */
  method EqualLists(a: seq<string>, b: seq<string>) returns (same: bool)
    ensures same <==> a == b
  {
    if |a| != |b| {
      return false;
    }
    for i := 0 to |a|
      invariant a[..i] == b[..i]
    {
      if a[i] != b[i] {
        return false;
      }
    }
    return true;
  }

  /** Two devices are equal exactly when they have the same resource and the
      same ids, each as often, in whatever order they were given. */
  lemma EqualsIffSameIds(hash: Hasher, a: seq<string>, b: seq<string>, r: string, q: string)
    ensures Equals(NewDevice(hash, a, r), NewDevice(hash, b, q)) <==> r == q && multiset(a) == multiset(b)
    ensures multiset(a) == multiset(b) ==> NewDevice(hash, a, r).hash == NewDevice(hash, b, q).hash
  {
    SortCanonical(a, b);
  }

  /** Ids as the plugins make them have no colon: then what is hashed
      determines the ids. */
  lemma HashedTextDeterminesIds(a: seq<string>, b: seq<string>)
    requires a != [] && b != []
    requires forall x :: x in a || x in b ==> ':' !in x
    ensures Join(Sort(a), ':') == Join(Sort(b), ':') <==> multiset(a) == multiset(b)
  {
    SortSorts(a);
    SortSorts(b);
    SortCanonical(a, b);
    SameElements(a);
    SameElements(b);
    if Join(Sort(a), ':') == Join(Sort(b), ':') {
      SplitJoin(Sort(a), ':');
      SplitJoin(Sort(b), ':');
    }
  }

  lemma SameElements(s: seq<string>)
    ensures forall x :: x in Sort(s) <==> x in s
    ensures |Sort(s)| == |s|
  {
    SortSorts(s);
    assert |multiset(s)| == |s| && |multiset(Sort(s))| == |Sort(s)|;
    forall x ensures x in Sort(s) <==> x in s {
      assert x in Sort(s) <==> x in multiset(Sort(s));
      assert x in s <==> x in multiset(s);
    }
  }
}
