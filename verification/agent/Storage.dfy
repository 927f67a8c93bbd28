// pkg/storage/storage.go and pkg/types/pod.go: a bucket of bytes that is meant
// to be a map from pods to the devices of their containers.
module Storage {
  import opened Text
  import opened Devices

  datatype Pod = Pod(namespace: string, name: string)

  type DeviceMap = map<string, Device>

  datatype PodInfo = PodInfo(pod: Pod, containerDeviceMap: DeviceMap)

  // ---- path.Join ----

  /** One step of path.Clean over the segments of a path. */
  function CleanSegment(rooted: bool, out: seq<string>, segment: string): (r: seq<string>)
  {
    if segment == "" || segment == "." then out
    else if segment != ".." then out + [segment]
    else if out != [] && out[|out| - 1] != ".." then out[..|out| - 1]
    else if rooted then out
    else out + [".."]
  }

  function CleanSegments(rooted: bool, out: seq<string>, segments: seq<string>): (r: seq<string>)
    decreases |segments|
  {
    if segments == [] then out
    else CleanSegments(rooted, CleanSegment(rooted, out, segments[0]), segments[1..])
  }

  function Clean(path: string): (r: string)
  {
    if path == "" then "."
    else
      var rooted := path[0] == '/';
      var out := Join(CleanSegments(rooted, [], Split(path, '/')), '/');
      if rooted then "/" + out else if out == "" then "." else out
  }

  /** path.Join of two elements. */
  function PathJoin(a: string, b: string): (r: string)
  {
    if a != "" then Clean(a + "/" + b) else if b != "" then Clean(b) else ""
  }

  /** No segment is empty, "." or has a slash, and ".." comes at the front only,
      and only in a path that does not start at the root. */
  predicate AreClean(rooted: bool, out: seq<string>)
  {
    forall i :: 0 <= i < |out| ==>
      && out[i] != "" && out[i] != "." && '/' !in out[i]
      && (out[i] == ".." ==> !rooted && forall j :: 0 <= j < i ==> out[j] == "..")
  }

  lemma {:induction false} SegmentsAreClean(rooted: bool, out: seq<string>, segments: seq<string>)
    requires AreClean(rooted, out) && forall s :: s in segments ==> '/' !in s
    ensures AreClean(rooted, CleanSegments(rooted, out, segments))
    decreases |segments|
  {
    if segments != [] {
      assert segments[0] in segments;
      SegmentsAreClean(rooted, CleanSegment(rooted, out, segments[0]), segments[1..]);
    }
  }

  /** A cleaned path consists of such segments with single slashes between, and
      starts at the root exactly if the path did. */
  lemma CleanIsClean(path: string) returns (out: seq<string>)
    requires path != ""
    ensures AreClean(path[0] == '/', out)
    ensures Clean(path) == if path[0] == '/' then "/" + Join(out, '/') else if out == [] then "." else Join(out, '/')
  {
    hide CleanSegments;
    SplitParts(path, '/');
    SegmentsAreClean(path[0] == '/', [], Split(path, '/'));
    out := CleanSegments(path[0] == '/', [], Split(path, '/'));
    if out != [] {
      assert out[0] != "" && Join(out, '/') != "";
    }
  }

  // ---- Keys and values ----

  /** PodInfo.Key, the key under which a record is saved and loaded. */
  function Key(pod: Pod): (key: string)
  {
    PathJoin(pod.namespace, pod.name)
  }

  /** The key under which Delete looks for a record. */
  function DeleteKey(pod: Pod): (key: string)
  {
    pod.namespace + "/" + pod.name
  }

  /** The pod that a key is read back as. */
  function PodOfKey(key: string): (pod: Option<Pod>)
  {
    var arr := Split(key, '/');
    if |arr| != 2 then None else Some(Pod(arr[0], arr[1]))
  }

  predicate PlainSegment(s: string)
  {
    s != "" && '/' !in s && s != "." && s != ".."
  }

  predicate Plain(pod: Pod)
  {
    PlainSegment(pod.namespace) && PlainSegment(pod.name)
  }

  /** A pod's key reads back as the pod exactly when its two names are
      non-empty, free of slashes and not ".", and ".." is the name only under
      the namespace "..". */
  lemma KeyReadsBackIff(pod: Pod)
    ensures PodOfKey(Key(pod)) == Some(pod) <==>
            && pod.namespace != "" && pod.name != "" && '/' !in pod.namespace && '/' !in pod.name
            && pod.namespace != "." && pod.name != "."
            && (pod.name == ".." ==> pod.namespace == "..")
  {
    var ns, name := pod.namespace, pod.name;
    if '/' in ns || '/' in name {
      SplitParts(Key(pod), '/');
    } else {
      KeyOfSlashFree(pod);
      if ns == "" {
        SplitKeyOf([name]);
      } else {
        SplitKeyOf([ns]);
        SplitKeyOf([name]);
        SplitKeyOf([ns, name]);
      }
      SplitFree(".", '/');
      SplitFree("", '/');
    }
  }

  lemma SplitKeyOf(out: seq<string>)
    requires out != [] && forall p :: p in out ==> '/' !in p
    ensures Split(Join(out, '/'), '/') == out
  {
    SplitJoin(out, '/');
  }

  /** The key of a pod whose names have no slash, case by case. */
  lemma KeyOfSlashFree(pod: Pod)
    requires '/' !in pod.namespace && '/' !in pod.name
    ensures var out := CleanSegment(false, CleanSegment(false, [], pod.namespace), pod.name);
            Key(pod) == if pod.namespace == "" && pod.name == "" then ""
                        else if Join(out, '/') == "" then "." else Join(out, '/')
  {
    var ns, name := pod.namespace, pod.name;
    if ns != "" {
      var path := ns + "/" + name;
      SplitFree(name, '/');
      SplitAppend(ns, '/', name);
      assert path == ns + ['/'] + name;
      assert path[0] == ns[0] && ns[0] != '/';
      TwoSegments(ns, name);
    } else if name != "" {
      SplitFree(name, '/');
      assert name[0] != '/';
      OneSegment(name);
    }
  }

  lemma TwoSegments(a: string, b: string)
    ensures CleanSegments(false, [], [a, b]) == CleanSegment(false, CleanSegment(false, [], a), b)
  {
    var out := CleanSegment(false, [], a);
    assert [a, b][1..] == [b] && [b][1..] == [];
    assert CleanSegments(false, out, [b]) == CleanSegments(false, CleanSegment(false, out, b), []);
  }

  lemma OneSegment(b: string)
    ensures CleanSegments(false, [], [b]) == CleanSegment(false, [], b)
  {
    assert [b][1..] == [];
  }

  /** For such a pod, and so for every plain one, Delete uses the key that Save
      used. */
  lemma DeleteKeyAgrees(pod: Pod)
    requires PodOfKey(Key(pod)) == Some(pod)
    ensures DeleteKey(pod) == Key(pod) == pod.namespace + "/" + pod.name
  {
    JoinSplit(Key(pod), '/');
  }

  lemma {:induction false} JoinSplit(s: string, sep: char)
    ensures Join(Split(s, sep), sep) == s
  {
    if s != "" {
      JoinSplit(s[1..], sep);
      assert s == [s[0]] + s[1..];
    }
  }

  lemma PlainKey(pod: Pod)
    requires Plain(pod)
    ensures PodOfKey(Key(pod)) == Some(pod) && DeleteKey(pod) == Key(pod) == pod.namespace + "/" + pod.name
  {
    KeyReadsBackIff(pod);
    DeleteKeyAgrees(pod);
  }

  // ---- The bucket as a map from pods ----

  /** Marshalling and unmarshalling of a record as JSON. */
  datatype Json = Json(marshal: DeviceMap -> string, unmarshal: string -> Option<DeviceMap>)

  ghost predicate Inverse(json: Json)
  {
    forall m: DeviceMap :: json.unmarshal(json.marshal(m)) == Some(m)
  }

  type Bucket = map<string, string>
  type Records = map<Pod, DeviceMap>

  /** The bucket holds exactly the records, each under its pod's key. */
  ghost predicate Represents(json: Json, bucket: Bucket, records: Records)
  {
    && (forall p :: p in records ==> Plain(p) && Key(p) in bucket && bucket[Key(p)] == json.marshal(records[p]))
    && (forall k :: k in bucket ==> exists p :: p in records && Key(p) == k)
  }

  lemma KeyInjective(p: Pod, q: Pod)
    requires Plain(p) && Plain(q)
    ensures Key(p) == Key(q) <==> p == q
  {
    PlainKey(p);
    PlainKey(q);
  }

  lemma SaveRefines(json: Json, bucket: Bucket, records: Records, pod: Pod, m: DeviceMap)
    requires Represents(json, bucket, records) && Plain(pod)
    ensures Represents(json, bucket[Key(pod) := json.marshal(m)], records[pod := m])
  {
    var b, r := bucket[Key(pod) := json.marshal(m)], records[pod := m];
    forall p | p in r
      ensures Plain(p) && Key(p) in b && b[Key(p)] == json.marshal(r[p])
    {
      KeyInjective(p, pod);
    }
    forall k | k in b ensures exists p :: p in r && Key(p) == k {
      if k == Key(pod) {
        assert pod in r;
      } else {
        var p :| p in records && Key(p) == k;
        assert p in r;
      }
    }
  }

  lemma DeleteRefines(json: Json, bucket: Bucket, records: Records, pod: Pod)
    requires Represents(json, bucket, records) && Plain(pod)
    ensures Represents(json, bucket - {DeleteKey(pod)}, records - {pod})
  {
    PlainKey(pod);
    var b, r := bucket - {Key(pod)}, records - {pod};
    forall p | p in r
      ensures Plain(p) && Key(p) in b && b[Key(p)] == json.marshal(r[p])
    {
      KeyInjective(p, pod);
    }
    forall k | k in b ensures exists p :: p in r && Key(p) == k {
      var p :| p in records && Key(p) == k;
      assert p in r;
    }
  }

  lemma LoadRefines(json: Json, bucket: Bucket, records: Records, pod: Pod)
    requires Inverse(json) && Represents(json, bucket, records) && Plain(pod)
    ensures Key(pod) in bucket <==> pod in records
    ensures pod in records ==> json.unmarshal(bucket[Key(pod)]) == Some(records[pod])
  {
    if Key(pod) in bucket {
      var p :| p in records && Key(p) == Key(pod);
      KeyInjective(p, pod);
    }
  }

  // ---- Any sequence of operations ----

  datatype Operation = Save(pod: Pod, containerDeviceMap: DeviceMap) | Delete(pod: Pod)

  function OnBucket(json: Json, bucket: Bucket, ops: seq<Operation>): (b: Bucket)
    decreases |ops|
  {
    if ops == [] then bucket
    else match ops[0]
      case Save(pod, m) => OnBucket(json, bucket[Key(pod) := json.marshal(m)], ops[1..])
      case Delete(pod) => OnBucket(json, bucket - {DeleteKey(pod)}, ops[1..])
  }

  function OnRecords(records: Records, ops: seq<Operation>): (r: Records)
    decreases |ops|
  {
    if ops == [] then records
    else match ops[0]
      case Save(pod, m) => OnRecords(records[pod := m], ops[1..])
      case Delete(pod) => OnRecords(records - {pod}, ops[1..])
  }

  /** After any operations on plain pods the bucket still holds exactly what a
      map from pods would hold, so loading and iterating see that map. */
  lemma {:induction false} StorageIsAMap(json: Json, bucket: Bucket, records: Records, ops: seq<Operation>)
    requires Represents(json, bucket, records)
    requires forall i :: 0 <= i < |ops| ==> Plain(ops[i].pod)
    ensures Represents(json, OnBucket(json, bucket, ops), OnRecords(records, ops))
    decreases |ops|
  {
    if ops != [] {
      hide Represents, Key, DeleteKey;
      assert Plain(ops[0].pod);
      match ops[0]
      case Save(pod, m) =>
        SaveRefines(json, bucket, records, pod, m);
        StorageIsAMap(json, bucket[Key(pod) := json.marshal(m)], records[pod := m], ops[1..]);
      case Delete(pod) =>
        DeleteRefines(json, bucket, records, pod);
        StorageIsAMap(json, bucket - {DeleteKey(pod)}, records - {pod}, ops[1..]);
    }
  }

  // ---- The storage object ----

  /** NewPIFromRaw */
  function NewPIFromRaw(json: Json, key: string, val: string): (info: Option<PodInfo>)
  {
    var pod := PodOfKey(key);
    if pod.None? then None
    else
      var m := json.unmarshal(val);
      if m.None? then None else Some(PodInfo(pod.value, m.value))
  }

  /** The key is namespace, slash and name of the pod, and the value its
      devices. */
  predicate IsEntry(json: Json, key: string, val: string, info: PodInfo)
  {
    Split(key, '/') == [info.pod.namespace, info.pod.name] && json.unmarshal(val) == Some(info.containerDeviceMap)
  }

  /** The devices that are read back for a pod, if its key has a value that can
      be read. */
  function Stored(json: Json, bucket: Bucket, pod: Pod): (m: Option<DeviceMap>)
  {
    if Key(pod) in bucket then json.unmarshal(bucket[Key(pod)]) else None
  }

  class BoltStorage {
    const json: Json
    var bucket: Bucket
    /** What the bucket stands for, as long as all pods are plain. */
    ghost var records: Records

    ghost predicate Valid()
      reads this
    {
      Inverse(json) && Represents(json, bucket, records)
    }

    constructor (json: Json)
      requires Inverse(json)
      ensures Valid() && records == map[] && this.json == json
    {
      this.json, bucket, records := json, map[], map[];
    }

    /** commits says whether the database transaction succeeds. */
    method Save(info: PodInfo, commits: bool) returns (ok: bool)
      modifies this
      ensures ok == commits
      ensures bucket == if ok then old(bucket)[Key(info.pod) := json.marshal(info.containerDeviceMap)] else old(bucket)
      ensures records == if ok then old(records)[info.pod := info.containerDeviceMap] else old(records)
      ensures old(Valid()) && Plain(info.pod) ==> Valid()
      ensures ok && Plain(info.pod) ==>
                bucket == old(bucket)[info.pod.namespace + "/" + info.pod.name := json.marshal(info.containerDeviceMap)]
    {
      if Plain(info.pod) {
        PlainKey(info.pod);
      }
      ghost var wasValid := Valid();
      if wasValid && Plain(info.pod) {
        SaveRefines(json, bucket, records, info.pod, info.containerDeviceMap);
      }
      if commits {
        bucket := bucket[Key(info.pod) := json.marshal(info.containerDeviceMap)];
        records := records[info.pod := info.containerDeviceMap];
      }
      ok := commits;
    }

    method Load(pod: Pod) returns (info: Option<PodInfo>)
      ensures info.Some? <==> Key(pod) in bucket && json.unmarshal(bucket[Key(pod)]).Some?
      ensures info.Some? ==> info.value == PodInfo(pod, json.unmarshal(bucket[Key(pod)]).value)
      ensures Valid() && Plain(pod) ==>
                info == if pod in records then Some(PodInfo(pod, records[pod])) else None
    {
      if Valid() && Plain(pod) {
        LoadRefines(json, bucket, records, pod);
      }
      if Key(pod) !in bucket {
        return None;
      }
      var m := json.unmarshal(bucket[Key(pod)]);
      if m.None? {
        return None;
      }
      return Some(PodInfo(pod, m.value));
    }

    method LoadOrCreate(pod: Pod) returns (info: PodInfo)
      ensures info == PodInfo(pod, if Stored(json, bucket, pod).Some? then Stored(json, bucket, pod).value else map[])
      ensures Valid() && Plain(pod) ==>
                info.containerDeviceMap == if pod in records then records[pod] else map[]
    {
      var loaded := Load(pod);
      if loaded.Some? {
        return loaded.value;
      }
      return PodInfo(pod, map[]);
    }

    method Delete(pod: Pod, commits: bool) returns (ok: bool)
      modifies this
      ensures ok == commits
      ensures bucket == if ok then old(bucket) - {DeleteKey(pod)} else old(bucket)
      ensures ok ==> bucket == old(bucket) - {pod.namespace + "/" + pod.name}
      ensures records == if ok then old(records) - {pod} else old(records)
      ensures old(Valid()) && Plain(pod) ==> Valid()
    {
      ghost var wasValid := Valid();
      if wasValid && Plain(pod) {
        DeleteRefines(json, bucket, records, pod);
      }
      if commits {
        bucket := bucket - {DeleteKey(pod)};
        records := records - {pod};
      }
      ok := commits;
    }

    /** The records that ForEach hands to its callback, in the order of the
        keys; it stops at the first entry that is not a record. */
    method ForEach(keys: seq<string>) returns (infos: seq<PodInfo>, ok: bool)
      requires forall k :: k in keys ==> k in bucket
      ensures |infos| <= |keys| && (ok <==> |infos| == |keys|)
      ensures forall i :: 0 <= i < |infos| ==> NewPIFromRaw(json, keys[i], bucket[keys[i]]) == Some(infos[i])
      ensures !ok ==> NewPIFromRaw(json, keys[|infos|], bucket[keys[|infos|]]).None?
      ensures forall i :: 0 <= i < |infos| ==> IsEntry(json, keys[i], bucket[keys[i]], infos[i])
      ensures !ok ==> forall info :: !IsEntry(json, keys[|infos|], bucket[keys[|infos|]], info)
    {
      hide Split;
      infos, ok := [], true;
      for i := 0 to |keys|
        invariant |infos| == i
        invariant forall j :: 0 <= j < i ==> NewPIFromRaw(json, keys[j], bucket[keys[j]]) == Some(infos[j])
      {
        var info := NewPIFromRaw(json, keys[i], bucket[keys[i]]);
        if info.None? {
          ok := false;
          return;
        }
        infos := infos + [info.value];
      }
    }
  }

  /** Iterating over a bucket that holds the records visits each of them, as it
      was saved, once per key and never fails. */
  lemma ForEachVisitsRecords(json: Json, bucket: Bucket, records: Records, key: string)
    requires Inverse(json) && Represents(json, bucket, records) && key in bucket
    ensures var info := NewPIFromRaw(json, key, bucket[key]);
            && info.Some? && info.value.pod in records && Key(info.value.pod) == key
            && info.value.containerDeviceMap == records[info.value.pod]
  {
    var p :| p in records && Key(p) == key;
    PlainKey(p);
  }
}
