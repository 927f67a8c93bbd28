// From Allocate to the container runtime: the methods of the plugins, the agent
// and the hook, one after the other.
module EndToEnd {
  import opened Text
  import opened Devices
  import opened Links
  import opened Hook
  import opened Plugins
  import opened PreStart
  import opened Service

  /** The plugin of a resource answers a request, the container starts, and the
      hook looks for the cards of the GPU variable of the answer. */
  method AllocateStartAndFind(plugin: GPUShareDevicePlugin, requests: seq<seq<string>>, ids: seq<string>, a: Answers,
                              readDir: LinkTable -> seq<string>, ghost cards: seq<int>)
    returns (allocation: Option<Allocation>, reply: Reply, found: seq<int>)
    requires plugin.resourceName in {"elasticgpu.io/gpu-core", "elasticgpu.io/gpu-memory"}
    // the ids are those that were allocated, in any order
    requires ids != [] && multiset(ids) == multiset(Concat(requests))
    requires IsAnnotated(plugin.resourceName, a, cards)
    // nothing fails, and no link has the hash yet
    requires a.creates == ALWAYS_FINE && a.commits
    requires NoLinkOf(plugin.operator.links, NewDevice(plugin.hash, ids, plugin.resourceName).hash)
    requires forall links :: Lists(readDir(links), links)
    modifies plugin.operator, plugin.storage
    ensures allocation.Some? && allocation.value.envs.Keys == {"GPU", "NVIDIA_VISIBLE_DEVICES"}
    ensures allocation.value.envs["NVIDIA_VISIBLE_DEVICES"] == "none"
    ensures reply == Started
    ensures forall i: nat :: i < |cards| ==>
              LinksTo(plugin.operator.links, allocation.value.envs["GPU"], i, cards[i])
    ensures multiset(found) == multiset(cards)
  {
    hide *;
    SameIdsSameHash(plugin.hash, ids, Concat(requests), plugin.resourceName);
    SomeIds(ids, Concat(requests));
    allocation := Allocate(plugin.hash, plugin.resourceName, requests);
    reply, found := StartAndFind(plugin, ids, a, readDir, allocation.value.envs["GPU"], cards);
  }

  method Allocate(hash: Hasher, resource: string, requests: seq<seq<string>>) returns (allocation: Option<Allocation>)
    requires resource in {"elasticgpu.io/gpu-core", "elasticgpu.io/gpu-memory"} && Concat(requests) != []
    ensures allocation.Some?
    ensures allocation.value.envs == map["GPU" := NewDevice(hash, Concat(requests), resource).hash,
                                         "NVIDIA_VISIBLE_DEVICES" := "none"]
  {
    assert GPU_CORE == "elasticgpu.io/gpu-core";
    hide *;
    if resource == GPU_CORE {
      allocation := AllocateCore(hash, requests);
    } else {
      allocation := AllocateMemory(hash, requests);
    }
  }

  method StartAndFind(plugin: GPUShareDevicePlugin, ids: seq<string>, a: Answers, readDir: LinkTable -> seq<string>,
                      gpu: string, ghost cards: seq<int>)
    returns (reply: Reply, found: seq<int>)
    requires ids != [] && IsAnnotated(plugin.resourceName, a, cards) && a.creates == ALWAYS_FINE && a.commits
    requires gpu == NewDevice(plugin.hash, ids, plugin.resourceName).hash && NoLinkOf(plugin.operator.links, gpu)
    requires forall links :: Lists(readDir(links), links)
    modifies plugin.operator, plugin.storage
    ensures reply == Started && multiset(found) == multiset(cards)
    ensures forall i: nat :: i < |cards| ==> LinksTo(plugin.operator.links, gpu, i, cards[i])
  {
    ghost var w := plugin.State();
    assert w.links == plugin.operator.links;
    hide *;
    StartIsFound(plugin.hash, plugin.resourceName, w, ids, a, readDir, cards);
    reply := plugin.PreStartContainer(ids, a);
    found := FindGPUIndexes(gpu, plugin.operator.links, readDir(plugin.operator.links));
  }

  /** The pod is found, and its annotations name the cards of the container. */
  predicate IsAnnotated(resource: string, a: Answers, cards: seq<int>)
  {
    a.owner.Some? && a.annotations.Some? &&
    var key := "elasticgpu.io/container-" + a.owner.value.container;
    && "elasticgpu.io/assumed" in a.annotations.value && key in a.annotations.value
    && Annotates(resource, a.annotations.value[key], cards)
  }

  predicate NoLinkOf(links: LinkTable, hash: string)
  {
    forall f :: f in links ==> !("elastic-gpu-" + hash <= f)
  }

  /** What a first start without faults leaves for the hook. */
  lemma StartIsFound(hash: Hasher, resource: string, w: World, ids: seq<string>, a: Answers,
                     readDir: LinkTable -> seq<string>, cards: seq<int>)
    requires ids != [] && IsAnnotated(resource, a, cards) && a.creates == ALWAYS_FINE && a.commits
    requires NoLinkOf(w.links, NewDevice(hash, ids, resource).hash)
    requires forall links :: Lists(readDir(links), links)
    ensures var (after, reply) := PreStarted(hash, resource, w, ids, a);
            var gpu := NewDevice(hash, ids, resource).hash;
            && reply == Started
            && (forall i: nat :: i < |cards| ==> LinksTo(after.links, gpu, i, cards[i]))
            && (forall f :: IsGpuSymlink(gpu, after.links, f) ==> Indexable(after.links[f]))
            && multiset(IndexesIn(gpu, after.links, readDir(after.links))) == multiset(cards)
  {
    hide Start, PreStarted, Check, Annotates, Lists, LinksTo, IndexesIn, IsGpuSymlink, Indexable, NewDevice;
    GoodCheck(hash, resource, w, ids, a);
    var q := Check(hash, resource, ids, a).request;
    StartGetsItsCards(w, q, a, cards, readDir(Start(w, q, a).0.links));
    StartIsReadable(w, q, a, cards);
  }

  /** A call that passes the checks is a start of what they have found. */
  lemma GoodCheck(hash: Hasher, resource: string, w: World, ids: seq<string>, a: Answers)
    requires ids != [] && a.owner.Some? && a.annotations.Some? && "elasticgpu.io/assumed" in a.annotations.value
    requires "elasticgpu.io/container-" + a.owner.value.container in a.annotations.value
    ensures Check(hash, resource, ids, a).Accepted?
    ensures var q := Check(hash, resource, ids, a).request;
            && q.device == NewDevice(hash, ids, resource) && q.device.resourceName == resource
            && q.val == a.annotations.value["elasticgpu.io/container-" + a.owner.value.container]
            && PreStarted(hash, resource, w, ids, a) == Start(w, q, a)
  {
    hide Start;
    DeviceHasResource(hash, ids, resource);
  }

  lemma SameIdsSameHash(hash: Hasher, ids: seq<string>, others: seq<string>, resource: string)
    requires multiset(ids) == multiset(others)
    ensures NewDevice(hash, ids, resource).hash == NewDevice(hash, others, resource).hash
  {
    EqualsIffSameIds(hash, ids, others, resource, resource);
  }

  lemma SomeIds(ids: seq<string>, others: seq<string>)
    requires ids != [] && multiset(ids) == multiset(others)
    ensures others != []
  {
    assert ids[0] in multiset(ids);
  }

  /** The hook can read every link of the hash. */
  lemma StartIsReadable(w: World, q: Request, a: Answers, cards: seq<int>)
    requires Annotates(q.device.resourceName, q.val, cards)
    requires forall f :: f in w.links ==> !("elastic-gpu-" + q.device.hash <= f)
    requires a.creates == ALWAYS_FINE && a.commits
    ensures forall f :: IsGpuSymlink(q.device.hash, Start(w, q, a).0.links, f) ==> Indexable(Start(w, q, a).0.links[f])
  {
    hide AnnotatedIndexes, Annotates, IsGpuSymlink, Indexable, CreatedAll, HasLinks;
    AnnotatedCards(q.device.resourceName, q.val, cards);
    CardsAreInts(q.device.resourceName, q.val, cards);
    CreatedAllLinks(w.links, q.device.hash, cards);
    LinksAreIndexable(Start(w, q, a).0.links, q.device.hash, cards);
  }
}
