/** The application-resource assembler and the store that listens to it, as they update their tables. */
module ResourceAssembly {
  import opened Bytes
  import opened ResourcePaths
  import opened ResourceIndex
  import opened SectionSets
  import opened ResourceCatalogue
  import opened ResourceShelf
  import opened ResourceRuns
  import opened Totals

  /** Keeps the published files, by context and path; learns of them through events only. */
  class ResourceStore {
    var resources: map<PathKey, Resource>
    var generation: nat

    constructor ()
      ensures resources == map[] && generation == 0
    {
      resources := map[];
      generation := 0;
    }

    method OnResource(r: Resource)
      modifies this
      ensures resources == StoreWith(old(resources), r) && generation == old(generation) + 1
    {
      generation := generation + 1;
      resources := resources[PathKey(r.key.mpu.context, r.signature.path) := r];
    }

    method OnRemoved(context: nat, path: Path)
      modifies this
      ensures resources == StoreWithout(old(resources), context, path)
      ensures generation == old(generation) + (if SafePath(path).Some? then 1 else 0)
    {
      var normalized := NormalizePath(path);
      if normalized.None? { return; }
      resources := resources - {PathKey(context, normalized.value)};
      generation := generation + 1;
    }

    method OnReset()
      modifies this
      ensures resources == map[] && generation == old(generation) + 1
    {
      resources := map[];
      generation := generation + 1;
    }

    method Find(context: nat, path: Path) returns (r: Option<Resource>)
      ensures r == Get(resources, context, path)
    {
      var normalized := NormalizePath(path);
      if normalized.None? { return None; }
      var key := PathKey(context, normalized.value);
      r := if key in resources then Some(resources[key]) else None;
    }
  }

  // ----- one item at a time

  lemma WithdrawOne(out: Publication, k: ItemKey)
    ensures Withdraw(out, {k}) ==
      if Owns(out, k)
      then Publication(out.items - {k}, out.paths - {PathOf(k, out.items[k])},
                       StoreWithout(out.store, k.mpu.context, out.items[k].path))
      else out.(items := out.items - {k})
  {
    hide SafePath;
    if Owns(out, k) {
      var p := PathOf(k, out.items[k]);
      assert OwnedPaths(out, {k}) == {p};
      if SafePath(p.path).Some? {
        assert Normalized({p}) == {PathKey(p.context, SafePath(p.path).value)};
      } else {
        assert Normalized({p}) == {};
      }
    } else {
      assert OwnedPaths(out, {k}) == {};
      assert Normalized({}) == {};
    }
  }

  lemma DiscardOne(queue: Queue, k: ItemKey)
    ensures Discard(queue, {k}) ==
      if k in queue.units then Queue(queue.units - {k}, queue.bytes - |queue.units[k].data|) else queue
  {
    var sizes := Sizes(queue.units);
    var lost := sizes - (queue.units.Keys - {k});
    if k in queue.units {
      TotalRemove(lost, k);
      assert lost - {k} == map[];
    } else {
      assert lost == map[] && queue.units - {k} == queue.units;
    }
  }

  /** Only keys that are there matter. */
  lemma OnlyPresentMatter(s: Shelf, ks: set<ItemKey>)
    ensures s.items - ks == s.items - (ks * s.items.Keys)
    ensures Withdraw(s.out, ks) == Withdraw(s.out, ks * s.out.items.Keys)
    ensures Discard(s.queue, ks) == Discard(s.queue, ks * s.queue.units.Keys)
  {
    hide Normalized;
    assert OwnedPaths(s.out, ks) == OwnedPaths(s.out, ks * s.out.items.Keys);
    assert s.out.items - ks == s.out.items - (ks * s.out.items.Keys);
    assert s.queue.units - ks == s.queue.units - (ks * s.queue.units.Keys);
    assert s.queue.units.Keys - ks == s.queue.units.Keys - (ks * s.queue.units.Keys);
    assert s.items - ks == s.items - (ks * s.items.Keys);
  }

  lemma WithdrawNone(out: Publication)
    ensures Withdraw(out, {}) == out
  {
    hide SafePath;
    assert OwnedPaths(out, {}) == {};
    assert Normalized({}) == {};
  }

  lemma DiscardNone(queue: Queue)
    ensures Discard(queue, {}) == queue
  {
    assert Sizes(queue.units) - queue.units.Keys == map[];
  }

  /** Erasing the MPUs of a set one after the other. */
  lemma EraseNextMpu(s: Shelf, done: set<MpuKey>, m: MpuKey)
    ensures (var t := Erase(s, ItemsOf(s, done));
             Erase(t, ItemsOf(t, {m})) == Erase(s, ItemsOf(s, done + {m})))
  {
    hide Withdraw;
    hide Discard;
    var a := ItemsOf(s, done);
    var t := Erase(s, a);
    EraseTwice(s, a, ItemsOf(t, {m}));
    ErasedKeys(s, a);
    assert a + ItemsOf(t, {m}) == ItemsOf(s, done + {m});
  }

  lemma ErasedKeys(s: Shelf, ks: set<ItemKey>)
    ensures (var t := Erase(s, ks);
             && t.items.Keys == s.items.Keys - ks && t.out.items.Keys == s.out.items.Keys - ks
             && t.queue.units.Keys == s.queue.units.Keys - ks)
  {
    hide OwnedPaths;
    hide Normalized;
    hide Total;
  }

  lemma EraseNone(s: Shelf)
    ensures Erase(s, {}) == s
  {
    WithdrawNone(s.out);
    DiscardNone(s.queue);
    assert s.items - {} == s.items;
  }

  // ----- reading targets in a loop

  lemma {:induction false} TargetsStayNone(context: nat, nodes: map<NodeKey, Path>, tags: seq<nat>,
                                           records: seq<FileRecord>, n: nat)
    requires |tags| == |records| && n <= |records| && forall t :: t in tags ==> NodeKey(context, t) in nodes
    requires Targets(context, nodes, tags[..n], records[..n]).None?
    ensures Targets(context, nodes, tags, records).None?
    decreases |records|
  {
    hide JoinPath;
    if n < |records| {
      var last := |records| - 1;
      assert tags[..last][..n] == tags[..n] && records[..last][..n] == records[..n];
      TargetsStayNone(context, nodes, tags[..last], records[..last], n);
    } else {
      assert tags[..n] == tags && records[..n] == records;
    }
  }

  method ReadTargets(context: nat, nodes: map<NodeKey, Path>, tags: seq<nat>, records: seq<FileRecord>)
    returns (r: Option<map<nat, FileTarget>>)
    requires |tags| == |records| && forall t :: t in tags ==> NodeKey(context, t) in nodes
    ensures r == Targets(context, nodes, tags, records)
  {
    hide JoinPath;
    var targets: map<nat, FileTarget> := map[];
    for i := 0 to |records|
      invariant Targets(context, nodes, tags[..i], records[..i]) == Some(targets)
    {
      assert tags[..i + 1][..i] == tags[..i] && records[..i + 1][..i] == records[..i];
      var path := JoinPath(nodes[NodeKey(context, tags[i])], records[i].filename, []);
      if path.None? { continue; }
      if records[i].item in targets {
        TargetsStayNone(context, nodes, tags, records, i + 1);
        return None;
      }
      targets := targets[records[i].item := TargetOf(records[i], path.value)];
    }
    assert tags[..|records|] == tags && records[..|records|] == records;
    r := Some(targets);
  }

  // ----- replacing MPUs

  lemma OneReplacement(cat: Catalogue, gone: MpuKey, a: MpuKey, b: MpuKey)
    requires Replaces(cat, gone, a) && Replaces(cat, gone, b)
    ensures a == b
  {}

  method FindReplacement(cat: Catalogue, gone: MpuKey) returns (r: Option<MpuKey>)
    ensures r.Some? ==> Replaces(cat, gone, r.value)
    ensures r.None? ==> !HasReplacement(cat, gone)
  {
    r := None;
    var todo := cat.mpus.Keys;
    while todo != {}
      invariant todo <= cat.mpus.Keys
      invariant r.None? ==> forall o :: o in cat.mpus && o !in todo ==> !Similar(gone, o)
      invariant r.Some? ==> r.value in cat.mpus && Similar(gone, r.value)
      invariant r.Some? ==> forall o :: o in cat.mpus && o !in todo && Similar(gone, o) ==>
          r.value.sequence <= o.sequence
      decreases |todo|
    {
      var o :| o in todo;
      todo := todo - {o};
      if Similar(gone, o) && (r.None? || o.sequence < r.value.sequence) { r := Some(o); }
    }
  }

  class ApplicationResourceAssembler {
    const cfg: Config
    const sink: ResourceStore
    var catalogues: map<nat, Context>
    var nodePaths: map<NodeKey, Path>
    var mpuMaps: map<MpuKey, MpuMap>
    var itemPaths: map<ItemKey, FileTarget>
    var pending: map<ItemKey, DataUnit>
    var pendingBytes: int
    var published: map<ItemKey, PublishedItem>
    var publishedPaths: map<PathKey, ItemKey>
    var supersededMpus: map<MpuKey, set<MpuKey>>
    var deferredItemRemovals: map<MpuKey, set<ItemKey>>
    ghost var dangling: bool

    ghost function Out(): Publication
      reads this, sink
    {
      Publication(published, publishedPaths, sink.resources)
    }

    ghost function Waiting(): Queue
      reads this
    {
      Queue(pending, pendingBytes)
    }

    ghost function OnShelf(): Shelf
      reads this, sink
    {
      Shelf(itemPaths, Waiting(), Out(), supersededMpus, deferredItemRemovals, dangling)
    }

    function Active(): Catalogue
      reads this
    {
      Catalogue(nodePaths, mpuMaps)
    }

    ghost function Now(): State
      reads this, sink
    {
      State(catalogues, Active(), OnShelf())
    }

    constructor (cfg: Config, sink: ResourceStore)
      requires sink.resources == map[]
      ensures this.cfg == cfg && this.sink == sink && Now() == Initial()
    {
      this.cfg := cfg;
      this.sink := sink;
      catalogues := map[];
      nodePaths := map[];
      mpuMaps := map[];
      itemPaths := map[];
      pending := map[];
      pendingBytes := 0;
      published := map[];
      publishedPaths := map[];
      supersededMpus := map[];
      deferredItemRemovals := map[];
      dangling := false;
    }

    method Unpublish(k: ItemKey)
      requires k in published
      modifies `published, `publishedPaths, sink
      ensures Out() == Withdraw(old(Out()), {k})
    {
      WithdrawOne(Out(), k);
      hide SafePath;
      var path := published[k].path;
      var entry := PathKey(k.mpu.context, path);
      if entry in publishedPaths && publishedPaths[entry] == k {
        publishedPaths := publishedPaths - {entry};
        sink.OnRemoved(k.mpu.context, path);
      }
      published := published - {k};
    }

    method Release(k: ItemKey)
      requires k in pending
      modifies `pending, `pendingBytes
      ensures Waiting() == Discard(old(Waiting()), {k})
    {
      DiscardOne(Waiting(), k);
      pendingBytes := pendingBytes - |pending[k].data|;
      pending := pending - {k};
    }

    method EraseItemTarget(k: ItemKey)
      modifies `itemPaths, `published, `publishedPaths, `pending, `pendingBytes, sink
      ensures OnShelf() == Erase(old(OnShelf()), {k})
    {
      AbsentChangesNothing(OnShelf(), k);
      hide Withdraw;
      hide Discard;
      itemPaths := itemPaths - {k};
      if k in published { Unpublish(k); }
      if k in pending { Release(k); }
    }

    method UnpublishMpu(m: MpuKey)
      modifies `published, `publishedPaths, sink
      ensures Out() == Withdraw(old(Out()), set k | k in old(published) && k.mpu == m)
    {
      ghost var before := Out();
      var todo := set k | k in published && k.mpu == m;
      ghost var all := todo;
      WithdrawNone(before);
      assert all - todo == {} && before.items - {} == before.items;
      hide Withdraw;
      while todo != {}
        invariant todo <= all && Out() == Withdraw(before, all - todo)
        invariant published == before.items - (all - todo)
        decreases |todo|
      {
        var k :| k in todo;
        WithdrawTwice(before, all - todo, {k});
        assert all - todo + {k} == all - (todo - {k});
        Unpublish(k);
        WithdrawnItems(before, all - (todo - {k}));
        todo := todo - {k};
      }
      assert all - todo == all;
    }

    method ReleaseMpu(m: MpuKey)
      modifies `pending, `pendingBytes
      ensures Waiting() == Discard(old(Waiting()), set k | k in old(pending) && k.mpu == m)
    {
      ghost var before := Waiting();
      var todo := set k | k in pending && k.mpu == m;
      ghost var all := todo;
      DiscardNone(before);
      assert all - todo == {} && before.units - {} == before.units;
      hide Discard;
      while todo != {}
        invariant todo <= all && Waiting() == Discard(before, all - todo)
        invariant pending == before.units - (all - todo)
        decreases |todo|
      {
        var k :| k in todo;
        DiscardTwice(before, all - todo, {k});
        assert all - todo + {k} == all - (todo - {k});
        Release(k);
        DiscardedUnits(before, all - (todo - {k}));
        todo := todo - {k};
      }
      assert all - todo == all;
    }

    method EraseMpuTargets(m: MpuKey)
      modifies `itemPaths, `published, `publishedPaths, `pending, `pendingBytes, sink
      ensures OnShelf() == Erase(old(OnShelf()), ItemsOf(old(OnShelf()), {m}))
    {
      hide Withdraw;
      hide Discard;
      hide ItemsOf;
      var listed := set k | k in itemPaths && k.mpu == m;
      ItemsOfOne(OnShelf(), m, listed, set k | k in published && k.mpu == m, set k | k in pending && k.mpu == m);
      itemPaths := itemPaths - listed;
      UnpublishMpu(m);
      ReleaseMpu(m);
    }

    method AllPublished(m: MpuKey) returns (ready: bool)
      ensures ready <==> Ready(OnShelf(), m)
    {
      ready := forall k :: k in itemPaths && k.mpu == m ==>
        k in published && published[k].path == itemPaths[k].path && published[k].version == itemPaths[k].version;
    }

    method EraseSuperseded(m: MpuKey)
      requires m in supersededMpus
      modifies `itemPaths, `published, `publishedPaths, `pending, `pendingBytes, `supersededMpus, sink
      ensures OnShelf() == DropSuperseded(old(OnShelf()), m)
    {
      hide Erase;
      hide ItemsOf;
      EraseMpus(supersededMpus[m]);
      supersededMpus := supersededMpus - {m};
    }

    method EraseMpus(all: set<MpuKey>)
      modifies `itemPaths, `published, `publishedPaths, `pending, `pendingBytes, sink
      ensures OnShelf() == Erase(old(OnShelf()), ItemsOf(old(OnShelf()), all))
    {
      hide Erase;
      hide ItemsOf;
      ghost var before := OnShelf();
      var todo := all;
      EraseNone(before);
      NoItems(before);
      assert all - todo == {};
      while todo != {}
        invariant todo <= all && OnShelf() == Erase(before, ItemsOf(before, all - todo))
        decreases |todo|
      {
        var o :| o in todo;
        EraseNextMpu(before, all - todo, o);
        assert all - todo + {o} == all - (todo - {o});
        EraseMpuTargets(o);
        todo := todo - {o};
      }
      assert all - todo == all;
    }

    method EraseDeferred(m: MpuKey)
      requires m in deferredItemRemovals
      modifies `itemPaths, `published, `publishedPaths, `pending, `pendingBytes, `deferredItemRemovals, sink
      ensures OnShelf() == DropDeferred(old(OnShelf()), m)
    {
      ghost var before := OnShelf();
      var todo := deferredItemRemovals[m];
      ghost var all := todo;
      EraseNone(before);
      hide Erase;
      while todo != {}
        invariant todo <= all && OnShelf() == Erase(before, all - todo)
        decreases |todo|
      {
        var k :| k in todo;
        EraseTwice(before, all - todo, {k});
        assert all - todo + {k} == all - (todo - {k});
        EraseItemTarget(k);
        todo := todo - {k};
      }
      assert all - todo == all;
      deferredItemRemovals := deferredItemRemovals - {m};
    }

    method FinishMpuUpdateIfReady(m: MpuKey)
      modifies `itemPaths, `published, `publishedPaths, `pending, `pendingBytes,
               `supersededMpus, `deferredItemRemovals, sink
      ensures OnShelf() == Finish(old(OnShelf()), m)
    {
      hide DropSuperseded;
      hide DropDeferred;
      hide Ready;
      if m !in supersededMpus && m !in deferredItemRemovals { return; }
      var ready := AllPublished(m);
      if !ready { return; }
      NothingToDrop(OnShelf(), m);
      if m in supersededMpus { EraseSuperseded(m); }
      NothingToDrop(OnShelf(), m);
      if m in deferredItemRemovals { EraseDeferred(m); }
    }

    method ContentsOf(data: seq<byte>, target: FileTarget) returns (r: Option<seq<byte>>)
      ensures r == Contents(cfg, data, target)
    {
      if |data| != target.size { return None; }
      if target.compression == STORED {
        if |data| > cfg.maxResource { return None; }
        return Some(data);
      }
      if target.compression != 0 || target.originalSize.None? { return None; }
      if target.originalSize.value > cfg.maxResource { return None; }
      r := cfg.inflate(data, target.originalSize.value);
      if r.Some? && |r.value| != target.originalSize.value { r := None; }
    }

    method Announce(r: Resource)
      modifies `published, `publishedPaths, sink
      ensures Out() == Show(old(Out()), r)
    {
      hide SafePath;
      var k := r.key;
      if k in published && published[k].path != r.signature.path {
        var entry := PathKey(k.mpu.context, published[k].path);
        if entry in publishedPaths && publishedPaths[entry] == k {
          publishedPaths := publishedPaths - {entry};
          sink.OnRemoved(k.mpu.context, published[k].path);
        }
      }
      published := published[k := r.signature];
      publishedPaths := publishedPaths[PathKey(k.mpu.context, r.signature.path) := k];
      sink.OnResource(r);
    }

    method PublishItem(k: ItemKey, data: seq<byte>, m: MpuMap, target: FileTarget)
      modifies `itemPaths, `published, `publishedPaths, `pending, `pendingBytes,
               `supersededMpus, `deferredItemRemovals, sink
      ensures OnShelf() == Publish(old(OnShelf()), cfg, k, data, m, target)
    {
      hide Finish;
      hide Show;
      hide Contents;
      var signature := PublishedItem(m.transaction, m.download, target.version, target.path);
      if k in published && published[k] == signature { return; }
      var bytes := ContentsOf(data, target);
      if bytes.None? { return; }
      Announce(Resource(k, signature, target.contentType, bytes.value));
      FinishMpuUpdateIfReady(k.mpu);
    }

    method ListedItems(m: MpuKey) returns (listed: set<ItemKey>)
      ensures listed == Listed(OnShelf(), m)
    {
      listed := set k | k in itemPaths && k.mpu == m;
    }

    method RelistItems(m: MpuKey, targets: map<nat, FileTarget>)
      modifies `itemPaths, `deferredItemRemovals
      ensures OnShelf() == Relist(old(OnShelf()), m, targets)
    {
      hide Relist;
      hide Listed;
      hide KeysFor;
      hide Assigned;
      var listed := ListedItems(m);
      var keys := KeysFor(m, targets);
      RelistIs(OnShelf(), m, targets);
      var retired := listed - keys;
      if retired != {} {
        var deferred := if m in deferredItemRemovals then deferredItemRemovals[m] else {};
        deferredItemRemovals := deferredItemRemovals[m := retired + deferred];
      }
      itemPaths := (itemPaths - listed) + Assigned(keys, targets);
    }

    method ConsumeIndexItem(m: MpuKey, data: seq<byte>) returns (used: bool)
      requires m in mpuMaps
      modifies `itemPaths, `published, `publishedPaths, `pending, `pendingBytes,
               `supersededMpus, `deferredItemRemovals, sink
      ensures (used, OnShelf()) == ConsumeIndex(old(OnShelf()), cfg, Active(), m, data)
    {
      hide Finish;
      hide Relist;
      hide Index;
      hide Targets;
      var records := ParseIndex(data);
      if records.None? { return true; }
      var tags: seq<nat> := mpuMaps[m].nodeTags;
      if tags == [] && mpuMaps[m].mpuNode.Some? {
        var node := mpuMaps[m].mpuNode.value;
        tags := seq(|records.value|, i => node);
      }
      assert tags == TagsFor(mpuMaps[m], |records.value|);
      if |records.value| != |tags| { return true; }
      if !TagsPresent(m.context, nodePaths, tags) { return false; }
      var previous := set k | k in itemPaths && k.mpu == m;
      assert previous == Listed(OnShelf(), m);
      if |itemPaths| - |previous| + |records.value| > cfg.maxResources { return true; }
      var targets := ReadTargets(m.context, nodePaths, tags, records.value);
      if targets.None? { return true; }
      RelistItems(m, targets.value);
      FinishMpuUpdateIfReady(m);
      used := true;
    }

    method TryConsumeUnit(k: ItemKey, unit: DataUnit) returns (used: bool)
      modifies `itemPaths, `published, `publishedPaths, `pending, `pendingBytes,
               `supersededMpus, `deferredItemRemovals, sink
      ensures (used, OnShelf()) == TryConsume(old(OnShelf()), cfg, Active(), k, unit)
    {
      hide ConsumeIndex;
      hide Publish;
      if k.mpu !in mpuMaps { return false; }
      if unit.download.None? || unit.download.value != mpuMaps[k.mpu].download { return true; }
      if k.item == mpuMaps[k.mpu].indexItem {
        used := ConsumeIndexItem(k.mpu, unit.data);
        return;
      }
      if k !in itemPaths { return false; }
      PublishItem(k, unit.data, mpuMaps[k.mpu], itemPaths[k]);
      used := true;
    }

    /** One waiting unit: used and released, or left where it is. */
    method RetryOne(k: ItemKey) returns (used: bool)
      requires k in pending
      modifies `itemPaths, `published, `publishedPaths, `pending, `pendingBytes,
               `supersededMpus, `deferredItemRemovals, `dangling, sink
      ensures used <==> Consumable(old(OnShelf()), cfg, Active(), k)
      ensures OnShelf() == if used then ConsumePending(old(OnShelf()), cfg, Active(), k) else old(OnShelf())
      ensures used ==> pending.Keys <= old(pending.Keys) - {k}
    {
      hide TryConsume;
      ghost var before := OnShelf();
      UnusedChangesNothing(before, cfg, Active(), k, pending[k]);
      used := TryConsumeUnit(k, pending[k]);
      if used {
        QueueOnlyShrinks(before, cfg, Active(), k, before.queue.units[k]);
        DiscardedUnits(Waiting(), {k});
        hide Discard;
        if k in pending { Release(k); } else { dangling := true; }
      }
    }

    method Retry()
      modifies `itemPaths, `published, `publishedPaths, `pending, `pendingBytes,
               `supersededMpus, `deferredItemRemovals, `dangling, sink
      ensures Retried(old(OnShelf()), cfg, Active(), OnShelf())
    {
      hide Consumable;
      hide ConsumePending;
      ghost var before := OnShelf();
      ghost var active := Active();
      ghost var done: seq<ItemKey> := [];
      var progressed := true;
      while progressed
        invariant OnShelf() == After(before, cfg, active, done)
        invariant !progressed ==> forall k :: k in pending ==> !Consumable(OnShelf(), cfg, active, k)
        decreases |pending|, progressed
      {
        progressed := false;
        var todo := pending.Keys;
        ghost var start := pending.Keys;
        while todo != {}
          invariant OnShelf() == After(before, cfg, active, done)
          invariant pending.Keys <= start && (progressed ==> pending.Keys < start)
          invariant !progressed ==> forall k :: k in pending && k !in todo ==> !Consumable(OnShelf(), cfg, active, k)
          decreases |todo|
        {
          var k :| k in todo;
          todo := todo - {k};
          if k in pending {
            AfterOneMore(before, cfg, active, done, k);
            var used := RetryOne(k);
            if used {
              progressed := true;
              done := done + [k];
            }
          }
        }
        Fewer(pending.Keys, start);
      }
    }

    method Hold(k: ItemKey, unit: DataUnit) returns (held: bool)
      modifies `pending, `pendingBytes
      ensures held <==> !TooMuch(old(Waiting()), cfg, k, unit)
      ensures Waiting() == if held then Enqueue(old(Waiting()), k, unit) else old(Waiting())
    {
      var previousSize := if k in pending then |pending[k].data| else 0;
      if |pending| + (if k in pending then 0 else 1) > cfg.maxUnits
         || |unit.data| > cfg.maxBytes - Min(pendingBytes, cfg.maxBytes) + previousSize {
        return false;
      }
      pendingBytes := pendingBytes - previousSize;
      pending := pending[k := unit];
      pendingBytes := pendingBytes + |unit.data|;
      held := true;
    }

    method OnUnit(k: ItemKey, unit: DataUnit)
      modifies `itemPaths, `published, `publishedPaths, `pending, `pendingBytes,
               `supersededMpus, `deferredItemRemovals, `dangling, sink
      ensures Next(cfg, old(Now()), Unit(k, unit), Now())
    {
      hide TryConsume;
      hide Retried;
      hide TooMuch;
      hide Enqueue;
      UnusedChangesNothing(OnShelf(), cfg, Active(), k, unit);
      var used := TryConsumeUnit(k, unit);
      if used { return; }
      var held := Hold(k, unit);
      if held { Retry(); }
    }

    method FindRetired(context: nat, cat: Catalogue) returns (retired: set<MpuKey>)
      ensures Left(retired, cat) == Gone(Active(), context, cat)
    {
      var changedNodes := set n | n in nodePaths && n.context == context
                                  && (n !in cat.nodes || cat.nodes[n] != nodePaths[n]) :: n.tag;
      retired := set m | m in mpuMaps && m.context == context
                         && (m !in cat.mpus || cat.mpus[m] != mpuMaps[m]
                             || (exists t :: t in mpuMaps[m].nodeTags && t in changedNodes)
                             || (mpuMaps[m].mpuNode.Some? && mpuMaps[m].mpuNode.value in changedNodes));
    }

    method RetireOne(m: MpuKey, cat: Catalogue, ghost before: Shelf, ghost gone: set<MpuKey>)
      requires CommittedShelf(before, gone, cat, OnShelf())
      modifies `itemPaths, `published, `publishedPaths, `pending, `pendingBytes, `supersededMpus, sink
      ensures CommittedShelf(before, gone + {m}, cat, OnShelf())
    {
      hide CommittedShelf;
      hide Erase;
      var heir := FindReplacement(cat, m);
      if heir.Some? {
        CommitSuperseded(before, gone, cat, OnShelf(), m, heir.value);
        var others := if heir.value in supersededMpus then supersededMpus[heir.value] else {};
        supersededMpus := supersededMpus[heir.value := others + {m}];
      } else {
        CommitErased(before, gone, cat, OnShelf(), m);
        EraseMpuTargets(m);
      }
    }

    /** An MPU whose mapping changed but which is still listed keeps its files; only those no longer
        listed are superseded or erased. */
    method RetireMpus(context: nat, cat: Catalogue)
      modifies `itemPaths, `published, `publishedPaths, `pending, `pendingBytes, `supersededMpus, sink
      ensures CommittedShelf(old(OnShelf()), Gone(Active(), context, cat), cat, OnShelf())
    {
      hide CommittedShelf;
      hide Gone;
      ghost var before := OnShelf();
      var retired := FindRetired(context, cat);
      ghost var all := retired;
      NothingCommitted(before, cat);
      assert all - retired == {};
      while retired != {}
        invariant retired <= all
        invariant CommittedShelf(before, Left(all - retired, cat), cat, OnShelf())
        decreases |retired|
      {
        var m :| m in retired;
        LeftOneMore(all, retired, m, cat);
        if m !in cat.mpus { RetireOne(m, cat, before, Left(all - retired, cat)); }
        retired := retired - {m};
      }
      assert all - retired == all;
    }

    method CommitCatalogue(context: nat, cat: Catalogue)
      modifies `itemPaths, `published, `publishedPaths, `pending, `pendingBytes, `supersededMpus,
               `nodePaths, `mpuMaps, sink
      ensures Active() == Replaced(old(Active()), context, cat)
      ensures CommittedShelf(old(OnShelf()), Gone(old(Active()), context, cat), cat, OnShelf())
    {
      hide CommittedShelf;
      RetireMpus(context, cat);
      nodePaths := (map n | n in nodePaths && n.context != context :: nodePaths[n]) + cat.nodes;
      mpuMaps := (map m | m in mpuMaps && m.context != context :: mpuMaps[m]) + cat.mpus;
    }

    method TryCommitCatalogue(context: nat, source: Source)
      requires context in catalogues
      modifies this, sink
      ensures CommitNext(cfg, old(Now()), context, source, Now())
    {
      hide Retried;
      hide CommittedShelf;
      hide Build;
      hide Replaced;
      hide Values;
      hide Complete;
      hide Gone;
      var c := catalogues[context];
      if source !in c.candidates { return; }
      var candidate := c.candidates[source];
      var sameActive := c.active.Some? && c.active.value.source == source;
      var ds, ms := Complete(candidate.directories), Complete(candidate.management);
      if !ds && !sameActive { return; }
      if !ms && !sameActive { return; }
      if !ds && !ms { return; }
      if ds { CompleteHasVersion(candidate.directories); }
      if ms { CompleteHasVersion(candidate.management); }
      var tables := Tables(source,
                           if ds then candidate.directories.version.value else c.active.value.directoryVersion,
                           if ms then candidate.management.version.value else c.active.value.managementVersion,
                           if ds then Values(candidate.directories) else c.active.value.directories,
                           if ms then Values(candidate.management) else c.active.value.management);
      assert Proposal(c, source) == Some(tables);
      var built := BuildCatalogue(context, tables.directories, tables.management);
      if built.None? { return; }
      CommitCatalogue(context, built.value);
      catalogues := catalogues[context := Context(Some(tables), map[])];
      Retry();
    }

    method OnDirectoryTable(h: Header, directory: Directory)
      modifies this, sink
      ensures Next(cfg, old(Now()), DirectoryTable(h, directory), Now())
    {
      hide CommitNext;
      if !h.current { return; }
      var c := if h.context in catalogues then catalogues[h.context] else Context(None, map[]);
      if c.active.Some? && c.active.value.source == h.source && c.active.value.directoryVersion == h.version { return; }
      var candidate := if h.source in c.candidates then c.candidates[h.source] else Candidate(Fresh(), Fresh());
      candidate := candidate.(
        directories := Add(candidate.directories, Section(h.version, h.number, h.last, directory)));
      catalogues := catalogues[h.context := c.(candidates := c.candidates[h.source := candidate])];
      assert Now() == AddDirectory(old(Now()), h, directory);
      TryCommitCatalogue(h.context, h.source);
    }

    method OnManagementTable(h: Header, management: Management)
      modifies this, sink
      ensures Next(cfg, old(Now()), ManagementTable(h, management), Now())
    {
      hide CommitNext;
      if !h.current { return; }
      var c := if h.context in catalogues then catalogues[h.context] else Context(None, map[]);
      if c.active.Some? && c.active.value.source == h.source
         && c.active.value.managementVersion == h.version {
        return;
      }
      var candidate := if h.source in c.candidates then c.candidates[h.source] else Candidate(Fresh(), Fresh());
      candidate := candidate.(
        management := Add(candidate.management, Section(h.version, h.number, h.last, management)));
      catalogues := catalogues[h.context := c.(candidates := c.candidates[h.source := candidate])];
      assert Now() == AddManagement(old(Now()), h, management);
      TryCommitCatalogue(h.context, h.source);
    }

    method DropTransientKeepActive()
      modifies `catalogues, `pending, `pendingBytes
      ensures Next(cfg, old(Now()), DropTransient, Now())
    {
      catalogues := map c | c in catalogues :: catalogues[c].(candidates := map[]);
      pending := map[];
      pendingBytes := 0;
    }

    method ResetAll()
      modifies this, sink
      ensures Next(cfg, old(Now()), Reset, Now())
    {
      ClearCatalogues();
      ClearItems();
      sink.OnReset();
    }

    method ClearCatalogues()
      modifies `catalogues, `nodePaths, `mpuMaps
      ensures catalogues == map[] && nodePaths == map[] && mpuMaps == map[]
    {
      catalogues := map[];
      nodePaths := map[];
      mpuMaps := map[];
    }

    method ClearItems()
      modifies `itemPaths, `pending, `published, `publishedPaths, `supersededMpus, `deferredItemRemovals, `pendingBytes
      ensures itemPaths == map[] && pending == map[] && published == map[] && publishedPaths == map[]
      ensures supersededMpus == map[] && deferredItemRemovals == map[] && pendingBytes == 0
    {
      itemPaths := map[];
      pending := map[];
      published := map[];
      publishedPaths := map[];
      supersededMpus := map[];
      deferredItemRemovals := map[];
      pendingBytes := 0;
    }
  }

  lemma NoItems(s: Shelf)
    ensures ItemsOf(s, {}) == {}
  {}

  lemma AbsentChangesNothing(s: Shelf, k: ItemKey)
    ensures k !in s.out.items ==> Withdraw(s.out, {k}) == s.out
    ensures k !in s.queue.units ==> Discard(s.queue, {k}) == s.queue
  {
    WithdrawOne(s.out, k);
    DiscardOne(s.queue, k);
    hide Withdraw;
    hide Discard;
    if k !in s.out.items { assert s.out.items - {k} == s.out.items; }
  }

  lemma ItemsOfOne(s: Shelf, m: MpuKey, listed: set<ItemKey>, out: set<ItemKey>, waiting: set<ItemKey>)
    requires listed == set k | k in s.items && k.mpu == m
    requires out == set k | k in s.out.items && k.mpu == m
    requires waiting == set k | k in s.queue.units && k.mpu == m
    ensures (var ks := ItemsOf(s, {m});
             && s.items - ks == s.items - listed && Withdraw(s.out, ks) == Withdraw(s.out, out)
             && Discard(s.queue, ks) == Discard(s.queue, waiting))
  {
    hide Withdraw;
    hide Discard;
    var ks := ItemsOf(s, {m});
    OnlyPresentMatter(s, ks);
    assert ks * s.items.Keys == listed;
    assert ks * s.out.items.Keys == out;
    assert ks * s.queue.units.Keys == waiting;
  }

  lemma WithdrawnItems(out: Publication, ks: set<ItemKey>)
    ensures Withdraw(out, ks).items == out.items - ks
  {}

  lemma DiscardedUnits(queue: Queue, ks: set<ItemKey>)
    ensures Discard(queue, ks).units == queue.units - ks
  {}

  lemma NothingToDrop(s: Shelf, m: MpuKey)
    ensures m !in s.superseded ==> DropSuperseded(s, m) == s
    ensures m !in s.deferred ==> DropDeferred(s, m) == s
    ensures DropSuperseded(s, m).deferred == s.deferred
  {
    hide Erase;
    EraseLeaves(s, if m in s.superseded then ItemsOf(s, s.superseded[m]) else {});
  }

  lemma UnusedChangesNothing(s: Shelf, cfg: Config, active: Catalogue, k: ItemKey, unit: DataUnit)
    ensures !TryConsume(s, cfg, active, k, unit).0 ==> TryConsume(s, cfg, active, k, unit).1 == s
  {
    hide ConsumeIndex;
    hide Publish;
    if k.mpu in active.mpus { IndexKeepsWhenWaiting(s, cfg, active, k.mpu, unit.data); }
  }

  lemma FinishShrinks(s: Shelf, m: MpuKey)
    ensures Finish(s, m).queue.units.Keys <= s.queue.units.Keys
  {
    hide Withdraw;
    hide Total;
  }

  /** Using a unit adds nothing to the queue. */
  lemma QueueOnlyShrinks(s: Shelf, cfg: Config, active: Catalogue, k: ItemKey, unit: DataUnit)
    ensures TryConsume(s, cfg, active, k, unit).1.queue.units.Keys <= s.queue.units.Keys
  {
    hide Finish;
    hide Show;
    hide Contents;
    hide Index;
    hide Targets;
    hide Relist;
    if k.mpu in active.mpus && unit.download == Some(active.mpus[k.mpu].download) {
      var m := active.mpus[k.mpu];
      if k.item == m.indexItem {
        if Index(unit.data).Some? {
          var records := Index(unit.data).value;
          var tags := TagsFor(m, |records|);
          if |tags| == |records| && TagsPresent(k.mpu.context, active.nodes, tags) {
            var targets := Targets(k.mpu.context, active.nodes, tags, records);
            if targets.Some? {
              RelistLeaves(s, k.mpu, targets.value);
              FinishShrinks(Relist(s, k.mpu, targets.value), k.mpu);
            }
          }
        }
      } else if k in s.items {
        var bytes := Contents(cfg, unit.data, s.items[k]);
        if bytes.Some? {
          FinishShrinks(s.(out :=
                Show(s.out, Resource(k, Signature(m, s.items[k]), s.items[k].contentType, bytes.value))), k.mpu);
        }
      }
    }
  }

  lemma AfterOneMore(s: Shelf, cfg: Config, active: Catalogue, used: seq<ItemKey>, k: ItemKey)
    ensures (var t := After(s, cfg, active, used);
             Consumable(t, cfg, active, k) ==>
               k in t.queue.units && After(s, cfg, active, used + [k]) == ConsumePending(t, cfg, active, k))
  {
    assert (used + [k])[..|used|] == used;
  }

  /** Of the MPUs to retire, those that the new catalogue no longer has. */
  function Left(retired: set<MpuKey>, cat: Catalogue): set<MpuKey> { set m | m in retired && m !in cat.mpus }

  lemma RelistIs(s: Shelf, m: MpuKey, targets: map<nat, FileTarget>)
    ensures forall k :: k in KeysFor(m, targets) ==> k.item in targets
    ensures (var listed, keys := Listed(s, m), KeysFor(m, targets); var retired := listed - keys;
             Relist(s, m, targets) ==
               s.(items := (s.items - listed) + Assigned(keys, targets),
                  deferred := if retired == {} then s.deferred
                              else s.deferred[m := retired + (if m in s.deferred then s.deferred[m] else {})]))
  {
    assert forall k :: k in KeysFor(m, targets) ==> k.item in targets;
    hide Assigned;
    hide Listed;
    hide KeysFor;
  }

  lemma LeftOneMore(all: set<MpuKey>, retired: set<MpuKey>, m: MpuKey, cat: Catalogue)
    requires retired <= all && m in retired
    ensures Left(all - (retired - {m}), cat) == Left(all - retired, cat) + if m in cat.mpus then {} else {m}
    ensures m in cat.mpus ==> Left(all - (retired - {m}), cat) == Left(all - retired, cat)
  {
    var some := if m in cat.mpus then {} else {m};
    assert Left(all - (retired - {m}), cat) == Left(all - retired, cat) + some;
    assert m in cat.mpus ==> Left(all - retired, cat) + some == Left(all - retired, cat);
  }

  lemma NothingCommitted(s: Shelf, cat: Catalogue)
    ensures forall none: set<MpuKey> :: none == {} ==> CommittedShelf(s, Left(none, cat), cat, s)
  {
    EraseNone(s);
    assert Left({}, cat) == {};
    assert Without({}, cat) == {} && ItemsOf(s, {}) == {};
    forall m ensures ReplacedBy({}, cat, m) == {} {}
  }

  lemma CommitSuperseded(s: Shelf, gone: set<MpuKey>, cat: Catalogue, t: Shelf, m: MpuKey, heir: MpuKey)
    requires CommittedShelf(s, gone, cat, t) && Replaces(cat, m, heir)
    ensures CommittedShelf(s, gone + {m}, cat,
                           t.(superseded := t.superseded[heir := SupersededAt(t.superseded, heir) + {m}]))
  {
    hide Erase;
    hide ItemsOf;
    var u := t.(superseded := t.superseded[heir := SupersededAt(t.superseded, heir) + {m}]);
    assert Without(gone + {m}, cat) == Without(gone, cat);
    forall x ensures SupersededAt(u.superseded, x) == SupersededAt(s.superseded, x) + ReplacedBy(gone + {m}, cat, x) {
      assert SupersededAt(t.superseded, x) == SupersededAt(s.superseded, x) + ReplacedBy(gone, cat, x);
      if x == heir {
        assert ReplacedBy(gone + {m}, cat, x) == ReplacedBy(gone, cat, x) + {m};
      } else {
        if Replaces(cat, m, x) { OneReplacement(cat, m, x, heir); }
        assert ReplacedBy(gone + {m}, cat, x) == ReplacedBy(gone, cat, x);
      }
    }
  }

  lemma CommitErased(s: Shelf, gone: set<MpuKey>, cat: Catalogue, t: Shelf, m: MpuKey)
    requires CommittedShelf(s, gone, cat, t) && !HasReplacement(cat, m)
    ensures CommittedShelf(s, gone + {m}, cat, Erase(t, ItemsOf(t, {m})))
  {
    var w := Without(gone, cat);
    assert Without(gone + {m}, cat) == w + {m};
    EraseNextMpu(s, w, m);
    EraseElsewhere(Erase(s, ItemsOf(s, w)), t.superseded, m);
    EraseLeaves(t, ItemsOf(t, {m}));
    hide Erase;
    hide ItemsOf;
    var u := Erase(t, ItemsOf(t, {m}));
    forall x ensures SupersededAt(u.superseded, x) == SupersededAt(s.superseded, x) + ReplacedBy(gone + {m}, cat, x) {
      assert SupersededAt(t.superseded, x) == SupersededAt(s.superseded, x) + ReplacedBy(gone, cat, x);
      assert !Replaces(cat, m, x);
      assert ReplacedBy(gone + {m}, cat, x) == ReplacedBy(gone, cat, x);
    }
  }

  lemma EraseElsewhere(s: Shelf, superseded: map<MpuKey, set<MpuKey>>, m: MpuKey)
    ensures (var t := s.(superseded := superseded);
             Erase(t, ItemsOf(t, {m})) == Erase(s, ItemsOf(s, {m})).(superseded := superseded))
  {
    hide Withdraw;
    hide Discard;
    assert ItemsOf(s.(superseded := superseded), {m}) == ItemsOf(s, {m});
  }

  lemma CompleteHasVersion<V, T>(s: SectionSet<V, T>)
    requires Complete(s)
    ensures s.version.Some?
  {}
}
