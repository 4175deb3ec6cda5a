/** What the operations on application resources bring about: files appear, listings change, updates end. */
module ResourceEffects {
  import opened Bytes
  import opened ResourcePaths
  import opened ResourceIndex
  import opened ResourceCatalogue
  import opened ResourceShelf
  import opened ResourceRuns
  import opened Totals

  // ----- files appear

  /** Erasing other items leaves a file where it is. */
  lemma ErasedOthersStay(s: Shelf, ks: set<ItemKey>, p: PathKey, limit: nat)
    requires Agree(s.out, limit) && p in s.out.paths && s.out.paths[p] !in ks
    ensures (var t := Erase(s, ks);
             && p in t.out.paths && t.out.paths[p] == s.out.paths[p]
             && p in t.out.store && t.out.store[p] == s.out.store[p])
  {
    hide SafePath;
    WithdrawAgrees(s.out, ks, limit);
    hide OwnedPaths;
    hide Normalized;
    hide Discard;
  }

  lemma FinishKeepsFile(s: Shelf, k: ItemKey, p: PathKey, cfg: Config)
    requires Sound(s, cfg) && !AwaitsRemoval(s, k) && p in s.out.paths && s.out.paths[p] == k
    ensures (var t := Finish(s, k.mpu); p in t.out.store && t.out.store[p] == s.out.store[p])
  {
    hide Erase;
    hide Agree;
    hide QueueFits;
    hide ItemsFit;
    hide Ready;
    var t := DropSuperseded(s, k.mpu);
    assert p in s.out.paths;
    if k.mpu in s.superseded {
      var ks := ItemsOf(s, s.superseded[k.mpu]);
      assert k.mpu !in s.superseded[k.mpu] && k !in ks;
      ErasedOthersStay(s, ks, p, cfg.maxResource);
    }
    DropSound(s, k.mpu, cfg);
    DropLeaves(s, k.mpu);
    if k.mpu in t.deferred { ErasedOthersStay(t, t.deferred[k.mpu], p, cfg.maxResource); }
    StoreKeys(s.out, cfg.maxResource);
  }

  lemma StoreKeys(out: Publication, limit: nat)
    requires Agree(out, limit)
    ensures out.store.Keys == out.paths.Keys
  {}

  lemma DropLeaves(s: Shelf, m: MpuKey)
    ensures DropSuperseded(s, m).deferred == s.deferred
  {
    hide Withdraw;
    hide Discard;
  }

  /** A new file with good bytes is in the store afterwards, under its path and with those bytes; only one that
      itself awaits removal may be gone again. */
  lemma FileAppears(s: Shelf, cfg: Config, active: Catalogue, k: ItemKey, unit: DataUnit)
    requires Sound(s, cfg) && k in s.items && k.mpu in active.mpus && !AwaitsRemoval(s, k)
    requires unit.download == Some(active.mpus[k.mpu].download) && k.item != active.mpus[k.mpu].indexItem
    requires Publishes(s, cfg, k, unit.data, active.mpus[k.mpu], s.items[k])
    ensures (var (used, t) := TryConsume(s, cfg, active, k, unit);
             var target := s.items[k];
             && used
             && Get(t.out.store, k.mpu.context, target.path)
                == Some(Resource(k, Signature(active.mpus[k.mpu], target), target.contentType,
                                 Contents(cfg, unit.data, target).value)))
  {
    var m, target := active.mpus[k.mpu], s.items[k];
    var bytes := Contents(cfg, unit.data, target).value;
    var r := Resource(k, Signature(m, target), target.contentType, bytes);
    assert SafePath(target.path) == Some(target.path);
    ContentsFit(cfg, unit.data, target);
    hide SafePath;
    hide Contents;
    ShowAgrees(s.out, r, cfg.maxResource);
    ShowPuts(s.out, r);
    hide Show;
    hide Agree;
    FinishKeepsFile(s.(out := Show(s.out, r)), k, PathKey(k.mpu.context, target.path), cfg);
    hide Finish;
  }

  lemma ShowPuts(out: Publication, r: Resource)
    ensures (var p := PathOf(r.key, r.signature);
             && p in Show(out, r).paths && Show(out, r).paths[p] == r.key
             && p in Show(out, r).store && Show(out, r).store[p] == r)
  {
    hide LeaveOldPath;
  }

  /** The bytes of a file, told from its unit and its record: the size is right; and either the file is stored as it is
      and no longer than the limit, or it is compressed in the one known way, its size before that is given and
      within the limit, and decompressing yields just so many bytes. */
  predicate Yields(cfg: Config, data: seq<byte>, t: FileTarget, bytes: seq<byte>) {
    && |data| == t.size
    && if t.compression == 0xff then |data| <= cfg.maxResource && bytes == data
       else
         && t.compression == 0 && t.originalSize.Some? && t.originalSize.value <= cfg.maxResource
         && cfg.inflate(data, t.originalSize.value) == Some(bytes) && |bytes| == t.originalSize.value
  }

  /** The file is published already under these signature and path. */
  predicate IsCurrent(s: Shelf, k: ItemKey, m: MpuMap, t: FileTarget) {
    k in s.out.items && s.out.items[k] == PublishedItem(m.transaction, m.download, t.version, t.path)
  }

  /** A listed file that arrives is left aside when it is current or yields no bytes, and is otherwise found under
      its path with its key, its signature, its type and its bytes, unless it awaits removal itself. */
  lemma FileTaken(s: Shelf, cfg: Config, active: Catalogue, k: ItemKey, unit: DataUnit, bytes: seq<byte>)
    requires Sound(s, cfg) && k in s.items && k.mpu in active.mpus
    requires unit.download == Some(active.mpus[k.mpu].download) && k.item != active.mpus[k.mpu].indexItem
    ensures (var (used, t) := TryConsume(s, cfg, active, k, unit);
             var m, target := active.mpus[k.mpu], s.items[k];
             && used
             && (IsCurrent(s, k, m, target) || (forall b :: !Yields(cfg, unit.data, target, b)) ==> t == s)
             && (!IsCurrent(s, k, m, target) && Yields(cfg, unit.data, target, bytes) && !AwaitsRemoval(s, k) ==>
                   Get(t.out.store, k.mpu.context, target.path)
                   == Some(Resource(k, PublishedItem(m.transaction, m.download, target.version, target.path),
                                    target.contentType, bytes))))
  {
    hide Sound;
    hide Get;
    hide Finish;
    hide Show;
    hide AwaitsRemoval;
    var m, target := active.mpus[k.mpu], s.items[k];
    ContentsAreYielded(cfg, unit.data, target);
    if Publishes(s, cfg, k, unit.data, m, target) && !AwaitsRemoval(s, k) { FileAppears(s, cfg, active, k, unit); }
    hide Yields;
    hide Contents;
  }

  lemma ContentsAreYielded(cfg: Config, data: seq<byte>, t: FileTarget)
    ensures forall b :: Yields(cfg, data, t, b) <==> Contents(cfg, data, t) == Some(b)
  {
  }

  // ----- an index lists its files

  /** The target a record stands for, unless its path escapes. */
  function TargetAt(context: nat, nodes: map<NodeKey, Path>, tag: nat, r: FileRecord): Option<FileTarget>
    requires NodeKey(context, tag) in nodes
  {
    match JoinPath(nodes[NodeKey(context, tag)], r.filename, [])
    case None => None
    case Some(path) => Some(FileTarget(path, r.contentType, r.size, r.version, r.compression, r.originalSize))
  }

  /** Every target is that of a record with its item. */
  lemma {:induction false} TargetsFrom(context: nat, nodes: map<NodeKey, Path>, tags: seq<nat>,
                                       records: seq<FileRecord>, i: nat)
    returns (n: nat)
    requires |tags| == |records| && TagsPresent(context, nodes, tags)
    requires Targets(context, nodes, tags, records).Some? && i in Targets(context, nodes, tags, records).value
    ensures n < |records| && tags[n] in tags && records[n].item == i
    ensures TargetAt(context, nodes, tags[n], records[n]) == Some(Targets(context, nodes, tags, records).value[i])
    decreases |records|
  {
    hide JoinPath;
    var last := |records| - 1;
    assert tags[last] in tags;
    var before := Targets(context, nodes, tags[..last], records[..last]).value;
    if i in before {
      n := TargetsFrom(context, nodes, tags[..last], records[..last], i);
      assert tags[n] == tags[..last][n] && records[n] == records[..last][n];
    } else {
      n := last;
    }
  }

  /** And every record whose path does not escape has its target. */
  lemma {:induction false} TargetsInto(context: nat, nodes: map<NodeKey, Path>, tags: seq<nat>,
                                       records: seq<FileRecord>, n: nat)
    requires |tags| == |records| && TagsPresent(context, nodes, tags) && n < |records| && tags[n] in tags
    requires Targets(context, nodes, tags, records).Some?
    requires TargetAt(context, nodes, tags[n], records[n]).Some?
    ensures (var targets := Targets(context, nodes, tags, records).value; var i := records[n].item;
             i in targets && Some(targets[i]) == TargetAt(context, nodes, tags[n], records[n]))
    decreases |records|
  {
    hide JoinPath;
    var last := |records| - 1;
    assert tags[last] in tags;
    if n < last {
      assert tags[n] == tags[..last][n] && records[n] == records[..last][n];
      TargetsInto(context, nodes, tags[..last], records[..last], n);
    }
  }

  /** A file with a proper name, in a node with a proper path, is stored under that path, a slash and its name, once it
      is listed by the index that has its record and arrives good. */
  lemma FileStoredByName(s: Shelf, cfg: Config, active: Catalogue, tags: seq<nat>, records: seq<FileRecord>, n: nat,
                         k: ItemKey, unit: DataUnit)
    requires Sound(s, cfg) && k in s.items && k.mpu in active.mpus && !AwaitsRemoval(s, k)
    requires unit.download == Some(active.mpus[k.mpu].download) && k.item != active.mpus[k.mpu].indexItem
    requires Publishes(s, cfg, k, unit.data, active.mpus[k.mpu], s.items[k])
    requires |tags| == |records| && TagsPresent(k.mpu.context, active.nodes, tags) && n < |records| && tags[n] in tags
    requires Targets(k.mpu.context, active.nodes, tags, records).Some? && k.item == records[n].item
    requires k.item in Targets(k.mpu.context, active.nodes, tags, records).value ==>
               s.items[k] == Targets(k.mpu.context, active.nodes, tags, records).value[k.item]
    requires (var node := active.nodes[NodeKey(k.mpu.context, tags[n])];
              Normal(node) && node != [] && Normal(records[n].filename) && records[n].filename != [])
    ensures (var t := TryConsume(s, cfg, active, k, unit).1;
             var node := active.nodes[NodeKey(k.mpu.context, tags[n])];
             var path := node + [0x2f] + records[n].filename;
             && Get(t.out.store, k.mpu.context, path).Some?
             && Get(t.out.store, k.mpu.context, path).value.key == k
             && Get(t.out.store, k.mpu.context, path).value.signature.path == path)
  {
    hide Targets;
    hide TryConsume;
    hide Get;
    hide Publishes;
    var node, name := active.nodes[NodeKey(k.mpu.context, tags[n])], records[n].filename;
    JoinPathOfNormal(node, name, name);
    TargetsInto(k.mpu.context, active.nodes, tags, records, n);
    FileAppears(s, cfg, active, k, unit);
    hide Normal;
    hide JoinPath;
  }

  lemma RelistItem(s: Shelf, m: MpuKey, targets: map<nat, FileTarget>, k: ItemKey)
    requires k.mpu == m
    ensures (var r := Relist(s, m, targets);
             && (k in r.items <==> k.item in targets)
             && (k in r.items ==> r.items[k] == targets[k.item]))
  {
    RelistKeys(s, m, targets);
    if k.item in targets { assert k == ItemKey(m, k.item) && k in KeysFor(m, targets); }
    if k in KeysFor(m, targets) {
      var i :| i in targets && k == ItemKey(m, i);
    } else {
      assert k in s.items ==> k in Listed(s, m);
    }
  }

  // ----- updates end

  /** Once everything an MPU lists is published, nothing of the MPUs it supersedes and none of its deferred items
      is left anywhere, and the update is forgotten; before that it changes nothing. */
  lemma UpdateEnds(s: Shelf, m: MpuKey, k: ItemKey)
    ensures (var t := Finish(s, m);
             if exists j :: j in s.items && j.mpu == m
                            && !(j in s.out.items && s.out.items[j].path == s.items[j].path
                                 && s.out.items[j].version == s.items[j].version)
             then t == s
             else
               && m !in t.superseded && m !in t.deferred
               && (k.mpu in SupersededAt(s.superseded, m) || (m in s.deferred && k in s.deferred[m]) ==>
                     k !in t.items && k !in t.out.items && k !in t.queue.units))
  {
    ReadyExactly(s, m);
    hide Ready;
    hide OwnedPaths;
    hide Normalized;
    hide Discard;
    DropLeaves(s, m);
    DropGone(s, m, k);
    NothingAwaited(s, m);
    var t := DropSuperseded(s, m);
    DropGone(t, m, k);
    hide Erase;
    hide DropSuperseded;
    hide DropDeferred;
  }

  lemma ReadyExactly(s: Shelf, m: MpuKey)
    ensures Ready(s, m) <==> !exists j :: j in s.items && j.mpu == m
                                          && !(j in s.out.items && s.out.items[j].path == s.items[j].path
                                               && s.out.items[j].version == s.items[j].version)
  {
  }

  // ----- what has to wait

  /** Offering a unit that cannot be used: it is kept, in place of one that waits for the same item, unless more units
      or bytes would wait than may; then nothing changes. */
  lemma WaitingIsKept(cfg: Config, s: Shelf, active: Catalogue, k: ItemKey, unit: DataUnit, t: Shelf)
    requires QueueFits(s.queue, cfg) && UnitNext(cfg, s, active, k, unit, t) && !TryConsume(s, cfg, active, k, unit).0
    ensures (var units := s.queue.units[k := unit];
             if |units| > cfg.maxUnits || Total(Sizes(units)) > cfg.maxBytes then t == s
             else Retried(s.(queue := Queue(units, Total(Sizes(units)))), cfg, active, t))
  {
    hide TryConsume;
    hide Retried;
    WithUnit(s.queue.units, k, unit);
    hide Total;
    hide Sizes;
  }

  lemma WithUnit(units: map<ItemKey, DataUnit>, k: ItemKey, unit: DataUnit)
    ensures (var more := units[k := unit];
             && |more| == |units| + (if k in units then 0 else 1)
             && Total(Sizes(more)) == Total(Sizes(units)) - (if k in units then |units[k].data| else 0) + |unit.data|)
  {
    hide Total;
    hide Sizes;
    SizesWith(units, k, unit);
    TotalUpdate(Sizes(units), k, |unit.data|);
    OneMoreKey(units, k, unit);
  }

  lemma SizesWith(units: map<ItemKey, DataUnit>, k: ItemKey, unit: DataUnit)
    ensures Sizes(units[k := unit]) == Sizes(units)[k := |unit.data|]
    ensures (k in Sizes(units) <==> k in units) && (k in units ==> Sizes(units)[k] == |units[k].data|)
  {
  }

  lemma OneMoreKey<K, V>(m: map<K, V>, k: K, v: V)
    ensures |m[k := v]| == |m| + if k in m then 0 else 1
  {
    if k in m { assert m[k := v].Keys == m.Keys; } else { assert m[k := v].Keys == m.Keys + {k}; }
  }

  // ----- who takes over

  /** Sequence numbers in two halves: an MPU is replaced by the one of its context, component and upper half whose lower
      half is the least in the new catalogue. */
  lemma HeirExactly(cat: Catalogue, gone: MpuKey, heir: MpuKey, upper: nat, lower: nat)
    requires lower < 0x1_0000 && gone.sequence == upper * 0x1_0000 + lower
    ensures Replaces(cat, gone, heir) <==>
            exists w: nat :: w < 0x1_0000 && heir == Sibling(gone, upper, w) && heir in cat.mpus
                && forall v: nat :: v < w ==> Sibling(gone, upper, v) !in cat.mpus
  {
    assert gone.sequence / 0x1_0000 == upper;
    if Replaces(cat, gone, heir) {
      var w := heir.sequence % 0x1_0000;
      assert heir.sequence == upper * 0x1_0000 + w;
      assert heir == Sibling(gone, upper, w);
      forall v: nat | v < w
        ensures Sibling(gone, upper, v) !in cat.mpus
      {
        assert (upper * 0x1_0000 + v) / 0x1_0000 == upper;
        assert Sibling(gone, upper, v) in cat.mpus ==> Similar(gone, Sibling(gone, upper, v));
      }
    }
    forall w: nat | w < 0x1_0000 && heir == Sibling(gone, upper, w) && heir in cat.mpus
                    && forall v: nat :: v < w ==> Sibling(gone, upper, v) !in cat.mpus
      ensures Replaces(cat, gone, heir)
    {
      assert (upper * 0x1_0000 + w) / 0x1_0000 == upper;
      forall o | o in cat.mpus && Similar(gone, o)
        ensures heir.sequence <= o.sequence
      {
        assert o == Sibling(gone, upper, o.sequence % 0x1_0000);
      }
    }
  }

  function Sibling(m: MpuKey, upper: nat, lower: nat): MpuKey { m.(sequence := upper * 0x1_0000 + lower) }

  lemma NothingAwaited(s: Shelf, m: MpuKey)
    ensures m !in s.superseded ==> DropSuperseded(s, m) == s
    ensures m !in s.deferred ==> DropDeferred(s, m) == s
  {}

  predicate Known(s: Shelf, k: ItemKey) { k in s.items || k in s.out.items || k in s.queue.units }

  lemma DropGone(s: Shelf, m: MpuKey, k: ItemKey)
    ensures (var t := DropSuperseded(s, m);
             && m !in t.superseded && t.deferred == s.deferred && (Known(t, k) ==> Known(s, k))
             && (k.mpu in SupersededAt(s.superseded, m) ==> !Known(t, k)))
    ensures (var t := DropDeferred(s, m);
             && m !in t.deferred && t.superseded == s.superseded && (Known(t, k) ==> Known(s, k))
             && (m in s.deferred && k in s.deferred[m] ==> !Known(t, k)))
  {
    hide OwnedPaths;
    hide Normalized;
    hide Discard;
    if m in s.superseded { ErasedKnown(s, ItemsOf(s, s.superseded[m]), k); }
    if m in s.deferred { ErasedKnown(s, s.deferred[m], k); }
    hide Withdraw;
  }

  lemma ErasedKnown(s: Shelf, ks: set<ItemKey>, k: ItemKey)
    ensures Known(Erase(s, ks), k) <==> Known(s, k) && k !in ks
  {
    hide OwnedPaths;
    hide Normalized;
  }

  /** A commit itself takes away the MPUs that have no heir in the new catalogue, and nothing else. */
  lemma CommitTakesOrphans(s: Shelf, gone: set<MpuKey>, cat: Catalogue, t: Shelf, k: ItemKey)
    requires CommittedShelf(s, gone, cat, t)
    ensures Known(t, k) <==> Known(s, k) && !(k.mpu in gone && !HasReplacement(cat, k.mpu))
    ensures k.mpu in gone && HasReplacement(cat, k.mpu) ==>
              exists heir :: Replaces(cat, k.mpu, heir) && k.mpu in SupersededAt(t.superseded, heir)
  {
    var ks := ItemsOf(s, Without(gone, cat));
    ErasedKnown(s, ks, k);
    assert Known(t, k) == Known(Erase(s, ks), k);
    hide Erase;
    if k.mpu in gone && HasReplacement(cat, k.mpu) {
      var heir :| Replaces(cat, k.mpu, heir);
      assert k.mpu in ReplacedBy(gone, cat, heir);
      assert SupersededAt(t.superseded, heir) == SupersededAt(s.superseded, heir) + ReplacedBy(gone, cat, heir);
    }
  }
}
