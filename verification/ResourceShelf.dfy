/** What the application-resource assembler keeps about files, and what each unit does to it. */
module ResourceShelf {
  import opened Bytes
  import opened ResourcePaths
  import opened ResourceCatalogue
  import opened ResourceIndex
  import opened Totals

  datatype ItemKey = ItemKey(mpu: MpuKey, item: nat)

  datatype FileTarget = FileTarget(path: Path, contentType: seq<byte>, size: nat, version: nat,
                                   compression: nat, originalSize: Option<nat>)

  datatype DataUnit = DataUnit(download: Option<nat>, data: seq<byte>)

  datatype PublishedItem = PublishedItem(transaction: nat, download: nat, version: nat, path: Path)

  datatype PathKey = PathKey(context: nat, path: Path)

  /** A published file, as the sink receives it. */
  datatype Resource = Resource(key: ItemKey, signature: PublishedItem, contentType: seq<byte>, data: seq<byte>)

  /** Limits, and decompression to at most a given size. */
  datatype Config = Config(maxUnits: nat, maxBytes: nat, maxResources: nat, maxResource: nat,
                           inflate: (seq<byte>, nat) -> Option<seq<byte>>)

  /** What has been published, who owns each path, and what the store holds under it. */
  datatype Publication = Publication(items: map<ItemKey, PublishedItem>, paths: map<PathKey, ItemKey>,
                                     store: map<PathKey, Resource>)

  /** Units that could not be used yet, and the bytes they take. */
  datatype Queue = Queue(units: map<ItemKey, DataUnit>, bytes: int)

  datatype Shelf = Shelf(items: map<ItemKey, FileTarget>, queue: Queue, out: Publication,
                         superseded: map<MpuKey, set<MpuKey>>, deferred: map<MpuKey, set<ItemKey>>, dangling: bool)

  function EmptyShelf(): Shelf { Shelf(map[], Queue(map[], 0), Publication(map[], map[], map[]), map[], map[], false) }

  // ----- the store, which sees events only

  function StoreWith(store: map<PathKey, Resource>, r: Resource): map<PathKey, Resource> {
    store[PathKey(r.key.mpu.context, r.signature.path) := r]
  }

  function StoreWithout(store: map<PathKey, Resource>, context: nat, path: Path): map<PathKey, Resource> {
    match SafePath(path)
    case None => store
    case Some(p) => store - {PathKey(context, p)}
  }

  // ----- taking items off the shelf

  function Sizes(units: map<ItemKey, DataUnit>): map<ItemKey, nat> { map k | k in units :: |units[k].data| }

  function PathOf(k: ItemKey, p: PublishedItem): PathKey { PathKey(k.mpu.context, p.path) }

  /** The item still owns the path it was published under. */
  predicate Owns(out: Publication, k: ItemKey) {
    k in out.items && PathOf(k, out.items[k]) in out.paths && out.paths[PathOf(k, out.items[k])] == k
  }

  function OwnedPaths(out: Publication, ks: set<ItemKey>): set<PathKey> {
    set k | k in ks && Owns(out, k) :: PathOf(k, out.items[k])
  }

  /** The paths the store looks for when it is told that those are gone. */
  function Normalized(gone: set<PathKey>): set<PathKey> {
    set p | p in gone && SafePath(p.path).Some? :: PathKey(p.context, SafePath(p.path).value)
  }

  function Withdraw(out: Publication, ks: set<ItemKey>): Publication {
    Publication(out.items - ks, out.paths - OwnedPaths(out, ks), out.store - Normalized(OwnedPaths(out, ks)))
  }

  ghost function Discard(queue: Queue, ks: set<ItemKey>): Queue {
    Queue(queue.units - ks, queue.bytes - Total(Sizes(queue.units) - (queue.units.Keys - ks)))
  }

  ghost function Erase(s: Shelf, ks: set<ItemKey>): Shelf {
    s.(items := s.items - ks, out := Withdraw(s.out, ks), queue := Discard(s.queue, ks))
  }

  /** Everything known of some MPUs. */
  function ItemsOf(s: Shelf, ms: set<MpuKey>): set<ItemKey> {
    set k | k in s.items.Keys + s.out.items.Keys + s.queue.units.Keys && k.mpu in ms
  }

  // ----- the end of an update

  /** Every item of the MPU is published as its index now lists it. */
  predicate Ready(s: Shelf, m: MpuKey) {
    forall k :: k in s.items && k.mpu == m ==>
      k in s.out.items && s.out.items[k].path == s.items[k].path && s.out.items[k].version == s.items[k].version
  }

  ghost function DropSuperseded(s: Shelf, m: MpuKey): Shelf {
    if m in s.superseded then Erase(s, ItemsOf(s, s.superseded[m])).(superseded := s.superseded - {m}) else s
  }

  ghost function DropDeferred(s: Shelf, m: MpuKey): Shelf {
    if m in s.deferred then Erase(s, s.deferred[m]).(deferred := s.deferred - {m}) else s
  }

  /** Once an MPU is ready, what it replaces and what it no longer lists is taken away. */
  ghost function Finish(s: Shelf, m: MpuKey): Shelf {
    if (m !in s.superseded && m !in s.deferred) || !Ready(s, m) then s else DropDeferred(DropSuperseded(s, m), m)
  }

  // ----- publishing a file

  function Signature(m: MpuMap, t: FileTarget): PublishedItem {
    PublishedItem(m.transaction, m.download, t.version, t.path)
  }

  /** The bytes of the file, unless they are too many or cannot be decompressed. */
  function Contents(cfg: Config, data: seq<byte>, t: FileTarget): Option<seq<byte>> {
    if |data| != t.size then None
    else if t.compression == STORED then (if |data| > cfg.maxResource then None else Some(data))
    else if t.compression != 0 || t.originalSize.None? || t.originalSize.value > cfg.maxResource then None
    else
      var bytes := cfg.inflate(data, t.originalSize.value);
      if bytes.Some? && |bytes.value| == t.originalSize.value then bytes else None
  }

  function LeaveOldPath(out: Publication, k: ItemKey, path: Path): Publication {
    if k in out.items && out.items[k].path != path && Owns(out, k)
    then out.(paths := out.paths - {PathOf(k, out.items[k])},
              store := StoreWithout(out.store, k.mpu.context, out.items[k].path))
    else out
  }

  function Place(out: Publication, r: Resource): Publication {
    Publication(out.items[r.key := r.signature], out.paths[PathOf(r.key, r.signature) := r.key],
                StoreWith(out.store, r))
  }

  /** The item moves to its path, taking it over from whoever had it. */
  function Show(out: Publication, r: Resource): Publication { Place(LeaveOldPath(out, r.key, r.signature.path), r) }

  ghost function Publish(s: Shelf, cfg: Config, k: ItemKey, data: seq<byte>, m: MpuMap, t: FileTarget): Shelf {
    if k in s.out.items && s.out.items[k] == Signature(m, t) then s
    else match Contents(cfg, data, t)
         case None => s
         case Some(bytes) =>
           Finish(s.(out := Show(s.out, Resource(k, Signature(m, t), t.contentType, bytes))), k.mpu)
  }

  // ----- reading an index

  function TagsFor(m: MpuMap, count: nat): seq<nat> {
    if m.nodeTags == [] && m.mpuNode.Some? then seq(count, i => m.mpuNode.value) else m.nodeTags
  }

  function TargetOf(r: FileRecord, path: Path): FileTarget {
    FileTarget(path, r.contentType, r.size, r.version, r.compression, r.originalSize)
  }

  /** One target a record, skipping records whose path escapes; nothing when an item comes twice. */
  function Targets(context: nat, nodes: map<NodeKey, Path>, tags: seq<nat>, records: seq<FileRecord>): Option<map<nat,
      FileTarget>>
    requires |tags| == |records| && forall t :: t in tags ==> NodeKey(context, t) in nodes
    decreases |records|
  {
    if records == [] then Some(map[])
    else
      var n := |records| - 1;
      match Targets(context, nodes, tags[..n], records[..n])
      case None => None
      case Some(before) =>
        assert tags[n] in tags;
        match JoinPath(nodes[NodeKey(context, tags[n])], records[n].filename, [])
        case None => Some(before)
        case Some(path) =>
          if records[n].item in before then None else Some(before[records[n].item := TargetOf(records[n], path)])
  }

  function Listed(s: Shelf, m: MpuKey): set<ItemKey> { set k | k in s.items && k.mpu == m }

  function KeysFor(m: MpuKey, targets: map<nat, FileTarget>): set<ItemKey> { set i | i in targets :: ItemKey(m, i) }

  function Assigned(keys: set<ItemKey>, targets: map<nat, FileTarget>): map<ItemKey, FileTarget>
    requires forall k :: k in keys ==> k.item in targets
  {
    map k | k in keys :: targets[k.item]
  }

  /** The new listing replaces the old; items it no longer has are removed once it is complete. */
  function Relist(s: Shelf, m: MpuKey, targets: map<nat, FileTarget>): Shelf {
    var retired := Listed(s, m) - KeysFor(m, targets);
    s.(items := (s.items - Listed(s, m)) + Assigned(KeysFor(m, targets), targets),
       deferred := if retired == {} then s.deferred
                   else s.deferred[m := retired + (if m in s.deferred then s.deferred[m] else {})])
  }

  predicate TagsPresent(context: nat, nodes: map<NodeKey, Path>, tags: seq<nat>) {
    forall t :: t in tags ==> NodeKey(context, t) in nodes
  }

  ghost function ConsumeIndex(s: Shelf, cfg: Config, active: Catalogue, m: MpuKey, data: seq<byte>): (bool, Shelf)
    requires m in active.mpus
  {
    match Index(data)
    case None => (true, s)
    case Some(records) =>
      var tags := TagsFor(active.mpus[m], |records|);
      if |records| != |tags| then (true, s)
      else if !TagsPresent(m.context, active.nodes, tags) then (false, s)
      else if |s.items| - |Listed(s, m)| + |records| > cfg.maxResources then (true, s)
      else match Targets(m.context, active.nodes, tags, records)
           case None => (true, s)
           case Some(targets) => (true, Finish(Relist(s, m, targets), m))
  }

  /** Whether the unit has been dealt with, and the shelf after it. */
  ghost function TryConsume(s: Shelf, cfg: Config, active: Catalogue, k: ItemKey, unit: DataUnit): (bool, Shelf) {
    if k.mpu !in active.mpus then (false, s)
    else if unit.download != Some(active.mpus[k.mpu].download) then (true, s)
    else if k.item == active.mpus[k.mpu].indexItem then ConsumeIndex(s, cfg, active, k.mpu, unit.data)
    else if k !in s.items then (false, s)
    else (true, Publish(s, cfg, k, unit.data, active.mpus[k.mpu], s.items[k]))
  }

  // ----- what always holds

  /** Paths in use, what the store holds under them, and what was published, agree; every path is normal. */
  ghost predicate Agree(out: Publication, limit: nat) {
    && (forall p :: p in out.paths ==> out.paths[p] in out.items && PathOf(out.paths[p], out.items[out.paths[p]]) == p)
    && out.store.Keys == out.paths.Keys
    && (forall p :: p in out.store ==>
          out.store[p].key == out.paths[p] && out.store[p].signature == out.items[out.paths[p]])
    && (forall p :: p in out.store ==> |out.store[p].data| <= limit)
    && (forall k :: k in out.items ==> SafePath(out.items[k].path) == Some(out.items[k].path))
  }

  ghost predicate ItemsFit(items: map<ItemKey, FileTarget>, limit: nat) {
    |items| <= limit && forall k :: k in items ==> SafePath(items[k].path) == Some(items[k].path)
  }

  /** Deferred items belong to their MPU; an MPU supersedes only others of its component. */
  ghost predicate Local(superseded: map<MpuKey, set<MpuKey>>, deferred: map<MpuKey, set<ItemKey>>) {
    && (forall m, k :: m in deferred && k in deferred[m] ==> k.mpu == m)
    && (forall m, o {:trigger o in superseded[m]} :: m in superseded && o in superseded[m] ==>
          o != m && o.context == m.context && o.component == m.component)
  }

  ghost predicate QueueFits(queue: Queue, cfg: Config) {
    |queue.units| <= cfg.maxUnits && queue.bytes == Total(Sizes(queue.units)) && queue.bytes <= cfg.maxBytes
  }

  ghost predicate Sound(s: Shelf, cfg: Config) {
    && Agree(s.out, cfg.maxResource) && ItemsFit(s.items, cfg.maxResources)
    && Local(s.superseded, s.deferred) && QueueFits(s.queue, cfg)
  }

  // ----- erasing keeps it

  lemma NormalizedOwned(out: Publication, ks: set<ItemKey>)
    requires forall k :: k in out.items ==> SafePath(out.items[k].path) == Some(out.items[k].path)
    ensures Normalized(OwnedPaths(out, ks)) == OwnedPaths(out, ks)
  {
    hide SafePath;
    var gone := OwnedPaths(out, ks);
    forall p | p in gone ensures SafePath(p.path) == Some(p.path) {
      var k :| k in ks && Owns(out, k) && p == PathOf(k, out.items[k]);
    }
    forall p | p in gone ensures p in Normalized(gone) {}
  }

  lemma OwnedAre(out: Publication, ks: set<ItemKey>, limit: nat)
    requires Agree(out, limit)
    ensures forall p :: p in OwnedPaths(out, ks) <==> p in out.paths && out.paths[p] in ks
  {
    forall p | p in out.paths && out.paths[p] in ks ensures p in OwnedPaths(out, ks) {
      assert Owns(out, out.paths[p]);
    }
  }

  lemma WithdrawAgrees(out: Publication, ks: set<ItemKey>, limit: nat)
    requires Agree(out, limit)
    ensures Agree(Withdraw(out, ks), limit)
    ensures forall p :: p in Withdraw(out, ks).paths <==> p in out.paths && out.paths[p] !in ks
  {
    hide OwnedPaths;
    hide Normalized;
    hide SafePath;
    NormalizedOwned(out, ks);
    OwnedAre(out, ks, limit);
  }

  lemma SizeMinus<K, V>(m: map<K, V>, ks: set<K>)
    ensures |m - ks| <= |m|
  {
    assert (m - ks).Keys <= m.Keys;
    Fewer((m - ks).Keys, m.Keys);
  }

  lemma DiscardSizes(units: map<ItemKey, DataUnit>, ks: set<ItemKey>)
    ensures Total(Sizes(units - ks)) == Total(Sizes(units)) - Total(Sizes(units) - (units.Keys - ks))
  {
    var sizes := Sizes(units);
    assert sizes.Keys == units.Keys;
    TotalSplit(sizes, ks);
    assert Sizes(units - ks) == sizes - ks;
  }

  lemma DiscardFits(queue: Queue, ks: set<ItemKey>, cfg: Config)
    requires QueueFits(queue, cfg)
    ensures QueueFits(Discard(queue, ks), cfg)
  {
    hide Total;
    hide Sizes;
    SizeMinus(queue.units, ks);
    DiscardSizes(queue.units, ks);
  }

  lemma EraseSound(s: Shelf, ks: set<ItemKey>, cfg: Config)
    requires Sound(s, cfg)
    ensures Sound(Erase(s, ks), cfg)
  {
    hide Agree;
    hide Local;
    hide QueueFits;
    hide Withdraw;
    hide Discard;
    hide SafePath;
    WithdrawAgrees(s.out, ks, cfg.maxResource);
    DiscardFits(s.queue, ks, cfg);
    SizeMinus(s.items, ks);
  }

  lemma EraseLeaves(s: Shelf, ks: set<ItemKey>)
    ensures (var t := Erase(s, ks);
             t.superseded == s.superseded && t.deferred == s.deferred && t.dangling == s.dangling)
  {}

  /** Erasing in two goes is erasing once. */
  lemma EraseTwice(s: Shelf, a: set<ItemKey>, b: set<ItemKey>)
    ensures Erase(Erase(s, a), b) == Erase(s, a + b)
  {
    hide Withdraw;
    hide Discard;
    WithdrawTwice(s.out, a, b);
    DiscardTwice(s.queue, a, b);
    assert s.items - a - b == s.items - (a + b);
  }

  lemma WithdrawTwice(out: Publication, a: set<ItemKey>, b: set<ItemKey>)
    ensures Withdraw(Withdraw(out, a), b) == Withdraw(out, a + b)
  {
    hide OwnedPaths;
    hide Normalized;
    var t := Withdraw(out, a);
    OwnedAfter(out, a, b);
    NormalizedUnion(OwnedPaths(out, a), OwnedPaths(t, b));
    assert t.items - b == out.items - (a + b);
    assert t.paths - OwnedPaths(t, b) == out.paths - OwnedPaths(out, a + b);
    assert t.store - Normalized(OwnedPaths(t, b)) == out.store - Normalized(OwnedPaths(out, a + b));
  }

  lemma NormalizedUnion(a: set<PathKey>, b: set<PathKey>)
    ensures Normalized(a + b) == Normalized(a) + Normalized(b)
  {
    hide SafePath;
  }

  lemma OwnedAfter(out: Publication, a: set<ItemKey>, b: set<ItemKey>)
    ensures OwnedPaths(out, a + b) == OwnedPaths(out, a) + OwnedPaths(Withdraw(out, a), b)
  {
    hide Normalized;
    var t := Withdraw(out, a);
    forall k | k in b - a ensures Owns(t, k) <==> Owns(out, k) {
      if Owns(out, k) { assert PathOf(k, out.items[k]) !in OwnedPaths(out, a); }
    }
    forall p | p in OwnedPaths(out, a + b) ensures p in OwnedPaths(out, a) + OwnedPaths(t, b) {
      var k :| k in a + b && Owns(out, k) && p == PathOf(k, out.items[k]);
      if k !in a { assert Owns(t, k); }
    }
    forall p | p in OwnedPaths(t, b) ensures p in OwnedPaths(out, a + b) {
      var k :| k in b && Owns(t, k) && p == PathOf(k, t.items[k]);
      assert Owns(out, k);
    }
  }

  lemma DiscardTwice(queue: Queue, a: set<ItemKey>, b: set<ItemKey>)
    ensures Discard(Discard(queue, a), b) == Discard(queue, a + b)
  {
    var units := queue.units;
    var both := Sizes(units) - (units.Keys - (a + b));
    TotalSplit(both, a);
    assert both - a == Sizes(units - a) - ((units - a).Keys - b);
    assert both - (both.Keys - a) == Sizes(units) - (units.Keys - a);
    assert units - a - b == units - (a + b);
  }

  lemma LocalLess(superseded: map<MpuKey, set<MpuKey>>, deferred: map<MpuKey, set<ItemKey>>, m: MpuKey)
    requires Local(superseded, deferred)
    ensures Local(superseded - {m}, deferred) && Local(superseded, deferred - {m})
  {}

  lemma DropSound(s: Shelf, m: MpuKey, cfg: Config)
    requires Sound(s, cfg)
    ensures Sound(DropSuperseded(s, m), cfg) && Sound(DropDeferred(s, m), cfg)
  {
    hide Agree;
    hide ItemsFit;
    hide Local;
    hide QueueFits;
    hide Withdraw;
    hide Discard;
    hide ItemsOf;
    LocalLess(s.superseded, s.deferred, m);
    if m in s.superseded { EraseSound(s, ItemsOf(s, s.superseded[m]), cfg); }
    if m in s.deferred { EraseSound(s, s.deferred[m], cfg); }
  }

  lemma FinishSound(s: Shelf, m: MpuKey, cfg: Config)
    requires Sound(s, cfg)
    ensures Sound(Finish(s, m), cfg)
  {
    hide Sound;
    hide DropSuperseded;
    hide DropDeferred;
    DropSound(s, m, cfg);
    DropSound(DropSuperseded(s, m), m, cfg);
  }

  // ----- publishing keeps it

  lemma ContentsFit(cfg: Config, data: seq<byte>, t: FileTarget)
    ensures Contents(cfg, data, t).Some? ==> |Contents(cfg, data, t).value| <= cfg.maxResource
  {}

  lemma LeaveAgrees(out: Publication, k: ItemKey, path: Path, limit: nat)
    requires Agree(out, limit)
    ensures (var t := LeaveOldPath(out, k, path);
             && Agree(t, limit) && t.items == out.items
             && forall p :: p in t.paths && t.paths[p] == k ==> p == PathKey(k.mpu.context, path))
  {
    hide SafePath;
    if Owns(out, k) { assert SafePath(out.items[k].path) == Some(out.items[k].path); }
  }

  lemma PlaceAgrees(out: Publication, r: Resource, limit: nat)
    requires Agree(out, limit) && |r.data| <= limit && SafePath(r.signature.path) == Some(r.signature.path)
    requires forall p :: p in out.paths && out.paths[p] == r.key ==> p == PathOf(r.key, r.signature)
    ensures Agree(Place(out, r), limit)
  {
    hide SafePath;
  }

  lemma ShowAgrees(out: Publication, r: Resource, limit: nat)
    requires Agree(out, limit) && |r.data| <= limit && SafePath(r.signature.path) == Some(r.signature.path)
    ensures Agree(Show(out, r), limit)
  {
    hide Agree;
    hide Place;
    hide LeaveOldPath;
    LeaveAgrees(out, r.key, r.signature.path, limit);
    PlaceAgrees(LeaveOldPath(out, r.key, r.signature.path), r, limit);
  }

  lemma PublishSound(s: Shelf, cfg: Config, k: ItemKey, data: seq<byte>, m: MpuMap)
    requires Sound(s, cfg) && k in s.items
    ensures Sound(Publish(s, cfg, k, data, m, s.items[k]), cfg)
  {
    hide Finish;
    hide Show;
    hide Contents;
    hide SafePath;
    hide Agree;
    hide Local;
    hide QueueFits;
    var t := s.items[k];
    assert SafePath(t.path) == Some(t.path);
    var bytes := Contents(cfg, data, t);
    if !(k in s.out.items && s.out.items[k] == Signature(m, t)) && bytes.Some? {
      ContentsFit(cfg, data, t);
      var r := Resource(k, Signature(m, t), t.contentType, bytes.value);
      ShowAgrees(s.out, r, cfg.maxResource);
      FinishSound(s.(out := Show(s.out, r)), k.mpu, cfg);
    }
  }

  // ----- reading an index keeps it

  lemma {:induction false} TargetsGood(context: nat, nodes: map<NodeKey, Path>, tags: seq<nat>,
                                       records: seq<FileRecord>)
    requires |tags| == |records| && forall t :: t in tags ==> NodeKey(context, t) in nodes
    requires Targets(context, nodes, tags, records).Some?
    ensures (var ts := Targets(context, nodes, tags, records).value;
             |ts| <= |records| && forall i :: i in ts ==> SafePath(ts[i].path) == Some(ts[i].path))
    decreases |records|
  {
    hide SafePath;
    hide JoinPath;
    if records != [] {
      var n := |records| - 1;
      TargetsGood(context, nodes, tags[..n], records[..n]);
      assert tags[n] in tags;
      JoinPathNormal(nodes[NodeKey(context, tags[n])], records[n].filename, []);
    }
  }

  lemma {:induction false} KeysForSize(m: MpuKey, ids: set<nat>, keys: set<ItemKey>)
    requires forall k :: k in keys <==> k.mpu == m && k.item in ids
    ensures |keys| == |ids|
  {
    if ids == {} {
      assert keys == {};
    } else {
      var x :| x in ids;
      assert ItemKey(m, x) in keys;
      KeysForSize(m, ids - {x}, keys - {ItemKey(m, x)});
    }
  }

  lemma RelistSize(s: Shelf, m: MpuKey, targets: map<nat, FileTarget>)
    ensures |Relist(s, m, targets).items| == |s.items| - |Listed(s, m)| + |targets|
  {
    RelistKeys(s, m, targets);
    RelistDisjoint(s, m, targets);
    KeysForSize(m, targets.Keys, KeysFor(m, targets));
    hide Relist;
    hide Listed;
    hide KeysFor;
    SwapSizes(s.items.Keys, Listed(s, m), KeysFor(m, targets), Relist(s, m, targets).items.Keys);
  }

  lemma SwapSizes<K>(all: set<K>, out: set<K>, into: set<K>, result: set<K>)
    requires out <= all && result == (all - out) + into && all - out !! into
    ensures |result| == |all| - |out| + |into|
  {
    DisjointSizes(all - out, into);
    DisjointSizes(all - out, out);
    assert (all - out) + out == all;
  }

  lemma RelistDisjoint(s: Shelf, m: MpuKey, targets: map<nat, FileTarget>)
    ensures s.items.Keys - Listed(s, m) !! KeysFor(m, targets)
    ensures Listed(s, m) <= s.items.Keys
  {}

  lemma RelistKeys(s: Shelf, m: MpuKey, targets: map<nat, FileTarget>)
    ensures Relist(s, m, targets).items.Keys == (s.items.Keys - Listed(s, m)) + KeysFor(m, targets)
  {
    hide Listed;
    assert forall k :: k in KeysFor(m, targets) ==> k.item in targets;
    hide KeysFor;
    var fresh0 := map k | k in KeysFor(m, targets) :: targets[k.item];
    assert fresh0.Keys == KeysFor(m, targets);
    assert (s.items - Listed(s, m)).Keys == s.items.Keys - Listed(s, m);
  }

  lemma DisjointSizes<K>(a: set<K>, b: set<K>)
    requires a !! b
    ensures |a + b| == |a| + |b|
  {}

  lemma RelistNormal(s: Shelf, m: MpuKey, targets: map<nat, FileTarget>)
    requires forall k :: k in s.items ==> SafePath(s.items[k].path) == Some(s.items[k].path)
    requires forall i :: i in targets ==> SafePath(targets[i].path) == Some(targets[i].path)
    ensures (var items := Relist(s, m, targets).items;
             forall k :: k in items ==> SafePath(items[k].path) == Some(items[k].path))
  {
    hide SafePath;
    RelistKeys(s, m, targets);
    var items := Relist(s, m, targets).items;
    forall k | k in items ensures SafePath(items[k].path) == Some(items[k].path) {
      if k in KeysFor(m, targets) {
        var i :| i in targets && k == ItemKey(m, i);
        assert items[k] == targets[i];
      } else {
        assert items[k] == s.items[k];
      }
    }
  }

  lemma RelistLocal(s: Shelf, m: MpuKey, targets: map<nat, FileTarget>)
    requires Local(s.superseded, s.deferred)
    ensures (var t := Relist(s, m, targets); Local(t.superseded, t.deferred))
  {
    var retired := Listed(s, m) - KeysFor(m, targets);
    assert forall k :: k in retired ==> k.mpu == m;
    RelistDeferred(s, m, targets, retired);
    hide Relist;
  }

  lemma RelistDeferred(s: Shelf, m: MpuKey, targets: map<nat, FileTarget>, retired: set<ItemKey>)
    requires retired == Listed(s, m) - KeysFor(m, targets)
    ensures Relist(s, m, targets).superseded == s.superseded
    ensures Relist(s, m, targets).deferred == if retired == {} then s.deferred
            else s.deferred[m := retired + (if m in s.deferred then s.deferred[m] else {})]
  {
    hide Listed;
    hide KeysFor;
  }

  lemma RelistSound(s: Shelf, m: MpuKey, targets: map<nat, FileTarget>, cfg: Config)
    requires Sound(s, cfg) && |s.items| - |Listed(s, m)| + |targets| <= cfg.maxResources
    requires forall i :: i in targets ==> SafePath(targets[i].path) == Some(targets[i].path)
    ensures Sound(Relist(s, m, targets), cfg)
  {
    RelistSize(s, m, targets);
    RelistNormal(s, m, targets);
    RelistLocal(s, m, targets);
    RelistLeaves(s, m, targets);
    hide Agree;
    hide Local;
    hide QueueFits;
    hide Relist;
    hide Listed;
    hide SafePath;
  }

  lemma RelistLeaves(s: Shelf, m: MpuKey, targets: map<nat, FileTarget>)
    ensures (var t := Relist(s, m, targets);
             t.out == s.out && t.queue == s.queue && t.superseded == s.superseded && t.dangling == s.dangling)
  {}

  lemma ConsumeIndexSound(s: Shelf, cfg: Config, active: Catalogue, m: MpuKey, data: seq<byte>)
    requires Sound(s, cfg) && m in active.mpus
    ensures Sound(ConsumeIndex(s, cfg, active, m, data).1, cfg)
  {
    hide Sound;
    hide Finish;
    hide Relist;
    hide Index;
    hide SafePath;
    hide JoinPath;
    if Index(data).Some? {
      var records := Index(data).value;
      var tags := TagsFor(active.mpus[m], |records|);
      if |records| == |tags| && TagsPresent(m.context, active.nodes, tags)
         && |s.items| - |Listed(s, m)| + |records| <= cfg.maxResources {
        var targets := Targets(m.context, active.nodes, tags, records);
        if targets.Some? {
          TargetsGood(m.context, active.nodes, tags, records);
          RelistSound(s, m, targets.value, cfg);
          FinishSound(Relist(s, m, targets.value), m, cfg);
        }
      }
    }
  }

  /** Whatever unit is tried, the shelf, the paths and the store still agree and stay within their limits. */
  lemma TryConsumeSound(s: Shelf, cfg: Config, active: Catalogue, k: ItemKey, unit: DataUnit)
    requires Sound(s, cfg)
    ensures Sound(TryConsume(s, cfg, active, k, unit).1, cfg)
    ensures !TryConsume(s, cfg, active, k, unit).0 ==> TryConsume(s, cfg, active, k, unit).1 == s
  {
    hide Sound;
    hide ConsumeIndex;
    hide Publish;
    if k.mpu in active.mpus {
      ConsumeIndexSound(s, cfg, active, k.mpu, unit.data);
      IndexKeepsWhenWaiting(s, cfg, active, k.mpu, unit.data);
      if k in s.items { PublishSound(s, cfg, k, unit.data, active.mpus[k.mpu]); }
    }
  }

  lemma IndexKeepsWhenWaiting(s: Shelf, cfg: Config, active: Catalogue, m: MpuKey, data: seq<byte>)
    requires m in active.mpus
    ensures !ConsumeIndex(s, cfg, active, m, data).0 ==> ConsumeIndex(s, cfg, active, m, data).1 == s
  {
    hide Finish;
    hide Index;
    hide Targets;
  }

  // ----- the lookup of a node never fails

  /** With a catalogue that was built consistent, an index is never left waiting for a node. */
  lemma NodesAlwaysThere(s: Shelf, cfg: Config, active: Catalogue, m: MpuKey, data: seq<byte>)
    requires m in active.mpus && Grounded(m.context, active.mpus[m], active.nodes.Keys)
    ensures ConsumeIndex(s, cfg, active, m, data).0
  {
    hide Finish;
    hide Index;
    hide Targets;
    if Index(data).Some? {
      var tags := TagsFor(active.mpus[m], |Index(data).value|);
      forall t | t in tags ensures NodeKey(m.context, t) in active.nodes {
        assert t in References(active.mpus[m]);
      }
    }
  }

  /** So a unit waits exactly while its MPU is unknown, or its download matches, it is no index and no index lists
      it. */
  lemma WaitsExactly(s: Shelf, cfg: Config, active: Catalogue, k: ItemKey, unit: DataUnit)
    requires forall m :: m in active.mpus ==> Grounded(m.context, active.mpus[m], active.nodes.Keys)
    ensures !TryConsume(s, cfg, active, k, unit).0 <==>
            k.mpu !in active.mpus
            || (unit.download == Some(active.mpus[k.mpu].download)
                && k.item != active.mpus[k.mpu].indexItem && k !in s.items)
  {
    hide ConsumeIndex;
    hide Publish;
    hide Grounded;
    if k.mpu in active.mpus { NodesAlwaysThere(s, cfg, active, k.mpu, unit.data); }
  }
}
