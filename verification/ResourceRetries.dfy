/** The retry loop of the resource assembler: what it leaves waiting, and when it loses its own iterator. */
module ResourceRetries {
  import opened Bytes
  import opened ResourcePaths
  import opened ResourceIndex
  import opened ResourceCatalogue
  import opened ResourceShelf
  import opened ResourceRuns
  import opened ResourceEffects

  // ----- what an index does to one item

  predicate AllGrounded(active: Catalogue) {
    forall m :: m in active.mpus ==> Grounded(m.context, active.mpus[m], active.nodes.Keys)
  }

  /** The targets of an index that is taken: it parses, its tags match its records, the limit is kept, and no item
      comes twice. */
  function Accepted(s: Shelf, cfg: Config, active: Catalogue, m: MpuKey, data: seq<byte>): Option<map<nat, FileTarget>>
    requires m in active.mpus
  {
    match Index(data)
    case None => None
    case Some(records) =>
      var tags := TagsFor(active.mpus[m], |records|);
      if |records| != |tags| || !TagsPresent(m.context, active.nodes, tags)
         || |s.items| - |Listed(s, m)| + |records| > cfg.maxResources
      then None else Targets(m.context, active.nodes, tags, records)
  }

  lemma IndexAccepted(s: Shelf, cfg: Config, active: Catalogue, m: MpuKey, data: seq<byte>)
    requires AllGrounded(active) && m in active.mpus
    ensures (var (used, t) := ConsumeIndex(s, cfg, active, m, data);
             used && t == match Accepted(s, cfg, active, m, data)
                          case None => s
                          case Some(targets) => Finish(Relist(s, m, targets), m))
  {
    NodesAlwaysThere(s, cfg, active, m, data);
    hide Finish;
    hide Relist;
    hide Index;
    hide Targets;
    hide Grounded;
  }

  /** Each target has been published already as the listing now has it. */
  predicate Published(s: Shelf, m: MpuKey, targets: map<nat, FileTarget>) {
    forall i :: i in targets ==>
      (var k := ItemKey(m, i);
       k in s.out.items && s.out.items[k].path == targets[i].path && s.out.items[k].version == targets[i].version)
  }

  lemma RelistedReady(s: Shelf, m: MpuKey, targets: map<nat, FileTarget>)
    ensures Ready(Relist(s, m, targets), m) <==> Published(s, m, targets)
  {
    var t := Relist(s, m, targets);
    RelistLeaves(s, m, targets);
    forall i | i in targets ensures ItemKey(m, i) in t.items && t.items[ItemKey(m, i)] == targets[i] {
      RelistItem(s, m, targets, ItemKey(m, i));
    }
    forall k | k in t.items && k.mpu == m
      ensures k == ItemKey(m, k.item) && k.item in targets && t.items[k] == targets[k.item]
    {
      RelistItem(s, m, targets, k);
    }
    hide Relist;
  }

  /** The end of an update takes an item of its own MPU exactly when it carries out the removal the item awaits. */
  lemma FinishExactly(s: Shelf, m: MpuKey, k: ItemKey)
    requires Local(s.superseded, s.deferred)
    ensures (var t := Finish(s, m);
             && t.dangling == s.dangling
             && (k in t.items ==> k in s.items && t.items[k] == s.items[k])
             && (k in t.queue.units ==> k in s.queue.units && t.queue.units[k] == s.queue.units[k])
             && (AwaitsRemoval(t, k) ==> AwaitsRemoval(s, k))
             && (k.mpu == m && k in s.items ==> (k !in t.items <==> Ready(s, m) && AwaitsRemoval(s, k)))
             && (k.mpu == m && k in s.queue.units ==> (k !in t.queue.units <==> Ready(s, m) && AwaitsRemoval(s, k))))
  {
    hide Withdraw;
    hide Ready;
    if m in s.superseded { assert m !in s.superseded[m] && (k.mpu == m ==> k !in ItemsOf(s, s.superseded[m])); }
  }

  lemma RelistedItem(s: Shelf, m: MpuKey, targets: map<nat, FileTarget>, k: ItemKey)
    ensures (var t := Relist(s, m, targets);
             && (k in t.items <==> if k.mpu == m then k.item in targets else k in s.items)
             && (AwaitsRemoval(t, k) <==> AwaitsRemoval(s, k) || (k.mpu == m && k in s.items && k.item !in targets)))
  {
    var retired := Listed(s, m) - KeysFor(m, targets);
    RelistDeferred(s, m, targets, retired);
    RelistKeys(s, m, targets);
    assert k in KeysFor(m, targets) <==> k == ItemKey(m, k.item) && k.item in targets;
    assert k in retired <==> k.mpu == m && k in s.items && k.item !in targets;
    hide Relist;
    hide KeysFor;
    hide Listed;
  }

  /** What an index that is taken leaves of one item: in the queue, on the list, awaiting removal. */
  lemma AfterIndex(s: Shelf, m: MpuKey, targets: map<nat, FileTarget>, k: ItemKey)
    requires Local(s.superseded, s.deferred)
    ensures (var t := Finish(Relist(s, m, targets), m);
             var awaits := AwaitsRemoval(s, k) || (k.mpu == m && k in s.items && k.item !in targets);
             && t.dangling == s.dangling
             && (k in t.items ==> if k.mpu == m then k.item in targets && t.items[k] == targets[k.item]
                 else k in s.items)
             && (k in t.queue.units ==> k in s.queue.units && t.queue.units[k] == s.queue.units[k])
             && (AwaitsRemoval(t, k) ==> awaits)
             && (k.mpu == m && k.item in targets ==>
                 (k !in t.items <==> Published(s, m, targets) && AwaitsRemoval(s, k)))
             && (k.mpu == m && k in s.queue.units ==> (k !in t.queue.units <==> Published(s, m, targets) && awaits)))
  {
    hide Finish;
    hide Relist;
    hide Ready;
    hide Published;
    hide Local;
    hide AwaitsRemoval;
    RelistLeaves(s, m, targets);
    RelistLocal(s, m, targets);
    RelistedReady(s, m, targets);
    RelistedItem(s, m, targets, k);
    if k.mpu == m { RelistItem(s, m, targets, k); }
    FinishExactly(Relist(s, m, targets), m, k);
  }

  // ----- what a unit that is used at once leaves waiting

  /** The unit is the index of an active MPU, of its download. */
  predicate UsesIndex(active: Catalogue, k: ItemKey, unit: DataUnit) {
    && k.mpu in active.mpus && unit.download == Some(active.mpus[k.mpu].download)
    && k.item == active.mpus[k.mpu].indexItem
  }

  /** Whether a waiting unit cannot be used. */
  predicate Stuck(s: Shelf, active: Catalogue, k: ItemKey)
    requires k in s.queue.units
  {
    || k.mpu !in active.mpus
    || (s.queue.units[k].download == Some(active.mpus[k.mpu].download)
        && k.item != active.mpus[k.mpu].indexItem && k !in s.items)
  }

  lemma SettledMeans(s: Shelf, cfg: Config, active: Catalogue)
    requires AllGrounded(active)
    ensures Settled(s, cfg, active) <==> forall k :: k in s.queue.units ==> Stuck(s, active, k)
  {
    hide TryConsume;
    hide Grounded;
    forall k | k in s.queue.units
      ensures Consumable(s, cfg, active, k) <==> !Stuck(s, active, k)
    {
      WaitsExactly(s, cfg, active, k, s.queue.units[k]);
    }
  }

  /** The unit is an index that is taken and lists an item that waits, and that item does not go with the update. */
  predicate ListsWaiting(s: Shelf, cfg: Config, active: Catalogue, k: ItemKey, unit: DataUnit) {
    && UsesIndex(active, k, unit)
    && Accepted(s, cfg, active, k.mpu, unit.data).Some?
    && (var targets := Accepted(s, cfg, active, k.mpu, unit.data).value;
        exists j :: j in s.queue.units && j.mpu == k.mpu && j.item in targets
                    && !(AwaitsRemoval(s, j) && Published(s, k.mpu, targets)))
  }

  lemma IndexSettles(s: Shelf, cfg: Config, active: Catalogue, m: MpuKey, targets: map<nat, FileTarget>)
    requires AllGrounded(active) && Local(s.superseded, s.deferred) && Settled(s, cfg, active) && m in active.mpus
    ensures Settled(Finish(Relist(s, m, targets), m), cfg, active) <==>
            !exists j :: j in s.queue.units && j.mpu == m && j.item in targets
                         && !(AwaitsRemoval(s, j) && Published(s, m, targets))
  {
    hide Settled;
    hide Finish;
    hide Relist;
    hide Published;
    hide AwaitsRemoval;
    hide Local;
    hide Grounded;
    var t := Finish(Relist(s, m, targets), m);
    SettledMeans(s, cfg, active);
    SettledMeans(t, cfg, active);
    forall j | j in s.queue.units
      ensures j in t.queue.units && !Stuck(t, active, j) <==>
              j.mpu == m && j.item in targets && !(AwaitsRemoval(s, j) && Published(s, m, targets))
    {
      assert Stuck(s, active, j);
      AfterIndex(s, m, targets, j);
    }
    forall j | j in t.queue.units ensures j in s.queue.units { AfterIndex(s, m, targets, j); }
  }

  lemma LessSettles(s: Shelf, cfg: Config, active: Catalogue, t: Shelf)
    requires AllGrounded(active) && Settled(s, cfg, active)
    requires forall k :: k in t.items ==> k in s.items
    requires forall k :: k in t.queue.units ==> k in s.queue.units && t.queue.units[k] == s.queue.units[k]
    ensures Settled(t, cfg, active)
  {
    hide Settled;
    hide Grounded;
    SettledMeans(s, cfg, active);
    SettledMeans(t, cfg, active);
  }

  lemma PublishLeaves(s: Shelf, cfg: Config, k: ItemKey, data: seq<byte>, m: MpuMap, f: FileTarget, j: ItemKey)
    requires Local(s.superseded, s.deferred)
    ensures (var t := Publish(s, cfg, k, data, m, f);
             && (j in t.items ==> j in s.items)
             && (AwaitsRemoval(t, j) ==> AwaitsRemoval(s, j))
             && (j in t.queue.units ==> j in s.queue.units && t.queue.units[j] == s.queue.units[j]))
  {
    hide Finish;
    hide Show;
    hide Contents;
    hide AwaitsRemoval;
    if Publishes(s, cfg, k, data, m, f) {
      var u := s.(out := Show(s.out, Resource(k, Signature(m, f), f.contentType, Contents(cfg, data, f).value)));
      SameAwaits(s, u, j);
      FinishExactly(u, k.mpu, j);
    }
  }

  lemma SameAwaits(s: Shelf, u: Shelf, j: ItemKey)
    requires u.deferred == s.deferred
    ensures AwaitsRemoval(u, j) == AwaitsRemoval(s, j)
  {}

  /** When nothing usable waits, a unit leaves something usable waiting exactly when it is an index that is taken, lists
      an item that waits, and does not take that item with the update it completes. */
  lemma SettlesExactly(cfg: Config, s: Shelf, active: Catalogue, k: ItemKey, unit: DataUnit, t: Shelf)
    requires AllGrounded(active) && Local(s.superseded, s.deferred)
    requires Settled(s, cfg, active) && UnitNext(cfg, s, active, k, unit, t)
    ensures Settled(t, cfg, active) <==> !ListsWaiting(s, cfg, active, k, unit)
  {
    hide Settled;
    hide Finish;
    hide Relist;
    hide Publish;
    hide ConsumeIndex;
    hide Local;
    hide Grounded;
    hide Accepted;
    hide Published;
    hide TooMuch;
    hide AwaitsRemoval;
    if UsesIndex(active, k, unit) {
      IndexAccepted(s, cfg, active, k.mpu, unit.data);
      var accepted := Accepted(s, cfg, active, k.mpu, unit.data);
      if accepted.Some? { IndexSettles(s, cfg, active, k.mpu, accepted.value); }
    } else if TryConsume(s, cfg, active, k, unit).0 && t != s {
      forall j | true
        ensures (j in t.items ==> j in s.items)
             && (j in t.queue.units ==> j in s.queue.units && t.queue.units[j] == s.queue.units[j])
      {
        PublishLeaves(s, cfg, k, unit.data, active.mpus[k.mpu], s.items[k], j);
      }
      LessSettles(s, cfg, active, t);
    }
  }

  // ----- over whole runs

  lemma EveryGrounded(s: State, cfg: Config)
    requires Inv(s, cfg)
    ensures AllGrounded(s.active)
  {
    hide Inv;
    ReferencesPresent(s, cfg);
  }

  lemma CommitSettles(cfg: Config, s: State, context: nat, source: Source, t: State)
    requires context in s.contexts && CommitNext(cfg, s, context, source, t)
    ensures t == s || Settled(t.shelf, cfg, t.active)
  {
    hide Settled;
    hide CommittedShelf;
    hide Build;
    hide Proposal;
  }

  /** So no operation but such an index ever leaves something usable waiting. */
  lemma NextSettles(cfg: Config, s: State, op: Op, t: State)
    requires Inv(s, cfg) && Next(cfg, s, op, t) && Settled(s.shelf, cfg, s.active)
    ensures Settled(t.shelf, cfg, t.active) <==> !(op.Unit? && ListsWaiting(s.shelf, cfg, s.active, op.key, op.unit))
  {
    hide UnitNext;
    hide CommitNext;
    hide ListsWaiting;
    hide CatalogueOf;
    hide Consumable;
    match op
    case DirectoryTable(h, d) =>
      if t != s {
        CandidateIn(s, h, d);
        CommitSettles(cfg, AddDirectory(s, h, d), h.context, h.source, t);
      }
    case ManagementTable(h, m) =>
      if t != s {
        ManagementIn(s, h, m);
        CommitSettles(cfg, AddManagement(s, h, m), h.context, h.source, t);
      }
    case Unit(k, unit) =>
      EveryGrounded(s, cfg);
      SettlesExactly(cfg, s.shelf, s.active, k, unit, t.shelf);
    case DropTransient =>
    case Reset =>
  }

  lemma CandidateIn(s: State, h: Header, d: Directory)
    ensures (var u := AddDirectory(s, h, d); h.context in u.contexts && u.shelf == s.shelf && u.active == s.active)
  {}

  lemma ManagementIn(s: State, h: Header, m: Management)
    ensures (var u := AddManagement(s, h, m); h.context in u.contexts && u.shelf == s.shelf && u.active == s.active)
  {}

  lemma {:induction false} RunSettles(cfg: Config, states: seq<State>, ops: seq<Op>, i: nat)
    requires Run(cfg, states, ops) && i < |states|
    requires forall j :: 0 <= j < i && ops[j].Unit? ==>
               !ListsWaiting(states[j].shelf, cfg, states[j].active, ops[j].key, ops[j].unit)
    ensures Settled(states[i].shelf, cfg, states[i].active)
    decreases i
  {
    hide Inv;
    hide Next;
    hide ListsWaiting;
    hide Consumable;
    if i > 0 {
      RunSettles(cfg, states, ops, i - 1);
      RunInv(cfg, states, ops, i - 1);
      NextSettles(cfg, states[i - 1], ops[i - 1], states[i]);
    }
  }

  // ----- when the retry loop loses its iterator

  /** All other items of its MPU are published as listed. */
  predicate OthersPublished(s: Shelf, k: ItemKey) {
    forall j :: j in s.items && j.mpu == k.mpu && j != k ==>
      j in s.out.items && s.out.items[j].path == s.items[j].path && s.out.items[j].version == s.items[j].version
  }

  /** The waiting unit completes an update that removes its own item: a file that is listed though it awaits removal,
      and is the last one to be published; or an index all of whose targets are published, whose own item awaits
      removal or was listed and no longer is. */
  predicate Undercuts(s: Shelf, cfg: Config, active: Catalogue, k: ItemKey)
    requires k in s.queue.units
  {
    var unit := s.queue.units[k];
    && k.mpu in active.mpus && unit.download == Some(active.mpus[k.mpu].download)
    && if k.item == active.mpus[k.mpu].indexItem then
         var targets := Accepted(s, cfg, active, k.mpu, unit.data);
         && targets.Some? && Published(s, k.mpu, targets.value)
         && (AwaitsRemoval(s, k) || (k in s.items && k.item !in targets.value))
       else
         && k in s.items && AwaitsRemoval(s, k)
         && Publishes(s, cfg, k, unit.data, active.mpus[k.mpu], s.items[k]) && OthersPublished(s, k)
  }

  lemma FileUndercuts(s: Shelf, cfg: Config, k: ItemKey, data: seq<byte>, m: MpuMap)
    requires Local(s.superseded, s.deferred) && k in s.queue.units && k in s.items
    ensures (var t := Publish(s, cfg, k, data, m, s.items[k]);
             && t.dangling == s.dangling
             && (k !in t.queue.units <==>
                 AwaitsRemoval(s, k) && Publishes(s, cfg, k, data, m, s.items[k]) && OthersPublished(s, k)))
  {
    hide Finish;
    hide LeaveOldPath;
    hide Contents;
    hide AwaitsRemoval;
    var f := s.items[k];
    if Publishes(s, cfg, k, data, m, f) {
      var u := s.(out := Show(s.out, Resource(k, Signature(m, f), f.contentType, Contents(cfg, data, f).value)));
      LeftItems(s.out, k, f.path);
      SameAwaits(s, u, k);
      FinishExactly(u, k.mpu, k);
    }
  }

  lemma LeftItems(out: Publication, k: ItemKey, path: Path)
    ensures LeaveOldPath(out, k, path).items == out.items
  {}

  /** Using a waiting unit removes it from the queue underneath the loop exactly then. */
  lemma DanglesExactly(s: Shelf, cfg: Config, active: Catalogue, k: ItemKey)
    requires AllGrounded(active) && Local(s.superseded, s.deferred) && k in s.queue.units
    ensures ConsumePending(s, cfg, active, k).dangling <==> s.dangling || Undercuts(s, cfg, active, k)
  {
    hide Finish;
    hide Relist;
    hide Publish;
    hide ConsumeIndex;
    hide Local;
    hide Grounded;
    hide Accepted;
    hide Published;
    hide Publishes;
    hide OthersPublished;
    hide AwaitsRemoval;
    hide Discard;
    var unit := s.queue.units[k];
    if UsesIndex(active, k, unit) {
      IndexAccepted(s, cfg, active, k.mpu, unit.data);
      var accepted := Accepted(s, cfg, active, k.mpu, unit.data);
      if accepted.Some? { AfterIndex(s, k.mpu, accepted.value, k); }
    } else if k.mpu in active.mpus && unit.download == Some(active.mpus[k.mpu].download) && k in s.items {
      FileUndercuts(s, cfg, k, unit.data, active.mpus[k.mpu]);
    }
  }
}
