/** A condition on what arrives under which the retry loop of the resource assembler never loses its iterator. */
module ResourceQuiet {
  import opened Bytes
  import opened ResourceIndex
  import opened SectionSets
  import opened ResourceCatalogue
  import opened ResourceShelf
  import opened ResourceRuns
  import opened ResourceEffects
  import opened ResourceRetries

  function IndexKey(active: Catalogue, m: MpuKey): ItemKey
    requires m in active.mpus
  {
    ItemKey(m, active.mpus[m].indexItem)
  }

  /** An index that lists neither itself nor an item that awaits removal. */
  predicate Harmless(s: Shelf, k: ItemKey, data: seq<byte>) {
    Index(data).Some? ==>
      forall r :: r in Index(data).value ==> r.item != k.item && !AwaitsRemoval(s, ItemKey(k.mpu, r.item))
  }

  predicate Untouched(s: Shelf, k: ItemKey) { k !in s.items && !AwaitsRemoval(s, k) }

  /** Nothing listed awaits removal, no index item is listed or awaits it, and waiting indexes are harmless. */
  predicate Orderly(s: Shelf, active: Catalogue) {
    && (forall k :: k in s.items ==> !AwaitsRemoval(s, k))
    && IndexesOrderly(s, active)
  }

  predicate IndexesOrderly(s: Shelf, active: Catalogue) {
    forall m :: m in active.mpus ==>
      (var k := IndexKey(active, m);
       Untouched(s, k) && (k in s.queue.units ==> Harmless(s, k, s.queue.units[k].data)))
  }

  lemma OrderlyLess(s: Shelf, active: Catalogue, t: Shelf)
    requires Orderly(s, active)
    requires forall k :: k in t.items ==> k in s.items
    requires forall k :: AwaitsRemoval(t, k) ==> AwaitsRemoval(s, k)
    requires forall k :: k in t.queue.units ==> k in s.queue.units && t.queue.units[k] == s.queue.units[k]
    ensures Orderly(t, active)
  {
    hide AwaitsRemoval;
    hide Index;
  }

  lemma OrderlyHolds(s: Shelf, cfg: Config, active: Catalogue, k: ItemKey)
    requires Orderly(s, active) && k in s.queue.units
    ensures !Undercuts(s, cfg, active, k)
  {
    hide AwaitsRemoval;
    hide Accepted;
    hide Publishes;
    hide OthersPublished;
    hide Published;
    if k.mpu in active.mpus && k.item == active.mpus[k.mpu].indexItem {
      assert k == IndexKey(active, k.mpu);
    }
  }

  /** Every target comes from a record. */
  lemma TargetRecord(s: Shelf, cfg: Config, active: Catalogue, m: MpuKey, data: seq<byte>, i: nat)
    requires m in active.mpus && Accepted(s, cfg, active, m, data).Some? && i in Accepted(s, cfg, active, m, data).value
    ensures Index(data).Some? && exists r :: r in Index(data).value && r.item == i
  {
    var records := Index(data).value;
    var tags := TagsFor(active.mpus[m], |records|);
    var n := TargetsFrom(m.context, active.nodes, tags, records, i);
    assert records[n] in records;
    hide Targets;
  }

  /** A harmless index, waiting or not, keeps everything orderly once it is no longer in the queue. */
  lemma IndexOrderly(s: Shelf, cfg: Config, active: Catalogue, k: ItemKey, data: seq<byte>, t: Shelf)
    requires Orderly(s, active) && Local(s.superseded, s.deferred) && Harmless(s, k, data)
    requires k.mpu in active.mpus && k == IndexKey(active, k.mpu) && Accepted(s, cfg, active, k.mpu, data).Some?
    requires (var u := Finish(Relist(s, k.mpu, Accepted(s, cfg, active, k.mpu, data).value), k.mpu);
              && t.items == u.items && t.deferred == u.deferred
              && forall j :: j in t.queue.units <==> j in u.queue.units && j != k)
    requires forall j :: j in t.queue.units ==> j in s.queue.units && t.queue.units[j] == s.queue.units[j]
    ensures Orderly(t, active)
  {
    hide Finish;
    hide Relist;
    hide Accepted;
    hide Published;
    hide Local;
    hide AwaitsRemoval;
    hide Index;
    var m, targets := k.mpu, Accepted(s, cfg, active, k.mpu, data).value;
    var u := Finish(Relist(s, m, targets), m);
    forall j | true
      ensures AwaitsRemoval(t, j) ==> AwaitsRemoval(s, j) || (j.mpu == m && j in s.items && j.item !in targets)
      ensures j in t.items ==> if j.mpu == m then j.item in targets else j in s.items
      ensures j.mpu == m && j.item in targets ==> j != k && !AwaitsRemoval(s, j)
    {
      SameAwaits(u, t, j);
      AfterIndex(s, m, targets, j);
      if j.mpu == m && j.item in targets {
        TargetRecord(s, cfg, active, m, data, j.item);
        assert j == ItemKey(m, j.item);
      }
    }
  }

  predicate Calm(s: Shelf, active: Catalogue) { Orderly(s, active) && !s.dangling }

  lemma PendingCalm(s: Shelf, cfg: Config, active: Catalogue, k: ItemKey)
    requires AllGrounded(active) && Local(s.superseded, s.deferred) && Calm(s, active) && k in s.queue.units
    ensures Calm(ConsumePending(s, cfg, active, k), active)
  {
    hide Orderly;
    hide Undercuts;
    hide Local;
    hide Grounded;
    OrderlyHolds(s, cfg, active, k);
    DanglesExactly(s, cfg, active, k);
    PendingOrderly(s, cfg, active, k);
  }

  lemma PendingOrderly(s: Shelf, cfg: Config, active: Catalogue, k: ItemKey)
    requires AllGrounded(active) && Local(s.superseded, s.deferred) && Orderly(s, active) && k in s.queue.units
    ensures Orderly(ConsumePending(s, cfg, active, k), active)
  {
    hide Publish;
    hide ConsumeIndex;
    hide Local;
    hide Grounded;
    hide Accepted;
    hide Finish;
    hide Relist;
    hide Orderly;
    hide AwaitsRemoval;
    var unit, t := s.queue.units[k], ConsumePending(s, cfg, active, k);
    if UsesIndex(active, k, unit) {
      IndexAccepted(s, cfg, active, k.mpu, unit.data);
      var accepted := Accepted(s, cfg, active, k.mpu, unit.data);
      if accepted.Some? {
        QueueAfterIndex(s, k.mpu, accepted.value);
        HarmlessWaiting(s, active, k);
        IndexOrderly(s, cfg, active, k, unit.data, t);
      } else {
        SameAwaitsAll(s, t);
        OrderlyLess(s, active, t);
      }
    } else if k.mpu in active.mpus && unit.download == Some(active.mpus[k.mpu].download) && k in s.items {
      PublishKeepsOrder(s, cfg, active, k, unit.data, active.mpus[k.mpu], s.items[k], t);
    } else {
      SameAwaitsAll(s, t);
      OrderlyLess(s, active, t);
    }
  }

  lemma SameAwaitsAll(s: Shelf, t: Shelf)
    requires s.deferred == t.deferred
    ensures forall j :: AwaitsRemoval(t, j) == AwaitsRemoval(s, j)
  {}

  lemma HarmlessWaiting(s: Shelf, active: Catalogue, k: ItemKey)
    requires Orderly(s, active) && k in s.queue.units && k.mpu in active.mpus && k == IndexKey(active, k.mpu)
    ensures Harmless(s, k, s.queue.units[k].data)
  {}

  lemma QueueAfterIndex(s: Shelf, m: MpuKey, targets: map<nat, FileTarget>)
    requires Local(s.superseded, s.deferred)
    ensures (var t := Finish(Relist(s, m, targets), m);
             forall j :: j in t.queue.units ==> j in s.queue.units && t.queue.units[j] == s.queue.units[j])
  {
    hide *;
    forall j | j in Finish(Relist(s, m, targets), m).queue.units
      ensures j in s.queue.units && Finish(Relist(s, m, targets), m).queue.units[j] == s.queue.units[j]
    {
      AfterIndex(s, m, targets, j);
    }
  }

  lemma PublishKeepsOrder(s: Shelf, cfg: Config, active: Catalogue, k: ItemKey, data: seq<byte>, m: MpuMap,
                          f: FileTarget, t: Shelf)
    requires Local(s.superseded, s.deferred) && Orderly(s, active)
    requires (var u := Publish(s, cfg, k, data, m, f);
              && t.items == u.items && t.deferred == u.deferred
              && forall j :: j in t.queue.units ==> j in u.queue.units && t.queue.units[j] == u.queue.units[j])
    ensures Orderly(t, active)
  {
    hide Publish;
    hide Local;
    hide AwaitsRemoval;
    hide Orderly;
    var u := Publish(s, cfg, k, data, m, f);
    SameAwaitsAll(u, t);
    forall j | true
      ensures (j in u.items ==> j in s.items) && (AwaitsRemoval(u, j) ==> AwaitsRemoval(s, j))
      ensures j in u.queue.units ==> j in s.queue.units && u.queue.units[j] == s.queue.units[j]
    {
      PublishLeaves(s, cfg, k, data, m, f, j);
    }
    OrderlyLess(s, active, t);
  }

  lemma {:induction false} AfterCalm(s: Shelf, cfg: Config, active: Catalogue, used: seq<ItemKey>)
    requires AllGrounded(active) && Sound(s, cfg) && Calm(s, active)
    ensures Calm(After(s, cfg, active, used), active)
    decreases |used|
  {
    hide Sound;
    hide Calm;
    hide ConsumePending;
    hide Consumable;
    hide Grounded;
    if used != [] {
      AfterCalm(s, cfg, active, used[..|used| - 1]);
      AfterSound(s, cfg, active, used[..|used| - 1]);
      var t, k := After(s, cfg, active, used[..|used| - 1]), used[|used| - 1];
      if Consumable(t, cfg, active, k) {
        ConsumableWaits(t, cfg, active, k);
        SoundLocal(t, cfg);
        PendingCalm(t, cfg, active, k);
      }
    }
  }

  lemma SoundLocal(s: Shelf, cfg: Config)
    requires Sound(s, cfg)
    ensures Local(s.superseded, s.deferred)
  {}

  /** Between operations no index of an active MPU waits. */
  predicate Idle(s: Shelf, active: Catalogue) {
    Calm(s, active) && forall m :: m in active.mpus ==> IndexKey(active, m) !in s.queue.units
  }

  lemma RetriedIdle(s: Shelf, cfg: Config, active: Catalogue, t: Shelf)
    requires AllGrounded(active) && Sound(s, cfg) && Calm(s, active) && Retried(s, cfg, active, t)
    ensures Idle(t, active)
  {
    hide Sound;
    hide Calm;
    hide After;
    hide Settled;
    hide Grounded;
    var used :| t == After(s, cfg, active, used);
    AfterCalm(s, cfg, active, used);
    SettledMeans(t, cfg, active);
    forall m | m in active.mpus ensures IndexKey(active, m) !in t.queue.units {
      var k := IndexKey(active, m);
      assert k.item == active.mpus[k.mpu].indexItem;
    }
  }

  /** What a step must not bring: an index that lists itself or an item that awaits removal; a catalogue whose index
      items are listed or await removal, or under which such an index is found waiting. */
  predicate Quiet(s: State, op: Op, t: State) {
    match op
    case Unit(k, unit) => UsesIndex(s.active, k, unit) ==> Harmless(s.shelf, k, unit.data)
    case DirectoryTable(_, _) => t.active != s.active ==> IndexesOrderly(s.shelf, t.active)
    case ManagementTable(_, _) => t.active != s.active ==> IndexesOrderly(s.shelf, t.active)
    case DropTransient => true
    case Reset => true
  }

  lemma LessIdle(s: Shelf, active: Catalogue, t: Shelf)
    requires Idle(s, active) && t.dangling == s.dangling && Orderly(t, active)
    requires forall k :: k in t.queue.units ==> k in s.queue.units
    ensures Idle(t, active)
  {
    hide Orderly;
  }

  /** A unit that is used at once. */
  lemma UsedIdle(s: Shelf, cfg: Config, active: Catalogue, k: ItemKey, unit: DataUnit)
    requires AllGrounded(active) && Local(s.superseded, s.deferred) && Idle(s, active)
    requires UsesIndex(active, k, unit) ==> Harmless(s, k, unit.data)
    ensures Idle(TryConsume(s, cfg, active, k, unit).1, active)
  {
    hide Publish;
    hide ConsumeIndex;
    hide Local;
    hide Grounded;
    hide Accepted;
    hide Finish;
    hide Relist;
    hide Orderly;
    hide Harmless;
    var t := TryConsume(s, cfg, active, k, unit).1;
    if UsesIndex(active, k, unit) {
      IndexAccepted(s, cfg, active, k.mpu, unit.data);
      var accepted := Accepted(s, cfg, active, k.mpu, unit.data);
      if accepted.Some? {
        assert k == IndexKey(active, k.mpu);
        QueueAfterIndex(s, k.mpu, accepted.value);
        IndexOrderly(s, cfg, active, k, unit.data, t);
        AfterIndex(s, k.mpu, accepted.value, k);
        LessIdle(s, active, t);
      }
    } else if k.mpu in active.mpus && unit.download == Some(active.mpus[k.mpu].download) && k in s.items {
      PublishKeepsOrder(s, cfg, active, k, unit.data, active.mpus[k.mpu], s.items[k], t);
      PublishQueue(s, cfg, k, unit.data, active.mpus[k.mpu], s.items[k]);
      LessIdle(s, active, t);
    }
  }

  lemma PublishQueue(s: Shelf, cfg: Config, k: ItemKey, data: seq<byte>, m: MpuMap, f: FileTarget)
    requires Local(s.superseded, s.deferred)
    ensures (var t := Publish(s, cfg, k, data, m, f);
             t.dangling == s.dangling && forall j :: j in t.queue.units ==> j in s.queue.units)
  {
    hide Finish;
    hide Show;
    hide Contents;
    hide Local;
    var t := Publish(s, cfg, k, data, m, f);
    forall j | j in t.queue.units ensures j in s.queue.units { PublishLeaves(s, cfg, k, data, m, f, j); }
    if Publishes(s, cfg, k, data, m, f) {
      FinishExactly(s.(out := Show(s.out, Resource(k, Signature(m, f), f.contentType, Contents(cfg, data, f).value))),
                    k.mpu, k);
    }
  }

  /** A unit that has to wait is no index of an active MPU. */
  lemma EnqueuedCalm(s: Shelf, cfg: Config, active: Catalogue, k: ItemKey, unit: DataUnit)
    requires AllGrounded(active) && Idle(s, active) && !TryConsume(s, cfg, active, k, unit).0
    ensures Calm(s.(queue := Enqueue(s.queue, k, unit)), active)
  {
    hide TryConsume;
    hide Harmless;
    hide Grounded;
    WaitsExactly(s, cfg, active, k, unit);
    var t := s.(queue := Enqueue(s.queue, k, unit));
    SameAwaitsAll(s, t);
    hide AwaitsRemoval;
  }

  lemma UnitIdle(cfg: Config, s: Shelf, active: Catalogue, k: ItemKey, unit: DataUnit, t: Shelf)
    requires AllGrounded(active) && Sound(s, cfg) && Idle(s, active) && UnitNext(cfg, s, active, k, unit, t)
    requires UsesIndex(active, k, unit) ==> Harmless(s, k, unit.data)
    ensures Idle(t, active)
  {
    hide TryConsume;
    hide TooMuch;
    hide Enqueue;
    hide Retried;
    hide Idle;
    hide Calm;
    hide Harmless;
    hide QueueFits;
    hide Agree;
    hide ItemsFit;
    hide Grounded;
    if TryConsume(s, cfg, active, k, unit).0 {
      UsedIdle(s, cfg, active, k, unit);
    } else if !TooMuch(s.queue, cfg, k, unit) {
      EnqueueFits(s.queue, k, unit, cfg);
      EnqueuedCalm(s, cfg, active, k, unit);
      RetriedIdle(s.(queue := Enqueue(s.queue, k, unit)), cfg, active, t);
    }
  }

  lemma CommittedCalm(s: Shelf, gone: set<MpuKey>, cat: Catalogue, t: Shelf, active: Catalogue)
    requires CommittedShelf(s, gone, cat, t) && (forall k :: k in s.items ==> !AwaitsRemoval(s, k))
    requires IndexesOrderly(s, active) && !s.dangling
    ensures Calm(t, active)
  {
    EraseLeaves(s, ItemsOf(s, Without(gone, cat)));
    SameAwaitsAll(s, t);
    hide Withdraw;
    hide Index;
    hide AwaitsRemoval;
    hide Without;
    hide ItemsOf;
    OrderlyLess(s, active, t);
  }

  lemma CommitIdle(cfg: Config, s: State, context: nat, source: Source, t: State)
    requires context in s.contexts && Inv(s, cfg) && Inv(t, cfg) && CommitNext(cfg, s, context, source, t)
    requires Idle(s.shelf, s.active) && (t.active != s.active ==> IndexesOrderly(s.shelf, t.active))
    ensures Idle(t.shelf, t.active)
  {
    hide Sound;
    hide Build;
    hide Proposal;
    hide Replaced;
    hide CatalogueOf;
    hide IndexesOrderly;
    hide CommittedShelf;
    hide Retried;
    hide AwaitsRemoval;
    var proposal := Proposal(s.contexts[context], source);
    if proposal.Some? && Build(context, proposal.value.directories, proposal.value.management).Some? {
      var cat := Build(context, proposal.value.directories, proposal.value.management).value;
      var gone := Gone(s.active, context, cat);
      var shelf :| CommittedShelf(s.shelf, gone, cat, shelf) && Retried(shelf, cfg, t.active, t.shelf);
      BuiltFresh(context, proposal.value, cat, s.active);
      CommittedSound(s.shelf, gone, cat, shelf, cfg);
      CommittedCalm(s.shelf, gone, cat, shelf, t.active);
      EveryGrounded(t, cfg);
      RetriedIdle(shelf, cfg, t.active, t.shelf);
    }
  }

  lemma BuiltFresh(context: nat, tables: Tables, cat: Catalogue, active: Catalogue)
    ensures forall m :: m in Gone(active, context, cat) ==> m !in cat.mpus
  {}

  lemma NextIdle(cfg: Config, s: State, op: Op, t: State)
    requires Inv(s, cfg) && Next(cfg, s, op, t) && Idle(s.shelf, s.active) && Quiet(s, op, t)
    ensures Idle(t.shelf, t.active)
  {
    NextInv(cfg, s, op, t);
    EveryGrounded(s, cfg);
    hide UnitNext;
    hide CommitNext;
    hide CatalogueOf;
    hide Idle;
    hide IndexesOrderly;
    hide Harmless;
    match op
    case DirectoryTable(h, d) =>
      if t != s {
        CandidateIn(s, h, d);
        DirectoryInv(s, h, d, cfg);
        CommitIdle(cfg, AddDirectory(s, h, d), h.context, h.source, t);
      }
    case ManagementTable(h, m) =>
      if t != s {
        ManagementIn(s, h, m);
        ManagementInv(s, h, m, cfg);
        CommitIdle(cfg, AddManagement(s, h, m), h.context, h.source, t);
      }
    case Unit(k, unit) => UnitIdle(cfg, s.shelf, s.active, k, unit, t.shelf);
    case DropTransient => DroppedIdle(s.shelf, s.active);
    case Reset => EmptyIdle();
  }

  lemma DirectoryInv(s: State, h: Header, d: Directory, cfg: Config)
    requires Inv(s, cfg)
    ensures Inv(AddDirectory(s, h, d), cfg)
  {
    hide Inv;
    hide WithCandidate;
    var candidate := CandidateAt(ContextAt(s, h.context), h.source);
    AddKeeps(s, h, candidate.(directories := Add(candidate.directories, Section(h.version, h.number, h.last, d))), cfg);
  }

  lemma ManagementInv(s: State, h: Header, m: Management, cfg: Config)
    requires Inv(s, cfg)
    ensures Inv(AddManagement(s, h, m), cfg)
  {
    hide Inv;
    hide WithCandidate;
    var candidate := CandidateAt(ContextAt(s, h.context), h.source);
    AddKeeps(s, h, candidate.(management := Add(candidate.management, Section(h.version, h.number, h.last, m))), cfg);
  }

  lemma DroppedIdle(s: Shelf, active: Catalogue)
    requires Idle(s, active)
    ensures Idle(s.(queue := Queue(map[], 0)), active)
  {
    var t := s.(queue := Queue(map[], 0));
    SameAwaitsAll(s, t);
    OrderlyLess(s, active, t);
  }

  lemma EmptyIdle()
    ensures Idle(EmptyShelf(), Catalogue(map[], map[]))
  {}

  /** Over every run, the loop never loses its iterator while every step is quiet: no index that is used lists itself or
      an item that awaits removal, and no catalogue names such an item as an index. */
  lemma {:induction false} NeverDangles(cfg: Config, states: seq<State>, ops: seq<Op>, i: nat)
    requires Run(cfg, states, ops) && i < |states|
    requires forall j :: 0 <= j < i ==> Quiet(states[j], ops[j], states[j + 1])
    ensures Idle(states[i].shelf, states[i].active) && !states[i].shelf.dangling
    decreases i
  {
    hide Inv;
    hide Next;
    hide Quiet;
    hide Orderly;
    if i == 0 {
      EmptyIdle();
    } else {
      NeverDangles(cfg, states, ops, i - 1);
      RunInv(cfg, states, ops, i - 1);
      assert Quiet(states[i - 1], ops[i - 1], states[i - 1 + 1]);
      NextIdle(cfg, states[i - 1], ops[i - 1], states[i]);
    }
  }
}
