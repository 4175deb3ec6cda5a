/** Files whose successor itself leaves the catalogue: no unit takes them away any more. */
module ResourceStranded {
  import opened Bytes
  import opened ResourcePaths
  import opened ResourceIndex
  import opened ResourceCatalogue
  import opened ResourceShelf
  import opened ResourceRuns
  import opened ResourceEffects
  import opened ResourceHomes
  import opened ResourceRetries
  import opened ResourceWitness
  import opened SectionSets

  /** The MPU is not in the catalogue, and neither is any that supersedes it. */
  ghost predicate Stranded(s: Shelf, active: Catalogue, m: MpuKey) {
    m !in active.mpus && forall heir :: m in SupersededAt(s.superseded, heir) ==> heir !in active.mpus
  }

  /** The item is published, and nothing in the catalogue is to replace it. */
  ghost predicate Left(s: Shelf, active: Catalogue, j: ItemKey) {
    && j in s.out.items && Stranded(s, active, j.mpu) && Local(s.superseded, s.deferred)
  }

  lemma FinishLeaves(s: Shelf, m: MpuKey, active: Catalogue, j: ItemKey)
    requires Left(s, active, j) && m in active.mpus
    ensures Left(Finish(s, m), active, j)
  {
    hide Erase;
    hide Ready;
    var t := DropSuperseded(s, m);
    if m in s.superseded {
      assert SupersededAt(s.superseded, m) == s.superseded[m];
      NotErased(s, ItemsOf(s, s.superseded[m]), j);
    }
    if m in t.deferred { NotErased(t, t.deferred[m], j); }
    EraseLeavesAll(s, m);
  }

  lemma NotErased(s: Shelf, ks: set<ItemKey>, j: ItemKey)
    ensures j in s.out.items && j !in ks ==> j in Erase(s, ks).out.items
  {
    hide OwnedPaths;
    hide Normalized;
    hide Discard;
  }

  lemma EraseLeavesAll(s: Shelf, m: MpuKey)
    ensures (var t := Finish(s, m);
             && (forall h :: SupersededAt(t.superseded, h) <= SupersededAt(s.superseded, h))
             && (Local(s.superseded, s.deferred) ==> Local(t.superseded, t.deferred)))
    ensures DropSuperseded(s, m).deferred == s.deferred
  {
    hide Withdraw;
    hide Discard;
    hide Ready;
  }

  lemma SameLeft(s: Shelf, t: Shelf, active: Catalogue, j: ItemKey)
    requires Left(s, active, j) && t.superseded == s.superseded && j in t.out.items && Local(t.superseded, t.deferred)
    ensures Left(t, active, j)
  {
    hide Local;
  }

  lemma TryConsumeLeaves(s: Shelf, cfg: Config, active: Catalogue, k: ItemKey, unit: DataUnit, j: ItemKey)
    requires Left(s, active, j)
    ensures Left(TryConsume(s, cfg, active, k, unit).1, active, j)
  {
    hide Left;
    hide Finish;
    hide Relist;
    hide Index;
    hide Targets;
    hide Contents;
    if k.mpu in active.mpus && unit.download == Some(active.mpus[k.mpu].download) {
      if k.item == active.mpus[k.mpu].indexItem {
        if Index(unit.data).Some? {
          var records := Index(unit.data).value;
          var tags := TagsFor(active.mpus[k.mpu], |records|);
          if |records| == |tags| && TagsPresent(k.mpu.context, active.nodes, tags)
             && Targets(k.mpu.context, active.nodes, tags, records).Some? {
            var targets := Targets(k.mpu.context, active.nodes, tags, records).value;
            RelistLeft(s, k.mpu, targets, active, j);
            FinishLeaves(Relist(s, k.mpu, targets), k.mpu, active, j);
          }
        }
      } else if k in s.items && Publishes(s, cfg, k, unit.data, active.mpus[k.mpu], s.items[k]) {
        var f, m := s.items[k], active.mpus[k.mpu];
        var r := Resource(k, Signature(m, f), f.contentType, Contents(cfg, unit.data, f).value);
        ShowLeft(s, r, active, j);
        FinishLeaves(s.(out := Show(s.out, r)), k.mpu, active, j);
      }
    }
  }

  lemma RelistLeft(s: Shelf, m: MpuKey, targets: map<nat, FileTarget>, active: Catalogue, j: ItemKey)
    requires Left(s, active, j)
    ensures Left(Relist(s, m, targets), active, j)
  {
    hide Relist;
    hide Stranded;
    RelistLeaves(s, m, targets);
    RelistLocal(s, m, targets);
    SameLeft(s, Relist(s, m, targets), active, j);
  }

  lemma ShowLeft(s: Shelf, r: Resource, active: Catalogue, j: ItemKey)
    requires Left(s, active, j)
    ensures Left(s.(out := Show(s.out, r)), active, j)
  {
    SameLeft(s, s.(out := Show(s.out, r)), active, j);
  }

  lemma {:induction false} AfterLeaves(s: Shelf, cfg: Config, active: Catalogue, used: seq<ItemKey>, j: ItemKey)
    requires Left(s, active, j)
    ensures Left(After(s, cfg, active, used), active, j)
    decreases |used|
  {
    hide Left;
    hide ConsumePending;
    hide Consumable;
    if used != [] {
      AfterLeaves(s, cfg, active, used[..|used| - 1], j);
      var t, k := After(s, cfg, active, used[..|used| - 1]), used[|used| - 1];
      if Consumable(t, cfg, active, k) {
        ConsumableWaits(t, cfg, active, k);
        PendingLeaves(t, cfg, active, k, j);
      }
    }
  }

  lemma PendingLeaves(s: Shelf, cfg: Config, active: Catalogue, k: ItemKey, j: ItemKey)
    requires Left(s, active, j) && k in s.queue.units
    ensures Left(ConsumePending(s, cfg, active, k), active, j)
  {
    hide TryConsume;
    hide Discard;
    hide Stranded;
    TryConsumeLeaves(s, cfg, active, k, s.queue.units[k], j);
    SameLeft(TryConsume(s, cfg, active, k, s.queue.units[k]).1, ConsumePending(s, cfg, active, k), active, j);
  }

  /** Whatever unit comes, a published item whose MPU and whose successors are out of the catalogue stays published. */
  lemma StrandedStays(cfg: Config, s: Shelf, active: Catalogue, k: ItemKey, unit: DataUnit, t: Shelf, j: ItemKey)
    requires Left(s, active, j) && UnitNext(cfg, s, active, k, unit, t)
    ensures Left(t, active, j)
  {
    hide Left;
    hide TryConsume;
    hide TooMuch;
    hide Enqueue;
    hide After;
    hide Settled;
    if TryConsume(s, cfg, active, k, unit).0 {
      TryConsumeLeaves(s, cfg, active, k, unit, j);
    } else if !TooMuch(s.queue, cfg, k, unit) {
      var u := s.(queue := Enqueue(s.queue, k, unit));
      QueueLeft(s, u, active, j);
      var used :| t == After(u, cfg, active, used);
      AfterLeaves(u, cfg, active, used, j);
    }
  }

  lemma QueueLeft(s: Shelf, u: Shelf, active: Catalogue, j: ItemKey)
    requires Left(s, active, j) && u == s.(queue := u.queue)
    ensures Left(u, active, j)
  {
  }

  // ----- a run that leaves a file so

  const BYTES := Resource(K(1), Signature(MAPPING, TARGET), [], [])

  const PUBLISHED := FIRST.(out := Show(FIRST.out, BYTES))

  /** The file's index is there, and the file arrives. */
  lemma FilePublished(cfg: Config)
    ensures UnitNext(cfg, FIRST, CATALOGUE, K(1), FILE, PUBLISHED)
  {
    hide Show;
    assert Contents(cfg, FILE.data, TARGET) == Some([]);
  }

  const HEIR := MpuKey(0, 0, 1)

  const REPLACING := PUBLISHED.(superseded := map[HEIR := {MPU}])

  /** Management tables of later versions: first a successor, then another component alone. */
  function Later(version: nat): Header { TABLE.(version := version) }

  function Active(version: nat, assets: Management, catalogue: Catalogue, shelf: Shelf): State {
    State(map[0 := Context(Some(Tables(TABLE.source, 0, version, [ROOT], [assets])), map[])], catalogue, shelf)
  }

  function PartAt<T>(version: nat, table: T): Section<nat, T> { Section(version, 0, 0, table) }

  function OnlyAt<T>(version: nat, table: T): SectionSet<nat, T> {
    Add<nat, T>(Fresh<nat, T>(), PartAt(version, table))
  }

  lemma OneSectionAt<T(!new)>(version: nat, table: T)
    ensures Complete(OnlyAt(version, table)) && Values(OnlyAt(version, table)) == [table]
    ensures OnlyAt(version, table).version == Some(version)
  {
    var sections := OnlyAt(version, table).sections;
    assert sections == [Some(PartAt(version, table))];
    var none: seq<T> := [];
    assert Present(sections[1..]) == none && [table] + none == [table];
  }

  lemma LaterAdded(v: nat, old0: Management, catalogue: Catalogue, shelf: Shelf, assets: Management)
    ensures (var s, op := Active(v, old0, catalogue, shelf), ManagementTable(Later(v + 1), assets);
             var c := Added(s, op).contexts[0];
             && !Ignored(s, op) && Added(s, op).contexts.Keys == {0}
             && c.active == Some(Tables(TABLE.source, 0, v, [ROOT], [old0])) && TABLE.source in c.candidates
             && c.candidates[TABLE.source].directories == Fresh<nat, Directory>()
             && c.candidates[TABLE.source].management == OnlyAt(v + 1, assets))
  {
    hide Add;
  }

  lemma LaterProposed(v: nat, old0: Management, catalogue: Catalogue, shelf: Shelf, assets: Management)
    ensures Proposed(Active(v, old0, catalogue, shelf), ManagementTable(Later(v + 1), assets))
         == Some(Tables(TABLE.source, 0, v + 1, [ROOT], [assets]))
  {
    hide Add;
    hide Values;
    hide Added;
    hide Active;
    LaterAdded(v, old0, catalogue, shelf, assets);
    OneSectionAt(v + 1, assets);
    assert !Complete(Fresh<nat, Directory>());
    hide Complete;
  }

  /** A later management table with one MPU instead of one: the shelf only has to be that of the commit. */
  lemma LaterCommits(cfg: Config, v: nat, c: nat, q: nat, d: nat, r: nat, shelf: Shelf, next: Shelf)
    requires c != d || q != r
    requires CommittedShelf(shelf, {MpuKey(0, c, q)}, CatalogueFor(d, r), next) && next.queue.units == map[]
    ensures Next(cfg, Active(v, Assets(c, q), CatalogueFor(c, q), shelf), ManagementTable(Later(v + 1), Assets(d, r)),
                 Active(v + 1, Assets(d, r), CatalogueFor(d, r), next))
  {
    hide Build;
    hide Added;
    hide Proposal;
    hide CommittedShelf;
    var s, op := Active(v, Assets(c, q), CatalogueFor(c, q), shelf), ManagementTable(Later(v + 1), Assets(d, r));
    var t := Active(v + 1, Assets(d, r), CatalogueFor(d, r), next);
    NextOfTable(cfg, s, op, t);
    LaterAdded(v, Assets(c, q), CatalogueFor(c, q), shelf, Assets(d, r));
    LaterProposed(v, Assets(c, q), CatalogueFor(c, q), shelf, Assets(d, r));
    Builds(d, r);
    Exchanged(c, q, d, r);
    assert After(next, cfg, CatalogueFor(d, r), []) == next;
    assert Retried(next, cfg, CatalogueFor(d, r), next);
    assert Added(s, op).contexts[0 := Context(Proposed(s, op), map[])] == t.contexts;
    assert CommitNext(cfg, Added(s, op), 0, TABLE.source, t);
  }

  lemma Exchanged(c: nat, q: nat, d: nat, r: nat)
    requires c != d || q != r
    ensures Replaced(CatalogueFor(c, q), 0, CatalogueFor(d, r)) == CatalogueFor(d, r)
    ensures Gone(CatalogueFor(c, q), 0, CatalogueFor(d, r)) == {MpuKey(0, c, q)}
  {
  }

  lemma FirstReplaced()
    ensures CommittedShelf(PUBLISHED, {MPU}, CatalogueFor(0, 1), REPLACING)
  {
    var cat := CatalogueFor(0, 1);
    assert Replaces(cat, MPU, HEIR);
    assert Without({MPU}, cat) == {} && ItemsOf(PUBLISHED, {}) == {};
    EraseNothing(PUBLISHED);
    forall m
      ensures ReplacedBy({MPU}, cat, m) == if m == HEIR then {MPU} else {}
    {
      assert Replaces(cat, MPU, m) ==> m == HEIR;
    }
    hide Show;
    hide Erase;
  }

  lemma HeirGone()
    ensures CommittedShelf(REPLACING, {HEIR}, CatalogueFor(1, 0), REPLACING)
  {
    var cat := CatalogueFor(1, 0);
    forall m
      ensures !Replaces(cat, HEIR, m)
    {
    }
    assert Without({HEIR}, cat) == {HEIR} && ItemsOf(REPLACING, {HEIR}) == {};
    EraseNothing(REPLACING);
    assert forall m :: ReplacedBy({HEIR}, cat, m) == {};
    hide Show;
    hide Erase;
  }

  const INDEX := DataUnit(Some(0), ResourceWitness.IndexOf(1))

  ghost function StrandingStates(): seq<State> {
    [Initial(), Opened(), Committed(), On(FIRST), On(PUBLISHED), Active(1, Assets(0, 1), CatalogueFor(0, 1), REPLACING),
     Active(2, Assets(1, 0), CatalogueFor(1, 0), REPLACING)]
  }

  function StrandingOps(): seq<Op> {
    [DirectoryTable(TABLE, ROOT), ManagementTable(TABLE, ASSETS), Unit(K(0), INDEX), Unit(K(1), FILE),
     ManagementTable(Later(1), Assets(0, 1)), ManagementTable(Later(2), Assets(1, 0))]
  }

  lemma StrandingSteps(cfg: Config)
    requires cfg.maxResources >= 1
    ensures Next(cfg, Committed(), Unit(K(0), INDEX), On(FIRST))
    ensures Next(cfg, On(FIRST), Unit(K(1), FILE), On(PUBLISHED))
    ensures Next(cfg, On(PUBLISHED), ManagementTable(Later(1), Assets(0, 1)),
                 Active(1, Assets(0, 1), CatalogueFor(0, 1), REPLACING))
    ensures Next(cfg, Active(1, Assets(0, 1), CatalogueFor(0, 1), REPLACING), ManagementTable(Later(2), Assets(1, 0)),
                 Active(2, Assets(1, 0), CatalogueFor(1, 0), REPLACING))
  {
    hide UnitNext;
    hide Next;
    hide Show;
    hide ResourceWitness.IndexOf;
    hide CommittedShelf;
    IndexSteps(cfg);
    OnEmpty();
    UnitStep(cfg, EmptyShelf(), K(0), INDEX, FIRST);
    FilePublished(cfg);
    UnitStep(cfg, FIRST, K(1), FILE, PUBLISHED);
    FirstReplaced();
    LaterCommits(cfg, 0, 0, 0, 0, 1, PUBLISHED, REPLACING);
    HeirGone();
    LaterCommits(cfg, 1, 0, 1, 1, 0, REPLACING, REPLACING);
  }

  /** An MPU with a file, then its successor in the catalogue instead, then another component alone: the file is still
      there to be looked up, and by `StrandedStays` no unit that comes takes it out of the published items. */
  lemma StrandingRun(cfg: Config)
    requires cfg.maxResources >= 1
    ensures Run(cfg, StrandingStates(), StrandingOps())
    ensures (var s := StrandingStates()[6];
             && Left(s.shelf, s.active, K(1))
             && Get(s.shelf.out.store, 0, TARGET.path) == Some(BYTES))
  {
    StrandingIsRun(cfg);
    hide Run;
    FileLeft();
    FileFound();
    hide Left;
    hide Show;
    hide StrandingOps;
  }

  lemma StrandingIsRun(cfg: Config)
    requires cfg.maxResources >= 1
    ensures Run(cfg, StrandingStates(), StrandingOps())
  {
    hide Next;
    hide Initial;
    hide Opened;
    hide Committed;
    hide On;
    hide Active;
    hide K;
    hide Show;
    hide ResourceWitness.IndexOf;
    hide CatalogueFor;
    hide Assets;
    hide Later;
    hide Laid;
    DirectoriesArrive(cfg);
    ManagementArrives(cfg);
    StrandingSteps(cfg);
    var states, ops := StrandingStates(), StrandingOps();
    forall i | 0 <= i < |ops|
      ensures Next(cfg, states[i], ops[i], states[i + 1])
    {
      assert i == 0 || i == 1 || i == 2 || i == 3 || i == 4 || i == 5;
    }
  }

  lemma FileLeft()
    ensures Left(REPLACING, CatalogueFor(1, 0), K(1))
  {
  }

  lemma FileFound()
    ensures Get(REPLACING.out.store, 0, TARGET.path) == Some(BYTES)
  {
    SplitPlain([0x61]);
    assert Kept([[0x61]][1..]) == [];
    assert Kept([[0x61]]) == [[0x61]];
    assert SafePath([0x61]) == Some([0x61]);
    hide SafePath;
  }
}
