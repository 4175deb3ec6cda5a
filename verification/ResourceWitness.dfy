/** A run in which an index leaves a listed file waiting, and the next retry then loses its iterator. */
module ResourceWitness {
  import opened Bytes
  import opened ResourcePaths
  import opened ResourceIndex
  import opened SectionSets
  import opened ResourceCatalogue
  import opened ResourceShelf
  import opened ResourceRuns
  import opened ResourceRetries

  // ----- one context with one directory and one MPU, whose index is item 0

  const MPU := MpuKey(0, 0, 0)

  const TABLE := Header(0, Source(0, 0), 0, true, 0, 0)

  const ROOT := Directory([], [Node(0, [])])

  const ONE := Mpu(0, Some(0), [], [0, 0, 2, 0, 0])

  /** One component with one MPU, whose descriptor names the node. */
  function Assets(component: nat, sequence: nat): Management {
    Management(0, component, 0, [ONE.(sequence := sequence)])
  }

  const ASSETS := Assets(0, 0)

  const MAPPING := MpuMap(0, 0, 0, [], Some(0))

  function CatalogueFor(component: nat, sequence: nat): Catalogue {
    Catalogue(map[NodeKey(0, 0) := []], map[MpuKey(0, component, sequence) := MAPPING])
  }

  const CATALOGUE := CatalogueFor(0, 0)

  lemma RootIsSafe()
    ensures SafePath([]) == Some([]) && JoinPath([], [], []) == Some([])
  {
    EmptyIsSafe();
  }

  lemma AssetsMap(component: nat, sequence: nat)
    ensures MapOf(Assets(component, sequence), Assets(component, sequence).mpus[0]) == MAPPING
  {
    var info := ONE.info;
    assert info[3 + info[2]..] == [];
    assert MpuNode([], Some(0)) == Some(0);
  }

  const NODES: seq<Entry<NodeKey, Option<Path>>> := [Entry(NodeKey(0, 0), Some([]))]

  function MpusFor(component: nat, sequence: nat): seq<Entry<MpuKey, MpuMap>> {
    [Entry(MpuKey(0, component, sequence), MAPPING)]
  }

  lemma NodesRead()
    ensures AllNodes(0, [ROOT]) == NODES && GoodBases(Bases([ROOT]))
  {
    hide SafePath;
    hide JoinPath;
    RootIsSafe();
    var none: seq<Entry<NodeKey, Option<Path>>> := [];
    assert [ROOT][..0] == [];
    assert NodesOf(0, ROOT) == NODES && none + NODES == NODES;
  }

  lemma NodesKept()
    ensures GoodNodes(NODES) && NodeMap(NODES) == CATALOGUE.nodes && NodeKeys(NODES) == {NodeKey(0, 0)}
  {
    assert NODES[..0] == [];
    assert forall e :: e in NODES <==> e == NODES[0];
  }

  lemma MpusRead(component: nat, sequence: nat)
    ensures AllMpus(0, [Assets(component, sequence)]) == MpusFor(component, sequence)
    ensures MapOfMpus(MpusFor(component, sequence)) == CatalogueFor(component, sequence).mpus
  {
    hide MapOf;
    AssetsMap(component, sequence);
    var none: seq<Entry<MpuKey, MpuMap>> := [];
    var assets, mpus := Assets(component, sequence), MpusFor(component, sequence);
    assert [assets][..0] == [] && mpus[..0] == [];
    assert MpusOf(0, assets) == mpus && none + mpus == mpus;
  }

  lemma MpusGrounded(component: nat, sequence: nat)
    ensures GoodMpus(MpusFor(component, sequence), {NodeKey(0, 0)})
  {}

  lemma Builds(component: nat, sequence: nat)
    ensures Build(0, [ROOT], [Assets(component, sequence)]) == Some(CatalogueFor(component, sequence))
  {
    hide AllNodes;
    hide AllMpus;
    hide NodeMap;
    hide MapOfMpus;
    hide NodeKeys;
    hide GoodNodes;
    hide GoodMpus;
    hide GoodBases;
    hide Bases;
    NodesRead();
    NodesKept();
    MpusRead(component, sequence);
    MpusGrounded(component, sequence);
  }

  // ----- the tables arrive

  function Part0<T>(table: T): Section<nat, T> { Section(0, 0, 0, table) }

  function Only<T>(table: T): SectionSet<nat, T> { Add<nat, T>(Fresh<nat, T>(), Part0(table)) }

  lemma OneSection<T(!new)>(table: T)
    ensures Complete(Only(table)) && Values(Only(table)) == [table] && Only(table).version == Some(0)
  {
    var sections := Only(table).sections;
    assert sections == [Some(Part0(table))];
    var none: seq<T> := [];
    assert Present(sections[1..]) == none && [table] + none == [table];
  }

  function Opened(): State { Added(Initial(), DirectoryTable(TABLE, ROOT)) }

  lemma DirectoriesArrive(cfg: Config)
    ensures Next(cfg, Initial(), DirectoryTable(TABLE, ROOT), Opened())
  {
    hide Build;
    hide Add;
    NextOfTable(cfg, Initial(), DirectoryTable(TABLE, ROOT), Opened());
  }

  function Committed(): State {
    State(map[0 := Context(Some(Tables(TABLE.source, 0, 0, [ROOT], [ASSETS])), map[])], CATALOGUE, EmptyShelf())
  }

  lemma OpenedTables()
    ensures (var c := Added(Opened(), ManagementTable(TABLE, ASSETS)).contexts[0];
             && c.active.None? && TABLE.source in c.candidates
             && c.candidates[TABLE.source].directories == Only(ROOT)
             && c.candidates[TABLE.source].management == Only(ASSETS))
  {
    hide Add;
  }

  lemma OpenedProposes()
    ensures Proposed(Opened(), ManagementTable(TABLE, ASSETS)) == Some(Tables(TABLE.source, 0, 0, [ROOT], [ASSETS]))
  {
    hide Add;
    hide Complete;
    hide Values;
    hide Added;
    hide Opened;
    OpenedTables();
    OneSection(ROOT);
    OneSection(ASSETS);
  }

  lemma NothingCommitted(cfg: Config)
    ensures CommittedShelf(EmptyShelf(), {}, CATALOGUE, EmptyShelf())
        && Retried(EmptyShelf(), cfg, CATALOGUE, EmptyShelf())
  {
    var s := EmptyShelf();
    assert Without({}, CATALOGUE) == {} && ItemsOf(s, {}) == {};
    EraseNothing(s);
    assert forall m :: ReplacedBy({}, CATALOGUE, m) == {};
    assert After(s, cfg, CATALOGUE, []) == s;
  }

  lemma EraseNothing(s: Shelf)
    ensures Erase(s, {}) == s
  {
    assert Sizes(s.queue.units) - (s.queue.units.Keys - {}) == map[];
    assert s.items - {} == s.items && s.out.items - {} == s.out.items && s.queue.units - {} == s.queue.units;
    assert OwnedPaths(s.out, {}) == {} && Normalized({}) == {};
    assert s.out.paths - {} == s.out.paths && s.out.store - {} == s.out.store;
  }

  lemma ManagementArrives(cfg: Config)
    ensures Next(cfg, Opened(), ManagementTable(TABLE, ASSETS), Committed())
  {
    hide Build;
    hide Added;
    hide CommittedShelf;
    hide Retried;
    hide Proposal;
    var op := ManagementTable(TABLE, ASSETS);
    var s, empty := Added(Opened(), op), Catalogue(map[], map[]);
    NextOfTable(cfg, Opened(), op, Committed());
    OpenedProposes();
    Builds(0, 0);
    NothingCommitted(cfg);
    OpenedNews();
    assert s.contexts[0 := Context(Proposed(Opened(), op), map[])] == Committed().contexts;
    assert Replaced(empty, 0, CATALOGUE) == CATALOGUE && Gone(empty, 0, CATALOGUE) == {};
    assert CommittedShelf(s.shelf, Gone(s.active, 0, CATALOGUE), CATALOGUE, EmptyShelf());
    assert CommitNext(cfg, s, 0, TABLE.source, Committed());
  }

  lemma OpenedNews()
    ensures !Ignored(Opened(), ManagementTable(TABLE, ASSETS)) && Opened().active == Catalogue(map[], map[])
    ensures Opened().shelf == EmptyShelf()
    ensures Added(Opened(), ManagementTable(TABLE, ASSETS)).contexts.Keys == {0}
  {}

  // ----- the units arrive

  function K(i: nat): ItemKey { ItemKey(MPU, i) }

  const TARGET := FileTarget([0x61], [], 0, 0, STORED, None)

  const FILE := DataUnit(Some(0), [])

  /** An index that lists item i alone, as an empty stored file. */
  function Lone(i: nat): FileRecord { FileRecord(i, 0, 0, [0x61], [], STORED, None) }

  function IndexOf(i: nat): seq<byte>
    requires i < UINT32
  {
    assert AllFit([Lone(i)], [Note(0, [])]);
    Wire16(1) + WireRecords([Lone(i)], [Note(0, [])])
  }

  lemma IndexReads(i: nat)
    requires i < UINT32
    ensures Index(IndexOf(i)) == Some([Lone(i)])
  {
    assert AllFit([Lone(i)], [Note(0, [])]);
    RoundTrip(IndexOf(i), [Lone(i)], [Note(0, [])]);
  }

  lemma NameJoins()
    ensures JoinPath([], [0x61], []) == Some([0x61])
  {
    EmptyIsSafe();
    SplitPlain([0x61]);
    assert Kept([[0x61]][1..]) == [];
    assert Kept([[0x61]]) == [[0x61]];
  }

  lemma TargetRead(i: nat)
    ensures TagsPresent(0, CATALOGUE.nodes, [0])
    ensures Targets(0, CATALOGUE.nodes, [0], [Lone(i)]) == Some(map[i := TARGET])
  {
    hide JoinPath;
    NameJoins();
    var none: map<nat, FileTarget> := map[];
    assert Targets(0, CATALOGUE.nodes, [0][..0], [Lone(i)][..0]) == Some(none);
    assert none[i := TARGET] == map[i := TARGET];
  }

  predicate AllHere(items: map<ItemKey, FileTarget>) { forall k :: k in items ==> k.mpu == MPU }

  lemma LoneAccepted(s: Shelf, cfg: Config, i: nat)
    requires i < UINT32 && AllHere(s.items) && cfg.maxResources >= 1
    ensures Accepted(s, cfg, CATALOGUE, MPU, IndexOf(i)) == Some(map[i := TARGET])
  {
    hide Index;
    hide IndexOf;
    hide Targets;
    IndexReads(i);
    TargetRead(i);
    assert TagsFor(MAPPING, 1) == [0];
    assert Listed(s, MPU) == s.items.Keys;
  }

  lemma CatalogueGrounded()
    ensures AllGrounded(CATALOGUE)
  {}

  /** Such an index is taken, and nothing ends while its file is unpublished. */
  lemma IndexTaken(s: Shelf, cfg: Config, i: nat)
    requires i < UINT32 && AllHere(s.items) && s.out.items == map[] && cfg.maxResources >= 1
    ensures UnitNext(cfg, s, CATALOGUE, K(0), DataUnit(Some(0), IndexOf(i)), Relist(s, MPU, map[i := TARGET]))
  {
    hide Relist;
    hide Accepted;
    hide ConsumeIndex;
    hide DropSuperseded;
    hide DropDeferred;
    hide IndexOf;
    LoneAccepted(s, cfg, i);
    CatalogueGrounded();
    IndexAccepted(s, cfg, CATALOGUE, MPU, IndexOf(i));
    var targets := map[i := TARGET];
    RelistedReady(s, MPU, targets);
    assert i in targets && K(i) !in s.out.items;
    assert !Published(s, MPU, targets);
  }

  /** A file that is not listed has to wait. */
  lemma FileWaits(s: Shelf, cfg: Config, i: nat)
    requires i > 0 && K(i) !in s.items && s.queue.bytes == 0 && K(i) !in s.queue.units && |s.queue.units| < cfg.maxUnits
    ensures !TryConsume(s, cfg, CATALOGUE, K(i), FILE).0 && !TooMuch(s.queue, cfg, K(i), FILE)
  {}

  // ----- the run

  function Laid(items: map<ItemKey, FileTarget>, units: map<ItemKey, DataUnit>,
                deferred: map<MpuKey, set<ItemKey>>): Shelf {
    Shelf(items, Queue(units, 0), Publication(map[], map[], map[]), map[], deferred, false)
  }

  const FIRST := Laid(map[K(1) := TARGET], map[], map[])

  const SECOND := Laid(map[K(2) := TARGET], map[], map[MPU := {K(1)}])

  const WAITING := Laid(map[K(2) := TARGET], map[K(1) := FILE], map[MPU := {K(1)}])

  const RELISTED := Laid(map[K(1) := TARGET], map[K(1) := FILE], map[MPU := {K(2)} + {K(1)}])

  lemma RelistSwaps(s: Shelf, j: nat, i: nat)
    requires i != j && s.items == map[K(j) := TARGET]
    ensures Relist(s, MPU, map[i := TARGET])
         == s.(items := map[K(i) := TARGET],
               deferred := s.deferred[MPU := {K(j)} + (if MPU in s.deferred then s.deferred[MPU] else {})])
  {
    var targets := map[i := TARGET];
    assert KeysFor(MPU, targets) == {K(i)} && Listed(s, MPU) == {K(j)} && {K(j)} - {K(i)} == {K(j)};
    assert Assigned({K(i)}, targets) == map[K(i) := TARGET];
    var none: map<ItemKey, FileTarget> := map[];
    assert s.items - {K(j)} == none && none + map[K(i) := TARGET] == map[K(i) := TARGET];
    assert K(j) in {K(j)};
  }

  lemma Relists()
    ensures Relist(EmptyShelf(), MPU, map[1 := TARGET]) == FIRST
    ensures Relist(FIRST, MPU, map[2 := TARGET]) == SECOND
    ensures Relist(WAITING, MPU, map[1 := TARGET]) == RELISTED
  {
    RelistSwaps(FIRST, 1, 2);
    RelistSwaps(WAITING, 2, 1);
    var none: map<MpuKey, set<ItemKey>> := map[];
    var nobody: set<ItemKey> := {};
    assert {K(1)} + nobody == {K(1)};
    assert none[MPU := {K(1)}] == map[MPU := {K(1)}];
    assert map[MPU := {K(1)}][MPU := {K(2)} + {K(1)}] == map[MPU := {K(2)} + {K(1)}];
    RelistFirst();
    hide Relist;
  }

  lemma RelistFirst()
    ensures Relist(EmptyShelf(), MPU, map[1 := TARGET]) == FIRST
  {
    assert KeysFor(MPU, map[1 := TARGET]) == {K(1)} && Listed(EmptyShelf(), MPU) == {};
    assert Assigned({K(1)}, map[1 := TARGET]) == map[K(1) := TARGET];
  }

  /** The file that waits at `RELISTED` is published by the next retry and taken away by the update it completes. */
  lemma Vanishes(cfg: Config)
    ensures (var s := RELISTED.(queue := Queue(map[K(1) := FILE, K(2) := FILE], 0));
             && Consumable(s, cfg, CATALOGUE, K(1))
             && ConsumePending(s, cfg, CATALOGUE, K(1)).dangling
             && ConsumePending(s, cfg, CATALOGUE, K(1)).queue.units == map[])
  {
    var s := RELISTED.(queue := Queue(map[K(1) := FILE, K(2) := FILE], 0));
    CatalogueGrounded();
    DanglesExactly(s, cfg, CATALOGUE, K(1));
    var after := ConsumePending(s, cfg, CATALOGUE, K(1));
    forall j | j in after.queue.units
      ensures false
    {
      Emptied(s, cfg, j);
    }
  }

  lemma Emptied(s: Shelf, cfg: Config, j: ItemKey)
    requires s == RELISTED.(queue := Queue(map[K(1) := FILE, K(2) := FILE], 0))
    ensures j !in TryConsume(s, cfg, CATALOGUE, K(1), FILE).1.queue.units
  {
  }

  const BOTH := RELISTED.(queue := Queue(map[K(1) := FILE, K(2) := FILE], 0))

  ghost function Vanished(cfg: Config): Shelf { ConsumePending(BOTH, cfg, CATALOGUE, K(1)) }

  lemma FirstWaits(cfg: Config)
    requires cfg.maxUnits >= 2
    ensures UnitNext(cfg, SECOND, CATALOGUE, K(1), FILE, WAITING)
  {
    hide TryConsume;
    hide TooMuch;
    FileWaits(SECOND, cfg, 1);
    CatalogueGrounded();
    SettledMeans(WAITING, cfg, CATALOGUE);
    var none: map<ItemKey, DataUnit> := map[];
    assert none[K(1) := FILE] == map[K(1) := FILE];
    assert After(WAITING, cfg, CATALOGUE, []) == WAITING;
  }

  lemma SecondWaits(cfg: Config)
    requires cfg.maxUnits >= 2
    ensures UnitNext(cfg, RELISTED, CATALOGUE, K(2), FILE, Vanished(cfg))
  {
    hide TryConsume;
    hide TooMuch;
    hide Consumable;
    hide ConsumePending;
    FileWaits(RELISTED, cfg, 2);
    Vanishes(cfg);
    assert RELISTED.queue.units[K(2) := FILE] == BOTH.queue.units;
    assert [K(1)][..0] == [];
    assert After(BOTH, cfg, CATALOGUE, []) == BOTH;
    assert After(BOTH, cfg, CATALOGUE, [K(1)]) == Vanished(cfg);
  }

  ghost function States(cfg: Config): seq<State> {
    [Initial(), Opened(), Committed(), On(FIRST), On(SECOND), On(WAITING), On(RELISTED), On(Vanished(cfg))]
  }

  function Ops(): seq<Op> {
    [DirectoryTable(TABLE, ROOT), ManagementTable(TABLE, ASSETS),
     Unit(K(0), DataUnit(Some(0), IndexOf(1))), Unit(K(0), DataUnit(Some(0), IndexOf(2))), Unit(K(1), FILE),
     Unit(K(0), DataUnit(Some(0), IndexOf(1))), Unit(K(2), FILE)]
  }

  lemma IndexSteps(cfg: Config)
    requires cfg.maxResources >= 1
    ensures UnitNext(cfg, EmptyShelf(), CATALOGUE, K(0), DataUnit(Some(0), IndexOf(1)), FIRST)
    ensures UnitNext(cfg, FIRST, CATALOGUE, K(0), DataUnit(Some(0), IndexOf(2)), SECOND)
    ensures UnitNext(cfg, WAITING, CATALOGUE, K(0), DataUnit(Some(0), IndexOf(1)), RELISTED)
  {
    hide UnitNext;
    hide Relist;
    hide IndexOf;
    Relists();
    IndexTaken(EmptyShelf(), cfg, 1);
    IndexTaken(FIRST, cfg, 2);
    IndexTaken(WAITING, cfg, 1);
  }

  function On(shelf: Shelf): State { Committed().(shelf := shelf) }

  lemma UnitStep(cfg: Config, a: Shelf, k: ItemKey, unit: DataUnit, b: Shelf)
    requires UnitNext(cfg, a, CATALOGUE, k, unit, b)
    ensures Next(cfg, On(a), Unit(k, unit), On(b))
  {
    hide UnitNext;
  }

  lemma IsRun(cfg: Config)
    requires cfg.maxUnits >= 2 && cfg.maxResources >= 1
    ensures Run(cfg, States(cfg), Ops())
  {
    hide UnitNext;
    hide IndexOf;
    hide Next;
    hide Vanished;
    hide Initial;
    hide Opened;
    DirectoriesArrive(cfg);
    ManagementArrives(cfg);
    IndexSteps(cfg);
    FirstWaits(cfg);
    SecondWaits(cfg);
    UnitStep(cfg, EmptyShelf(), K(0), DataUnit(Some(0), IndexOf(1)), FIRST);
    UnitStep(cfg, FIRST, K(0), DataUnit(Some(0), IndexOf(2)), SECOND);
    UnitStep(cfg, SECOND, K(1), FILE, WAITING);
    UnitStep(cfg, WAITING, K(0), DataUnit(Some(0), IndexOf(1)), RELISTED);
    UnitStep(cfg, RELISTED, K(2), FILE, Vanished(cfg));
    OnEmpty();
    hide On;
    hide Committed;
    hide K;
    hide EmptyShelf;
    var states, ops := States(cfg), Ops();
    forall i | 0 <= i < |ops| ensures Next(cfg, states[i], ops[i], states[i + 1]) {
      assert i == 0 || i == 1 || i == 2 || i == 3 || i == 4 || i == 5 || i == 6;
    }
  }

  lemma OnEmpty()
    ensures On(EmptyShelf()) == Committed()
  {}

  /** Two tables, an index with file 1, one with file 2 instead, file 1 (which has to wait), and the index with file 1
      again: it now waits though it is listed. Then file 2 arrives, and the retry takes file 1 away under the loop. */
  lemma WitnessRun(cfg: Config)
    requires cfg.maxUnits >= 2 && cfg.maxResources >= 1
    ensures Run(cfg, States(cfg), Ops())
    ensures (var s := States(cfg)[5]; Settled(s.shelf, cfg, s.active))
    ensures (var s := States(cfg)[6]; !Settled(s.shelf, cfg, s.active) && !s.shelf.dangling)
    ensures States(cfg)[7].shelf.dangling
  {
    hide Run;
    hide Settled;
    hide Ops;
    IsRun(cfg);
    WaitingStates(cfg);
    VanishedDangles(cfg);
    hide Vanished;
    hide EmptyShelf;
    hide Opened;
    hide Initial;
  }

  lemma VanishedDangles(cfg: Config)
    ensures Vanished(cfg).dangling
  {
    hide ConsumePending;
    Vanishes(cfg);
  }

  lemma WaitingStates(cfg: Config)
    ensures Settled(WAITING, cfg, CATALOGUE) && !Settled(RELISTED, cfg, CATALOGUE)
    ensures On(WAITING).active == CATALOGUE && On(RELISTED).active == CATALOGUE
  {
    CatalogueGrounded();
    SettledMeans(WAITING, cfg, CATALOGUE);
    SettledMeans(RELISTED, cfg, CATALOGUE);
    assert K(1) in RELISTED.queue.units && !Stuck(RELISTED, CATALOGUE, K(1));
    hide Settled;
  }
}
