/** Runs of the application-resource assembler: tables, units, drops and resets in any order. */
module ResourceRuns {
  import opened Bytes
  import opened ResourcePaths
  import opened ResourceIndex
  import opened SectionSets
  import opened ResourceCatalogue
  import opened ResourceShelf
  import opened Totals

  /** Where a table comes from: its packet and its session. */
  datatype Source = Source(packet: nat, session: nat)

  datatype Tables = Tables(source: Source, directoryVersion: nat, managementVersion: nat,
                           directories: seq<Directory>, management: seq<Management>)

  datatype Candidate = Candidate(directories: SectionSet<nat, Directory>, management: SectionSet<nat, Management>)

  datatype Context = Context(active: Option<Tables>, candidates: map<Source, Candidate>)

  datatype State = State(contexts: map<nat, Context>, active: Catalogue, shelf: Shelf)

  function Initial(): State { State(map[], Catalogue(map[], map[]), EmptyShelf()) }

  // ----- retrying what waits

  /** A waiting unit that was used leaves the queue. If using it already removed it from the queue,
      the program goes on with an iterator to nothing: recorded as dangling. */
  ghost function ConsumePending(s: Shelf, cfg: Config, active: Catalogue, k: ItemKey): Shelf
    requires k in s.queue.units
  {
    var t := TryConsume(s, cfg, active, k, s.queue.units[k]).1;
    if k in t.queue.units then t.(queue := Discard(t.queue, {k})) else t.(dangling := true)
  }

  ghost predicate Consumable(s: Shelf, cfg: Config, active: Catalogue, k: ItemKey) {
    k in s.queue.units && TryConsume(s, cfg, active, k, s.queue.units[k]).0
  }

  /** The shelf after the waiting units of a list have been used in turn. */
  ghost function After(s: Shelf, cfg: Config, active: Catalogue, used: seq<ItemKey>): Shelf
    decreases |used|
  {
    if used == [] then s
    else
      var t := After(s, cfg, active, used[..|used| - 1]);
      var k := used[|used| - 1];
      if Consumable(t, cfg, active, k) then ConsumePending(t, cfg, active, k) else t
  }

  /** No waiting unit can be used. */
  ghost predicate Settled(s: Shelf, cfg: Config, active: Catalogue) {
    forall k :: k in s.queue.units ==> !Consumable(s, cfg, active, k)
  }

  ghost predicate Retried(s: Shelf, cfg: Config, active: Catalogue, t: Shelf) {
    && Settled(t, cfg, active)
    && exists used :: t == After(s, cfg, active, used)
  }

  // ----- units

  function SizeAt(queue: Queue, k: ItemKey): nat { if k in queue.units then |queue.units[k].data| else 0 }

  predicate TooMuch(queue: Queue, cfg: Config, k: ItemKey, unit: DataUnit) {
    || |queue.units| + (if k in queue.units then 0 else 1) > cfg.maxUnits
    || |unit.data| > cfg.maxBytes - Min(queue.bytes, cfg.maxBytes) + SizeAt(queue, k)
  }

  function Enqueue(queue: Queue, k: ItemKey, unit: DataUnit): Queue {
    Queue(queue.units[k := unit], queue.bytes - SizeAt(queue, k) + |unit.data|)
  }

  ghost predicate UnitNext(cfg: Config, s: Shelf, active: Catalogue, k: ItemKey, unit: DataUnit, t: Shelf) {
    var (used, after) := TryConsume(s, cfg, active, k, unit);
    if used then t == after
    else if TooMuch(s.queue, cfg, k, unit) then t == s
    else Retried(s.(queue := Enqueue(s.queue, k, unit)), cfg, active, t)
  }

  // ----- committing a catalogue

  /** The MPU that takes over: the lowest sequence of the same component and the same upper half. */
  predicate Similar(gone: MpuKey, other: MpuKey) {
    other.context == gone.context && other.component == gone.component
    && other.sequence / 0x1_0000 == gone.sequence / 0x1_0000
  }

  ghost predicate Replaces(cat: Catalogue, gone: MpuKey, heir: MpuKey) {
    && heir in cat.mpus && Similar(gone, heir)
    && forall o :: o in cat.mpus && Similar(gone, o) ==> heir.sequence <= o.sequence
  }

  ghost predicate HasReplacement(cat: Catalogue, gone: MpuKey) { exists heir :: Replaces(cat, gone, heir) }

  /** MPUs of the context that the new catalogue no longer has. */
  function Gone(active: Catalogue, context: nat, cat: Catalogue): set<MpuKey> {
    set m | m in active.mpus && m.context == context && m !in cat.mpus
  }

  ghost function ReplacedBy(gone: set<MpuKey>, cat: Catalogue, heir: MpuKey): set<MpuKey> {
    set m | m in gone && Replaces(cat, m, heir)
  }

  ghost function Without(gone: set<MpuKey>, cat: Catalogue): set<MpuKey> {
    set m | m in gone && !HasReplacement(cat, m)
  }

  function SupersededAt(superseded: map<MpuKey, set<MpuKey>>, m: MpuKey): set<MpuKey> {
    if m in superseded then superseded[m] else {}
  }

  /** An MPU with a replacement stays until that is ready; one without is erased. */
  ghost predicate CommittedShelf(s: Shelf, gone: set<MpuKey>, cat: Catalogue, t: Shelf) {
    && t == Erase(s, ItemsOf(s, Without(gone, cat))).(superseded := t.superseded)
    && forall m :: SupersededAt(t.superseded, m) == SupersededAt(s.superseded, m) + ReplacedBy(gone, cat, m)
  }

  function Part(cat: Catalogue, context: nat): Catalogue {
    Catalogue(map k | k in cat.nodes && k.context == context :: cat.nodes[k],
              map k | k in cat.mpus && k.context == context :: cat.mpus[k])
  }

  function Others(cat: Catalogue, context: nat): Catalogue {
    Catalogue(map k | k in cat.nodes && k.context != context :: cat.nodes[k],
              map k | k in cat.mpus && k.context != context :: cat.mpus[k])
  }

  function Replaced(active: Catalogue, context: nat, cat: Catalogue): Catalogue {
    Catalogue(Others(active, context).nodes + cat.nodes, Others(active, context).mpus + cat.mpus)
  }

  predicate SameSource(c: Context, source: Source) { c.active.Some? && c.active.value.source == source }

  /** The tables to try: complete candidates, each of which the active one of the same source may stand in for. */
  function Proposal(c: Context, source: Source): Option<Tables> {
    if source !in c.candidates then None
    else
      var candidate := c.candidates[source];
      var ds, ms := Complete(candidate.directories), Complete(candidate.management);
      if (!ds && !SameSource(c, source)) || (!ms && !SameSource(c, source)) || (!ds && !ms) then None
      else Some(Tables(source,
                       if ds then candidate.directories.version.value else c.active.value.directoryVersion,
                       if ms then candidate.management.version.value else c.active.value.managementVersion,
                       if ds then Values(candidate.directories) else c.active.value.directories,
                       if ms then Values(candidate.management) else c.active.value.management))
  }

  ghost predicate CommitNext(cfg: Config, s: State, context: nat, source: Source, t: State)
    requires context in s.contexts
  {
    var proposal := Proposal(s.contexts[context], source);
    if proposal.None? then t == s
    else
      var built := Build(context, proposal.value.directories, proposal.value.management);
      if built.None? then t == s
      else
        && t.contexts == s.contexts[context := Context(proposal, map[])]
        && t.active == Replaced(s.active, context, built.value)
        && exists shelf :: CommittedShelf(s.shelf, Gone(s.active, context, built.value), built.value, shelf)
                           && Retried(shelf, cfg, t.active, t.shelf)
  }

  // ----- operations

  datatype Header = Header(context: nat, source: Source, version: nat, current: bool, number: nat, last: nat)

  datatype Op =
    | DirectoryTable(header: Header, directory: Directory)
    | ManagementTable(header: Header, management: Management)
    | Unit(key: ItemKey, unit: DataUnit)
    | DropTransient
    | Reset

  function ContextAt(s: State, context: nat): Context {
    if context in s.contexts then s.contexts[context] else Context(None, map[])
  }

  function CandidateAt(c: Context, source: Source): Candidate {
    if source in c.candidates then c.candidates[source] else Candidate(Fresh(), Fresh())
  }

  function WithCandidate(s: State, h: Header, candidate: Candidate): State {
    var c := ContextAt(s, h.context);
    s.(contexts := s.contexts[h.context := c.(candidates := c.candidates[h.source := candidate])])
  }

  function AddDirectory(s: State, h: Header, d: Directory): State {
    var candidate := CandidateAt(ContextAt(s, h.context), h.source);
    WithCandidate(s, h, candidate.(directories := Add(candidate.directories, Section(h.version, h.number, h.last, d))))
  }

  function AddManagement(s: State, h: Header, m: Management): State {
    var candidate := CandidateAt(ContextAt(s, h.context), h.source);
    WithCandidate(s, h, candidate.(management := Add(candidate.management, Section(h.version, h.number, h.last, m))))
  }

  function Dropped(contexts: map<nat, Context>): map<nat, Context> {
    map c | c in contexts :: contexts[c].(candidates := map[])
  }

  ghost predicate Next(cfg: Config, s: State, op: Op, t: State) {
    match op
    case DirectoryTable(h, d) =>
      var c := ContextAt(s, h.context);
      if !h.current || (SameSource(c, h.source) && c.active.value.directoryVersion == h.version) then t == s
      else CommitNext(cfg, AddDirectory(s, h, d), h.context, h.source, t)
    case ManagementTable(h, m) =>
      var c := ContextAt(s, h.context);
      if !h.current || (SameSource(c, h.source) && c.active.value.managementVersion == h.version) then t == s
      else CommitNext(cfg, AddManagement(s, h, m), h.context, h.source, t)
    case Unit(k, unit) => t.contexts == s.contexts && t.active == s.active
        && UnitNext(cfg, s.shelf, s.active, k, unit, t.shelf)
    case DropTransient => t == State(Dropped(s.contexts), s.active, s.shelf.(queue := Queue(map[], 0)))
    case Reset => t == Initial().(shelf := EmptyShelf().(dangling := s.shelf.dangling))
  }

  // ----- the invariant

  /** The catalogue of a context is what its active tables build, or empty before the first ones. */
  ghost predicate CatalogueOf(s: State, context: nat) {
    var c := ContextAt(s, context);
    match c.active
    case None => Part(s.active, context) == Catalogue(map[], map[])
    case Some(tables) => Build(context, tables.directories, tables.management) == Some(Part(s.active, context))
  }

  ghost predicate Inv(s: State, cfg: Config) {
    Sound(s.shelf, cfg) && forall c :: CatalogueOf(s, c)
  }

  lemma EmptySound(cfg: Config, dangling: bool)
    ensures Sound(EmptyShelf().(dangling := dangling), cfg)
  {
    assert Sizes(map[]) == map[];
  }

  lemma InitialInv(cfg: Config)
    ensures Inv(Initial(), cfg)
  {
    hide Sound;
    EmptySound(cfg, false);
  }

  /** So every node an active MPU refers to is there, and an index never waits for one. */
  lemma ReferencesPresent(s: State, cfg: Config)
    requires Inv(s, cfg)
    ensures forall m :: m in s.active.mpus ==> Grounded(m.context, s.active.mpus[m], s.active.nodes.Keys)
  {
    forall m | m in s.active.mpus ensures Grounded(m.context, s.active.mpus[m], s.active.nodes.Keys) {
      var c := m.context;
      assert CatalogueOf(s, c);
      assert m in Part(s.active, c).mpus;
      var tables := ContextAt(s, c).active.value;
      BuiltIsUsable(c, tables.directories, tables.management);
      assert Grounded(c, Part(s.active, c).mpus[m], Part(s.active, c).nodes.Keys);
    }
  }

  // ----- retrying keeps it

  lemma UsedLeaves(s: Shelf, cfg: Config, active: Catalogue, k: ItemKey)
    requires Sound(s, cfg) && k in s.queue.units
    ensures Sound(ConsumePending(s, cfg, active, k), cfg)
  {
    hide TryConsume;
    hide Agree;
    hide ItemsFit;
    hide Local;
    hide QueueFits;
    hide Discard;
    TryConsumeSound(s, cfg, active, k, s.queue.units[k]);
    var t := TryConsume(s, cfg, active, k, s.queue.units[k]).1;
    DiscardFits(t.queue, {k}, cfg);
  }

  lemma {:induction false} AfterSound(s: Shelf, cfg: Config, active: Catalogue, used: seq<ItemKey>)
    requires Sound(s, cfg)
    ensures Sound(After(s, cfg, active, used), cfg)
    decreases |used|
  {
    hide Sound;
    hide ConsumePending;
    hide Consumable;
    if used != [] {
      AfterSound(s, cfg, active, used[..|used| - 1]);
      var t := After(s, cfg, active, used[..|used| - 1]);
      var k := used[|used| - 1];
      if Consumable(t, cfg, active, k) {
        assert k in t.queue.units by { ConsumableWaits(t, cfg, active, k); }
        UsedLeaves(t, cfg, active, k);
      }
    }
  }

  lemma ConsumableWaits(s: Shelf, cfg: Config, active: Catalogue, k: ItemKey)
    requires Consumable(s, cfg, active, k)
    ensures k in s.queue.units
  {}

  lemma RetriedSound(s: Shelf, cfg: Config, active: Catalogue, t: Shelf)
    requires Sound(s, cfg) && Retried(s, cfg, active, t)
    ensures Sound(t, cfg)
  {
    hide Sound;
    hide After;
    hide Settled;
    var used :| t == After(s, cfg, active, used);
    AfterSound(s, cfg, active, used);
  }

  // ----- units keep it

  lemma EnqueueFits(queue: Queue, k: ItemKey, unit: DataUnit, cfg: Config)
    requires QueueFits(queue, cfg) && !TooMuch(queue, cfg, k, unit)
    ensures QueueFits(Enqueue(queue, k, unit), cfg)
  {
    hide Total;
    var sizes := Sizes(queue.units);
    TotalUpdate(sizes, k, |unit.data|);
    assert Sizes(queue.units[k := unit]) == sizes[k := |unit.data|];
    if k in queue.units { assert queue.units[k := unit].Keys == queue.units.Keys; }
    else { assert queue.units[k := unit].Keys == queue.units.Keys + {k}; }
  }

  lemma UnitSound(cfg: Config, s: Shelf, active: Catalogue, k: ItemKey, unit: DataUnit, t: Shelf)
    requires Sound(s, cfg) && UnitNext(cfg, s, active, k, unit, t)
    ensures Sound(t, cfg)
  {
    hide TryConsume;
    hide TooMuch;
    hide Enqueue;
    hide Retried;
    TryConsumeSound(s, cfg, active, k, unit);
    if !TryConsume(s, cfg, active, k, unit).0 && !TooMuch(s.queue, cfg, k, unit) {
      EnqueueFits(s.queue, k, unit, cfg);
      assert Sound(s.(queue := Enqueue(s.queue, k, unit)), cfg);
      RetriedSound(s.(queue := Enqueue(s.queue, k, unit)), cfg, active, t);
    }
  }

  // ----- commits keep it

  lemma CommittedLocal(superseded: map<MpuKey, set<MpuKey>>, deferred: map<MpuKey, set<ItemKey>>,
                       gone: set<MpuKey>, cat: Catalogue, after: map<MpuKey, set<MpuKey>>)
    requires Local(superseded, deferred) && forall m :: m in gone ==> m !in cat.mpus
    requires forall m :: SupersededAt(after, m) == SupersededAt(superseded, m) + ReplacedBy(gone, cat, m)
    ensures Local(after, deferred)
  {
    forall m, o | m in after && o in after[m]
      ensures o != m && o.context == m.context && o.component == m.component
    {
      assert o in SupersededAt(after, m);
      if o !in ReplacedBy(gone, cat, m) { assert o in superseded[m]; }
    }
  }

  lemma CommittedSound(s: Shelf, gone: set<MpuKey>, cat: Catalogue, t: Shelf, cfg: Config)
    requires Sound(s, cfg) && CommittedShelf(s, gone, cat, t) && forall m :: m in gone ==> m !in cat.mpus
    ensures Sound(t, cfg)
  {
    hide Agree;
    hide ItemsFit;
    hide QueueFits;
    hide Withdraw;
    hide Discard;
    hide Without;
    hide ItemsOf;
    EraseSound(s, ItemsOf(s, Without(gone, cat)), cfg);
    CommittedLocal(s.superseded, s.deferred, gone, cat, t.superseded);
    hide Local;
  }

  lemma ReplacedParts(active: Catalogue, context: nat, cat: Catalogue)
    requires Usable(context, cat)
    ensures Part(Replaced(active, context, cat), context) == cat
    ensures forall c :: c != context ==> Part(Replaced(active, context, cat), c) == Part(active, c)
  {
    hide SafePath;
    hide Grounded;
    var r := Replaced(active, context, cat);
    assert Part(r, context).nodes == cat.nodes && Part(r, context).mpus == cat.mpus;
    forall c | c != context ensures Part(r, c) == Part(active, c) {
      assert Part(r, c).nodes == Part(active, c).nodes && Part(r, c).mpus == Part(active, c).mpus;
    }
  }

  lemma CommitInv(cfg: Config, s: State, context: nat, source: Source, t: State)
    requires context in s.contexts && Inv(s, cfg) && CommitNext(cfg, s, context, source, t)
    ensures Inv(t, cfg)
  {
    hide Sound;
    hide CommittedShelf;
    hide Retried;
    hide Build;
    hide Part;
    hide Replaced;
    hide Proposal;
    hide Usable;
    var proposal := Proposal(s.contexts[context], source);
    if proposal.Some? {
      var tables := proposal.value;
      var built := Build(context, tables.directories, tables.management);
      if built.Some? {
        var gone := Gone(s.active, context, built.value);
        var shelf :| CommittedShelf(s.shelf, gone, built.value, shelf) && Retried(shelf, cfg, t.active, t.shelf);
        CommittedSound(s.shelf, gone, built.value, shelf, cfg);
        RetriedSound(shelf, cfg, t.active, t.shelf);
        BuiltIsUsable(context, tables.directories, tables.management);
        ReplacedParts(s.active, context, built.value);
        forall c ensures CatalogueOf(t, c) {
          assert CatalogueOf(s, c);
        }
      }
    }
  }

  lemma AddKeeps(s: State, h: Header, candidate: Candidate, cfg: Config)
    requires Inv(s, cfg)
    ensures Inv(WithCandidate(s, h, candidate), cfg)
  {
    hide Sound;
    hide Build;
    hide Part;
    var t := WithCandidate(s, h, candidate);
    forall c ensures CatalogueOf(t, c) {
      assert CatalogueOf(s, c);
      assert ContextAt(t, c).active == ContextAt(s, c).active;
    }
  }

  lemma DropInv(s: State, cfg: Config)
    requires Inv(s, cfg)
    ensures Inv(State(Dropped(s.contexts), s.active, s.shelf.(queue := Queue(map[], 0))), cfg)
  {
    hide Agree;
    hide ItemsFit;
    hide Local;
    hide Build;
    hide Part;
    assert Sizes(map[]) == map[];
    var t := State(Dropped(s.contexts), s.active, s.shelf.(queue := Queue(map[], 0)));
    forall c ensures CatalogueOf(t, c) {
      assert CatalogueOf(s, c);
      assert ContextAt(t, c).active == ContextAt(s, c).active;
    }
  }

  lemma ResetInv(s: State, cfg: Config)
    ensures Inv(Initial().(shelf := EmptyShelf().(dangling := s.shelf.dangling)), cfg)
  {
    hide Sound;
    EmptySound(cfg, s.shelf.dangling);
  }

  /** Every operation keeps the invariant: the store, the paths and the published items agree, everything
      stays within its limits, and each context's catalogue is exactly what its active tables build. */
  lemma NextInv(cfg: Config, s: State, op: Op, t: State)
    requires Inv(s, cfg) && Next(cfg, s, op, t)
    ensures Inv(t, cfg)
  {
    hide CommitNext;
    hide UnitNext;
    hide WithCandidate;
    match op
    case DirectoryTable(h, d) =>
      if h.current && !(SameSource(ContextAt(s, h.context), h.source)
                        && ContextAt(s, h.context).active.value.directoryVersion == h.version) {
        var candidate := CandidateAt(ContextAt(s, h.context), h.source);
        AddKeeps(s, h, candidate.(directories := Add(candidate.directories, Section(h.version, h.number, h.last, d))),
                 cfg);
        CandidateThere(s, h,
                       candidate.(directories := Add(candidate.directories, Section(h.version, h.number, h.last, d))));
        CommitInv(cfg, AddDirectory(s, h, d), h.context, h.source, t);
      }
    case ManagementTable(h, m) =>
      if h.current && !(SameSource(ContextAt(s, h.context), h.source)
                        && ContextAt(s, h.context).active.value.managementVersion == h.version) {
        var candidate := CandidateAt(ContextAt(s, h.context), h.source);
        AddKeeps(s, h, candidate.(management := Add(candidate.management, Section(h.version, h.number, h.last, m))),
                 cfg);
        CandidateThere(s, h,
                       candidate.(management := Add(candidate.management, Section(h.version, h.number, h.last, m))));
        CommitInv(cfg, AddManagement(s, h, m), h.context, h.source, t);
      }
    case Unit(k, unit) =>
      UnitSound(cfg, s.shelf, s.active, k, unit, t.shelf);
      forall c ensures CatalogueOf(t, c) { assert CatalogueOf(s, c); }
    case DropTransient => DropInv(s, cfg);
    case Reset => ResetInv(s, cfg);
  }

  lemma CandidateThere(s: State, h: Header, candidate: Candidate)
    ensures h.context in WithCandidate(s, h, candidate).contexts
  {}

  /** A run: the states it passes through, one operation between each and the next. */
  ghost predicate Run(cfg: Config, states: seq<State>, ops: seq<Op>) {
    && |states| == |ops| + 1 && states[0] == Initial()
    && forall i :: 0 <= i < |ops| ==> Next(cfg, states[i], ops[i], states[i + 1])
  }

  lemma {:induction false} RunInv(cfg: Config, states: seq<State>, ops: seq<Op>, i: nat)
    requires Run(cfg, states, ops) && i < |states|
    ensures Inv(states[i], cfg)
    decreases i
  {
    hide Inv;
    hide Next;
    if i == 0 {
      InitialInv(cfg);
    } else {
      RunInv(cfg, states, ops, i - 1);
      NextInv(cfg, states[i - 1], ops[i - 1], states[i]);
    }
  }

  // ----- what a reader of the store sees

  function Get(store: map<PathKey, Resource>, context: nat, path: Path): Option<Resource> {
    match SafePath(path)
    case None => None
    case Some(p) => if PathKey(context, p) in store then Some(store[PathKey(context, p)]) else None
  }

  /** At any time of any run, looking a path up finds a file exactly when the assembler has it in use, and then
      the file of the item that owns the path, as it was last published, and no longer than the limit. */
  lemma StoreTellsTheTruth(cfg: Config, states: seq<State>, ops: seq<Op>, i: nat, context: nat, path: Path)
    requires Run(cfg, states, ops) && i < |states|
    ensures (var out := states[i].shelf.out;
             var found := Get(out.store, context, path);
             && (found.Some? <==> SafePath(path).Some? && PathKey(context, SafePath(path).value) in out.paths)
             && (found.Some? ==>
                   && found.value.key == out.paths[PathKey(context, SafePath(path).value)]
                   && found.value.key in out.items && found.value.signature == out.items[found.value.key]
                   && found.value.key.mpu.context == context && found.value.signature.path == SafePath(path).value
                   && |found.value.data| <= cfg.maxResource))
  {
    RunInv(cfg, states, ops, i);
    hide SafePath;
    hide Run;
    hide CatalogueOf;
  }

  // ----- catalogues change only as a whole

  predicate IsTable(op: Op) { op.DirectoryTable? || op.ManagementTable? }

  /** The table is not for now, or the active tables of its source have that version already. */
  predicate Ignored(s: State, op: Op)
    requires IsTable(op)
  {
    var c, h := ContextAt(s, op.header.context), op.header;
    || !h.current
    || (SameSource(c, h.source)
        && h.version == (if op.DirectoryTable? then c.active.value.directoryVersion
                         else c.active.value.managementVersion))
  }

  /** With the table added to its candidate. */
  function Added(s: State, op: Op): (t: State)
    requires IsTable(op)
    ensures op.header.context in t.contexts && t.active == s.active && t.shelf == s.shelf
    ensures forall c :: ContextAt(t, c).active == ContextAt(s, c).active
  {
    match op
    case DirectoryTable(h, d) => AddDirectory(s, h, d)
    case ManagementTable(h, m) => AddManagement(s, h, m)
  }

  /** The tables that are tried once this one has been added. */
  function Proposed(s: State, op: Op): Option<Tables>
    requires IsTable(op)
  {
    Proposal(Added(s, op).contexts[op.header.context], op.header.source)
  }

  /** The table is news and makes its candidate complete, with a consistent catalogue. */
  predicate Commits(s: State, op: Op)
    requires IsTable(op)
  {
    && !Ignored(s, op) && Proposed(s, op).Some?
    && Build(op.header.context, Proposed(s, op).value.directories, Proposed(s, op).value.management).Some?
  }

  lemma NextOfTable(cfg: Config, s: State, op: Op, t: State)
    requires IsTable(op)
    ensures Next(cfg, s, op, t) <==>
            if Ignored(s, op) then t == s else CommitNext(cfg, Added(s, op), op.header.context, op.header.source, t)
  {
    hide CommitNext;
    hide WithCandidate;
  }

  /** A table replaces the catalogue of its context, and of no other, exactly when it commits; otherwise it changes
      nothing but the candidate it is added to. */
  lemma CatalogueAtomic(cfg: Config, s: State, op: Op, t: State)
    requires IsTable(op) && Next(cfg, s, op, t)
    ensures (var context := op.header.context;
             if Commits(s, op) then
               && ContextAt(t, context) == Context(Proposed(s, op), map[])
               && Build(context, Proposed(s, op).value.directories, Proposed(s, op).value.management)
                  == Some(Part(t.active, context))
               && forall c :: c != context ==>
                    Part(t.active, c) == Part(s.active, c) && ContextAt(t, c) == ContextAt(s, c)
             else
               && t.active == s.active && t.shelf == s.shelf
               && (forall c :: ContextAt(t, c).active == ContextAt(s, c).active)
               && t == if Ignored(s, op) then s else Added(s, op))
  {
    hide Retried;
    hide CommittedShelf;
    hide Build;
    hide Part;
    hide Replaced;
    hide Usable;
    hide Proposal;
    hide Next;
    NextOfTable(cfg, s, op, t);
    AddedOthers(s, op);
    if Commits(s, op) {
      var tables, context := Proposed(s, op).value, op.header.context;
      var cat := Build(context, tables.directories, tables.management).value;
      BuiltIsUsable(context, tables.directories, tables.management);
      ReplacedParts(s.active, context, cat);
    }
    hide Added;
    hide Ignored;
  }

  lemma AddedOthers(s: State, op: Op)
    requires IsTable(op)
    ensures forall c :: c != op.header.context ==> ContextAt(Added(s, op), c) == ContextAt(s, c)
  {}

  // ----- files outlive their update

  lemma ReadyAfterErase(s: Shelf, ks: set<ItemKey>, m: MpuKey)
    requires Ready(s, m)
    ensures Ready(Erase(s, ks), m)
  {
    hide OwnedPaths;
    hide Normalized;
    hide Discard;
  }

  lemma FinishReady(s: Shelf, m: MpuKey)
    ensures Finish(s, m) == s || Ready(Finish(s, m), m)
  {
    hide Erase;
    hide ItemsOf;
    if Ready(s, m) {
      if m in s.superseded { ReadyAfterErase(s, ItemsOf(s, s.superseded[m]), m); }
      var t := DropSuperseded(s, m);
      assert Ready(t, m);
      if m in t.deferred { ReadyAfterErase(t, t.deferred[m], m); }
    }
  }

  lemma ShowKeepsOthers(out: Publication, r: Resource, limit: nat, p: PathKey)
    requires Agree(out, limit) && p in out.store && p !in Show(out, r).store
    ensures out.paths[p] == r.key
  {
    if Owns(out, r.key) { assert SafePath(out.items[r.key].path) == Some(out.items[r.key].path); }
    hide SafePath;
  }

  /** When a unit makes a file of another item disappear, everything its MPU now lists has been published. */
  lemma FilesOutliveUpdate(s: Shelf, cfg: Config, active: Catalogue, k: ItemKey, unit: DataUnit, p: PathKey)
    requires Sound(s, cfg)
    requires p in s.out.store && s.out.paths[p] != k
    requires p !in TryConsume(s, cfg, active, k, unit).1.out.store
    ensures (var t := TryConsume(s, cfg, active, k, unit).1;
             forall j :: j in t.items && j.mpu == k.mpu ==>
               j in t.out.items && t.out.items[j].path == t.items[j].path
               && t.out.items[j].version == t.items[j].version)
  {
    hide Finish;
    hide Show;
    hide Index;
    hide Targets;
    hide SafePath;
    if k.mpu in active.mpus && unit.download == Some(active.mpus[k.mpu].download) {
      if k.item == active.mpus[k.mpu].indexItem {
        IndexOutlives(s, cfg, active, k.mpu, unit.data, p);
      } else if k in s.items {
        PublishOutlives(s, cfg, k, unit.data, active.mpus[k.mpu], s.items[k], p);
      }
    }
  }

  lemma IndexOutlives(s: Shelf, cfg: Config, active: Catalogue, m: MpuKey, data: seq<byte>, p: PathKey)
    requires m in active.mpus && p in s.out.store && p !in ConsumeIndex(s, cfg, active, m, data).1.out.store
    ensures Ready(ConsumeIndex(s, cfg, active, m, data).1, m)
  {
    hide Finish;
    hide Index;
    hide Targets;
    hide Ready;
    var records := Index(data).value;
    var tags := TagsFor(active.mpus[m], |records|);
    var targets := Targets(m.context, active.nodes, tags, records).value;
    FinishReady(Relist(s, m, targets), m);
    RelistLeaves(s, m, targets);
  }

  lemma PublishOutlives(s: Shelf, cfg: Config, k: ItemKey, data: seq<byte>, m: MpuMap, t: FileTarget, p: PathKey)
    requires Sound(s, cfg) && p in s.out.store && s.out.paths[p] != k
    requires p !in Publish(s, cfg, k, data, m, t).out.store
    ensures Ready(Publish(s, cfg, k, data, m, t), k.mpu)
  {
    hide Finish;
    hide Show;
    hide Contents;
    hide Ready;
    hide Agree;
    var bytes := Contents(cfg, data, t).value;
    var r := Resource(k, Signature(m, t), t.contentType, bytes);
    var u := s.(out := Show(s.out, r));
    FinishReady(u, k.mpu);
    if p !in u.out.store { ShowKeepsOthers(s.out, r, cfg.maxResource, p); }
  }

  // ----- guards that later results speak of

  predicate AwaitsRemoval(s: Shelf, k: ItemKey) { k.mpu in s.deferred && k in s.deferred[k.mpu] }

  /** The guard of a new publication: its signature is new and its bytes are good. */
  predicate Publishes(s: Shelf, cfg: Config, k: ItemKey, data: seq<byte>, m: MpuMap, t: FileTarget) {
    !(k in s.out.items && s.out.items[k] == Signature(m, t)) && Contents(cfg, data, t).Some?
  }
}
