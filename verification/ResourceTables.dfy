/** The candidates of a run are the sections that arrived for them, so a commit has seen every section. */
module ResourceTables {
  import opened Bytes
  import opened SectionSets
  import opened ResourceCatalogue
  import opened ResourceShelf
  import opened ResourceRuns

  /** The sections a source has sent since its candidate was last given up. */
  datatype Seen = Seen(directories: seq<Section<nat, Directory>>, management: seq<Section<nat, Management>>)

  const NONE := Seen([], [])

  function SeenAfter(s: State, op: Op, context: nat, source: Source, before: Seen): Seen {
    match op
    case Unit(_, _) => before
    case DropTransient => NONE
    case Reset => NONE
    case DirectoryTable(h, d) =>
      if h.context != context || Ignored(s, op) then before
      else if Commits(s, op) then NONE
      else if h.source != source then before else SeenNow(op, before)
    case ManagementTable(h, m) =>
      if h.context != context || Ignored(s, op) then before
      else if Commits(s, op) then NONE
      else if h.source != source then before else SeenNow(op, before)
  }

  function SeenBy(states: seq<State>, ops: seq<Op>, i: nat, context: nat, source: Source): Seen
    requires i <= |ops| && |states| == |ops| + 1
  {
    if i == 0 then NONE
    else SeenAfter(states[i - 1], ops[i - 1], context, source, SeenBy(states, ops, i - 1, context, source))
  }

  predicate Collects(candidate: Candidate, seen: Seen) {
    candidate.directories == Collected(seen.directories) && candidate.management == Collected(seen.management)
  }

  lemma CollectedSnoc<V(!new), T(!new)>(stream: seq<Section<V, T>>, s: Section<V, T>)
    ensures Collected(stream + [s]) == Add(Collected(stream), s)
  {
    assert (stream + [s])[..|stream|] == stream;
  }

  lemma NothingSeen()
    ensures Collects(Candidate(Fresh(), Fresh()), NONE)
  {}

  lemma AddedElsewhere(s: State, op: Op, context: nat, source: Source)
    requires IsTable(op) && (op.header.context != context || op.header.source != source)
    ensures CandidateAt(ContextAt(Added(s, op), context), source) == CandidateAt(ContextAt(s, context), source)
  {
    hide Add;
  }

  /** With the section of this table. */
  function SeenNow(op: Op, seen: Seen): Seen
    requires IsTable(op)
  {
    var h := op.header;
    match op
    case DirectoryTable(_, d) => seen.(directories := seen.directories + [Section(h.version, h.number, h.last, d)])
    case ManagementTable(_, m) => seen.(management := seen.management + [Section(h.version, h.number, h.last, m)])
  }

  lemma AddedCollects(s: State, op: Op, seen: Seen)
    requires IsTable(op) && Collects(CandidateAt(ContextAt(s, op.header.context), op.header.source), seen)
    ensures (var c := Added(s, op).contexts[op.header.context];
             op.header.source in c.candidates && Collects(c.candidates[op.header.source], SeenNow(op, seen)))
  {
    hide Add;
    hide Collected;
    match op
    case DirectoryTable(h, d) => CollectedSnoc(seen.directories, Section(h.version, h.number, h.last, d));
    case ManagementTable(h, m) => CollectedSnoc(seen.management, Section(h.version, h.number, h.last, m));
  }

  lemma TableCollects(cfg: Config, s: State, op: Op, t: State, context: nat, source: Source, seen: Seen)
    requires IsTable(op) && Next(cfg, s, op, t) && Collects(CandidateAt(ContextAt(s, context), source), seen)
    ensures Collects(CandidateAt(ContextAt(t, context), source), SeenAfter(s, op, context, source, seen))
  {
    hide Next;
    hide Proposed;
    hide Ignored;
    hide Added;
    hide Build;
    hide Collects;
    NothingSeen();
    CatalogueAtomic(cfg, s, op, t);
    if op.header.context == context && op.header.source == source {
      AddedCollects(s, op, seen);
    } else {
      AddedElsewhere(s, op, context, source);
    }
  }

  /** In every state of every run each candidate is what its source has sent since it was last given up. */
  lemma {:induction false} CandidatesCollect(cfg: Config, states: seq<State>, ops: seq<Op>, i: nat, context: nat,
                                             source: Source)
    requires Run(cfg, states, ops) && i < |states|
    ensures Collects(CandidateAt(ContextAt(states[i], context), source), SeenBy(states, ops, i, context, source))
    decreases i
  {
    hide Next;
    hide Collects;
    NothingSeen();
    if i > 0 {
      CandidatesCollect(cfg, states, ops, i - 1, context, source);
      NextCollects(cfg, states[i - 1], ops[i - 1], states[i], context, source,
                   SeenBy(states, ops, i - 1, context, source));
    }
  }

  lemma NextCollects(cfg: Config, s: State, op: Op, t: State, context: nat, source: Source, seen: Seen)
    requires Next(cfg, s, op, t) && Collects(CandidateAt(ContextAt(s, context), source), seen)
    ensures Collects(CandidateAt(ContextAt(t, context), source), SeenAfter(s, op, context, source, seen))
  {
    hide Collects;
    NothingSeen();
    if IsTable(op) { TableCollects(cfg, s, op, t, context, source, seen); }
  }

  /** The directories and the management tables to try: those that came, or the active ones. */
  function Directories(active: Option<Tables>, seen: Seen, came: bool): seq<Directory> {
    if came || active.None? then Values(Collected(seen.directories)) else active.value.directories
  }

  function Managements(active: Option<Tables>, seen: Seen, came: bool): seq<Management> {
    if came || active.None? then Values(Collected(seen.management)) else active.value.management
  }

  /** What a source proposes: each of the two tables that came in full, under the version it came with, and for one that
      did not the active one of the same source; but not both of those. */
  lemma ProposalExactly(c: Context, source: Source, seen: Seen)
    requires source in c.candidates && Collects(c.candidates[source], seen)
    ensures (var ds, ms, same := AllCame(seen.directories), AllCame(seen.management), SameSource(c, source);
             var p := Proposal(c, source);
             && (p.Some? <==> (ds || ms) && (ds || same) && (ms || same))
             && (p.Some? ==>
                   && p.value.source == source
                   && p.value.directories == Directories(c.active, seen, ds)
                   && p.value.management == Managements(c.active, seen, ms)
                   && p.value.directoryVersion
                      == (if ds then seen.directories[|seen.directories| - 1].version
                          else c.active.value.directoryVersion)
                   && p.value.managementVersion
                      == (if ms then seen.management[|seen.management| - 1].version
                          else c.active.value.managementVersion)))
  {
    hide Collected;
    CompleteExactly(seen.directories);
    CompleteExactly(seen.management);
    if seen.directories != [] { CollectedHolds(seen.directories); }
    if seen.management != [] { CollectedHolds(seen.management); }
    hide Complete;
    hide Values;
    hide Arrived;
    hide Since;
    hide Latest;
  }

  /** The version that the active tables of this kind have. */
  function ActiveVersion(active: Tables, op: Op): nat
    requires IsTable(op)
  {
    match op
    case DirectoryTable(_, _) => active.directoryVersion
    case ManagementTable(_, _) => active.managementVersion
  }

  lemma IgnoredExactly(s: State, op: Op)
    requires IsTable(op)
    ensures (var h := op.header; var active := ContextAt(s, h.context).active;
             Ignored(s, op) <==>
               !h.current
               || (active.Some? && active.value.source == h.source && ActiveVersion(active.value, op) == h.version))
  {
  }

  /** So over any run a table commits exactly when it is news, each of the two tables is there with all its sections or
      stood in for by the active one of the same source (but not both stood in for), and together they are
      consistent. */
  lemma CommitsExactly(cfg: Config, states: seq<State>, ops: seq<Op>, i: nat)
    requires Run(cfg, states, ops) && i < |ops| && IsTable(ops[i])
    ensures (var s, op, h := states[i], ops[i], ops[i].header;
             var active := ContextAt(s, h.context).active;
             var now := SeenNow(op, SeenBy(states, ops, i, h.context, h.source));
             var same := active.Some? && active.value.source == h.source;
             var ds, ms := AllCame(now.directories), AllCame(now.management);
             Commits(s, op) <==>
               && h.current && !(same && ActiveVersion(active.value, op) == h.version)
               && (ds || ms) && (ds || same) && (ms || same)
               && Consistent(h.context, Directories(active, now, ds), Managements(active, now, ms)))
  {
    hide AllCame;
    hide Added;
    hide Ignored;
    hide Collects;
    hide Proposal;
    hide Consistent;
    hide Next;
    hide Directories;
    hide Managements;
    hide ActiveVersion;
    IgnoredExactly(states[i], ops[i]);
    var s, op, h := states[i], ops[i], ops[i].header;
    var seen := SeenBy(states, ops, i, h.context, h.source);
    CandidatesCollect(cfg, states, ops, i, h.context, h.source);
    AddedCollects(s, op, seen);
    ProposalExactly(Added(s, op).contexts[h.context], h.source, SeenNow(op, seen));
    assert ContextAt(Added(s, op), h.context).active == ContextAt(s, h.context).active;
  }
}
