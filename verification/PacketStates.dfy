/** The table of contexts and its one counter of packet states, as the parsers update them. */
module PacketStates {
  import opened Bytes
  import opened Totals
  import opened StateBudget

  datatype Table<S> = Table(contexts: map<nat, Routes<S>>, active: int)

  datatype Limits = Limits(maxContexts: nat, maxStates: nat)

  datatype Op =
    | Context(context: nat)
    | Signalling(context: nat, packet: nat)
    | PackageTable(context: nat, mpt: Option<Mpt>)
    | Flush
    | Reset

  // ----- reading an MPT, which is complete before anything changes

  /** One asset of an MPT as it is read: cut short or with bad descriptors; without a packet; of a kind that is not
      supported; or a track or a data asset. */
  datatype Entry = Broken | Unplaced | Unsupported | TrackEntry(asset: Asset) | DataEntry(asset: Asset)

  /** Whether what comes before the assets is good, the assets, and whether they end where the table does. */
  datatype RawMpt = RawMpt(headGood: bool, entries: seq<Entry>, endsThere: bool)

  function TracksIn(entries: seq<Entry>): seq<Asset> {
    if entries == [] then []
    else
      var e := entries[|entries| - 1];
      TracksIn(entries[..|entries| - 1]) + if e.TrackEntry? then [e.asset] else []
  }

  function DataIn(entries: seq<Entry>): seq<Asset> {
    if entries == [] then []
    else
      var e := entries[|entries| - 1];
      DataIn(entries[..|entries| - 1]) + if e.DataEntry? then [e.asset] else []
  }

  predicate WellFormed(raw: RawMpt) { raw.headGood && Broken !in raw.entries && raw.endsThere }

  function Parsed(raw: RawMpt): Option<Mpt> {
    if WellFormed(raw) then Some(Mpt(TracksIn(raw.entries), DataIn(raw.entries))) else None
  }

  method ParseMpt(raw: RawMpt) returns (mpt: Option<Mpt>)
    ensures mpt == Parsed(raw)
  {
    if !raw.headGood { return None; }
    var tracks: seq<Asset>, data: seq<Asset> := [], [];
    for i := 0 to |raw.entries|
      invariant Broken !in raw.entries[..i]
      invariant tracks == TracksIn(raw.entries[..i]) && data == DataIn(raw.entries[..i])
    {
      assert raw.entries[..i + 1] == raw.entries[..i] + [raw.entries[i]];
      var e := raw.entries[i];
      if e.Broken? { return None; }
      if e.TrackEntry? { tracks := tracks + [e.asset]; }
      if e.DataEntry? { data := data + [e.asset]; }
    }
    assert raw.entries[..|raw.entries|] == raw.entries;
    if !raw.endsThere { return None; }
    mpt := Some(Mpt(tracks, data));
  }

  function Counts<S>(contexts: map<nat, Routes<S>>): map<nat, nat> { map c | c in contexts :: Count(contexts[c]) }

  /** The counter is the sum over all contexts, within the limit; no packet is both track and data asset. */
  ghost predicate Balanced<S>(t: Table<S>, limits: Limits) {
    && t.active == Total(Counts(t.contexts))
    && t.active <= limits.maxStates
    && |t.contexts| <= limits.maxContexts
    && forall c :: c in t.contexts ==> Exclusive(t.contexts[c])
  }

  /** What the other contexts leave for this one. */
  function Room<S>(t: Table<S>, limits: Limits, c: nat): int
    requires c in t.contexts
  {
    limits.maxStates - (t.active - Count(t.contexts[c]))
  }

  function WithRoutes<S>(t: Table<S>, c: nat, r: Routes<S>): Table<S>
    requires c in t.contexts
  {
    Table(t.contexts[c := r], t.active - Count(t.contexts[c]) + Count(r))
  }

  function Listening<S>(r: Routes<S>, packet: nat, room: int): Routes<S> {
    if packet in r.signalling || Count(r) >= room then r else r.(signalling := r.signalling + {packet})
  }

  function Unsignalled<S>(contexts: map<nat, Routes<S>>): map<nat, Routes<S>> {
    map c | c in contexts :: contexts[c].(signalling := {})
  }

  /** The signalling states of every context. */
  function Heard<S>(contexts: map<nat, Routes<S>>): map<nat, nat> { map c | c in contexts :: |contexts[c].signalling| }

  ghost function Step<S(!new)>(t: Table<S>, limits: Limits, op: Op, start: S): Table<S> {
    match op
    case Context(c) => if c in t.contexts || |t.contexts| >= limits.maxContexts then t
                       else t.(contexts := t.contexts[c := NoRoutes()])
    case Signalling(c, packet) =>
      if c !in t.contexts then t
      else WithRoutes(t, c, Listening(t.contexts[c], packet, Room(t, limits, c)))
    case PackageTable(c, mpt) =>
      if c !in t.contexts || mpt.None? then t
      else WithRoutes(t, c, Commit(t.contexts[c], mpt.value, Room(t, limits, c), start))
    case Flush => Table(Unsignalled(t.contexts), t.active - Total(Heard(t.contexts)))
    case Reset => Nothing()
  }

  lemma CountWithin<S(!new)>(t: Table<S>, limits: Limits, c: nat)
    requires Balanced(t, limits) && c in t.contexts
    ensures Count(t.contexts[c]) <= t.active && Count(t.contexts[c]) <= Room(t, limits, c)
  {
    TotalAtLeast(Counts(t.contexts), c);
  }

  lemma RoutesBalanced<S(!new)>(t: Table<S>, limits: Limits, c: nat, r: Routes<S>)
    requires Balanced(t, limits) && c in t.contexts && Exclusive(r) && Count(r) <= Room(t, limits, c)
    ensures Balanced(WithRoutes(t, c, r), limits)
  {
    hide Count;
    hide Total;
    hide Counts;
    CountsUpdate(t.contexts, c, r);
    SameSize(t.contexts, c, r);
  }

  /** One context changes: the sum changes by what it holds more or less. */
  lemma CountsUpdate<S(!new)>(contexts: map<nat, Routes<S>>, c: nat, r: Routes<S>)
    ensures Total(Counts(contexts[c := r])) ==
      Total(Counts(contexts)) - (if c in contexts then Count(contexts[c]) else 0) + Count(r)
  {
    hide Count;
    hide Total;
    TotalUpdate(Counts(contexts), c, Count(r));
    assert Counts(contexts[c := r]) == Counts(contexts)[c := Count(r)];
  }

  lemma SameSize<S>(contexts: map<nat, Routes<S>>, c: nat, r: Routes<S>)
    ensures |contexts[c := r]| == |contexts| + if c in contexts then 0 else 1
  {
    assert contexts[c := r].Keys == contexts.Keys + {c};
    if c in contexts { assert contexts.Keys + {c} == contexts.Keys; }
  }

  lemma ListeningWithin<S>(r: Routes<S>, packet: nat, room: int)
    requires Count(r) <= room
    ensures Count(Listening(r, packet, room)) <= room
    ensures Exclusive(r) ==> Exclusive(Listening(r, packet, room))
  {}

  lemma {:induction false} TotalOfSums<K(!new)>(a: map<K, nat>, b: map<K, nat>, sum: map<K, nat>)
    requires a.Keys == b.Keys == sum.Keys && forall k :: k in a ==> a[k] + b[k] == sum[k]
    ensures Total(a) + Total(b) == Total(sum)
    decreases |a.Keys|
  {
    if a == map[] {
      assert b == map[] && sum == map[];
    } else {
      var k :| k in a;
      Shrinks(a, k);
      TotalRemove(a, k);
      TotalRemove(b, k);
      TotalRemove(sum, k);
      TotalOfSums(a - {k}, b - {k}, sum - {k});
    }
  }

  lemma ListenBalanced<S(!new)>(t: Table<S>, limits: Limits, c: nat, packet: nat)
    requires Balanced(t, limits) && c in t.contexts
    ensures Balanced(WithRoutes(t, c, Listening(t.contexts[c], packet, Room(t, limits, c))), limits)
  {
    hide Count;
    hide Room;
    hide Total;
    CountWithin(t, limits, c);
    ListeningWithin(t.contexts[c], packet, Room(t, limits, c));
    RoutesBalanced(t, limits, c, Listening(t.contexts[c], packet, Room(t, limits, c)));
  }

  lemma PackageBalanced<S(!new)>(t: Table<S>, limits: Limits, c: nat, mpt: Mpt, start: S)
    requires Balanced(t, limits) && c in t.contexts
    ensures Balanced(WithRoutes(t, c, Commit(t.contexts[c], mpt, Room(t, limits, c), start)), limits)
  {
    hide Count;
    hide Room;
    hide Total;
    hide Commit;
    CountWithin(t, limits, c);
    CommitWithin(t.contexts[c], mpt, Room(t, limits, c), start);
    CommitExclusive(t.contexts[c], mpt, Room(t, limits, c), start);
    RoutesBalanced(t, limits, c, Commit(t.contexts[c], mpt, Room(t, limits, c), start));
  }

  /** Whatever happens, the counter stays the sum of the states held and within the limit. */
  lemma StepBalanced<S(!new)>(t: Table<S>, limits: Limits, op: Op, start: S)
    requires Balanced(t, limits)
    ensures Balanced(Step(t, limits, op, start), limits)
  {
    hide Balanced;
    hide WithRoutes;
    hide Listening;
    hide Commit;
    hide Room;
    match op
    case Context(c) => if c !in t.contexts && |t.contexts| < limits.maxContexts { AddedBalanced(t, limits, c); }
    case Signalling(c, packet) => if c in t.contexts { ListenBalanced(t, limits, c, packet); }
    case PackageTable(c, mpt) => if c in t.contexts && mpt.Some? { PackageBalanced(t, limits, c, mpt.value, start); }
    case Flush => FlushBalanced(t, limits);
    case Reset => EmptyBalanced<S>(limits);
  }

  lemma FlushBalanced<S(!new)>(t: Table<S>, limits: Limits)
    requires Balanced(t, limits)
    ensures Balanced(Table(Unsignalled(t.contexts), t.active - Total(Heard(t.contexts))), limits)
  {
    hide Total;
    FlushSums(t.contexts);
    hide Counts;
    hide Heard;
    assert Unsignalled(t.contexts).Keys == t.contexts.Keys;
    assert |Unsignalled(t.contexts).Keys| == |t.contexts|;
  }

  lemma FlushSums<S(!new)>(contexts: map<nat, Routes<S>>)
    ensures Total(Heard(contexts)) + Total(Counts(Unsignalled(contexts))) == Total(Counts(contexts))
  {
    hide Total;
    TotalOfSums(Heard(contexts), Counts(Unsignalled(contexts)), Counts(contexts));
  }

  function Nothing<S>(): Table<S> { Table(map[], 0) }

  lemma EmptyBalanced<S(!new)>(limits: Limits)
    ensures Balanced(Nothing<S>(), limits)
  {
    assert Counts<S>(map[]) == map[];
  }

  lemma AddedBalanced<S(!new)>(t: Table<S>, limits: Limits, c: nat)
    requires Balanced(t, limits) && c !in t.contexts && |t.contexts| < limits.maxContexts
    ensures Balanced(t.(contexts := t.contexts[c := NoRoutes()]), limits)
  {
    hide Total;
    hide Counts;
    CountsUpdate(t.contexts, c, NoRoutes());
    SameSize(t.contexts, c, NoRoutes());
  }

  ghost predicate Run<S(!new)>(limits: Limits, tables: seq<Table<S>>, ops: seq<Op>, start: S) {
    && |tables| == |ops| + 1 && tables[0] == Nothing()
    && forall i :: 0 <= i < |ops| ==> tables[i + 1] == Step(tables[i], limits, ops[i], start)
  }

  /** So over any run: the counter never passes the limit, never goes below zero, and is always the sum over all
      contexts of signalling, track and data-asset states. */
  lemma {:induction false} RunBalanced<S(!new)>(limits: Limits, tables: seq<Table<S>>, ops: seq<Op>, start: S, i: nat)
    requires Run(limits, tables, ops, start) && i < |tables|
    ensures Balanced(tables[i], limits)
    decreases i
  {
    if i == 0 {
      EmptyBalanced<S>(limits);
    } else {
      RunBalanced(limits, tables, ops, start, i - 1);
      StepBalanced(tables[i - 1], limits, ops[i - 1], start);
      assert tables[i - 1 + 1] == Step(tables[i - 1], limits, ops[i - 1], start);
    }
    hide *;
  }

  // ----- what is granted and what is refused

  /** A packet that an MPT lists is routed unless the limit is reached. */
  lemma LeftOutOnlyAtLimit<S(!new)>(t: Table<S>, limits: Limits, c: nat, mpt: Mpt, start: S, packet: nat)
    requires Balanced(t, limits) && c in t.contexts
    requires packet in Packets(mpt.tracks) + Packets(mpt.data)
    ensures (var u := Step(t, limits, PackageTable(c, Some(mpt)), start);
             packet in u.contexts[c].tracks || packet in u.contexts[c].data || u.active == limits.maxStates)
  {
    hide Total;
    hide Counts;
    hide Commit;
    hide Packets;
    CountWithin(t, limits, c);
    LeftOutOnlyWhenFull(t.contexts[c], mpt, Room(t, limits, c), start, packet);
  }

  /** The tracks and the data assets of a package table come out in the order of their entries. */
  lemma {:induction false} ReadInOrder(entries: seq<Entry>)
    ensures TracksIn(entries) == Flatten(seq(|entries|, i requires 0 <= i < |entries| =>
                                               match entries[i] case TrackEntry(a) => [a] case _ => []))
    ensures DataIn(entries) == Flatten(seq(|entries|, i requires 0 <= i < |entries| =>
                                             match entries[i] case DataEntry(a) => [a] case _ => []))
    decreases |entries|
  {
    if entries != [] {
      var n := |entries| - 1;
      var before, e := entries[..n], entries[n];
      ReadInOrder(before);
      var tracks := seq(n, i requires 0 <= i < n => match before[i] case TrackEntry(a) => [a] case _ => []);
      var data := seq(n, i requires 0 <= i < n => match before[i] case DataEntry(a) => [a] case _ => []);
      FlattenSnoc(tracks, match e case TrackEntry(a) => [a] case _ => []);
      FlattenSnoc(data, match e case DataEntry(a) => [a] case _ => []);
      assert seq(|entries|, i requires 0 <= i < |entries| => match entries[i] case TrackEntry(a) => [a] case _ => [])
          == tracks + [match e case TrackEntry(a) => [a] case _ => []];
      assert seq(|entries|, i requires 0 <= i < |entries| => match entries[i] case DataEntry(a) => [a] case _ => [])
          == data + [match e case DataEntry(a) => [a] case _ => []];
    }
  }

  // ----- the parsers

  class CompressedIpParser<S(!new)> {
    const limits: Limits
    const start: S
    var contexts: map<nat, Routes<S>>
    var activePacketStates: nat

    ghost function Now(): Table<S>
      reads this
    {
      Table(contexts, activePacketStates)
    }

    ghost predicate Valid()
      reads this
    {
      Balanced(Now(), limits)
    }

    constructor (limits: Limits, start: S)
      ensures Valid() && Now() == Nothing() && this.limits == limits && this.start == start
    {
      this.limits := limits;
      this.start := start;
      contexts := map[];
      activePacketStates := 0;
      new;
      EmptyBalanced<S>(limits);
    }

    method Acquire() returns (ok: bool)
      modifies `activePacketStates
      ensures ok <==> old(activePacketStates) < limits.maxStates
      ensures activePacketStates == old(activePacketStates) + if ok then 1 else 0
    {
      if activePacketStates >= limits.maxStates { return false; }
      activePacketStates := activePacketStates + 1;
      ok := true;
    }

    method Release()
      modifies `activePacketStates
      ensures activePacketStates == if old(activePacketStates) > 0 then old(activePacketStates) - 1 else 0
    {
      if activePacketStates != 0 { activePacketStates := activePacketStates - 1; }
    }

    method EnsureContext(c: nat) returns (ok: bool)
      requires Valid()
      modifies this
      ensures Valid() && Now() == Step(old(Now()), limits, Context(c), start)
      ensures ok <==> c in contexts
    {
      if c in contexts { return true; }
      if |contexts| >= limits.maxContexts { return false; }
      StepBalanced(Now(), limits, Context(c), start);
      contexts := contexts[c := NoRoutes()];
      ok := true;
    }

    method OnSignalling(c: nat, packet: nat) returns (ok: bool)
      requires Valid() && c in contexts
      modifies this
      ensures Valid() && Now() == Step(old(Now()), limits, Signalling(c, packet), start)
      ensures ok <==> packet in contexts[c].signalling
    {
      hide Balanced;
      hide Step;
      SignallingStep(Now(), limits, c, packet, start);
      var r := contexts[c];
      if packet in r.signalling { return true; }
      ok := Acquire();
      if !ok { return; }
      contexts := contexts[c := r.(signalling := r.signalling + {packet})];
    }

    /** Release the routes that are not listed again; what is left is what survives. */
    method Sweep(routes: map<nat, Route<S>>, assets: seq<Asset>, ghost others: nat) returns (kept: map<nat, Route<S>>)
      requires activePacketStates == others + |routes|
      modifies `activePacketStates
      ensures kept == Survivors(routes, assets) && activePacketStates == others + |kept|
    {
      kept := routes;
      var todo := routes.Keys;
      AllToSweep(routes, assets);
      hide *;
      while todo != {}
        invariant todo <= routes.Keys && kept == Unswept(routes, assets, todo)
        invariant activePacketStates == others + |kept|
        decreases |todo|
      {
        var p :| p in todo;
        OneSwept(routes, assets, todo, p);
        todo := todo - {p};
        var again := Find(assets, p);
        if !(again.Some? && again.value.id == routes[p].asset) {
          Release();
          kept := kept - {p};
        }
      }
    }

    method InstallTracks(r: Routes<S>, assets: seq<Asset>, ghost others: nat) returns (t: Routes<S>)
      requires activePacketStates == others + Count(r)
      modifies `activePacketStates
      ensures t == PutTracks(r, assets, limits.maxStates - others, start)
      ensures activePacketStates == others + Count(t)
    {
      hide PutTrack;
      t := r;
      assert assets[..0] == [];
      for i := 0 to |assets|
        invariant t == PutTracks(r, assets[..i], limits.maxStates - others, start)
        invariant activePacketStates == others + Count(t)
      {
        assert assets[..i + 1][..i] == assets[..i];
        t := InstallTrack(t, assets[i], others);
      }
      assert assets[..|assets|] == assets;
    }

    /** A packet cannot stay both a data asset and a track. */
    method InstallTrack(r: Routes<S>, a: Asset, ghost others: nat) returns (t: Routes<S>)
      requires activePacketStates == others + Count(r)
      modifies `activePacketStates
      ensures t == PutTrack(r, a, limits.maxStates - others, start)
      ensures activePacketStates == others + Count(t)
    {
      t := r;
      RemoveCounts(r.data, a.packet);
      if a.packet in t.data { Release(); } else { assert t.data - {a.packet} == t.data; }
      t := t.(data := t.data - {a.packet});
      if a.packet in t.tracks {
        AddCounts(t.tracks, a.packet, t.tracks[a.packet].(asset := a.id));
        t := t.(tracks := t.tracks[a.packet := t.tracks[a.packet].(asset := a.id)]);
        return;
      }
      AddCounts(t.tracks, a.packet, Route(a.id, start));
      var ok := Acquire();
      if ok { t := t.(tracks := t.tracks[a.packet := Route(a.id, start)]); }
    }

    method InstallAllData(r: Routes<S>, assets: seq<Asset>, ghost others: nat) returns (t: Routes<S>)
      requires activePacketStates == others + Count(r)
      modifies `activePacketStates
      ensures t == PutAllData(r, assets, limits.maxStates - others, start)
      ensures activePacketStates == others + Count(t)
    {
      hide PutData;
      t := r;
      assert assets[..0] == [];
      for i := 0 to |assets|
        invariant t == PutAllData(r, assets[..i], limits.maxStates - others, start)
        invariant activePacketStates == others + Count(t)
      {
        assert assets[..i + 1][..i] == assets[..i];
        t := InstallData(t, assets[i], others);
      }
      assert assets[..|assets|] == assets;
    }

    method InstallData(r: Routes<S>, a: Asset, ghost others: nat) returns (t: Routes<S>)
      requires activePacketStates == others + Count(r)
      modifies `activePacketStates
      ensures t == PutData(r, a, limits.maxStates - others, start)
      ensures activePacketStates == others + Count(t)
    {
      t := r;
      RemoveCounts(r.tracks, a.packet);
      if a.packet in t.tracks { Release(); } else { assert t.tracks - {a.packet} == t.tracks; }
      t := t.(tracks := t.tracks - {a.packet});
      if a.packet in t.data {
        AddCounts(t.data, a.packet, t.data[a.packet].(asset := a.id));
        t := t.(data := t.data[a.packet := t.data[a.packet].(asset := a.id)]);
        return;
      }
      AddCounts(t.data, a.packet, Route(a.id, start));
      var ok := Acquire();
      if ok { t := t.(data := t.data[a.packet := Route(a.id, start)]); }
    }

    /** Routing changes only for an MPT that is well formed to its end; one bad asset anywhere leaves all as it was. */
    method OnPackageTable(c: nat, raw: RawMpt) returns (accepted: bool)
      requires Valid() && c in contexts
      modifies this
      ensures Valid() && Now() == Step(old(Now()), limits, PackageTable(c, Parsed(raw)), start)
      ensures accepted <==> WellFormed(raw)
      ensures !accepted ==> contexts == old(contexts) && activePacketStates == old(activePacketStates)
    {
      hide Step;
      hide Balanced;
      hide Commit;
      hide Count;
      hide WellFormed;
      hide TracksIn;
      hide DataIn;
      var mpt := ParseMpt(raw);
      if mpt.None? {
        RejectedStep(Now(), limits, c, start);
        return false;
      }
      PackageStep(Now(), limits, c, mpt.value, start);
      assert PackageTable(c, mpt) == PackageTable(c, Some(mpt.value));
      var t := Reroute(contexts[c], mpt.value, activePacketStates - Count(contexts[c]));
      contexts := contexts[c := t];
      accepted := true;
    }

    method Reroute(r: Routes<S>, mpt: Mpt, ghost others: nat) returns (t: Routes<S>)
      requires activePacketStates == others + Count(r)
      modifies `activePacketStates
      ensures t == Commit(r, mpt, limits.maxStates - others, start)
      ensures activePacketStates == others + Count(t)
    {
      hide Survivors;
      hide PutTracks;
      hide PutAllData;
      var tracks := Sweep(r.tracks, mpt.tracks, others + |r.signalling| + |r.data|);
      var data := Sweep(r.data, mpt.data, others + |r.signalling| + |tracks|);
      t := InstallTracks(Routes(r.signalling, tracks, data), mpt.tracks, others);
      t := InstallAllData(t, mpt.data, others);
    }

    method ReleaseMany(count: nat)
      requires activePacketStates >= count
      modifies `activePacketStates
      ensures activePacketStates == old(activePacketStates) - count
    {
      for i := 0 to count
        invariant activePacketStates == old(activePacketStates) - i
      {
        Release();
      }
    }

    method FlushAll()
      requires Valid()
      modifies this
      ensures Valid() && Now() == Step(old(Now()), limits, Flush, start)
    {
      hide Step;
      hide Balanced;
      hide Total;
      hide Heard;
      hide Unsignalled;
      hide HeardOutside;
      FlushStep(Now(), limits, start);
      ghost var before, active := contexts, activePacketStates;
      var todo := contexts.Keys;
      AllToFlush(before);
      hide Unflushed;
      while todo != {}
        invariant todo <= before.Keys && contexts == Unflushed(before, todo)
        invariant activePacketStates == active - HeardOutside(before, todo)
        decreases |todo|
      {
        var c :| c in todo;
        OneFlushed(before, todo, c);
        ReleaseMany(|contexts[c].signalling|);
        contexts := contexts[c := contexts[c].(signalling := {})];
        todo := todo - {c};
      }
    }

    /** Destroying every parser releases what it holds, so the counter is zero before it is set to zero. */
    method ResetAll()
      requires Valid()
      modifies this
      ensures Valid() && Now() == Step(old(Now()), limits, Reset, start)
    {
      hide Balanced;
      hide Count;
      while contexts != map[]
        invariant Valid()
        decreases |contexts.Keys|
      {
        var c :| c in contexts;
        CountWithin(Now(), limits, c);
        DestroyedBalanced(Now(), limits, c);
        Shrinks(contexts, c);
        ReleaseMany(Count(contexts[c]));
        contexts := contexts - {c};
      }
      NothingHeld(Now(), limits);
      activePacketStates := 0;
    }
  }

  lemma NothingHeld<S(!new)>(t: Table<S>, limits: Limits)
    requires Balanced(t, limits) && t.contexts == map[]
    ensures t.active == 0
  {
    assert Counts(t.contexts) == map[];
  }

  lemma SignallingStep<S(!new)>(t: Table<S>, limits: Limits, c: nat, packet: nat, start: S)
    requires Balanced(t, limits) && c in t.contexts
    ensures (var u := Step(t, limits, Signalling(c, packet), start); var r := t.contexts[c];
             && Balanced(u, limits)
             && u == if packet in r.signalling || t.active >= limits.maxStates then t
                     else Table(t.contexts[c := r.(signalling := r.signalling + {packet})], t.active + 1))
  {
    hide Balanced;
    hide Commit;
    hide Unsignalled;
    hide Heard;
    hide Total;
    StepBalanced(t, limits, Signalling(c, packet), start);
    assert t.contexts[c := t.contexts[c]] == t.contexts;
  }

  /** A package table that cannot be parsed changes nothing. */
  lemma RejectedStep<S(!new)>(t: Table<S>, limits: Limits, c: nat, start: S)
    ensures Step(t, limits, PackageTable(c, None), start) == t
  {}

  lemma PackageStep<S(!new)>(t: Table<S>, limits: Limits, c: nat, mpt: Mpt, start: S)
    requires Balanced(t, limits) && c in t.contexts
    ensures (var u := Step(t, limits, PackageTable(c, Some(mpt)), start);
             var others := t.active - Count(t.contexts[c]);
             var r := Commit(t.contexts[c], mpt, limits.maxStates - others, start);
             others >= 0 && u == Table(t.contexts[c := r], others + Count(r)) && Balanced(u, limits))
  {
    hide Balanced;
    hide Commit;
    hide Count;
    CountWithin(t, limits, c);
    StepBalanced(t, limits, PackageTable(c, Some(mpt)), start);
  }

  lemma FlushStep<S(!new)>(t: Table<S>, limits: Limits, start: S)
    requires Balanced(t, limits)
    ensures (var u := Step(t, limits, Flush, start);
             && u == Table(Unsignalled(t.contexts), t.active - Total(Heard(t.contexts))) && Balanced(u, limits)
             && Total(Heard(t.contexts)) <= t.active)
  {
    StepBalanced(t, limits, Flush, start);
    HeardWithin(t, limits);
  }

  lemma HeardWithin<S(!new)>(t: Table<S>, limits: Limits)
    requires Balanced(t, limits)
    ensures Total(Heard(t.contexts)) <= t.active
  {
    hide Total;
    FlushSums(t.contexts);
  }

  /** The contexts while a flush is under way, and the states it has released. */
  ghost function Unflushed<S>(contexts: map<nat, Routes<S>>, todo: set<nat>): map<nat, Routes<S>> {
    map c | c in contexts :: if c in todo then contexts[c] else contexts[c].(signalling := {})
  }

  ghost function HeardOutside<S>(contexts: map<nat, Routes<S>>, todo: set<nat>): nat {
    Total(Heard(contexts) - todo)
  }

  lemma AllToFlush<S(!new)>(contexts: map<nat, Routes<S>>)
    ensures Unflushed(contexts, contexts.Keys) == contexts && HeardOutside(contexts, contexts.Keys) == 0
    ensures Unflushed(contexts, {}) == Unsignalled(contexts) && HeardOutside(contexts, {}) == Total(Heard(contexts))
  {
    assert Heard(contexts) - contexts.Keys == map[];
    assert Heard(contexts) - {} == Heard(contexts);
  }

  lemma OneFlushed<S(!new)>(contexts: map<nat, Routes<S>>, todo: set<nat>, c: nat)
    requires c in todo && todo <= contexts.Keys
    ensures c in Unflushed(contexts, todo) && Unflushed(contexts, todo)[c] == contexts[c]
    ensures Unflushed(contexts, todo - {c}) == Unflushed(contexts, todo)[c := contexts[c].(signalling := {})]
    ensures HeardOutside(contexts, todo - {c}) == HeardOutside(contexts, todo) + |contexts[c].signalling|
    ensures HeardOutside(contexts, todo - {c}) <= Total(Heard(contexts))
  {
    hide Total;
    var next := Heard(contexts) - (todo - {c});
    TotalRemove(next, c);
    assert next - {c} == Heard(contexts) - todo;
    TotalSplit(Heard(contexts), todo - {c});
  }

  ghost function Unswept<S>(routes: map<nat, Route<S>>, assets: seq<Asset>, todo: set<nat>): map<nat, Route<S>> {
    map p | p in routes && (p in todo || Relisted(assets, p, routes[p])) :: routes[p]
  }

  lemma AllToSweep<S>(routes: map<nat, Route<S>>, assets: seq<Asset>)
    ensures Unswept(routes, assets, routes.Keys) == routes
    ensures Unswept(routes, assets, {}) == Survivors(routes, assets)
  {}

  lemma OneSwept<S>(routes: map<nat, Route<S>>, assets: seq<Asset>, todo: set<nat>, p: nat)
    requires p in todo && todo <= routes.Keys
    ensures (var kept := Unswept(routes, assets, todo); var f := Find(assets, p);
             && p in kept && |kept - {p}| == |kept| - 1
             && Unswept(routes, assets, todo - {p})
                == if f.Some? && f.value.id == routes[p].asset then kept else kept - {p})
  {
    hide Find;
    Shrinks(Unswept(routes, assets, todo), p);
  }

  lemma DestroyedBalanced<S(!new)>(t: Table<S>, limits: Limits, c: nat)
    requires Balanced(t, limits) && c in t.contexts
    ensures Balanced(Table(t.contexts - {c}, t.active - Count(t.contexts[c])), limits)
  {
    hide Total;
    hide Count;
    TotalRemove(Counts(t.contexts), c);
    Shrinks(t.contexts, c);
    assert Counts(t.contexts - {c}) == Counts(t.contexts) - {c};
  }
}
