/** Where stored files come from: nothing is in the store that no unit brought. */
module ResourceOrigins {
  import opened Bytes
  import opened ResourcePaths
  import opened ResourceIndex
  import opened ResourceCatalogue
  import opened ResourceShelf
  import opened ResourceRuns

  datatype Sent = Sent(key: ItemKey, unit: DataUnit)

  /** The unit was sent for that item of that download, and the file is its bytes or what they decompress to. */
  predicate Brings(cfg: Config, x: Sent, r: Resource) {
    && x.key == r.key && x.unit.download == Some(r.signature.download)
    && (r.data == x.unit.data || cfg.inflate(x.unit.data, |r.data|) == Some(r.data))
  }

  ghost predicate Brought(cfg: Config, sent: set<Sent>, r: Resource) { exists x :: x in sent && Brings(cfg, x, r) }

  ghost predicate StoreBrought(cfg: Config, sent: set<Sent>, store: map<PathKey, Resource>) {
    forall p :: p in store ==> Brought(cfg, sent, store[p])
  }

  /** Every stored file, and every unit that waits, was sent. */
  ghost predicate Traced(cfg: Config, sent: set<Sent>, s: Shelf) {
    && StoreBrought(cfg, sent, s.out.store)
    && forall k :: k in s.queue.units ==> Sent(k, s.queue.units[k]) in sent
  }

  lemma LessTraced(cfg: Config, sent: set<Sent>, s: Shelf, t: Shelf)
    requires Traced(cfg, sent, s)
    requires forall p :: p in t.out.store ==> p in s.out.store && t.out.store[p] == s.out.store[p]
    requires forall k :: k in t.queue.units ==> k in s.queue.units && t.queue.units[k] == s.queue.units[k]
    ensures Traced(cfg, sent, t)
  {
    hide Brought;
  }

  lemma MoreSent(cfg: Config, sent: set<Sent>, more: set<Sent>, s: Shelf)
    requires Traced(cfg, sent, s) && sent <= more
    ensures Traced(cfg, more, s)
  {
    hide Brings;
  }

  lemma EraseTraced(cfg: Config, sent: set<Sent>, s: Shelf, ks: set<ItemKey>)
    requires Traced(cfg, sent, s)
    ensures Traced(cfg, sent, Erase(s, ks))
  {
    hide OwnedPaths;
    hide Normalized;
    hide Traced;
    LessTraced(cfg, sent, s, Erase(s, ks));
  }

  lemma FinishTraced(cfg: Config, sent: set<Sent>, s: Shelf, m: MpuKey)
    requires Traced(cfg, sent, s)
    ensures Traced(cfg, sent, Finish(s, m))
  {
    hide Erase;
    hide ItemsOf;
    hide Brought;
    hide Ready;
    if m in s.superseded { EraseTraced(cfg, sent, s, ItemsOf(s, s.superseded[m])); }
    var t := DropSuperseded(s, m);
    if m in t.deferred { EraseTraced(cfg, sent, t, t.deferred[m]); }
  }

  lemma ContentsAre(cfg: Config, data: seq<byte>, t: FileTarget)
    requires Contents(cfg, data, t).Some?
    ensures (var bytes := Contents(cfg, data, t).value;
             bytes == data || cfg.inflate(data, |bytes|) == Some(bytes))
  {
  }

  lemma PublishTraced(cfg: Config, sent: set<Sent>, s: Shelf, k: ItemKey, unit: DataUnit, m: MpuMap, t: FileTarget)
    requires Traced(cfg, sent, s) && Sent(k, unit) in sent && unit.download == Some(m.download)
    ensures Traced(cfg, sent, Publish(s, cfg, k, unit.data, m, t))
  {
    hide Finish;
    hide Contents;
    hide SafePath;
    if Publishes(s, cfg, k, unit.data, m, t) {
      ContentsAre(cfg, unit.data, t);
      var r := Resource(k, Signature(m, t), t.contentType, Contents(cfg, unit.data, t).value);
      assert Brings(cfg, Sent(k, unit), r);
      hide Brought;
      FinishTraced(cfg, sent, s.(out := Show(s.out, r)), k.mpu);
    }
  }

  lemma ConsumeIndexTraced(cfg: Config, sent: set<Sent>, s: Shelf, active: Catalogue, m: MpuKey, data: seq<byte>)
    requires Traced(cfg, sent, s) && m in active.mpus
    ensures Traced(cfg, sent, ConsumeIndex(s, cfg, active, m, data).1)
  {
    hide Finish;
    hide Relist;
    hide Index;
    hide Targets;
    hide Traced;
    if Index(data).Some? {
      var records := Index(data).value;
      var tags := TagsFor(active.mpus[m], |records|);
      if |records| == |tags| && TagsPresent(m.context, active.nodes, tags)
         && Targets(m.context, active.nodes, tags, records).Some? {
        var targets := Targets(m.context, active.nodes, tags, records).value;
        RelistLeaves(s, m, targets);
        LessTraced(cfg, sent, s, Relist(s, m, targets));
        FinishTraced(cfg, sent, Relist(s, m, targets), m);
      }
    }
  }

  lemma TryConsumeTraced(cfg: Config, sent: set<Sent>, s: Shelf, active: Catalogue, k: ItemKey, unit: DataUnit)
    requires Traced(cfg, sent, s) && Sent(k, unit) in sent
    ensures Traced(cfg, sent, TryConsume(s, cfg, active, k, unit).1)
  {
    hide Traced;
    hide ConsumeIndex;
    hide Publish;
    if k.mpu in active.mpus && unit.download == Some(active.mpus[k.mpu].download) {
      if k.item == active.mpus[k.mpu].indexItem {
        ConsumeIndexTraced(cfg, sent, s, active, k.mpu, unit.data);
      } else if k in s.items {
        PublishTraced(cfg, sent, s, k, unit, active.mpus[k.mpu], s.items[k]);
      }
    }
  }

  lemma PendingTraced(cfg: Config, sent: set<Sent>, s: Shelf, active: Catalogue, k: ItemKey)
    requires Traced(cfg, sent, s) && k in s.queue.units
    ensures Traced(cfg, sent, ConsumePending(s, cfg, active, k))
  {
    hide TryConsume;
    hide StoreBrought;
    TryConsumeTraced(cfg, sent, s, active, k, s.queue.units[k]);
  }

  lemma {:induction false} AfterTraced(cfg: Config, sent: set<Sent>, s: Shelf, active: Catalogue, used: seq<ItemKey>)
    requires Traced(cfg, sent, s)
    ensures Traced(cfg, sent, After(s, cfg, active, used))
    decreases |used|
  {
    hide Traced;
    hide ConsumePending;
    hide Consumable;
    if used != [] {
      AfterTraced(cfg, sent, s, active, used[..|used| - 1]);
      var t, k := After(s, cfg, active, used[..|used| - 1]), used[|used| - 1];
      if Consumable(t, cfg, active, k) {
        ConsumableWaits(t, cfg, active, k);
        PendingTraced(cfg, sent, t, active, k);
      }
    }
  }

  lemma RetriedTraced(cfg: Config, sent: set<Sent>, s: Shelf, active: Catalogue, t: Shelf)
    requires Traced(cfg, sent, s) && Retried(s, cfg, active, t)
    ensures Traced(cfg, sent, t)
  {
    hide Traced;
    hide After;
    hide Settled;
    var used :| t == After(s, cfg, active, used);
    AfterTraced(cfg, sent, s, active, used);
  }

  lemma UnitTraced(cfg: Config, sent: set<Sent>, s: Shelf, active: Catalogue, k: ItemKey, unit: DataUnit, t: Shelf)
    requires Traced(cfg, sent, s) && Sent(k, unit) in sent && UnitNext(cfg, s, active, k, unit, t)
    ensures Traced(cfg, sent, t)
  {
    hide TryConsume;
    hide TooMuch;
    hide Retried;
    hide StoreBrought;
    if TryConsume(s, cfg, active, k, unit).0 {
      TryConsumeTraced(cfg, sent, s, active, k, unit);
    } else if !TooMuch(s.queue, cfg, k, unit) {
      RetriedTraced(cfg, sent, s.(queue := Enqueue(s.queue, k, unit)), active, t);
    }
  }

  lemma CommitTraced(cfg: Config, sent: set<Sent>, s: State, context: nat, source: Source, t: State)
    requires context in s.contexts && Traced(cfg, sent, s.shelf) && CommitNext(cfg, s, context, source, t)
    ensures Traced(cfg, sent, t.shelf)
  {
    hide StoreBrought;
    hide Retried;
    hide Build;
    hide Proposal;
    hide Erase;
    hide ItemsOf;
    hide Replaced;
    var proposal := Proposal(s.contexts[context], source);
    if proposal.Some? && Build(context, proposal.value.directories, proposal.value.management).Some? {
      var cat := Build(context, proposal.value.directories, proposal.value.management).value;
      var gone := Gone(s.active, context, cat);
      var shelf :| CommittedShelf(s.shelf, gone, cat, shelf) && Retried(shelf, cfg, t.active, t.shelf);
      EraseTraced(cfg, sent, s.shelf, ItemsOf(s.shelf, Without(gone, cat)));
      RetriedTraced(cfg, sent, shelf, t.active, t.shelf);
    }
  }

  /** The units of the first operations of a run. */
  function SentBy(ops: seq<Op>, i: nat): set<Sent>
    requires i <= |ops|
  {
    if i == 0 then {} else SentBy(ops, i - 1) + if ops[i - 1].Unit? then {Sent(ops[i - 1].key, ops[i - 1].unit)} else {}
  }

  lemma NextTraced(cfg: Config, sent: set<Sent>, s: State, op: Op, t: State)
    requires Traced(cfg, sent, s.shelf) && Next(cfg, s, op, t) && (op.Unit? ==> Sent(op.key, op.unit) in sent)
    ensures Traced(cfg, sent, t.shelf)
  {
    hide Traced;
    hide Next;
    hide CommitNext;
    if IsTable(op) {
      NextOfTable(cfg, s, op, t);
      if !Ignored(s, op) { CommitTraced(cfg, sent, Added(s, op), op.header.context, op.header.source, t); }
    } else {
      NextElse(cfg, s, op, t);
      if op.Unit? {
        UnitTraced(cfg, sent, s.shelf, s.active, op.key, op.unit, t.shelf);
      } else {
        LessTraced(cfg, sent, s.shelf, t.shelf);
      }
    }
  }

  lemma NextElse(cfg: Config, s: State, op: Op, t: State)
    requires !IsTable(op) && Next(cfg, s, op, t)
    ensures op.Unit? ==> UnitNext(cfg, s.shelf, s.active, op.key, op.unit, t.shelf)
    ensures !op.Unit? ==> t.shelf.queue.units == map[] && (t.shelf.out == s.shelf.out || t.shelf.out.store == map[])
  {
    hide UnitNext;
  }

  /** In every state of every run, each file in the store was brought by a unit that has been sent in this run. */
  lemma {:induction false} StoredWasSent(cfg: Config, states: seq<State>, ops: seq<Op>, i: nat)
    requires Run(cfg, states, ops) && i < |states|
    ensures Traced(cfg, SentBy(ops, i), states[i].shelf)
    decreases i
  {
    hide Next;
    hide Traced;
    if i == 0 {
      NothingTraced(cfg);
    } else {
      StoredWasSent(cfg, states, ops, i - 1);
      MoreSent(cfg, SentBy(ops, i - 1), SentBy(ops, i), states[i - 1].shelf);
      NextTraced(cfg, SentBy(ops, i), states[i - 1], ops[i - 1], states[i]);
    }
  }

  lemma NothingTraced(cfg: Config)
    ensures Traced(cfg, {}, EmptyShelf())
  {
  }
}
