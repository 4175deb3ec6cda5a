/** Where files belong: to an MPU of the active catalogue, or to one that an update is to replace. */
module ResourceHomes {
  import opened Bytes
  import opened ResourcePaths
  import opened ResourceIndex
  import opened ResourceCatalogue
  import opened ResourceShelf
  import opened ResourceRuns
  import opened ResourceEffects

  /** Some MPU supersedes this one. */
  ghost predicate Superseded(s: Shelf, m: MpuKey) { exists heir :: m in SupersededAt(s.superseded, heir) }

  predicate Placed(s: Shelf, k: ItemKey) { k in s.items || k in s.out.items }

  /** Every listed or published item has its MPU in the catalogue, or its MPU is superseded. */
  ghost predicate Homed(s: Shelf, active: Catalogue) {
    forall k :: Placed(s, k) ==> k.mpu in active.mpus || Superseded(s, k.mpu)
  }

  lemma LessHomed(s: Shelf, t: Shelf, active: Catalogue)
    requires Homed(s, active) && t.superseded == s.superseded && forall k :: Placed(t, k) ==> Placed(s, k)
    ensures Homed(t, active)
  {
    hide Placed;
    forall k | Placed(t, k)
      ensures k.mpu in active.mpus || Superseded(t, k.mpu)
    {
      if Superseded(s, k.mpu) {
        var heir :| k.mpu in SupersededAt(s.superseded, heir);
        assert k.mpu in SupersededAt(t.superseded, heir);
      }
    }
  }

  /** The end of an update takes away what it replaces, and forgets only that. */
  lemma FinishHomed(s: Shelf, m: MpuKey, active: Catalogue)
    requires Homed(s, active)
    ensures Homed(Finish(s, m), active)
  {
    hide Finish;
    hide Ready;
    var t := Finish(s, m);
    forall k | Placed(t, k)
      ensures k.mpu in active.mpus || Superseded(t, k.mpu)
    {
      UpdateEnds(s, m, k);
      FinishLess(s, m, k);
      if Superseded(s, k.mpu) {
        var heir :| k.mpu in SupersededAt(s.superseded, heir);
        assert k.mpu in SupersededAt(t.superseded, heir);
      }
    }
  }

  lemma FinishLess(s: Shelf, m: MpuKey, k: ItemKey)
    ensures (var t := Finish(s, m);
             && (Placed(t, k) ==> Placed(s, k))
             && forall h :: h != m ==> SupersededAt(t.superseded, h) == SupersededAt(s.superseded, h))
  {
    hide OwnedPaths;
    hide Normalized;
    hide Discard;
    hide Ready;
  }

  lemma PublishHomed(s: Shelf, cfg: Config, k: ItemKey, data: seq<byte>, m: MpuMap, f: FileTarget, active: Catalogue)
    requires Homed(s, active) && k.mpu in active.mpus
    ensures Homed(Publish(s, cfg, k, data, m, f), active)
  {
    hide Finish;
    hide Contents;
    hide Superseded;
    if Publishes(s, cfg, k, data, m, f) {
      var u := s.(out := Show(s.out, Resource(k, Signature(m, f), f.contentType, Contents(cfg, data, f).value)));
      ShownHomed(s, u, k, active);
      FinishHomed(u, k.mpu, active);
    }
  }

  lemma ShownHomed(s: Shelf, u: Shelf, k: ItemKey, active: Catalogue)
    requires Homed(s, active) && k.mpu in active.mpus && u.superseded == s.superseded && u.items == s.items
    requires forall j :: j in u.out.items ==> j == k || j in s.out.items
    ensures Homed(u, active)
  {
    forall j | Placed(u, j)
      ensures j.mpu in active.mpus || Superseded(u, j.mpu)
    {
      if j != k && Superseded(s, j.mpu) {
        assert Placed(s, j);
        var heir :| j.mpu in SupersededAt(s.superseded, heir);
        assert j.mpu in SupersededAt(u.superseded, heir);
      } else if j != k {
        assert Placed(s, j);
      }
    }
  }

  lemma IndexHomed(s: Shelf, cfg: Config, active: Catalogue, m: MpuKey, data: seq<byte>)
    requires Homed(s, active) && m in active.mpus
    ensures Homed(ConsumeIndex(s, cfg, active, m, data).1, active)
  {
    hide Finish;
    hide Relist;
    hide Index;
    hide Targets;
    hide Homed;
    if Index(data).Some? {
      var records := Index(data).value;
      var tags := TagsFor(active.mpus[m], |records|);
      if |records| == |tags| && TagsPresent(m.context, active.nodes, tags)
         && Targets(m.context, active.nodes, tags, records).Some? {
        var targets := Targets(m.context, active.nodes, tags, records).value;
        RelistedHomed(s, m, targets, active);
        FinishHomed(Relist(s, m, targets), m, active);
      }
    }
  }

  lemma RelistedHomed(s: Shelf, m: MpuKey, targets: map<nat, FileTarget>, active: Catalogue)
    requires Homed(s, active) && m in active.mpus
    ensures Homed(Relist(s, m, targets), active)
  {
    var t := Relist(s, m, targets);
    RelistLeaves(s, m, targets);
    RelistKeys(s, m, targets);
    forall k | Placed(t, k)
      ensures k.mpu in active.mpus || Superseded(t, k.mpu)
    {
      if k.mpu != m {
        assert Placed(s, k);
        if Superseded(s, k.mpu) {
          var heir :| k.mpu in SupersededAt(s.superseded, heir);
          assert k.mpu in SupersededAt(t.superseded, heir);
        }
      }
    }
    hide Relist;
  }

  lemma TryConsumeHomed(s: Shelf, cfg: Config, active: Catalogue, k: ItemKey, unit: DataUnit)
    requires Homed(s, active)
    ensures Homed(TryConsume(s, cfg, active, k, unit).1, active)
  {
    hide Homed;
    hide ConsumeIndex;
    hide Publish;
    if k.mpu in active.mpus && unit.download == Some(active.mpus[k.mpu].download) {
      if k.item == active.mpus[k.mpu].indexItem {
        IndexHomed(s, cfg, active, k.mpu, unit.data);
      } else if k in s.items {
        PublishHomed(s, cfg, k, unit.data, active.mpus[k.mpu], s.items[k], active);
      }
    }
  }

  lemma PendingHomed(s: Shelf, cfg: Config, active: Catalogue, k: ItemKey)
    requires Homed(s, active) && k in s.queue.units
    ensures Homed(ConsumePending(s, cfg, active, k), active)
  {
    hide TryConsume;
    hide Discard;
    hide Homed;
    TryConsumeHomed(s, cfg, active, k, s.queue.units[k]);
    LessHomed(TryConsume(s, cfg, active, k, s.queue.units[k]).1, ConsumePending(s, cfg, active, k), active);
  }

  lemma {:induction false} AfterHomed(s: Shelf, cfg: Config, active: Catalogue, used: seq<ItemKey>)
    requires Homed(s, active)
    ensures Homed(After(s, cfg, active, used), active)
    decreases |used|
  {
    hide Homed;
    hide ConsumePending;
    hide Consumable;
    if used != [] {
      AfterHomed(s, cfg, active, used[..|used| - 1]);
      var t, k := After(s, cfg, active, used[..|used| - 1]), used[|used| - 1];
      if Consumable(t, cfg, active, k) {
        ConsumableWaits(t, cfg, active, k);
        PendingHomed(t, cfg, active, k);
      }
    }
  }

  lemma RetriedHomed(s: Shelf, cfg: Config, active: Catalogue, t: Shelf)
    requires Homed(s, active) && Retried(s, cfg, active, t)
    ensures Homed(t, active)
  {
    hide Homed;
    hide After;
    hide Settled;
    var used :| t == After(s, cfg, active, used);
    AfterHomed(s, cfg, active, used);
  }

  lemma UnitHomed(cfg: Config, s: Shelf, active: Catalogue, k: ItemKey, unit: DataUnit, t: Shelf)
    requires Homed(s, active) && UnitNext(cfg, s, active, k, unit, t)
    ensures Homed(t, active)
  {
    hide TryConsume;
    hide TooMuch;
    hide Enqueue;
    hide Retried;
    hide Homed;
    if TryConsume(s, cfg, active, k, unit).0 {
      TryConsumeHomed(s, cfg, active, k, unit);
    } else if !TooMuch(s.queue, cfg, k, unit) {
      LessHomed(s, s.(queue := Enqueue(s.queue, k, unit)), active);
      RetriedHomed(s.(queue := Enqueue(s.queue, k, unit)), cfg, active, t);
    }
  }

  /** A commit gives every MPU that goes an heir, or takes its items. */
  lemma CommittedHomed(s: Shelf, active: Catalogue, context: nat, cat: Catalogue, t: Shelf)
    requires Homed(s, active) && CommittedShelf(s, Gone(active, context, cat), cat, t)
    ensures Homed(t, Replaced(active, context, cat))
  {
    hide CommittedShelf;
    hide HasReplacement;
    var gone, after := Gone(active, context, cat), Replaced(active, context, cat);
    forall k | Placed(t, k)
      ensures k.mpu in after.mpus || Superseded(t, k.mpu)
    {
      CommitTakesOrphans(s, gone, cat, t, k);
      CommitLess(s, gone, cat, t, k);
      if k.mpu in gone {
        assert Known(t, k);
        var heir :| Replaces(cat, k.mpu, heir) && k.mpu in SupersededAt(t.superseded, heir);
      } else if Superseded(s, k.mpu) {
        var heir :| k.mpu in SupersededAt(s.superseded, heir);
        assert k.mpu in SupersededAt(t.superseded, heir);
      }
    }
  }

  lemma CommitLess(s: Shelf, gone: set<MpuKey>, cat: Catalogue, t: Shelf, k: ItemKey)
    requires CommittedShelf(s, gone, cat, t)
    ensures Placed(t, k) ==> Placed(s, k)
    ensures forall h :: SupersededAt(s.superseded, h) <= SupersededAt(t.superseded, h)
  {
    hide OwnedPaths;
    hide Normalized;
    hide Discard;
  }

  lemma CommitHomed(cfg: Config, s: State, context: nat, source: Source, t: State)
    requires context in s.contexts && Homed(s.shelf, s.active) && CommitNext(cfg, s, context, source, t)
    ensures Homed(t.shelf, t.active)
  {
    hide Homed;
    hide CommittedShelf;
    hide Retried;
    hide Build;
    hide Proposal;
    hide Replaced;
    var proposal := Proposal(s.contexts[context], source);
    if proposal.Some? && Build(context, proposal.value.directories, proposal.value.management).Some? {
      var cat := Build(context, proposal.value.directories, proposal.value.management).value;
      var gone := Gone(s.active, context, cat);
      var shelf :| CommittedShelf(s.shelf, gone, cat, shelf) && Retried(shelf, cfg, t.active, t.shelf);
      CommittedHomed(s.shelf, s.active, context, cat, shelf);
      RetriedHomed(shelf, cfg, t.active, t.shelf);
    }
  }

  lemma NextHomed(cfg: Config, s: State, op: Op, t: State)
    requires Homed(s.shelf, s.active) && Next(cfg, s, op, t)
    ensures Homed(t.shelf, t.active)
  {
    hide Homed;
    hide UnitNext;
    hide CommitNext;
    if IsTable(op) {
      NextOfTable(cfg, s, op, t);
      if !Ignored(s, op) { CommitHomed(cfg, Added(s, op), op.header.context, op.header.source, t); }
    } else {
      match op
      case Unit(k, unit) => UnitHomed(cfg, s.shelf, s.active, k, unit, t.shelf);
      case DropTransient => LessHomed(s.shelf, t.shelf, s.active);
      case Reset => EmptyHomed(t.shelf, t.active);
    }
  }

  lemma EmptyHomed(s: Shelf, active: Catalogue)
    requires s.items == map[] && s.out.items == map[]
    ensures Homed(s, active)
  {
  }

  /** In every state of every run, a stored file belongs to an MPU of the active catalogue or to one that is superseded:
      nothing that a catalogue gave up without a successor is left to be looked up. */
  lemma {:induction false} FilesHaveHomes(cfg: Config, states: seq<State>, ops: seq<Op>, i: nat)
    requires Run(cfg, states, ops) && i < |states|
    ensures (var s := states[i];
             && Homed(s.shelf, s.active)
             && forall p :: p in s.shelf.out.store ==>
                  (var m := s.shelf.out.store[p].key.mpu; m in s.active.mpus || Superseded(s.shelf, m)))
    decreases i
  {
    hide Next;
    hide Superseded;
    if i == 0 {
      EmptyHomed(EmptyShelf(), Catalogue(map[], map[]));
    } else {
      FilesHaveHomes(cfg, states, ops, i - 1);
      NextHomed(cfg, states[i - 1], ops[i - 1], states[i]);
    }
    RunInv(cfg, states, ops, i);
    StoreHomed(states[i], cfg);
  }

  lemma StoreHomed(s: State, cfg: Config)
    requires Inv(s, cfg) && Homed(s.shelf, s.active)
    ensures forall p :: p in s.shelf.out.store ==>
              (var m := s.shelf.out.store[p].key.mpu; m in s.active.mpus || Superseded(s.shelf, m))
  {
    hide Superseded;
    hide CatalogueOf;
    forall p | p in s.shelf.out.store
      ensures Placed(s.shelf, s.shelf.out.store[p].key)
    {
    }
  }
}
