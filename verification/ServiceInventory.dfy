/** The demuxer's inventory of tracks, as it updates it and reports to its sink. */
module ServiceInventory {
  import opened Bytes
  import opened SnapshotDiff

  class TrackInventory {
    var selectedService: Option<nat>
    var trackIds: map<seq<byte>, nat>
    var nextTrackId: nat
    var currentTracks: map<nat, TrackInfo>
    var mptSnapshots: map<nat, Snapshot>
    /** What the sink has been told. */
    var reported: seq<Event>

    ghost function Now(): Inventory
      reads this
    {
      Inventory(selectedService, trackIds, nextTrackId, currentTracks, mptSnapshots)
    }

    constructor ()
      ensures Now() == Start() && reported == []
    {
      selectedService := None;
      trackIds := map[];
      nextTrackId := 1;
      currentTracks := map[];
      mptSnapshots := map[];
      reported := [];
    }

    method AssignTrackId(t: TrackInfo) returns (id: nat)
      requires Fits(t)
      modifies `trackIds, `nextTrackId
      ensures (Now(), id) == Assign(old(Now()), t)
      ensures Next(old(Now()), NewTrack(t), [], Now())
    {
      hide Identity;
      if selectedService.Some? && selectedService.value != t.context { return 0; }
      var identity := Identity(t.context, t.packet, t.assetId);
      if identity !in trackIds {
        trackIds := trackIds[identity := nextTrackId];
        nextTrackId := nextTrackId + 1;
      }
      id := trackIds[identity];
    }

    method SelectServiceContext(context: Option<nat>)
      modifies this
      ensures reported == old(reported) + [ServicesReset]
      ensures Next(old(Now()), SelectService(context), [ServicesReset], Now())
    {
      reported := reported + [ServicesReset];
      selectedService := context;
      currentTracks := map[];
      mptSnapshots := map[];
    }

    method ResetAll()
      modifies this
      ensures reported == old(reported) + [ServicesReset]
      ensures Next(old(Now()), FullReset, [ServicesReset], Now())
    {
      reported := reported + [ServicesReset];
      currentTracks := map[];
      mptSnapshots := map[];
    }

    method IsUnchanged(s: Snapshot) returns (same: bool)
      ensures same <==> s.context in mptSnapshots && Unchanged(mptSnapshots[s.context], s)
    {
      hide SameService;
      hide SameTrack;
      hide SameAsset;
      if s.context !in mptSnapshots { return false; }
      var p := mptSnapshots[s.context];
      same := p.version == s.version && p.mode == s.mode && p.packageId == s.packageId
                   && |p.services| == |s.services| && |p.tracks| == |s.tracks| && |p.assets| == |s.assets|;
      if same {
        for i := 0 to |s.services|
          invariant forall k :: 0 <= k < i ==> SameService(p.services[k], s.services[k])
        {
          if !SameService(p.services[i], s.services[i]) { return false; }
        }
        for i := 0 to |s.tracks|
          invariant forall k :: 0 <= k < i ==> SameTrack(p.tracks[k], s.tracks[k])
        {
          if !SameTrack(p.tracks[i], s.tracks[i]) { return false; }
        }
        for i := 0 to |s.assets|
          invariant forall k :: 0 <= k < i ==> SameAsset(p.assets[k], s.assets[k])
        {
          if !SameAsset(p.assets[i], s.assets[i]) { return false; }
        }
      }
    }

    method RemoveGone(s: Snapshot) returns (ghost removed: seq<Event>)
      requires forall id :: id in currentTracks ==> currentTracks[id].trackId == id
      modifies `currentTracks, `reported
      ensures currentTracks == old(currentTracks) - Gone(old(currentTracks), s)
      ensures Removals(old(currentTracks), Gone(old(currentTracks), s), removed)
      ensures reported == old(reported) + removed
    {
      hide *;
      var todo := currentTracks.Keys;
      ghost var before, told := currentTracks, reported;
      ghost var gone := Gone(before, s);
      removed := [];
      GoneMeans(before, s);
      SweepStart(before, gone);
      while todo != {}
        invariant Sweeping(before, gone, todo, currentTracks, removed) && reported == told + removed
        decreases |todo|
      {
        var id :| id in todo;
        SweepInside(before, gone, todo, currentTracks, removed);
        SweepStep(before, gone, todo, currentTracks, removed, id);
        todo := todo - {id};
        var listed := FindId(s.tracks, id);
        if currentTracks[id].context == s.context && !listed {
          reported := reported + [Removed(currentTracks[id])];
          removed := removed + [Removed(currentTracks[id])];
          currentTracks := currentTracks - {id};
        }
      }
      SweepEnd(before, gone, currentTracks, removed);
    }

    static method FindId(tracks: seq<TrackInfo>, id: nat) returns (found: bool)
      ensures found <==> ListedId(tracks, id)
    {
      for i := 0 to |tracks|
        invariant forall k :: 0 <= k < i ==> tracks[k].trackId != id
      {
        if tracks[i].trackId == id { return true; }
      }
      found := false;
    }

    method InstallListed(tracks: seq<TrackInfo>)
      modifies `currentTracks, `reported
      ensures currentTracks == Install(old(currentTracks), tracks)
      ensures reported == old(reported) + Announced(old(currentTracks), tracks)
    {
      hide SameTrack;
      ghost var before, told := currentTracks, reported;
      assert tracks[..0] == [];
      for i := 0 to |tracks|
        invariant currentTracks == Install(before, tracks[..i])
        invariant reported == told + Announced(before, tracks[..i])
      {
        assert tracks[..i + 1][..i] == tracks[..i];
        var t := tracks[i];
        if t.trackId !in currentTracks || !SameTrack(currentTracks[t.trackId], t) {
          currentTracks := currentTracks[t.trackId := t];
          reported := reported + [Added(t)];
        } else {
          SameTrackEqual(currentTracks[t.trackId], t);
          assert currentTracks[t.trackId := t] == currentTracks;
        }
      }
      assert tracks[..|tracks|] == tracks;
    }

    method OnMptSnapshot(s: Snapshot)
      requires forall id :: id in currentTracks ==> currentTracks[id].trackId == id
      modifies `currentTracks, `mptSnapshots, `reported
      ensures exists events :: reported == old(reported) + events && Next(old(Now()), NewSnapshot(s), events, Now())
    {
      hide Unchanged;
      hide Install;
      hide Announced;
      hide Removals;
      hide Gone;
      ghost var i, told := Now(), reported;
      if selectedService.Some? && selectedService.value != s.context {
        assert reported == told + [];
        return;
      }
      var same := IsUnchanged(s);
      if same {
        assert reported == told + [];
        return;
      }
      ghost var left := currentTracks - Gone(currentTracks, s);
      ghost var removed := RemoveGone(s);
      InstallListed(s.tracks);
      mptSnapshots := mptSnapshots[s.context := s];
      ghost var events := removed + Announced(left, s.tracks);
      assert reported == told + events;
      assert SnapshotNext(i, s, events, Now());
    }

    /** Report, in order, what one list has and the other lacks. */
    static method ReportMissing<T(==)>(from: seq<T>, others: seq<T>) returns (missing: seq<T>)
      ensures missing == Missing(from, others)
    {
      missing := [];
      for i := 0 to |from|
        invariant missing == Missing(from[..i], others)
      {
        assert from[..i + 1][..i] == from[..i];
        if from[i] !in others { missing := missing + [from[i]]; }
      }
      assert from[..|from|] == from;
    }
  }

  lemma GoneMeans(current: map<nat, TrackInfo>, s: Snapshot)
    ensures Gone(current, s) <= current.Keys
    ensures forall id :: id in current ==>
              (id in Gone(current, s) <==> current[id].context == s.context && !ListedId(s.tracks, id))
  {
    hide ListedId;
  }

  /** The loop over the tracks: those of `gone` outside `todo` have been removed and reported. */
  ghost predicate Sweeping(before: map<nat, TrackInfo>, gone: set<nat>, todo: set<nat>, current: map<nat, TrackInfo>,
                           removed: seq<Event>) {
    todo <= before.Keys && current == before - (gone - todo) && Removals(before, gone - todo, removed)
  }

  lemma SweepInside(before: map<nat, TrackInfo>, gone: set<nat>, todo: set<nat>, current: map<nat, TrackInfo>,
                    removed: seq<Event>)
    requires Sweeping(before, gone, todo, current, removed)
    ensures todo <= before.Keys
  {}

  lemma SweepStart(before: map<nat, TrackInfo>, gone: set<nat>)
    requires gone <= before.Keys
    ensures Sweeping(before, gone, before.Keys, before, [])
  {
    assert gone - before.Keys == {};
  }

  lemma SweepStep(before: map<nat, TrackInfo>, gone: set<nat>, todo: set<nat>, current: map<nat, TrackInfo>,
                  removed: seq<Event>, id: nat)
    requires Sweeping(before, gone, todo, current, removed) && id in todo && id in before && before[id].trackId == id
    ensures id in before && id in current && current[id] == before[id]
    ensures id in gone ==> Sweeping(before, gone, todo - {id}, current - {id}, removed + [Removed(current[id])])
    ensures id !in gone ==> Sweeping(before, gone, todo - {id}, current, removed)
  {
    if id in gone {
      assert gone - (todo - {id}) == (gone - todo) + {id};
      OneMoreRemoved(before, gone - todo, removed, id);
      assert before - (gone - todo) - {id} == before - ((gone - todo) + {id});
    } else {
      assert gone - (todo - {id}) == gone - todo;
    }
    hide Removals;
  }

  lemma SweepEnd(before: map<nat, TrackInfo>, gone: set<nat>, current: map<nat, TrackInfo>, removed: seq<Event>)
    requires Sweeping(before, gone, {}, current, removed)
    ensures current == before - gone && Removals(before, gone, removed)
  {
    assert gone - {} == gone;
  }

  lemma OneMoreRemoved(current: map<nat, TrackInfo>, gone: set<nat>, removed: seq<Event>, id: nat)
    requires Removals(current, gone, removed) && id in current && id !in gone && current[id].trackId == id
    ensures Removals(current, gone + {id}, removed + [Removed(current[id])])
  {}
}
