/** From whole MPT snapshots to the track events a subscriber sees, and back. */
module SnapshotDiff {
  import opened Bytes

  datatype VideoInfo = VideoInfo(hdrWcgIdc: Option<nat>, transferCharacteristics: Option<nat>)

  datatype AudioInfo = AudioInfo(streamContent: nat, componentType: nat, componentTag: nat, channelLayout: nat,
                                 streamType: nat, simulcastGroupTag: nat, multiLingual: bool,
                                 mainComponent: bool, quality: nat,
                                 samplingRateCode: nat, sampleRate: nat, secondaryLanguage: string)

  datatype SubtitleInfo = SubtitleInfo(tag: nat, infoVersion: nat, kind: nat, format: nat, operationMode: nat,
                                       timingMode: nat, displayMode: nat, resolution: nat, compressionType: nat,
                                       startMpuSequence: Option<nat>, referenceStartNtp: Option<nat>,
                                       leapIndicator: nat)

  datatype AssetGroup = AssetGroup(group: nat, level: nat)

  datatype Region = Region(mpuSequence: nat, layout: nat, region: nat)

  datatype TrackInfo = TrackInfo(trackId: nat, context: nat, packet: nat, assetId: seq<byte>, kind: nat, codec: nat,
                                 language: string, componentTag: nat, timescale: nat,
                                 video: Option<VideoInfo>, audio: Option<AudioInfo>, subtitle: Option<SubtitleInfo>,
                                 assetGroups: seq<AssetGroup>, regions: seq<Region>)

  datatype EventLocation = EventLocation(tag: nat, packet: Option<nat>)

  datatype Service = Service(context: nat, format: nat, resolution: nat, defaultAit: bool, dataTransmission: bool,
                             aitPacket: Option<nat>, dataPacket: Option<nat>, locations: seq<EventLocation>)

  datatype DataAsset = DataAsset(context: nat, packet: nat, assetId: seq<byte>, assetType: string, componentTag: nat,
                                 regions: seq<Region>)

  datatype Snapshot = Snapshot(context: nat, sourcePacket: nat, packageId: seq<byte>, version: nat, mode: nat,
                               inputOffset: nat, services: seq<Service>, tracks: seq<TrackInfo>, assets: seq<DataAsset>)

  // ----- comparing field by field

  predicate SameAudio(a: Option<AudioInfo>, b: Option<AudioInfo>) {
    if a.None? || b.None? then a.None? && b.None?
    else
      var x, y := a.value, b.value;
      && x.streamContent == y.streamContent && x.componentType == y.componentType && x.componentTag == y.componentTag
      && x.channelLayout == y.channelLayout && x.streamType == y.streamType
      && x.simulcastGroupTag == y.simulcastGroupTag && x.multiLingual == y.multiLingual
      && x.mainComponent == y.mainComponent && x.quality == y.quality
      && x.samplingRateCode == y.samplingRateCode && x.sampleRate == y.sampleRate
      && x.secondaryLanguage == y.secondaryLanguage
  }

  predicate SameSubtitle(a: Option<SubtitleInfo>, b: Option<SubtitleInfo>) {
    if a.None? || b.None? then a.None? && b.None?
    else
      var x, y := a.value, b.value;
      && x.tag == y.tag && x.infoVersion == y.infoVersion && x.kind == y.kind && x.format == y.format
      && x.operationMode == y.operationMode && x.timingMode == y.timingMode && x.displayMode == y.displayMode
      && x.resolution == y.resolution && x.compressionType == y.compressionType
      && x.startMpuSequence == y.startMpuSequence && x.referenceStartNtp == y.referenceStartNtp
      && x.leapIndicator == y.leapIndicator
  }

  predicate SameTrack(a: TrackInfo, b: TrackInfo) {
    && a.trackId == b.trackId && a.context == b.context && a.packet == b.packet && a.assetId == b.assetId
    && a.kind == b.kind && a.codec == b.codec && a.language == b.language && a.componentTag == b.componentTag
    && a.timescale == b.timescale && a.video == b.video && SameAudio(a.audio, b.audio)
    && SameSubtitle(a.subtitle, b.subtitle) && a.assetGroups == b.assetGroups && a.regions == b.regions
  }

  predicate SameService(a: Service, b: Service) {
    && a.context == b.context && a.format == b.format && a.resolution == b.resolution && a.defaultAit == b.defaultAit
    && a.dataTransmission == b.dataTransmission && a.aitPacket == b.aitPacket && a.dataPacket == b.dataPacket
    && |a.locations| == |b.locations|
    && forall i :: 0 <= i < |a.locations| ==>
         a.locations[i].tag == b.locations[i].tag && a.locations[i].packet == b.locations[i].packet
  }

  predicate SameAsset(a: DataAsset, b: DataAsset) {
    && a.context == b.context && a.packet == b.packet && a.assetId == b.assetId && a.assetType == b.assetType
    && a.componentTag == b.componentTag && a.regions == b.regions
  }

  predicate Unchanged(p: Snapshot, s: Snapshot) {
    && p.version == s.version && p.mode == s.mode && p.packageId == s.packageId
    && |p.services| == |s.services| && |p.tracks| == |s.tracks| && |p.assets| == |s.assets|
    && (forall i :: 0 <= i < |s.services| ==> SameService(p.services[i], s.services[i]))
    && (forall i :: 0 <= i < |s.tracks| ==> SameTrack(p.tracks[i], s.tracks[i]))
    && (forall i :: 0 <= i < |s.assets| ==> SameAsset(p.assets[i], s.assets[i]))
  }

  /** The short-cut is taken exactly for a snapshot that is the same apart from where it came from. */
  lemma UnchangedExactly(p: Snapshot, s: Snapshot)
    requires p.context == s.context
    ensures Unchanged(p, s) <==> p == s.(sourcePacket := p.sourcePacket, inputOffset := p.inputOffset)
  {
    hide SameTrack;
    hide SameService;
    hide SameAsset;
    if Unchanged(p, s) {
      forall i | 0 <= i < |s.services|
        ensures p.services[i] == s.services[i]
      {
        SameServiceEqual(p.services[i], s.services[i]);
      }
      forall i | 0 <= i < |s.tracks| ensures p.tracks[i] == s.tracks[i] { SameTrackEqual(p.tracks[i], s.tracks[i]); }
      forall i | 0 <= i < |s.assets| ensures p.assets[i] == s.assets[i] { SameAssetEqual(p.assets[i], s.assets[i]); }
      assert p.services == s.services && p.tracks == s.tracks && p.assets == s.assets;
    } else if p == s.(sourcePacket := p.sourcePacket, inputOffset := p.inputOffset) {
      forall i | 0 <= i < |s.services|
        ensures SameService(p.services[i], s.services[i])
      {
        SameServiceEqual(p.services[i], s.services[i]);
      }
      forall i | 0 <= i < |s.tracks|
        ensures SameTrack(p.tracks[i], s.tracks[i])
      {
        SameTrackEqual(p.tracks[i], s.tracks[i]);
      }
      forall i | 0 <= i < |s.assets|
        ensures SameAsset(p.assets[i], s.assets[i])
      {
        SameAssetEqual(p.assets[i], s.assets[i]);
      }
    }
  }

  /** The comparisons leave no field out. */
  lemma SameTrackEqual(a: TrackInfo, b: TrackInfo)
    ensures SameTrack(a, b) <==> a == b
  {}

  lemma SameServiceEqual(s: Service, t: Service)
    ensures SameService(s, t) <==> s == t
  {
    if SameService(s, t) {
      forall i | 0 <= i < |s.locations| ensures s.locations[i] == t.locations[i] {}
      assert s.locations == t.locations;
    }
  }

  lemma SameAssetEqual(x: DataAsset, y: DataAsset)
    ensures SameAsset(x, y) <==> x == y
  {}

  // ----- track identities

  /** Context and packet in fixed width, then the asset identifier. */
  function Identity(context: nat, packet: nat, asset: seq<byte>): seq<byte>
    requires context < UINT32 && packet < 0x1_0000
  {
    [context / 0x100_0000, context / 0x1_0000 % 0x100, context / 0x100 % 0x100, context % 0x100,
     packet / 0x100, packet % 0x100] + asset
  }

  /** Different assets, packets or contexts never share an identity. */
  lemma IdentityInjective(c0: nat, p0: nat, a0: seq<byte>, c1: nat, p1: nat, a1: seq<byte>)
    requires c0 < UINT32 && p0 < 0x1_0000 && c1 < UINT32 && p1 < 0x1_0000
    requires Identity(c0, p0, a0) == Identity(c1, p1, a1)
    ensures c0 == c1 && p0 == p1 && a0 == a1
  {
    var x, y := Identity(c0, p0, a0), Identity(c1, p1, a1);
    assert x[0] == y[0] && x[1] == y[1] && x[2] == y[2] && x[3] == y[3] && x[4] == y[4] && x[5] == y[5];
    assert x[6..] == a0 && y[6..] == a1;
    FourDigits(c0);
    FourDigits(c1);
  }

  lemma FourDigits(c: nat)
    requires c < UINT32
    ensures c == c / 0x100_0000 * 0x100_0000 + c / 0x1_0000 % 0x100 * 0x1_0000 + c / 0x100 % 0x100 * 0x100 + c % 0x100
  {}

  predicate Fits(t: TrackInfo) { t.context < UINT32 && t.packet < 0x1_0000 }

  function IdentityOf(t: TrackInfo): seq<byte>
    requires Fits(t)
  {
    Identity(t.context, t.packet, t.assetId)
  }

  // ----- the inventory and its events

  datatype Event = Added(track: TrackInfo) | Removed(track: TrackInfo) | ServicesReset

  datatype Inventory = Inventory(selected: Option<nat>, ids: map<seq<byte>, nat>, nextId: nat,
                                 current: map<nat, TrackInfo>, accepted: map<nat, Snapshot>)

  function Start(): Inventory { Inventory(None, map[], 1, map[], map[]) }

  /** What a subscriber that only sees the events believes to be there. */
  function Replay(view: map<nat, TrackInfo>, events: seq<Event>): map<nat, TrackInfo>
    decreases |events|
  {
    if events == [] then view
    else
      var before := Replay(view, events[..|events| - 1]);
      match events[|events| - 1]
      case Added(t) => before[t.trackId := t]
      case Removed(t) => before - {t.trackId}
      case ServicesReset => map[]
  }

  predicate ListedId(tracks: seq<TrackInfo>, id: nat) { exists i :: 0 <= i < |tracks| && tracks[i].trackId == id }

  function Gone(current: map<nat, TrackInfo>, s: Snapshot): set<nat> {
    set id | id in current && current[id].context == s.context && !ListedId(s.tracks, id)
  }

  /** One removal for every track that is gone, in some order. */
  ghost predicate Removals(current: map<nat, TrackInfo>, gone: set<nat>, events: seq<Event>) {
    && gone <= current.Keys
    && (forall e :: e in events ==> e.Removed? && e.track.trackId in gone && e.track == current[e.track.trackId])
    && (forall id :: id in gone ==> Removed(current[id]) in events)
    && |events| == |gone|
  }

  function Install(current: map<nat, TrackInfo>, tracks: seq<TrackInfo>): map<nat, TrackInfo>
    decreases |tracks|
  {
    if tracks == [] then current
    else Install(current, tracks[..|tracks| - 1])[tracks[|tracks| - 1].trackId := tracks[|tracks| - 1]]
  }

  /** A track is announced when it is new or differs from what is known. */
  function Announced(current: map<nat, TrackInfo>, tracks: seq<TrackInfo>): seq<Event>
    decreases |tracks|
  {
    if tracks == [] then []
    else
      var before, t := tracks[..|tracks| - 1], tracks[|tracks| - 1];
      var known := Install(current, before);
      Announced(current, before) + if t.trackId in known && SameTrack(known[t.trackId], t) then [] else [Added(t)]
  }

  /** The track before position `i` that the listing at `i` takes the place of: the last one listed with its
      identifier, or else the current one. */
  predicate Before(current: map<nat, TrackInfo>, tracks: seq<TrackInfo>, i: nat, was: TrackInfo)
    requires i < |tracks|
  {
    || (exists j :: 0 <= j < i && tracks[j].trackId == tracks[i].trackId && tracks[j] == was
                    && forall m :: j < m < i ==> tracks[m].trackId != tracks[i].trackId)
    || ((forall j :: 0 <= j < i ==> tracks[j].trackId != tracks[i].trackId)
        && tracks[i].trackId in current && current[tracks[i].trackId] == was)
  }

  function Announcement(current: map<nat, TrackInfo>, tracks: seq<TrackInfo>, i: nat): seq<Event>
    requires i < |tracks|
  {
    if Before(current, tracks, i, tracks[i]) then [] else [Added(tracks[i])]
  }

  /** The tracks of a snapshot are announced in the order it lists them, all but those that are the same as before. */
  lemma {:induction false} AnnouncedExactly(current: map<nat, TrackInfo>, tracks: seq<TrackInfo>)
    ensures Announced(current, tracks)
         == Flatten(seq(|tracks|, i requires 0 <= i < |tracks| => Announcement(current, tracks, i)))
    decreases |tracks|
  {
    hide SameTrack;
    hide Before;
    var all := seq(|tracks|, i requires 0 <= i < |tracks| => Announcement(current, tracks, i));
    if tracks != [] {
      var n := |tracks| - 1;
      var before, t := tracks[..n], tracks[n];
      AnnouncedExactly(current, before);
      var parts := seq(n, i requires 0 <= i < n => Announcement(current, before, i));
      forall i | 0 <= i < n
        ensures parts[i] == all[i]
      {
        BeforeOfPrefix(current, tracks, n, i);
      }
      assert all == parts + [Announcement(current, tracks, n)];
      FlattenSnoc(parts, Announcement(current, tracks, n));
      InstalledLast(current, tracks, n);
      var known := Install(current, before);
      if t.trackId in known { SameTrackEqual(known[t.trackId], t); }
    }
  }

  lemma BeforeOfPrefix(current: map<nat, TrackInfo>, tracks: seq<TrackInfo>, n: nat, i: nat)
    requires i < n <= |tracks|
    ensures Before(current, tracks[..n], i, tracks[i]) <==> Before(current, tracks, i, tracks[i])
  {
  }

  /** What installing has put under an identifier is what was listed last with it. */
  lemma {:induction false} InstalledLast(current: map<nat, TrackInfo>, tracks: seq<TrackInfo>, n: nat)
    requires n < |tracks|
    ensures (var known, t := Install(current, tracks[..n]), tracks[n];
             Before(current, tracks, n, t) <==> t.trackId in known && known[t.trackId] == t)
  {
    var before, id := tracks[..n], tracks[n].trackId;
    InstalledUnder(current, before, id);
    hide Install;
    if ListedId(before, id) {
      var j :| 0 <= j < n && before[j].trackId == id && Install(current, before)[id] == before[j]
               && forall m :: j < m < n ==> before[m].trackId != id;
      assert forall m :: j < m < n ==> tracks[m] == before[m];
      assert tracks[j] == before[j];
    } else {
      assert forall j :: 0 <= j < n ==> tracks[j] == before[j];
    }
  }

  lemma {:induction false} InstalledUnder(current: map<nat, TrackInfo>, tracks: seq<TrackInfo>, id: nat)
    ensures (var known := Install(current, tracks);
             if ListedId(tracks, id) then
               exists j :: 0 <= j < |tracks| && tracks[j].trackId == id && id in known && known[id] == tracks[j]
                           && forall m :: j < m < |tracks| ==> tracks[m].trackId != id
             else (id in known <==> id in current) && (id in known ==> known[id] == current[id]))
    decreases |tracks|
  {
    if tracks != [] {
      var before := tracks[..|tracks| - 1];
      InstalledUnder(current, before, id);
      assert tracks[|tracks| - 1].trackId == id ==> ListedId(tracks, id);
      if ListedId(before, id) {
        var j :| 0 <= j < |before| && before[j].trackId == id;
        assert tracks[j].trackId == id;
      }
    }
  }

  function Assign(i: Inventory, t: TrackInfo): (Inventory, nat)
    requires Fits(t)
  {
    if i.selected.Some? && i.selected.value != t.context then (i, 0)
    else if IdentityOf(t) in i.ids then (i, i.ids[IdentityOf(t)])
    else (i.(ids := i.ids[IdentityOf(t) := i.nextId], nextId := i.nextId + 1), i.nextId)
  }

  ghost predicate SnapshotNext(i: Inventory, s: Snapshot, events: seq<Event>, j: Inventory) {
    if (i.selected.Some? && i.selected.value != s.context)
        || (s.context in i.accepted && Unchanged(i.accepted[s.context], s))
    then events == [] && j == i
    else
      var left := i.current - Gone(i.current, s);
      && j == i.(current := Install(left, s.tracks), accepted := i.accepted[s.context := s])
      && exists removed :: Removals(i.current, Gone(i.current, s), removed)
          && events == removed + Announced(left, s.tracks)
  }

  datatype Op =
    | NewTrack(track: TrackInfo)
    | NewSnapshot(snapshot: Snapshot)
    | SelectService(context: Option<nat>)
    | FullReset

  ghost predicate Next(i: Inventory, op: Op, events: seq<Event>, j: Inventory) {
    match op
    case NewTrack(t) => Fits(t) && events == [] && j == Assign(i, t).0
    case NewSnapshot(s) => SnapshotNext(i, s, events, j)
    case SelectService(c) => events == [ServicesReset] && j == i.(selected := c, current := map[], accepted := map[])
    case FullReset => events == [ServicesReset] && j == i.(current := map[], accepted := map[])
  }

  /** The tracks of a snapshot carry the identifier that was assigned to their identity. */
  ghost predicate Identified(i: Inventory, tracks: seq<TrackInfo>, context: nat) {
    forall t :: t in tracks ==>
      Fits(t) && t.context == context && IdentityOf(t) in i.ids && i.ids[IdentityOf(t)] == t.trackId
  }

  /** What the parsers promise: a snapshot lists tracks of its own context under their assigned identifiers. */
  ghost predicate Lawful(i: Inventory, op: Op) {
    op.NewSnapshot? ==> Identified(i, op.snapshot.tracks, op.snapshot.context)
  }

  // ----- what always holds

  ghost predicate IdsUnique(ids: map<seq<byte>, nat>, nextId: nat) {
    && (forall k :: k in ids ==> 1 <= ids[k] < nextId)
    && (forall k, l :: k in ids && l in ids && ids[k] == ids[l] ==> k == l)
  }

  ghost predicate Keyed(i: Inventory) {
    forall id :: id in i.current ==>
      (var t := i.current[id]; t.trackId == id && Fits(t) && IdentityOf(t) in i.ids && i.ids[IdentityOf(t)] == id)
  }

  function Part(current: map<nat, TrackInfo>, context: nat): map<nat, TrackInfo> {
    map id | id in current && current[id].context == context :: current[id]
  }

  /** Each context shows the tracks of its last snapshot, and nothing before the first. */
  ghost predicate Shows(i: Inventory, context: nat) {
    Part(i.current, context) == if context in i.accepted then Install(map[], i.accepted[context].tracks) else map[]
  }

  ghost predicate Inv(i: Inventory) {
    && IdsUnique(i.ids, i.nextId) && Keyed(i)
    && (forall c :: c in i.accepted ==> i.accepted[c].context == c)
    && (forall c :: Shows(i, c))
  }

  // ----- identifiers

  /** The same identifier is given twice exactly when context, packet and asset are the same. */
  lemma AssignedExactly(i: Inventory, s: TrackInfo, t: TrackInfo)
    requires IdsUnique(i.ids, i.nextId) && i.nextId >= 1 && Fits(s) && Fits(t)
    requires i.selected.None? || (i.selected == Some(s.context) && i.selected == Some(t.context))
    ensures (var (j, id) := Assign(i, s);
             Assign(j, t).1 == id <==> s.context == t.context && s.packet == t.packet && s.assetId == t.assetId)
  {
    var (j, id) := Assign(i, s);
    if Assign(j, t).1 == id {
      assert IdentityOf(s) == IdentityOf(t);
      IdentityInjective(s.context, s.packet, s.assetId, t.context, t.packet, t.assetId);
    }
    hide Identity;
  }

  lemma AssignKeeps(i: Inventory, t: TrackInfo)
    requires Inv(i) && i.nextId >= 1 && Fits(t)
    ensures Inv(Assign(i, t).0) && Assign(i, t).0.nextId >= 1
  {
    hide Identity;
    hide Part;
    hide Install;
    var j := Assign(i, t).0;
    forall c ensures Shows(j, c) { assert Shows(i, c); }
  }

  // ----- installing the tracks of a snapshot

  lemma {:induction false} InstallMeans(current: map<nat, TrackInfo>, tracks: seq<TrackInfo>)
    ensures forall id :: id in Install(current, tracks) <==> id in current || ListedId(tracks, id)
    ensures forall id :: id in Install(current, tracks) ==>
              if ListedId(tracks, id)
              then Install(current, tracks)[id] in tracks && Install(current, tracks)[id].trackId == id
              else Install(current, tracks)[id] == current[id]
    decreases |tracks|
  {
    if tracks != [] {
      var before, t := tracks[..|tracks| - 1], tracks[|tracks| - 1];
      InstallMeans(current, before);
      ListedSnoc(tracks);
      assert forall x :: x in before ==> x in tracks;
      assert t in tracks;
    } else {
      NothingListed();
    }
  }

  lemma NothingListed()
    ensures forall id :: !ListedId([], id)
  {}

  lemma ListedSnoc(tracks: seq<TrackInfo>)
    requires tracks != []
    ensures forall id :: ListedId(tracks, id) <==>
              ListedId(tracks[..|tracks| - 1], id) || tracks[|tracks| - 1].trackId == id
  {
    var before := tracks[..|tracks| - 1];
    forall id | ListedId(before, id) ensures ListedId(tracks, id) {
      var i :| 0 <= i < |before| && before[i].trackId == id;
      assert tracks[i] == before[i];
    }
    forall id | ListedId(tracks, id) && tracks[|tracks| - 1].trackId != id ensures ListedId(before, id) {
      var i :| 0 <= i < |tracks| && tracks[i].trackId == id;
      assert before[i] == tracks[i];
    }
  }

  /** Where every track is listed, what was there before does not matter. */
  lemma {:induction false} InstallOver(current: map<nat, TrackInfo>, other: map<nat, TrackInfo>,
                                       tracks: seq<TrackInfo>, id: nat)
    requires ListedId(tracks, id)
    ensures id in Install(current, tracks) && id in Install(other, tracks)
    ensures Install(current, tracks)[id] == Install(other, tracks)[id]
    decreases |tracks|
  {
    if tracks == [] {
      NothingListed();
    } else if tracks[|tracks| - 1].trackId != id {
      ListedSnoc(tracks);
      InstallOver(current, other, tracks[..|tracks| - 1], id);
    }
  }

  lemma InstalledOwn(current: map<nat, TrackInfo>, s: Snapshot)
    requires forall t :: t in s.tracks ==> t.context == s.context
    ensures Part(Install(current - Gone(current, s), s.tracks), s.context) == Install(map[], s.tracks)
  {
    hide Install;
    hide ListedId;
    var left := current - Gone(current, s);
    InstallMeans(left, s.tracks);
    InstallMeans(map[], s.tracks);
    forall id | ListedId(s.tracks, id) ensures Install(left, s.tracks)[id] == Install(map[], s.tracks)[id] {
      InstallOver(left, map[], s.tracks, id);
    }
    assert Part(Install(left, s.tracks), s.context).Keys == Install(map[], s.tracks).Keys;
  }

  lemma InstalledOther(current: map<nat, TrackInfo>, s: Snapshot, c: nat)
    requires c != s.context && forall t :: t in s.tracks ==> t.context == s.context
    requires forall id :: id in current && current[id].context == c ==> !ListedId(s.tracks, id)
    ensures Part(Install(current - Gone(current, s), s.tracks), c) == Part(current, c)
  {
    hide Install;
    hide ListedId;
    InstallMeans(current - Gone(current, s), s.tracks);
    assert Part(Install(current - Gone(current, s), s.tracks), c).Keys == Part(current, c).Keys;
  }

  lemma InstalledPart(i: Inventory, s: Snapshot, c: nat)
    requires Inv(i) && Identified(i, s.tracks, s.context)
    ensures (var after := Install(i.current - Gone(i.current, s), s.tracks);
             Part(after, c) == if c == s.context then Install(map[], s.tracks) else Part(i.current, c))
  {
    hide IdentityOf;
    hide Install;
    hide ListedId;
    hide Part;
    hide Gone;
    if c == s.context {
      InstalledOwn(i.current, s);
    } else {
      forall id | id in i.current && i.current[id].context == c ensures !ListedId(s.tracks, id) {
        if ListedId(s.tracks, id) { OtherContext(i, s, id); }
      }
      InstalledOther(i.current, s, c);
    }
  }

  /** An identifier belongs to one context only. */
  lemma OtherContext(i: Inventory, s: Snapshot, id: nat)
    requires Inv(i) && Identified(i, s.tracks, s.context) && id in i.current && ListedId(s.tracks, id)
    ensures i.current[id].context == s.context
  {
    var k :| 0 <= k < |s.tracks| && s.tracks[k].trackId == id;
    var t, u := s.tracks[k], i.current[id];
    assert t in s.tracks;
    assert IdentityOf(t) == IdentityOf(u);
    IdentityInjective(t.context, t.packet, t.assetId, u.context, u.packet, u.assetId);
  }

  lemma SnapshotKeeps(i: Inventory, s: Snapshot, events: seq<Event>, j: Inventory)
    requires Inv(i) && Identified(i, s.tracks, s.context) && SnapshotNext(i, s, events, j)
    ensures Inv(j)
  {
    hide Announced;
    hide Removals;
    hide Unchanged;
    hide Keyed;
    if j != i {
      SnapshotKeyed(i, s);
      hide Install;
      hide Part;
      hide Gone;
      hide Identified;
      forall c ensures Shows(j, c) {
        assert Shows(i, c);
        InstalledPart(i, s, c);
      }
    }
  }

  lemma SnapshotKeyed(i: Inventory, s: Snapshot)
    requires Keyed(i) && Identified(i, s.tracks, s.context)
    ensures Keyed(i.(current := Install(i.current - Gone(i.current, s), s.tracks),
                     accepted := i.accepted[s.context := s]))
  {
    InstallMeans(i.current - Gone(i.current, s), s.tracks);
    hide Install;
    hide ListedId;
    hide IdentityOf;
  }

  // ----- replaying the events

  lemma {:induction false} ReplayAppend(view: map<nat, TrackInfo>, a: seq<Event>, b: seq<Event>)
    ensures Replay(view, a + b) == Replay(Replay(view, a), b)
    decreases |b|
  {
    if b == [] {
      assert a + b == a;
    } else {
      assert (a + b)[..|a + b| - 1] == a + b[..|b| - 1];
      ReplayAppend(view, a, b[..|b| - 1]);
    }
  }

  lemma {:induction false} ReplayRemovals(view: map<nat, TrackInfo>, events: seq<Event>)
    requires forall e :: e in events ==> e.Removed?
    ensures Replay(view, events) == view - (set e | e in events :: e.track.trackId)
    decreases |events|
  {
    if events == [] {
      assert view - {} == view;
    } else {
      var before, e := events[..|events| - 1], events[|events| - 1];
      assert events == before + [e];
      ReplayRemovals(view, before);
      assert (set x | x in events :: x.track.trackId) == (set x | x in before :: x.track.trackId) + {e.track.trackId};
    }
  }

  lemma RemovalsReplay(current: map<nat, TrackInfo>, gone: set<nat>, events: seq<Event>)
    requires Removals(current, gone, events) && forall id :: id in current ==> current[id].trackId == id
    ensures Replay(current, events) == current - gone
  {
    ReplayRemovals(current, events);
    var ids := set e | e in events :: e.track.trackId;
    forall id | id in gone ensures id in ids {
      assert Removed(current[id]) in events;
      assert Removed(current[id]).track.trackId == id;
    }
    assert ids == gone;
  }

  lemma {:induction false} AnnouncedReplay(current: map<nat, TrackInfo>, tracks: seq<TrackInfo>)
    ensures Replay(current, Announced(current, tracks)) == Install(current, tracks)
    decreases |tracks|
  {
    hide SameTrack;
    if tracks != [] {
      var before, t := tracks[..|tracks| - 1], tracks[|tracks| - 1];
      AnnouncedReplay(current, before);
      var known := Install(current, before);
      if t.trackId in known && SameTrack(known[t.trackId], t) {
        SameTrackEqual(known[t.trackId], t);
        assert known[t.trackId := t] == known;
        assert Announced(current, before) + [] == Announced(current, before);
      } else {
        ReplayAppend(current, Announced(current, before), [Added(t)]);
        assert Announced(current, tracks) == Announced(current, before) + [Added(t)];
        assert [Added(t)][..0] == [];
      }
    }
  }

  lemma SnapshotReplays(i: Inventory, s: Snapshot, events: seq<Event>, j: Inventory)
    requires Inv(i) && SnapshotNext(i, s, events, j)
    ensures Replay(i.current, events) == j.current
  {
    if j != i || events != [] {
      var left := i.current - Gone(i.current, s);
      var removed :| Removals(i.current, Gone(i.current, s), removed) && events == removed + Announced(left, s.tracks);
      RemovalsReplay(i.current, Gone(i.current, s), removed);
      AnnouncedReplay(left, s.tracks);
      ReplayAppend(i.current, removed, Announced(left, s.tracks));
    }
    hide *;
  }

  lemma NextKeeps(i: Inventory, op: Op, events: seq<Event>, j: Inventory)
    requires Inv(i) && i.nextId >= 1 && Lawful(i, op) && Next(i, op, events, j)
    ensures Inv(j) && j.nextId >= 1 && Replay(i.current, events) == j.current
  {
    hide Install;
    match op
    case NewTrack(t) => AssignKeeps(i, t);
    case NewSnapshot(s) =>
      SnapshotKeeps(i, s, events, j);
      SnapshotReplays(i, s, events, j);
    case SelectService(_) => ResetReplays(i.current);
    case FullReset => ResetReplays(i.current);
  }

  lemma ResetReplays(view: map<nat, TrackInfo>)
    ensures Replay(view, [ServicesReset]) == map[]
  {
    assert [ServicesReset][..0] == [];
  }

  /** A run: its inventories, and the events of each operation. */
  ghost predicate Run(inventories: seq<Inventory>, ops: seq<Op>, events: seq<seq<Event>>) {
    && |inventories| == |ops| + 1 && |events| == |ops| && inventories[0] == Start()
    && forall k :: 0 <= k < |ops| ==>
         Lawful(inventories[k], ops[k]) && Next(inventories[k], ops[k], events[k], inventories[k + 1])
  }

  function AllEvents(events: seq<seq<Event>>, count: nat): seq<Event>
    requires count <= |events|
  {
    if count == 0 then [] else AllEvents(events, count - 1) + events[count - 1]
  }

  /** At any time of any run, replaying all events so far yields exactly the tracks that are current; and these are,
      context by context, the tracks of the last snapshot accepted since the last reset. */
  lemma {:induction false} EventsTellTheState(inventories: seq<Inventory>, ops: seq<Op>, events: seq<seq<Event>>,
                                              n: nat)
    requires Run(inventories, ops, events) && n < |inventories|
    ensures Replay(map[], AllEvents(events, n)) == inventories[n].current
    ensures Inv(inventories[n]) && inventories[n].nextId >= 1
    decreases n
  {
    if n > 0 {
      EventsTellTheState(inventories, ops, events, n - 1);
      var i, j := inventories[n - 1], inventories[n];
      assert Lawful(i, ops[n - 1]) && Next(i, ops[n - 1], events[n - 1], inventories[n - 1 + 1]);
      NextKeeps(i, ops[n - 1], events[n - 1], j);
      ReplayAppend(map[], AllEvents(events, n - 1), events[n - 1]);
    } else {
      forall c ensures Shows(Start(), c) {}
    }
    hide *;
  }

  // ----- services and data assets, which are compared as whole lists

  function Missing<T(==)>(from: seq<T>, others: seq<T>): seq<T>
    decreases |from|
  {
    if from == [] then []
    else Missing(from[..|from| - 1], others) + if from[|from| - 1] in others then [] else [from[|from| - 1]]
  }

  lemma {:induction false} MissingMeans<T(!new)>(from: seq<T>, others: seq<T>)
    ensures forall x :: x in Missing(from, others) <==> x in from && x !in others
    decreases |from|
  {
    if from != [] {
      MissingMeans(from[..|from| - 1], others);
      assert from == from[..|from| - 1] + [from[|from| - 1]];
    }
  }

  datatype ListEvent<T> = Out(item: T) | In(item: T)

  function Outs<T>(items: seq<T>): seq<ListEvent<T>> { seq(|items|, i requires 0 <= i < |items| => Out(items[i])) }

  function Ins<T>(items: seq<T>): seq<ListEvent<T>> { seq(|items|, i requires 0 <= i < |items| => In(items[i])) }

  /** What is reported of two lists: first what is gone, then what is new. */
  function Told<T(==)>(was: seq<T>, now: seq<T>): seq<ListEvent<T>> { Outs(Missing(was, now)) + Ins(Missing(now, was)) }

  lemma OutsAndIns<T(!new)>(items: seq<T>)
    ensures forall e :: e in Outs(items) <==> e.Out? && e.item in items
    ensures forall e :: e in Ins(items) <==> e.In? && e.item in items
  {
    forall e: ListEvent<T> | e.Out? && e.item in items ensures e in Outs(items) {
      var i :| 0 <= i < |items| && items[i] == e.item;
      assert Outs(items)[i] == e;
    }
    forall e: ListEvent<T> | e.In? && e.item in items ensures e in Ins(items) {
      var i :| 0 <= i < |items| && items[i] == e.item;
      assert Ins(items)[i] == e;
    }
  }

  function ReplayList<T(==)>(view: set<T>, events: seq<ListEvent<T>>): set<T>
    decreases |events|
  {
    if events == [] then view
    else
      var before := ReplayList(view, events[..|events| - 1]);
      match events[|events| - 1]
      case Out(x) => before - {x}
      case In(x) => before + {x}
  }

  lemma {:induction false} ReplayListAppend<T>(view: set<T>, a: seq<ListEvent<T>>, b: seq<ListEvent<T>>)
    ensures ReplayList(view, a + b) == ReplayList(ReplayList(view, a), b)
    decreases |b|
  {
    if b == [] {
      assert a + b == a;
    } else {
      ReplayListAppend(view, a, b[..|b| - 1]);
      assert (a + b)[..|a + b| - 1] == a + b[..|b| - 1];
    }
  }

  lemma {:induction false} ReplayOuts<T(!new)>(view: set<T>, events: seq<ListEvent<T>>, x: T)
    requires forall e :: e in events ==> e.Out?
    ensures x in ReplayList(view, events) <==> x in view && Out(x) !in events
    decreases |events|
  {
    if events != [] {
      var last := events[|events| - 1];
      assert last in events && events == events[..|events| - 1] + [last];
      ReplayOuts(view, events[..|events| - 1], x);
    }
  }

  lemma {:induction false} ReplayIns<T(!new)>(view: set<T>, events: seq<ListEvent<T>>, x: T)
    requires forall e :: e in events ==> e.In?
    ensures x in ReplayList(view, events) <==> x in view || In(x) in events
    decreases |events|
  {
    if events != [] {
      var last := events[|events| - 1];
      assert last in events && events == events[..|events| - 1] + [last];
      ReplayIns(view, events[..|events| - 1], x);
    }
  }

  function Elements<T(==)>(s: seq<T>): set<T> { set x | x in s }

  /** Replaying what is reported turns the items of the old list into those of the new one. */
  lemma ListDiffReplays<T(!new)>(was: seq<T>, now: seq<T>)
    ensures ReplayList(Elements(was), Told(was, now)) == Elements(now)
  {
    MissingMeans(was, now);
    MissingMeans(now, was);
    var outs, ins := Outs(Missing(was, now)), Ins(Missing(now, was));
    OutsAndIns(Missing(was, now));
    OutsAndIns(Missing(now, was));
    ReplayListAppend(Elements(was), outs, ins);
    forall x: T
      ensures x in ReplayList(Elements(was), Told(was, now)) <==> x in Elements(now)
    {
      ReplayOuts(Elements(was), outs, x);
      ReplayIns(ReplayList(Elements(was), outs), ins, x);
      assert Out(x).item == x && In(x).item == x;
    }
  }

  /** All that is reported of the lists of one context, from the first one on. */
  function AllTold<T(==)>(lists: seq<seq<T>>): seq<ListEvent<T>>
    decreases |lists|
  {
    if |lists| <= 1 then []
    else AllTold(lists[..|lists| - 1]) + Told(lists[|lists| - 2], lists[|lists| - 1])
  }

  /** Whatever lists a context sends after its first, empty one, a subscriber that replays the events has the items of
      the last one. */
  lemma {:induction false} ListEventsTellTheState<T(!new)>(lists: seq<seq<T>>)
    requires lists != [] && lists[0] == []
    ensures ReplayList({}, AllTold(lists)) == Elements(lists[|lists| - 1])
    decreases |lists|
  {
    hide Told;
    if |lists| > 1 {
      var before, was, now := lists[..|lists| - 1], lists[|lists| - 2], lists[|lists| - 1];
      ListEventsTellTheState(before);
      ListDiffReplays(was, now);
      ReplayListAppend({}, AllTold(before), Told(was, now));
    }
  }
}
