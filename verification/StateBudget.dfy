/** Packet routing of the MMTP parsers and the one budget of states they all draw on. */
module StateBudget {
  import opened Bytes
  import opened Totals

  /** What a packet of an asset is routed to: the asset, and the state of its assembler. */
  datatype Route<S> = Route(asset: seq<byte>, state: S)

  datatype Routes<S> = Routes(signalling: set<nat>, tracks: map<nat, Route<S>>, data: map<nat, Route<S>>)

  /** A track or a data asset as the MPT lists it. */
  datatype Asset = Asset(packet: nat, id: seq<byte>)

  datatype Mpt = Mpt(tracks: seq<Asset>, data: seq<Asset>)

  function NoRoutes<S>(): Routes<S> { Routes({}, map[], map[]) }

  function Count<S>(r: Routes<S>): nat { |r.signalling| + |r.tracks| + |r.data| }

  function Packets(assets: seq<Asset>): set<nat> { set a | a in assets :: a.packet }

  /** The first asset listed for the packet. */
  function Find(assets: seq<Asset>, packet: nat): (r: Option<Asset>)
    ensures r.Some? <==> packet in Packets(assets)
    ensures r.Some? ==> r.value in assets && r.value.packet == packet
  {
    if assets == [] then None
    else if assets[0].packet == packet then Some(assets[0])
    else Find(assets[1..], packet)
  }

  /** The route is listed again for the same asset. */
  predicate Relisted<S>(assets: seq<Asset>, packet: nat, r: Route<S>) {
    Find(assets, packet).Some? && Find(assets, packet).value.id == r.asset
  }

  function Survivors<S>(routes: map<nat, Route<S>>, assets: seq<Asset>): map<nat, Route<S>> {
    map p | p in routes && Relisted(assets, p, routes[p]) :: routes[p]
  }

  // ----- one commit, with room for so many states in this context

  function PutTrack<S>(r: Routes<S>, a: Asset, room: int, start: S): Routes<S> {
    var free := r.(data := r.data - {a.packet});
    if a.packet in free.tracks then free.(tracks := free.tracks[a.packet := free.tracks[a.packet].(asset := a.id)])
    else if Count(free) < room then free.(tracks := free.tracks[a.packet := Route(a.id, start)])
    else free
  }

  function PutData<S>(r: Routes<S>, a: Asset, room: int, start: S): Routes<S> {
    var free := r.(tracks := r.tracks - {a.packet});
    if a.packet in free.data then free.(data := free.data[a.packet := free.data[a.packet].(asset := a.id)])
    else if Count(free) < room then free.(data := free.data[a.packet := Route(a.id, start)])
    else free
  }

  function PutTracks<S>(r: Routes<S>, assets: seq<Asset>, room: int, start: S): Routes<S>
    decreases |assets|
  {
    if assets == [] then r
    else PutTrack(PutTracks(r, assets[..|assets| - 1], room, start), assets[|assets| - 1], room, start)
  }

  function PutAllData<S>(r: Routes<S>, assets: seq<Asset>, room: int, start: S): Routes<S>
    decreases |assets|
  {
    if assets == [] then r
    else PutData(PutAllData(r, assets[..|assets| - 1], room, start), assets[|assets| - 1], room, start)
  }

  function Swept<S>(r: Routes<S>, mpt: Mpt): Routes<S> {
    Routes(r.signalling, Survivors(r.tracks, mpt.tracks), Survivors(r.data, mpt.data))
  }

  function Commit<S>(r: Routes<S>, mpt: Mpt, room: int, start: S): Routes<S> {
    PutAllData(PutTracks(Swept(r, mpt), mpt.tracks, room, start), mpt.data, room, start)
  }

  // ----- no packet is both

  predicate Exclusive<S>(r: Routes<S>) { r.tracks.Keys !! r.data.Keys }

  lemma PacketsSnoc(assets: seq<Asset>)
    requires assets != []
    ensures Packets(assets) == Packets(assets[..|assets| - 1]) + {assets[|assets| - 1].packet}
  {
    assert assets == assets[..|assets| - 1] + [assets[|assets| - 1]];
  }

  lemma PutTrackStep<S>(r: Routes<S>, a: Asset, room: int, start: S)
    ensures (var t := PutTrack(r, a, room, start);
             && t.signalling == r.signalling && t.data == r.data - {a.packet}
             && r.tracks.Keys <= t.tracks.Keys <= r.tracks.Keys + {a.packet})
  {
    hide Count;
  }

  lemma PutDataStep<S>(r: Routes<S>, a: Asset, room: int, start: S)
    ensures (var t := PutData(r, a, room, start);
             && t.signalling == r.signalling && t.tracks == r.tracks - {a.packet}
             && r.data.Keys <= t.data.Keys <= r.data.Keys + {a.packet})
  {
    hide Count;
  }

  lemma RemoveMore<S>(m: map<nat, Route<S>>, gone: set<nat>, p: nat)
    ensures m - gone - {p} == m - (gone + {p}) && m - {} == m
  {}

  lemma {:induction false} TracksPut<S>(r: Routes<S>, assets: seq<Asset>, room: int, start: S)
    ensures (var t := PutTracks(r, assets, room, start);
             && t.signalling == r.signalling
             && t.tracks.Keys <= r.tracks.Keys + Packets(assets) && r.tracks.Keys <= t.tracks.Keys
             && t.data == r.data - Packets(assets))
    decreases |assets|
  {
    hide PutTrack;
    if assets == [] {
      RemoveMore(r.data, {}, 0);
    } else {
      var before, a := assets[..|assets| - 1], assets[|assets| - 1];
      TracksPut(r, before, room, start);
      PacketsSnoc(assets);
      hide Packets;
      PutTrackStep(PutTracks(r, before, room, start), a, room, start);
      RemoveMore(r.data, Packets(before), a.packet);
    }
  }

  lemma {:induction false} DataPut<S>(r: Routes<S>, assets: seq<Asset>, room: int, start: S)
    ensures (var t := PutAllData(r, assets, room, start);
             && t.signalling == r.signalling
             && t.data.Keys <= r.data.Keys + Packets(assets) && r.data.Keys <= t.data.Keys
             && t.tracks == r.tracks - Packets(assets))
    decreases |assets|
  {
    hide PutData;
    if assets == [] {
      RemoveMore(r.tracks, {}, 0);
    } else {
      var before, a := assets[..|assets| - 1], assets[|assets| - 1];
      DataPut(r, before, room, start);
      PacketsSnoc(assets);
      hide Packets;
      PutDataStep(PutAllData(r, before, room, start), a, room, start);
      RemoveMore(r.tracks, Packets(before), a.packet);
    }
  }

  /** After any accepted MPT no packet is both a track and a data asset, and only listed packets are routed. */
  lemma CommitExclusive<S>(r: Routes<S>, mpt: Mpt, room: int, start: S)
    ensures (var t := Commit(r, mpt, room, start);
             && Exclusive(t) && t.signalling == r.signalling
             && t.tracks.Keys <= Packets(mpt.tracks) - Packets(mpt.data) && t.data.Keys <= Packets(mpt.data))
  {
    hide Find;
    var swept := Swept(r, mpt);
    TracksPut(swept, mpt.tracks, room, start);
    DataPut(PutTracks(swept, mpt.tracks, room, start), mpt.data, room, start);
    SurvivorsListed(r.tracks, mpt.tracks);
    SurvivorsListed(r.data, mpt.data);
  }

  lemma SurvivorsListed<S>(routes: map<nat, Route<S>>, assets: seq<Asset>)
    ensures Survivors(routes, assets).Keys <= routes.Keys * Packets(assets)
  {}

  // ----- the budget is kept

  lemma RemoveCounts<S>(m: map<nat, Route<S>>, p: nat)
    ensures |m - {p}| == |m| - if p in m then 1 else 0
  {
    if p in m { Shrinks(m, p); } else { assert m - {p} == m; }
  }

  lemma AddCounts<S>(m: map<nat, Route<S>>, p: nat, v: Route<S>)
    ensures |m[p := v]| == |m| + if p in m then 0 else 1
  {
    assert m[p := v].Keys == m.Keys + {p};
    if p in m { assert m.Keys + {p} == m.Keys; }
  }

  lemma PutWithin<S>(r: Routes<S>, a: Asset, room: int, start: S)
    requires Count(r) <= room
    ensures Count(PutTrack(r, a, room, start)) <= room && Count(PutData(r, a, room, start)) <= room
  {
    RemoveCounts(r.data, a.packet);
    RemoveCounts(r.tracks, a.packet);
    if a.packet in r.tracks { AddCounts(r.tracks, a.packet, r.tracks[a.packet].(asset := a.id)); }
    if a.packet in r.data { AddCounts(r.data, a.packet, r.data[a.packet].(asset := a.id)); }
    AddCounts(r.tracks, a.packet, Route(a.id, start));
    AddCounts(r.data, a.packet, Route(a.id, start));
  }

  lemma {:induction false} PutTracksWithin<S>(r: Routes<S>, assets: seq<Asset>, room: int, start: S)
    requires Count(r) <= room
    ensures Count(PutTracks(r, assets, room, start)) <= room
    decreases |assets|
  {
    hide PutTrack;
    hide Count;
    if assets != [] {
      PutTracksWithin(r, assets[..|assets| - 1], room, start);
      PutWithin(PutTracks(r, assets[..|assets| - 1], room, start), assets[|assets| - 1], room, start);
    }
  }

  lemma {:induction false} PutAllDataWithin<S>(r: Routes<S>, assets: seq<Asset>, room: int, start: S)
    requires Count(r) <= room
    ensures Count(PutAllData(r, assets, room, start)) <= room
    decreases |assets|
  {
    hide PutData;
    hide Count;
    if assets != [] {
      PutAllDataWithin(r, assets[..|assets| - 1], room, start);
      PutWithin(PutAllData(r, assets[..|assets| - 1], room, start), assets[|assets| - 1], room, start);
    }
  }

  lemma SweptWithin<S>(r: Routes<S>, mpt: Mpt)
    ensures Count(Swept(r, mpt)) <= Count(r)
  {
    SurvivorsListed(r.tracks, mpt.tracks);
    SurvivorsListed(r.data, mpt.data);
    Fewer(Survivors(r.tracks, mpt.tracks).Keys, r.tracks.Keys);
    Fewer(Survivors(r.data, mpt.data).Keys, r.data.Keys);
  }

  lemma CommitWithin<S>(r: Routes<S>, mpt: Mpt, room: int, start: S)
    requires Count(r) <= room
    ensures Count(Commit(r, mpt, room, start)) <= room
  {
    hide Swept;
    hide Count;
    SweptWithin(r, mpt);
    PutTracksWithin(Swept(r, mpt), mpt.tracks, room, start);
    PutAllDataWithin(PutTracks(Swept(r, mpt), mpt.tracks, room, start), mpt.data, room, start);
  }

  // ----- with room enough, the routes are exactly what the MPT lists

  /** The last asset listed for the packet. */
  function FindLast(assets: seq<Asset>, packet: nat): (r: Option<Asset>)
    ensures r.Some? <==> packet in Packets(assets)
  {
    if assets == [] then None
    else if assets[|assets| - 1].packet == packet then Some(assets[|assets| - 1])
    else
      var before := FindLast(assets[..|assets| - 1], packet);
      assert assets == assets[..|assets| - 1] + [assets[|assets| - 1]];
      before
  }

  /** Old state where the route survived, a fresh one elsewhere, and always the asset listed last. */
  function Listed<S>(kept: map<nat, Route<S>>, assets: seq<Asset>, start: S): map<nat, Route<S>> {
    map p | p in Packets(assets) ::
      Route(FindLast(assets, p).value.id, if p in kept then kept[p].state else start)
  }

  lemma UnionCount<S>(r: Routes<S>, packets: set<nat>, room: int)
    requires Exclusive(r) && r.tracks.Keys + r.data.Keys <= packets
    requires |r.signalling| + |packets| <= room
    ensures Count(r) <= room
    ensures forall p :: p in packets && p !in r.tracks && p !in r.data ==> Count(r) < room
  {
    var keys := r.tracks.Keys + r.data.Keys;
    assert |keys| == |r.tracks.Keys| + |r.data.Keys|;
    Fewer(keys, packets);
    forall p | p in packets && p !in r.tracks && p !in r.data ensures Count(r) < room {
      Fewer(keys + {p}, packets);
      assert |keys + {p}| == |keys| + 1;
    }
  }

  /** The routes after some of the list: the old ones and those seen, under the asset seen last. */
  ghost predicate Progress<S>(seen: seq<Asset>, kept: map<nat, Route<S>>, start: S, t: map<nat, Route<S>>) {
    && t.Keys == kept.Keys + Packets(seen)
    && forall p :: p in t ==>
         t[p] == Route(if p in Packets(seen) then FindLast(seen, p).value.id else kept[p].asset,
                       if p in kept then kept[p].state else start)
  }

  function With<S>(t: map<nat, Route<S>>, a: Asset, start: S): map<nat, Route<S>> {
    t[a.packet := Route(a.id, if a.packet in t then t[a.packet].state else start)]
  }

  lemma ProgressSnoc<S>(seen: seq<Asset>, kept: map<nat, Route<S>>, start: S, t: map<nat, Route<S>>)
    requires seen != [] && Progress(seen[..|seen| - 1], kept, start, t)
    ensures Progress(seen, kept, start, With(t, seen[|seen| - 1], start))
  {
    PacketsSnoc(seen);
    hide Packets;
  }

  lemma PutExactly<S>(r: Routes<S>, a: Asset, room: int, start: S)
    ensures a.packet in r.tracks || Count(r.(data := r.data - {a.packet})) < room ==>
              PutTrack(r, a, room, start).tracks == With(r.tracks, a, start)
    ensures a.packet in r.data || Count(r.(tracks := r.tracks - {a.packet})) < room ==>
              PutData(r, a, room, start).data == With(r.data, a, start)
  {
    hide Count;
  }

  lemma NothingSeen<S>(kept: map<nat, Route<S>>, start: S)
    ensures Progress([], kept, start, kept)
  {}

  lemma RoomForOne<S>(r: Routes<S>, p: nat, packets: set<nat>, room: int)
    requires Exclusive(r) && r.tracks.Keys + r.data.Keys <= packets && p in packets
    requires |r.signalling| + |packets| <= room
    ensures p in r.tracks || Count(r.(data := r.data - {p})) < room
    ensures p in r.data || Count(r.(tracks := r.tracks - {p})) < room
  {
    UnionCount(r.(data := r.data - {p}), packets, room);
    UnionCount(r.(tracks := r.tracks - {p}), packets, room);
    hide Count;
  }

  lemma {:induction false} TracksExact<S>(r: Routes<S>, assets: seq<Asset>, packets: set<nat>, room: int, start: S)
    requires Exclusive(r) && r.tracks.Keys + r.data.Keys <= packets && Packets(assets) <= packets
    requires |r.signalling| + |packets| <= room
    ensures (var t := PutTracks(r, assets, room, start);
             Exclusive(t) && Progress(assets, r.tracks, start, t.tracks))
    decreases |assets|
  {
    hide Progress;
    hide Count;
    hide With;
    hide PutTrack;
    TracksPut(r, assets, room, start);
    if assets == [] {
      NothingSeen(r.tracks, start);
    } else {
      var before, a := assets[..|assets| - 1], assets[|assets| - 1];
      PacketsSnoc(assets);
      hide Packets;
      TracksExact(r, before, packets, room, start);
      TracksPut(r, before, room, start);
      var t := PutTracks(r, before, room, start);
      RoomForOne(t, a.packet, packets, room);
      PutExactly(t, a, room, start);
      PutTrackStep(t, a, room, start);
      ProgressSnoc(assets, r.tracks, start, t.tracks);
    }
  }

  lemma {:induction false} DataExact<S>(r: Routes<S>, assets: seq<Asset>, packets: set<nat>, room: int, start: S)
    requires Exclusive(r) && r.tracks.Keys + r.data.Keys <= packets && Packets(assets) <= packets
    requires |r.signalling| + |packets| <= room
    ensures (var t := PutAllData(r, assets, room, start);
             Exclusive(t) && Progress(assets, r.data, start, t.data))
    decreases |assets|
  {
    hide Progress;
    hide Count;
    hide With;
    hide PutData;
    DataPut(r, assets, room, start);
    if assets == [] {
      NothingSeen(r.data, start);
    } else {
      var before, a := assets[..|assets| - 1], assets[|assets| - 1];
      PacketsSnoc(assets);
      hide Packets;
      DataExact(r, before, packets, room, start);
      DataPut(r, before, room, start);
      var t := PutAllData(r, before, room, start);
      RoomForOne(t, a.packet, packets, room);
      PutExactly(t, a, room, start);
      PutDataStep(t, a, room, start);
      ProgressSnoc(assets, r.data, start, t.data);
    }
  }

  lemma ListedIsProgress<S>(kept: map<nat, Route<S>>, assets: seq<Asset>, start: S, t: map<nat, Route<S>>)
    requires Progress(assets, kept, start, t) && kept.Keys <= Packets(assets)
    ensures t == Listed(kept, assets, start)
  {
    hide FindLast;
    hide Packets;
    assert kept.Keys + Packets(assets) == Packets(assets);
  }

  /** When the budget has room for every packet listed, each is routed, once, under the asset listed last; a route whose
      asset was already routed keeps its state, every other starts fresh; a packet listed as both is a data asset. */
  lemma CommitExact<S>(r: Routes<S>, mpt: Mpt, room: int, start: S)
    requires Exclusive(r)
    requires |r.signalling| + |Packets(mpt.tracks) + Packets(mpt.data)| <= room
    ensures (var t := Commit(r, mpt, room, start);
             && t.data == Listed(Survivors(r.data, mpt.data) - Packets(mpt.tracks), mpt.data, start)
             && t.tracks == Listed(Survivors(r.tracks, mpt.tracks), mpt.tracks, start) - Packets(mpt.data))
  {
    hide Packets;
    hide FindLast;
    hide Listed;
    hide Survivors;
    var packets := Packets(mpt.tracks) + Packets(mpt.data);
    var swept := Swept(r, mpt);
    SurvivorsListed(r.tracks, mpt.tracks);
    SurvivorsListed(r.data, mpt.data);
    TracksExact(swept, mpt.tracks, packets, room, start);
    TracksPut(swept, mpt.tracks, room, start);
    var t := PutTracks(swept, mpt.tracks, room, start);
    ListedIsProgress(swept.tracks, mpt.tracks, start, t.tracks);
    DataExact(t, mpt.data, packets, room, start);
    DataPut(t, mpt.data, room, start);
    ListedIsProgress(t.data, mpt.data, start, PutAllData(t, mpt.data, room, start).data);
  }

  // ----- the same, packet by packet

  predicate FirstAt(assets: seq<Asset>, packet: nat, i: nat) {
    i < |assets| && assets[i].packet == packet && forall j :: 0 <= j < i ==> assets[j].packet != packet
  }

  predicate LastAt(assets: seq<Asset>, packet: nat, i: nat) {
    i < |assets| && assets[i].packet == packet && forall j :: i < j < |assets| ==> assets[j].packet != packet
  }

  lemma {:induction false} FindIsFirst(assets: seq<Asset>, packet: nat, i: nat)
    requires FirstAt(assets, packet, i)
    ensures Find(assets, packet) == Some(assets[i])
    decreases |assets|
  {
    if i > 0 {
      assert assets[0].packet != packet;
      FindIsFirst(assets[1..], packet, i - 1);
    }
  }

  lemma {:induction false} FindLastIsLast(assets: seq<Asset>, packet: nat, i: nat)
    requires LastAt(assets, packet, i)
    ensures FindLast(assets, packet) == Some(assets[i])
    decreases |assets|
  {
    if i < |assets| - 1 { FindLastIsLast(assets[..|assets| - 1], packet, i); }
  }

  /** A commit with room for all: a packet is routed as data exactly when it is listed as data, and as a track exactly
      when it is listed only as that; under the asset listed last for it, with the state it had when the asset listed
      first for it is the one it was routed under, and with a fresh one otherwise. */
  lemma CommitByPacket<S>(r: Routes<S>, mpt: Mpt, room: int, start: S, packet: nat, first: nat, last: nat)
    requires Exclusive(r) && |r.signalling| + |Packets(mpt.tracks) + Packets(mpt.data)| <= room
    ensures (var t := Commit(r, mpt, room, start);
             && (packet in t.data <==> exists a :: a in mpt.data && a.packet == packet)
             && (packet in t.tracks <==> packet !in t.data && exists a :: a in mpt.tracks && a.packet == packet)
             && (FirstAt(mpt.data, packet, first) && LastAt(mpt.data, packet, last) ==>
                   t.data[packet] == Route(mpt.data[last].id,
                                           if packet in r.data && r.data[packet].asset == mpt.data[first].id
                                               && packet !in Packets(mpt.tracks)
                                           then r.data[packet].state else start))
             && (FirstAt(mpt.tracks, packet, first) && LastAt(mpt.tracks, packet, last) && packet in t.tracks ==>
                   t.tracks[packet] == Route(mpt.tracks[last].id,
                                             if packet in r.tracks && r.tracks[packet].asset == mpt.tracks[first].id
                                             then r.tracks[packet].state else start)))
  {
    hide Commit;
    CommitExact(r, mpt, room, start);
    if FirstAt(mpt.data, packet, first) { FindIsFirst(mpt.data, packet, first); }
    if LastAt(mpt.data, packet, last) { FindLastIsLast(mpt.data, packet, last); }
    if FirstAt(mpt.tracks, packet, first) { FindIsFirst(mpt.tracks, packet, first); }
    if LastAt(mpt.tracks, packet, last) { FindLastIsLast(mpt.tracks, packet, last); }
    hide Find;
    hide FindLast;
  }

  // ----- and without room for all

  lemma PutGrows<S>(r: Routes<S>, a: Asset, room: int, start: S)
    requires Exclusive(r) && Count(r) <= room
    ensures (var t := PutTrack(r, a, room, start);
             Exclusive(t) && Count(r) <= Count(t) <= room && (a.packet in t.tracks || Count(t) == room))
    ensures (var t := PutData(r, a, room, start);
             Exclusive(t) && Count(r) <= Count(t) <= room && (a.packet in t.data || Count(t) == room))
  {
    RemoveCounts(r.data, a.packet);
    RemoveCounts(r.tracks, a.packet);
    if a.packet in r.tracks { AddCounts(r.tracks, a.packet, r.tracks[a.packet].(asset := a.id)); }
    if a.packet in r.data { AddCounts(r.data, a.packet, r.data[a.packet].(asset := a.id)); }
    AddCounts(r.tracks, a.packet, Route(a.id, start));
    AddCounts(r.data, a.packet, Route(a.id, start));
  }

  lemma {:induction false} TracksFull<S>(r: Routes<S>, assets: seq<Asset>, room: int, start: S)
    requires Exclusive(r) && Count(r) <= room
    ensures (var t := PutTracks(r, assets, room, start);
             && Exclusive(t) && Count(r) <= Count(t) <= room
             && (Count(t) < room ==> Packets(assets) <= t.tracks.Keys))
    decreases |assets|
  {
    hide Count;
    hide PutTrack;
    if assets != [] {
      var before, a := assets[..|assets| - 1], assets[|assets| - 1];
      TracksFull(r, before, room, start);
      PacketsSnoc(assets);
      var t := PutTracks(r, before, room, start);
      PutGrows(t, a, room, start);
      PutTrackStep(t, a, room, start);
    }
  }

  lemma {:induction false} DataFull<S>(r: Routes<S>, assets: seq<Asset>, room: int, start: S)
    requires Exclusive(r) && Count(r) <= room
    ensures (var t := PutAllData(r, assets, room, start);
             && Exclusive(t) && Count(r) <= Count(t) <= room
             && (Count(t) < room ==> Packets(assets) <= t.data.Keys))
    decreases |assets|
  {
    hide Count;
    hide PutData;
    if assets != [] {
      var before, a := assets[..|assets| - 1], assets[|assets| - 1];
      DataFull(r, before, room, start);
      PacketsSnoc(assets);
      var t := PutAllData(r, before, room, start);
      PutGrows(t, a, room, start);
      PutDataStep(t, a, room, start);
    }
  }

  /** With any room, a packet that is listed stays without a route only when the room is used up to the last state. */
  lemma LeftOutOnlyWhenFull<S>(r: Routes<S>, mpt: Mpt, room: int, start: S, packet: nat)
    requires Exclusive(r) && Count(r) <= room
    requires packet in Packets(mpt.tracks) + Packets(mpt.data)
    ensures (var t := Commit(r, mpt, room, start);
             packet in t.tracks || packet in t.data || |t.signalling| + |t.tracks| + |t.data| == room)
  {
    hide Survivors;
    hide Packets;
    SweptWithin(r, mpt);
    SurvivorsListed(r.tracks, mpt.tracks);
    SurvivorsListed(r.data, mpt.data);
    var swept := Swept(r, mpt);
    TracksFull(swept, mpt.tracks, room, start);
    var t := PutTracks(swept, mpt.tracks, room, start);
    DataFull(t, mpt.data, room, start);
    DataPut(t, mpt.data, room, start);
    hide PutTracks;
    hide PutAllData;
  }
}
