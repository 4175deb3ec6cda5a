/** The media parser: reassembly of MFUs in place, data assets, and an HEVC track with its fields. */
module MediaParser {
  import opened Bytes
  import Fragments
  import Hevc
  import Timing
  import TrackModel

  /** Append to the unit being collected, or give the unit up when it would exceed the limit. */
  method AppendMedia(limit: nat, assembler: Fragments.Assembly, payload: seq<byte>)
    returns (a: Fragments.Assembly, ok: bool)
    ensures ok == (|assembler.data| + |payload| <= limit)
    ensures a == if ok then assembler.(data := assembler.data + payload)
                 else assembler.(data := [], phase := Fragments.Skipping)
  {
    a := assembler;
    if |a.data| > limit || |payload| > limit - |a.data| {
      a := a.(data := [], phase := Fragments.Skipping);
      return a, false;
    }
    a := a.(data := a.data + payload);
    return a, true;
  }

  /** One piece, as both the data-asset and the media path take it. */
  method Reassemble(limit: nat, assembler: Fragments.Assembly, p: Fragments.Piece)
    returns (a: Fragments.Assembly, unit: Option<Fragments.Unit>, damaged: bool)
    ensures Fragments.Outcome(a, unit, damaged) == Fragments.Accept(limit, assembler, p)
  {
    a, unit, damaged := assembler, None, false;
    if a.phase != Fragments.Initial && p.sequence != Fragments.NextSequence(a.last) &&
       !(p.aggregated && p.fragmentation == 0 && p.sequence == a.last) {
      if p.sequence == a.last { return; }  // duplicate packet
      a := a.(data := [], phase := Fragments.Skipping);
      damaged := true;
    }
    a := a.(last := p.sequence);
    var ok;
    if p.fragmentation == 0 {
      if a.phase == Fragments.Collecting { damaged := true; }
      a := a.(data := [], phase := Fragments.Idle);
      unit := Some(Fragments.Unit(p.mpu, p.key, p.payload, p.head));
    } else if p.fragmentation == 1 {
      a := a.(data := [], phase := Fragments.Collecting, mpu := p.mpu, key := p.key, head := p.head);
      a, ok := AppendMedia(limit, a, p.payload);
      damaged := damaged || !ok;
    } else if p.fragmentation == 2 {
      if a.phase == Fragments.Skipping { return; }
      if a.phase != Fragments.Collecting || a.mpu != p.mpu || a.key != p.key {
        a := a.(data := [], phase := Fragments.Skipping);
        damaged := true;
        return;
      }
      a := a.(head := Fragments.Merge(a.head, p));
      a, ok := AppendMedia(limit, a, p.payload);
      damaged := damaged || !ok;
    } else {
      if a.phase == Fragments.Skipping {
        a := a.(data := [], phase := Fragments.Idle);
        return;
      }
      if a.phase != Fragments.Collecting || a.mpu != p.mpu || a.key != p.key {
        a := a.(data := [], phase := Fragments.Idle);
        damaged := true;
        return;
      }
      a := a.(head := Fragments.Merge(a.head, p));
      a, ok := AppendMedia(limit, a, p.payload);
      if ok { unit := Some(Fragments.Unit(a.mpu, a.key, a.data, a.head)); }
      damaged := damaged || !ok;
      a := a.(data := [], phase := Fragments.Idle);
    }
  }

  datatype DataUnit = DataUnit(mpu: nat, item: nat, data: seq<byte>, inputOffset: nat, extensions: Fragments.Extensions,
                               discontinuity: bool)

  class DataAsset {
    const limit: nat
    var media: Fragments.Assembly
    var discontinuity: bool

    constructor (limit: nat)
      ensures media == TrackModel.NEW_ASSEMBLY && !discontinuity && this.limit == limit
    {
      this.limit := limit;
      media, discontinuity := TrackModel.NEW_ASSEMBLY, false;
    }

    /** A data unit carries, and clears, the damage noted since the last one. */
    method ConsumeDataPiece(sequence: Fragments.Sequence, mpu: nat, fragmentation: Fragments.Fragmentation,
                            aggregated: bool, data: seq<byte>, inputOffset: nat, extensions: Fragments.Extensions)
      returns (out: Option<DataUnit>)
      modifies this
      ensures (match Fragments.ParseHeader(false, data)
               case None => out == None && media == old(media) && discontinuity
               case Some((item, payload)) =>
                 var head := Fragments.Head(inputOffset, 0, false, extensions);
                 var o := Fragments.Accept(limit, old(media),
                            Fragments.Piece(sequence, mpu, item, fragmentation, aggregated, payload, head));
                 && media == o.next
                 && match o.unit
                    case None => out == None && discontinuity == (old(discontinuity) || o.damaged)
                    case Some(u) =>
                      && out == Some(DataUnit(u.mpu, u.key, u.payload, u.head.inputOffset, u.head.extensions,
                                              old(discontinuity) || o.damaged))
                      && !discontinuity)
    {
      if |data| < 4 {
        discontinuity := true;
        return None;
      }
      var head := Fragments.Head(inputOffset, 0, false, extensions);
      var piece := Fragments.Piece(sequence, mpu, Be32(data[..4]), fragmentation, aggregated, data[4..], head);
      var a, unit, damaged := Reassemble(limit, media, piece);
      media := a;
      discontinuity := discontinuity || damaged;
      if unit.None? { return None; }
      var u := unit.value;
      out := Some(DataUnit(u.mpu, u.key, u.payload, u.head.inputOffset, u.head.extensions, discontinuity));
      discontinuity := false;
    }
  }

  /** The access unit being assembled. */
  datatype PendingHevc = PendingHevc(active: bool, mpu: nat, sample: nat, inputOffset: nat, restartOffset: nat,
                                     randomAccess: bool, hasVcl: bool, data: seq<byte>)

  const NO_PENDING := PendingHevc(false, 0, 0, 0, 0, false, false, [])

  /** The fields say of the items what the source's struct keeps of them. */
  predicate Represents(p: PendingHevc, items: seq<Hevc.Item>) {
    && p.active == (items != [])
    && (p.active ==>
          var first := items[0];
          && p.mpu == first.mpu && p.sample == first.sample
          && p.inputOffset == first.inputOffset && p.restartOffset == first.restartOffset)
    && p.randomAccess == Hevc.HasRap(items)
    && p.hasVcl == Hevc.HasVcl(items)
    && p.data == Hevc.AnnexB(items)
  }

  function Opened(p: PendingHevc, item: Hevc.Item): PendingHevc {
    if p.active then p
    else p.(active := true, mpu := item.mpu, sample := item.sample, inputOffset := item.inputOffset,
            restartOffset := item.restartOffset)
  }

  function WithNal(p: PendingHevc, item: Hevc.Item): PendingHevc {
    p.(randomAccess := p.randomAccess || item.randomAccess || Hevc.IsIrap(item.nal),
       hasVcl := p.hasVcl || Hevc.IsVcl(item.nal),
       data := p.data + [0, 0, 1] + item.nal)
  }

  lemma PendingFacts(p: PendingHevc, items: seq<Hevc.Item>)
    requires Represents(p, items)
    ensures p.active == (items != []) && p.hasVcl == Hevc.HasVcl(items) && p.data == Hevc.AnnexB(items)
    ensures p.active ==> p.sample == items[0].sample
  {
  }

  lemma RepresentsSnoc(p: PendingHevc, items: seq<Hevc.Item>, item: Hevc.Item)
    requires Represents(p, items)
    ensures Represents(WithNal(Opened(p, item), item), items + [item])
  {
    Hevc.AnnexBSnoc(items, item);
    assert items != [] ==> (items + [item])[0] == items[0];
  }

  /** The gaps before an access unit, summed one by one. */
  method GapsBefore(gaps: seq<nat>, auIndex: nat) returns (ptsOffset: nat)
    requires auIndex <= |gaps|
    ensures ptsOffset == Timing.Sum(gaps[..auIndex])
  {
    ptsOffset := 0;
    assert gaps[..0] == [];
    for index := 0 to auIndex
      invariant ptsOffset == Timing.Sum(gaps[..index])
    {
      assert gaps[..index + 1][..index] == gaps[..index];
      ptsOffset := ptsOffset + gaps[index];
    }
  }

  /** The times of one access unit by the recurrence of its descriptor's type. */
  method AccessUnitTimes(e: Timing.Extended, auIndex: nat) returns (dtsOffset: int, ptsOffset: int)
    requires Timing.Covers(e, auIndex)
    ensures (dtsOffset, ptsOffset) == Timing.Times(e, auIndex) && Timing.AreTimes(e, auIndex, dtsOffset, ptsOffset)
  {
    if e.offsetType == 2 {
      ptsOffset := GapsBefore(e.ptsGaps, auIndex);
      dtsOffset := if auIndex == 0 then 0 - e.decodingTimeOffset else ptsOffset - e.dtsPts[auIndex];
    } else {
      dtsOffset := auIndex * e.ptsGaps[0] - e.decodingTimeOffset;
      ptsOffset := dtsOffset + e.dtsPts[auIndex];
    }
  }

  /** Watch the leap indicator once per MPU and fold its transitions into the correction. */
  method WatchLeap(clock: Timing.Clock, mpu: nat, e: Timing.Extended) returns (c: Timing.Clock)
    ensures c == Timing.Examine(clock, mpu, e)
  {
    c := clock;
    if c.examined != Some(mpu) {
      if c.previousLeap == 1 && e.leap == 0 {
        c := c.(leapOffset := c.leapOffset + UINT32);
      } else if c.previousLeap == 2 && e.leap == 0 {
        c := c.(leapOffset := c.leapOffset - UINT32);
      }
      c := c.(previousLeap := e.leap, examined := Some(mpu));
    }
  }

  method StampUnit(clock: Timing.Clock, mpu: nat, sample: nat, timestamp: Option<Timing.Mapping>,
                   descriptor: Option<Timing.Extended>, restartOffset: nat)
    returns (c: Timing.Clock, stamp: Option<Timing.Stamp>)
    ensures (var s := Timing.Emit(clock, mpu, sample, timestamp, descriptor, restartOffset, None);
             c == s.next && stamp == s.stamp)
  {
    c := clock;
    var auIndex;
    if sample != 0 {
      auIndex := sample - 1;
      if c.auIndex <= auIndex { c := c.(auIndex := auIndex + 1); }
    } else {
      auIndex := c.auIndex;
      c := c.(auIndex := c.auIndex + 1);
    }
    if timestamp.None? || descriptor.None? { return c, None; }
    var e := descriptor.value;
    if auIndex >= |e.dtsPts| || auIndex >= |e.ptsGaps| { return c, None; }
    var dtsOffset, ptsOffset := AccessUnitTimes(e, auIndex);
    if e.offsetType != 2 {
      if c.lastDts.Some? && dtsOffset < c.lastDts.value { return c, None; }
      c := c.(lastDts := Some(dtsOffset));
    }
    c := WatchLeap(c, mpu, e);
    var outputRestartOffset := Min(restartOffset, Min(timestamp.value.restart, e.restart));
    stamp := Some(Timing.Stamp(ptsOffset, dtsOffset, (timestamp.value.ntp + c.leapOffset) % UINT64,
                               outputRestartOffset));
  }

  /** Erase lowest keys until the table fits. */
  method EvictTable<T>(table: map<nat, T>) returns (m: map<nat, T>)
    ensures m == TrackModel.Evict(table)
  {
    m := table;
    while |m| > TrackModel.MAX_TIMESTAMPS
      invariant TrackModel.Evict(m) == TrackModel.Evict(table)
      decreases m.Keys
    {
      var least := TrackModel.Least(m.Keys);
      assert (m - {least}).Keys == m.Keys - {least};
      m := m - {least};
    }
  }

  /** An HEVC track. */
  class HevcTrack {
    const limit: nat
    var media: Fragments.Assembly
    var pending: PendingHevc
    ghost var pendingItems: seq<Hevc.Item>
    var skippingPicture: bool
    var waitForRap: bool
    var clock: Timing.Clock
    var mappings: map<nat, Timing.Mapping>
    var extended: map<nat, Timing.Extended>
    var restartOffset: nat
    var currentMpu: Option<nat>
    var discontinuity: bool
    /** Everything handed to the access-unit callback. */
    ghost var handed: seq<TrackModel.AccessUnit>

    ghost predicate Valid() reads this { Represents(pending, pendingItems) }

    ghost function View(): TrackModel.Track
      reads this
    {
      TrackModel.Track(media, Hevc.State(pendingItems, skippingPicture, waitForRap), clock, mappings, extended,
                       restartOffset, currentMpu, discontinuity)
    }

    /** The object is where `r` says and has handed on what `r` says since `before`. */
    ghost predicate Reached(r: TrackModel.Result, before: seq<TrackModel.AccessUnit>)
      reads this
    {
      Valid() && View() == r.track && handed == before + r.units
    }

    constructor (limit: nat, inputOffset: nat)
      ensures Valid() && View() == TrackModel.NewTrack(inputOffset) && handed == [] && this.limit == limit
    {
      this.limit := limit;
      media, pending, pendingItems, skippingPicture, waitForRap := TrackModel.NEW_ASSEMBLY, NO_PENDING, [], false, true;
      clock, mappings, extended := Timing.NEW_CLOCK, map[], map[];
      restartOffset, currentMpu, discontinuity, handed := inputOffset, None, false, [];
    }

    method ClearPending()
      modifies `pending, `pendingItems
      ensures Valid() && pendingItems == []
    {
      pending, pendingItems := NO_PENDING, [];
    }

    /** Stamp and hand on what `p` holds. */
    method EmitAccessUnit(p: PendingHevc, ghost items: seq<Hevc.Item>)
      requires p.active && Represents(p, items)
      modifies `clock, `discontinuity, `handed
      ensures (var r := TrackModel.HandOn(old(View()), items);
               View() == r.track && handed == old(handed) + r.units)
    {
      var timestamp := if p.mpu in mappings then Some(mappings[p.mpu]) else None;
      var descriptor := if p.mpu in extended then Some(extended[p.mpu]) else None;
      var c, stamp := StampUnit(clock, p.mpu, p.sample, timestamp, descriptor, p.restartOffset);
      clock := c;
      if stamp.None? {
        discontinuity := true;
        return;
      }
      var unit := TrackModel.AccessUnit(p.mpu, p.data, p.randomAccess, p.inputOffset, stamp.value, discontinuity);
      handed := handed + [unit];
      discontinuity := false;
    }

    method FinalizeHevc()
      requires Valid()
      modifies `pending, `pendingItems, `waitForRap, `clock, `discontinuity, `handed
      ensures Reached(TrackModel.FinalizeHevc(old(View())), old(handed))
    {
      if !pending.active { return; }
      if pending.hasVcl {
        if waitForRap && !pending.randomAccess {
          ClearPending();
          return;
        }
        if pending.randomAccess { waitForRap := false; }
        EmitAccessUnit(pending, pendingItems);
      } else {
        discontinuity := true;
      }
      ClearPending();
    }

    /** One complete MFU: a length-prefixed NAL unit that starts, joins or ends an access unit. */
    method ConsumeCompleteMfu(u: Fragments.Unit, timed: bool)
      requires Valid()
      modifies this
      ensures Reached(TrackModel.ConsumeUnit(limit, old(View()), u, timed), old(handed))
    {
      var d := u.payload;
      if |d| < 4 || Be32(d[..4]) != |d| - 4 || |d| - 4 < 2 {
        discontinuity := true;
        return;
      }
      var item := Hevc.Item(d[4..], u.mpu, if timed then u.key else 0, u.head.randomAccess, u.head.inputOffset,
                            u.head.restartOffset);
      ConsumeNal(item);
    }

    /** Pass over the NALs of a picture being skipped, and start skipping one whose first slice is missing. */
    method DropNal(item: Hevc.Item) returns (dropped: bool)
      requires Valid()
      modifies this
      ensures Valid() && handed == old(handed)
      ensures (var t := old(View());
               if t.hevc.skipping && !Hevc.StartsAccessUnit(item.nal) then dropped && View() == t
               else if Hevc.IsVcl(item.nal) && !Hevc.FirstSlice(item.nal) && !Hevc.HasVcl(t.hevc.items) then
                 dropped && View() == TrackModel.Damage(t.(hevc := t.hevc.(items := [], skipping := true)), true)
               else !dropped && View() == TrackModel.Unskipped(t))
    {
      PendingFacts(pending, pendingItems);
      var isVcl, firstSlice, nalType := Hevc.IsVcl(item.nal), Hevc.FirstSlice(item.nal), Hevc.NalType(item.nal);
      if skippingPicture {
        if !(nalType == 35 || firstSlice || nalType == 32 || nalType == 33 || nalType == 34 || nalType == 39) {
          return true;
        }
        skippingPicture := false;
      }
      if isVcl && !firstSlice && !pending.hasVcl {
        // The middle of a picture is no random-access point, whatever its flags say.
        ClearPending();
        skippingPicture := true;
        discontinuity := true;
        return true;
      }
      return false;
    }

    /** Whether a NAL closes the access unit in progress. */
    method ClosesPending(item: Hevc.Item) returns (closes: bool)
      requires Valid()
      ensures closes == (pendingItems != [] && Hevc.Begins(pendingItems, item))
    {
      PendingFacts(pending, pendingItems);
      var nalType, firstSlice := Hevc.NalType(item.nal), Hevc.FirstSlice(item.nal);
      var beginsAccessUnit := nalType == 35 || (firstSlice && pending.hasVcl) ||
        ((nalType == 32 || nalType == 33 || nalType == 34 || nalType == 39) && pending.hasVcl) ||
        (item.sample != 0 && pending.active && pending.sample != item.sample);
      closes := pending.active && beginsAccessUnit;
    }

    method ConsumeNal(item: Hevc.Item)
      requires Valid()
      modifies this
      ensures Reached(TrackModel.Absorb(old(View()), Hevc.Feed(limit, old(View()).hevc, item)), old(handed))
    {
      TrackModel.FeedInSteps(limit, View(), item);
      hide Represents;
      hide TrackModel.FinalizeHevc;
      hide TrackModel.AddNal;
      hide TrackModel.Absorb;
      hide Hevc.Feed;
      hide Hevc.Begins;
      hide Hevc.IsVcl;
      hide Hevc.HasVcl;
      var dropped := DropNal(item);
      if dropped { return; }
      var closes := ClosesPending(item);
      if closes { FinalizeHevc(); }
      AddNal(item);
    }

    method AddNal(item: Hevc.Item)
      requires Valid()
      modifies this
      ensures Valid() && handed == old(handed)
      ensures View() == TrackModel.AddNal(limit, old(View()), item)
    {
      RepresentsSnoc(pending, pendingItems, item);
      PendingFacts(pending, pendingItems);
      hide Represents;
      pending := Opened(pending, item);
      if |pending.data| > limit || limit - |pending.data| < |item.nal| + 3 {
        ClearPending();
        discontinuity := true;
        return;
      }
      pending := WithNal(pending, item);
      pendingItems := pendingItems + [item];
    }

    method ConsumeMfuPiece(p: TrackModel.Packet)
      requires Valid()
      modifies this
      ensures Reached(TrackModel.ConsumePiece(limit, old(View()), p), old(handed))
    {
      hide Represents;
      hide TrackModel.ConsumeUnit;
      hide Fragments.Accept;
      var parsed := Fragments.ParseHeader(p.timed, p.body);
      if parsed.None? {
        discontinuity := true;
        return;
      }
      var (key, payload) := parsed.value;
      var head := Fragments.Head(p.inputOffset, restartOffset, p.randomAccess, TrackModel.NO_EXTENSIONS);
      var piece := Fragments.Piece(p.sequence, p.mpu, key, p.fragmentation, p.aggregated, payload, head);
      var a, unit, damaged := Reassemble(limit, media, piece);
      media := a;
      discontinuity := discontinuity || damaged;
      if unit.Some? { ConsumeCompleteMfu(unit.value, p.timed); }
    }

    /** A packet of another MPU. */
    method EnterMpu(mpuSequence: nat)
      requires Valid()
      modifies this
      ensures Reached(TrackModel.EnterMpu(old(View()), mpuSequence), old(handed))
    {
      hide Represents;
      hide TrackModel.FinalizeHevc;
      if currentMpu == Some(mpuSequence) { return; }
      if currentMpu.Some? {
        FinalizeHevc();
        var previous := currentMpu.value;
        if !waitForRap && previous in extended && clock.auIndex != |extended[previous].dtsPts| {
          discontinuity := true;
        }
        if mpuSequence != (previous + 1) % UINT32 { discontinuity := true; }
      }
      currentMpu := Some(mpuSequence);
      clock := clock.(auIndex := 0, lastDts := None, examined := None);
    }

    /** Split an aggregated body into its units. */
    method ConsumeAggregated(p: TrackModel.Packet, whole: seq<byte>)
      requires Valid()
      modifies this
      ensures Reached(TrackModel.ConsumeAll(limit, old(View()), p, whole), old(handed))
    {
      hide Represents;
      hide TrackModel.ConsumePiece;
      ghost var want := TrackModel.ConsumeAll(limit, View(), p, whole);
      ghost var sent: seq<TrackModel.AccessUnit> := [];
      var body := whole;
      assert sent + want.units == want.units && handed + sent == handed;
      while body != []
        invariant Valid() && handed == old(handed) + sent
        invariant var rest := TrackModel.ConsumeAll(limit, View(), p, body);
                  rest.track == want.track && sent + rest.units == want.units
        decreases |body|
      {
        if |body| < 2 {
          discontinuity := true;
          assert sent + [] == sent;
          return;
        }
        var unitSize := Be16(body[0], body[1]);
        if unitSize > |body| - 2 {
          discontinuity := true;
          assert sent + [] == sent;
          return;
        }
        ghost var r := TrackModel.ConsumePiece(limit, View(), p.(body := body[2..2 + unitSize]));
        ghost var rest := TrackModel.ConsumeAll(limit, r.track, p, body[2 + unitSize..]);
        assert sent + (r.units + rest.units) == (sent + r.units) + rest.units;
        assert (old(handed) + sent) + r.units == old(handed) + (sent + r.units);
        ConsumeMfuPiece(p.(body := body[2..2 + unitSize]));
        sent := sent + r.units;
        body := body[2 + unitSize..];
      }
      assert sent + [] == sent;
    }

    method ParseMpu(p: TrackModel.Packet)
      requires Valid()
      modifies this
      ensures Reached(TrackModel.ParseMpu(limit, old(View()), p), old(handed))
    {
      hide Represents;
      hide TrackModel.EnterMpu;
      hide TrackModel.ConsumePiece;
      hide TrackModel.ConsumeAll;
      if p.aggregated && p.fragmentation != 0 {
        discontinuity := true;
        return;
      }
      EnterMpu(p.mpu);
      if p.aggregated {
        ConsumeAggregated(p, p.body);
      } else {
        ConsumeMfuPiece(p);
      }
    }

    method Flush()
      requires Valid()
      modifies this
      ensures Reached(TrackModel.Flush(old(View())), old(handed))
    {
      FinalizeHevc();
      ClearPending();
      media, currentMpu := TrackModel.NEW_ASSEMBLY, None;
      clock := Timing.NEW_CLOCK;
      skippingPicture, waitForRap, discontinuity := false, true, true;
    }

    /** The part of an MPT replacement that keeps this track. */
    method InstallTimestamps(inputOffset: nat, newMappings: map<nat, nat>, newExtended: map<nat, Timing.Extended>)
      requires Valid()
      modifies this
      ensures Reached(TrackModel.Result(TrackModel.Refresh(old(View()), inputOffset, newMappings, newExtended), []),
                      old(handed))
    {
      hide Represents;
      hide TrackModel.Evict;
      restartOffset := inputOffset;
      mappings := mappings + TrackModel.MappingsAt(newMappings, inputOffset);
      extended := extended + TrackModel.ExtendedAt(newExtended, inputOffset);
      mappings := EvictTable(mappings);
      extended := EvictTable(extended);
    }
  }
}
