/** One HEVC track as a whole: packets through fragment reassembly, access-unit assembly and time stamping. */
module TrackModel {
  import opened Bytes
  import Fragments
  import Hevc
  import Timing

  datatype Track = Track(
    media: Fragments.Assembly,
    hevc: Hevc.State,
    clock: Timing.Clock,
    mappings: map<nat, Timing.Mapping>,
    extended: map<nat, Timing.Extended>,
    restart: nat,
    current: Option<nat>,
    discontinuity: bool)

  /** What the callback receives. */
  datatype AccessUnit = AccessUnit(mpu: nat, data: seq<byte>, randomAccess: bool, inputOffset: nat,
                                   stamp: Timing.Stamp, discontinuity: bool)

  datatype Result = Result(track: Track, units: seq<AccessUnit>)

  function Lookup<T>(m: map<nat, T>, k: nat): Option<T> { if k in m then Some(m[k]) else None }

  function Damage(t: Track, damaged: bool): Track { t.(discontinuity := t.discontinuity || damaged) }

  /** Stamp a finished access unit and hand it on, or drop it when its MPU has no time stamps. */
  function HandOn(t: Track, items: seq<Hevc.Item>): Result
    requires items != []
  {
    var first := items[0];
    var s := Timing.Emit(t.clock, first.mpu, first.sample, Lookup(t.mappings, first.mpu), Lookup(t.extended, first.mpu),
                         first.restartOffset, None);
    if s.stamp.None? then Result(t.(clock := s.next, discontinuity := true), [])
    else Result(t.(clock := s.next, discontinuity := false),
                [AccessUnit(first.mpu, Hevc.AnnexB(items), Hevc.HasRap(items), first.inputOffset, s.stamp.value,
                            t.discontinuity)])
  }

  /** Carry out what the access-unit assembler decided: a closed unit is handed on before any damage is noted. */
  function Absorb(t: Track, o: Hevc.Outcome): Result {
    var r := if o.unit.Some? && o.unit.value != [] then HandOn(t, o.unit.value) else Result(t, []);
    Result(Damage(r.track, o.damaged).(hevc := o.next), r.units)
  }

  function FinalizeHevc(t: Track): Result { Absorb(t, Hevc.Finalize(t.hevc)) }

  /** Put one NAL behind what waits. */
  function AddNal(limit: nat, t: Track, i: Hevc.Item): Track {
    var o := Hevc.Add(limit, Hevc.Outcome(t.hevc, None, false), i);
    Damage(t, o.damaged).(hevc := o.next)
  }

  function Unskipped(t: Track): Track { t.(hevc := t.hevc.(skipping := false)) }

  /** Taking in a NAL, step by step: skip it, drop the torn picture it continues, or close what waits and add it. */
  lemma FeedInSteps(limit: nat, t: Track, i: Hevc.Item)
    ensures Absorb(t, Hevc.Feed(limit, t.hevc, i)) ==
      if t.hevc.skipping && !Hevc.StartsAccessUnit(i.nal) then Result(t, [])
      else if Hevc.IsVcl(i.nal) && !Hevc.FirstSlice(i.nal) && !Hevc.HasVcl(t.hevc.items) then
        Result(Damage(t.(hevc := t.hevc.(items := [], skipping := true)), true), [])
      else
        var u := Unskipped(t);
        var r := if t.hevc.items != [] && Hevc.Begins(t.hevc.items, i) then FinalizeHevc(u) else Result(u, []);
        Result(AddNal(limit, r.track, i), r.units)
  {
    hide Hevc.IsVcl;
    hide Hevc.FirstSlice;
    hide Hevc.HasVcl;
    hide Hevc.StartsAccessUnit;
    hide Hevc.Begins;
    hide Hevc.Add;
    hide HandOn;
    var u := Unskipped(t);
    var closed := if Hevc.Begins(t.hevc.items, i) then Hevc.Finalize(u.hevc) else Hevc.Outcome(u.hevc, None, false);
    AbsorbUnskipped(t, Hevc.Add(limit, closed, i));
    AbsorbAdd(limit, u, closed, i);
  }

  lemma AbsorbUnskipped(t: Track, o: Hevc.Outcome)
    ensures Absorb(t, o) == Absorb(Unskipped(t), o)
  {
    hide Timing.Emit;
  }

  lemma AbsorbAdd(limit: nat, t: Track, closed: Hevc.Outcome, i: Hevc.Item)
    ensures (var r := Absorb(t, closed);
             Absorb(t, Hevc.Add(limit, closed, i)) == Result(AddNal(limit, r.track, i), r.units))
  {
    hide HandOn;
  }

  function ItemOf(u: Fragments.Unit, timed: bool): Hevc.Item
    requires |u.payload| >= 6
  {
    Hevc.Item(u.payload[4..], u.mpu, if timed then u.key else 0, u.head.randomAccess, u.head.inputOffset,
              u.head.restartOffset)
  }

  /** A complete MFU must be one length-prefixed NAL unit. */
  function ConsumeUnit(limit: nat, t: Track, u: Fragments.Unit, timed: bool): Result {
    var d := u.payload;
    if |d| < 4 || Be32(d[..4]) != |d| - 4 || |d| - 4 < 2 then Result(Damage(t, true), [])
    else Absorb(t, Hevc.Feed(limit, t.hevc, ItemOf(u, timed)))
  }

  const NO_EXTENSIONS := Fragments.Extensions(None, None, None)

  datatype Packet = Packet(sequence: Fragments.Sequence, mpu: nat, timed: bool, fragmentation: Fragments.Fragmentation,
                           aggregated: bool, randomAccess: bool, inputOffset: nat, body: seq<byte>)

  function PieceOf(t: Track, p: Packet, key: nat, payload: seq<byte>): Fragments.Piece {
    Fragments.Piece(p.sequence, p.mpu, key, p.fragmentation, p.aggregated, payload,
                    Fragments.Head(p.inputOffset, t.restart, p.randomAccess, NO_EXTENSIONS))
  }

  function ConsumePiece(limit: nat, t: Track, p: Packet): Result {
    match Fragments.ParseHeader(p.timed, p.body)
    case None => Result(Damage(t, true), [])
    case Some((key, payload)) =>
      var o := Fragments.Accept(limit, t.media, PieceOf(t, p, key, payload));
      var next := Damage(t.(media := o.next), o.damaged);
      if o.unit.None? then Result(next, []) else ConsumeUnit(limit, next, o.unit.value, p.timed)
  }

  function Append(r: Result, later: Result): Result { Result(later.track, r.units + later.units) }

  /** The units of an aggregated body, one after another, until it ends or a length is wrong. */
  function ConsumeAll(limit: nat, t: Track, p: Packet, body: seq<byte>): Result
    decreases |body|
  {
    if body == [] then Result(t, [])
    else if |body| < 2 || Be16(body[0], body[1]) > |body| - 2 then Result(Damage(t, true), [])
    else
      var n := 2 + Be16(body[0], body[1]);
      var r := ConsumePiece(limit, t, p.(body := body[2..n]));
      Append(r, ConsumeAll(limit, r.track, p, body[n..]))
  }

  /** A packet of another MPU closes the access unit in progress and starts the time stamps over. */
  function EnterMpu(t: Track, mpu: nat): Result {
    if t.current == Some(mpu) then Result(t, [])
    else
      var r := if t.current.None? then Result(t, []) else FinalizeHevc(t);
      var u := r.track;
      var lost := t.current.Some? && (CountDisagrees(u, t.current.value) || mpu != (t.current.value + 1) % UINT32);
      Result(Damage(u, lost).(current := Some(mpu), clock := Timing.StartMpu(u.clock)), r.units)
  }

  predicate CountDisagrees(t: Track, mpu: nat) {
    !t.hevc.waitForRap && mpu in t.extended && t.clock.auIndex != |t.extended[mpu].dtsPts|
  }

  function ParseMpu(limit: nat, t: Track, p: Packet): Result {
    if p.aggregated && p.fragmentation != 0 then Result(Damage(t, true), [])
    else
      var r := EnterMpu(t, p.mpu);
      Append(r, if p.aggregated then ConsumeAll(limit, r.track, p, p.body) else ConsumePiece(limit, r.track, p))
  }

  // ----- aggregated packets and the change of MPU

  /** Units on the wire in an aggregated packet, each behind its length. */
  function Framed(parts: seq<seq<byte>>): seq<byte>
    requires forall part :: part in parts ==> |part| < 0x1_0000
  {
    Flatten(seq(|parts|, i requires 0 <= i < |parts| => (assert parts[i] in parts; Wire16(|parts[i]|) + parts[i])))
  }

  function InTurn(limit: nat, t: Track, p: Packet, parts: seq<seq<byte>>): Result
    decreases |parts|
  {
    if parts == [] then Result(t, [])
    else
      var r := ConsumePiece(limit, t, p.(body := parts[0]));
      Append(r, InTurn(limit, r.track, p, parts[1..]))
  }

  /** The length that begins here is cut off, or reaches past the end. */
  predicate BadLength(s: seq<byte>) { |s| == 1 || (|s| >= 2 && s[0] * 256 + s[1] > |s| - 2) }

  /** An aggregated packet is its units taken in one after another, and damage is noted when it ends in a bad length. */
  lemma {:induction false} AggregatedInTurn(limit: nat, t: Track, p: Packet, parts: seq<seq<byte>>, tail: seq<byte>)
    requires (forall part :: part in parts ==> |part| < 0x1_0000) && (tail == [] || BadLength(tail))
    ensures (var r := InTurn(limit, t, p, parts);
             ConsumeAll(limit, t, p, Framed(parts) + tail)
             == Result(r.track.(discontinuity := r.track.discontinuity || tail != []), r.units))
    decreases |parts|
  {
    hide ConsumePiece;
    if parts == [] {
      assert Framed(parts) + tail == tail;
    } else {
      var first, rest := parts[0], parts[1..];
      assert first in parts && forall part :: part in rest ==> part in parts;
      var all := Framed(parts) + tail;
      FramedCons(parts);
      var n := 2 + |first|;
      assert all == Wire16(|first|) + first + (Framed(rest) + tail);
      assert all[0] == Wire16(|first|)[0] && all[1] == Wire16(|first|)[1];
      assert all[2..n] == first && all[n..] == Framed(rest) + tail;
      AggregatedInTurn(limit, ConsumePiece(limit, t, p.(body := first)).track, p, rest, tail);
    }
  }

  lemma FramedCons(parts: seq<seq<byte>>)
    requires parts != [] && forall part :: part in parts ==> |part| < 0x1_0000
    ensures parts[0] in parts && forall part :: part in parts[1..] ==> |part| < 0x1_0000
    ensures Framed(parts) == Wire16(|parts[0]|) + parts[0] + Framed(parts[1..])
  {
    assert forall part :: part in parts[1..] ==> part in parts;
    var all := seq(|parts|, i requires 0 <= i < |parts| => (assert parts[i] in parts; Wire16(|parts[i]|) + parts[i]));
    var rest := parts[1..];
    assert all[1..]
        == seq(|rest|, i requires 0 <= i < |rest| => (assert rest[i] in parts; Wire16(|rest[i]|) + rest[i]));
  }

  /** The change of MPU hands on what waits and starts the places over; damage is noted exactly when an MPU is left
      out or the old one did not have as many units as its descriptor, unless random access is still awaited. */
  lemma MpuChangeExactly(t: Track, mpu: nat)
    requires t.current.Some? && t.current.value != mpu
    ensures (var old0 := t.current.value;
             var r, u := EnterMpu(t, mpu), FinalizeHevc(t).track;
             && r.units == FinalizeHevc(t).units
             && r.track.current == Some(mpu)
             && r.track.clock == u.clock.(auIndex := 0, lastDts := None, examined := None)
             && (r.track.discontinuity <==>
                   || u.discontinuity || mpu != (old0 + 1) % 0x1_0000_0000
                   || (!u.hevc.waitForRap && old0 in u.extended && u.clock.auIndex != |u.extended[old0].dtsPts|)))
  {
    hide Absorb;
    hide Hevc.Finalize;
  }

  /** A unit carries the damage noted before it, and only what happened with it is noted afterwards; a unit that is
      dropped for its time stamps is damage too. */
  lemma MarkedExactly(t: Track, o: Hevc.Outcome)
    requires o.unit.Some? ==> o.unit.value != []
    ensures (var r := Absorb(t, o);
             && |r.units| <= (if o.unit.Some? then 1 else 0)
             && (if r.units != [] then
                   r.units[0].discontinuity == t.discontinuity && r.track.discontinuity == o.damaged
                 else r.track.discontinuity == (t.discontinuity || o.damaged || o.unit.Some?)))
  {
    hide Timing.Emit;
    hide Hevc.AnnexB;
    hide Hevc.HasRap;
  }

  const MAX_TIMESTAMPS := 32

  lemma {:induction false} HasLeast(s: set<nat>)
    requires s != {}
    ensures exists k :: IsLeast(k, s)
    decreases |s|
  {
    var x :| x in s;
    var rest := s - {x};
    assert forall j :: j in s <==> j == x || j in rest;
    if rest == {} {
      assert IsLeast(x, s);
    } else {
      HasLeast(rest);
      var k :| IsLeast(k, rest);
      assert IsLeast(if k <= x then k else x, s);
    }
  }

  predicate IsLeast(k: nat, s: set<nat>) { k in s && forall j :: j in s ==> k <= j }

  function Least(s: set<nat>): (k: nat)
    requires s != {}
    ensures IsLeast(k, s)
  {
    HasLeast(s);
    var k :| IsLeast(k, s);
    k
  }

  /** Drop the lowest MPU sequence numbers until the table is no larger than it may be. */
  function Evict<T>(m: map<nat, T>): map<nat, T>
    decreases m.Keys
  {
    if |m| <= MAX_TIMESTAMPS then m
    else
      var k := Least(m.Keys);
      assert (m - {k}).Keys == m.Keys - {k};
      Evict(m - {k})
  }

  /** What an eviction keeps: as many of the highest sequence numbers as fit, with their descriptors. */
  lemma {:induction false} EvictKeepsHighest<T>(m: map<nat, T>)
    ensures (var r := Evict(m);
             && r.Keys <= m.Keys && |r| == Min(|m|, 32)
             && (forall k :: k in r ==> r[k] == m[k])
             && (forall j, k :: j in m && j !in r && k in r ==> j < k))
    decreases m.Keys
  {
    if |m| > MAX_TIMESTAMPS {
      var k := Least(m.Keys);
      assert (m - {k}).Keys == m.Keys - {k};
      EvictKeepsHighest(m - {k});
    }
  }

  function MappingsAt(ntps: map<nat, nat>, inputOffset: nat): map<nat, Timing.Mapping> {
    map k | k in ntps :: Timing.Mapping(ntps[k], inputOffset)
  }

  function ExtendedAt(es: map<nat, Timing.Extended>, inputOffset: nat): map<nat, Timing.Extended> {
    map k | k in es :: es[k].(restart := inputOffset)
  }

  /** An MPT that keeps the track: its offset becomes the restart offset, also of the descriptors it brings. */
  function Refresh(t: Track, inputOffset: nat, mappings: map<nat, nat>, extended: map<nat, Timing.Extended>): Track {
    t.(restart := inputOffset,
       mappings := Evict(t.mappings + MappingsAt(mappings, inputOffset)),
       extended := Evict(t.extended + ExtendedAt(extended, inputOffset)))
  }

  /** The end of the stream closes the access unit in progress and forgets everything but descriptors and leap state
      of the service, which start over too. */
  function Flush(t: Track): Result {
    var r := FinalizeHevc(t);
    Result(r.track.(media := NEW_ASSEMBLY, hevc := Hevc.State([], false, true), clock := Timing.NEW_CLOCK,
                    current := None, discontinuity := true),
           r.units)
  }

  // ----- every access unit is well formed and can be restarted from an offset not after its own

  /** What waits is proper, and offsets recorded so far never run ahead of their own packets, nor of the newest. */
  predicate Invariant(limit: nat, t: Track, now: nat) {
    && t.restart <= now
    && (t.media.phase == Fragments.Collecting ==> t.media.head.restartOffset <= t.media.head.inputOffset)
    && ItemsRestartable(t.hevc.items)
    && Hevc.Proper(limit, t.hevc.items)
  }

  predicate ItemsRestartable(items: seq<Hevc.Item>) { forall i :: i in items ==> i.restartOffset <= i.inputOffset }

  /** The unit is the byte stream of a lawful access unit, marked for random access exactly when it offers that, and
      its restart offset is not after its own. */
  ghost predicate Good(limit: nat, u: AccessUnit) {
    && u.stamp.restart <= u.inputOffset
    && exists items :: Hevc.AccessUnit(limit, items) && u.data == Hevc.AnnexB(items)
        && u.randomAccess == Hevc.HasRap(items)
  }

  ghost predicate AllGood(limit: nat, us: seq<AccessUnit>) { forall u :: u in us ==> Good(limit, u) }

  ghost predicate Sound(limit: nat, r: Result, now: nat) { Invariant(limit, r.track, now) && AllGood(limit, r.units) }

  lemma HandOnSound(limit: nat, t: Track, items: seq<Hevc.Item>, now: nat)
    requires Invariant(limit, t, now) && Hevc.AccessUnit(limit, items) && ItemsRestartable(items)
    ensures Sound(limit, HandOn(t, items), now)
  {
    var first := items[0];
    assert first in items;
    Timing.RestartIsEarliest(t.clock, first.mpu, first.sample, Lookup(t.mappings, first.mpu),
                             Lookup(t.extended, first.mpu), first.restartOffset, None);
  }

  lemma AbsorbSound(limit: nat, t: Track, o: Hevc.Outcome, now: nat)
    requires Invariant(limit, t, now) && Hevc.StepSound(limit, t.hevc, o)
    requires ItemsRestartable(o.next.items)
    ensures Sound(limit, Absorb(t, o), now)
  {
    hide HandOn;
    hide Good;
    if o.unit.Some? { HandOnSound(limit, t, o.unit.value, now); }
  }

  lemma FinalizeSound(limit: nat, t: Track, now: nat)
    requires Invariant(limit, t, now)
    ensures Sound(limit, FinalizeHevc(t), now)
  {
    Hevc.FinalizeSound(limit, t.hevc);
    AbsorbSound(limit, t, Hevc.Finalize(t.hevc), now);
  }

  lemma FeedRestartable(limit: nat, st: Hevc.State, i: Hevc.Item)
    requires ItemsRestartable(st.items) && i.restartOffset <= i.inputOffset
    ensures ItemsRestartable(Hevc.Feed(limit, st, i).next.items)
  {
  }

  lemma ConsumeUnitSound(limit: nat, t: Track, u: Fragments.Unit, timed: bool, now: nat)
    requires Invariant(limit, t, now) && u.head.restartOffset <= u.head.inputOffset
    ensures Sound(limit, ConsumeUnit(limit, t, u, timed), now)
  {
    hide Absorb;
    var d := u.payload;
    if |d| >= 4 && Be32(d[..4]) == |d| - 4 && |d| - 4 >= 2 {
      var item := ItemOf(u, timed);
      Hevc.FeedSound(limit, t.hevc, item);
      FeedRestartable(limit, t.hevc, item);
      AbsorbSound(limit, t, Hevc.Feed(limit, t.hevc, item), now);
    }
  }

  lemma ConsumePieceSound(limit: nat, t: Track, p: Packet, now: nat)
    requires Invariant(limit, t, now) && now <= p.inputOffset
    ensures Sound(limit, ConsumePiece(limit, t, p), now)
  {
    hide ConsumeUnit;
    hide Good;
    match Fragments.ParseHeader(p.timed, p.body)
    case None =>
    case Some((key, payload)) =>
      var piece := PieceOf(t, p, key, payload);
      var o := Fragments.Accept(limit, t.media, piece);
      var next := Damage(t.(media := o.next), o.damaged);
      if o.unit.Some? { ConsumeUnitSound(limit, next, o.unit.value, p.timed, now); }
  }

  lemma DamageKeeps(limit: nat, t: Track, now: nat)
    requires Invariant(limit, t, now)
    ensures Invariant(limit, Damage(t, true), now)
  {
  }

  lemma {:induction false} ConsumeAllSound(limit: nat, t: Track, p: Packet, body: seq<byte>, now: nat)
    requires Invariant(limit, t, now) && now <= p.inputOffset
    ensures Sound(limit, ConsumeAll(limit, t, p, body), now)
    decreases |body|
  {
    hide ConsumePiece;
    hide Good;
    hide Invariant;
    if |body| >= 2 && Be16(body[0], body[1]) <= |body| - 2 {
      var n := 2 + Be16(body[0], body[1]);
      var r := ConsumePiece(limit, t, p.(body := body[2..n]));
      ConsumePieceSound(limit, t, p.(body := body[2..n]), now);
      ConsumeAllSound(limit, r.track, p, body[n..], now);
    } else {
      DamageKeeps(limit, t, now);
    }
  }

  lemma ParseMpuSound(limit: nat, t: Track, p: Packet, now: nat)
    requires Invariant(limit, t, now) && now <= p.inputOffset
    ensures Sound(limit, ParseMpu(limit, t, p), p.inputOffset)
  {
    hide FinalizeHevc;
    hide ConsumePiece;
    hide ConsumeAll;
    hide Good;
    FinalizeSound(limit, t, now);
    var r := EnterMpu(t, p.mpu);
    assert Sound(limit, r, now);
    ConsumePieceSound(limit, r.track, p, now);
    ConsumeAllSound(limit, r.track, p, p.body, now);
  }

  // ----- runs of a track

  datatype Op =
    | Deliver(packet: Packet)
    | Mpt(inputOffset: nat, mappings: map<nat, nat>, extended: map<nat, Timing.Extended>)
    | EndOfStream

  function Step(limit: nat, t: Track, op: Op): Result {
    match op
    case Deliver(p) => ParseMpu(limit, t, p)
    case Mpt(inputOffset, mappings, extended) => Result(Refresh(t, inputOffset, mappings, extended), [])
    case EndOfStream => Flush(t)
  }

  function Run(limit: nat, t: Track, ops: seq<Op>): Result
    decreases |ops|
  {
    if ops == [] then Result(t, [])
    else
      var r := Step(limit, t, ops[0]);
      Append(r, Run(limit, r.track, ops[1..]))
  }

  /** The newest packet offset known after an operation. An MPT carries the offset of its first fragment, which may
      lie before media packets that came between its fragments. */
  function Offset(op: Op, now: nat): nat {
    match op
    case Deliver(p) => p.inputOffset
    case Mpt(inputOffset, _, _) => if inputOffset > now then inputOffset else now
    case EndOfStream => now
  }

  /** Packet offsets never fall. MPTs may carry any earlier offset. */
  predicate Forward(ops: seq<Op>, now: nat) {
    ops == [] || (now <= Offset(ops[0], now) && Forward(ops[1..], Offset(ops[0], now)))
  }

  const NEW_ASSEMBLY := Fragments.Assembly(Fragments.Initial, 0, 0, 0, Fragments.Head(0, 0, false, NO_EXTENSIONS), [])

  function NewTrack(inputOffset: nat): Track {
    Track(NEW_ASSEMBLY, Hevc.State([], false, true), Timing.NEW_CLOCK, map[], map[], inputOffset, None, false)
  }

  /** Over every run of a track, with MPTs coming at any point, even in the middle of a unit and from before it, every
      access unit handed on is the byte stream of a lawful one and can be restarted from an offset not after its own
      first packet. */
  lemma RunSound(limit: nat, inputOffset: nat, ops: seq<Op>)
    requires Forward(ops, inputOffset)
    ensures AllGood(limit, Run(limit, NewTrack(inputOffset), ops).units)
  {
    Hevc.EmptyProper(limit);
    RunSoundFrom(limit, NewTrack(inputOffset), ops, inputOffset);
  }

  lemma {:induction false} RunSoundFrom(limit: nat, t: Track, ops: seq<Op>, now: nat)
    requires Invariant(limit, t, now) && Forward(ops, now)
    ensures AllGood(limit, Run(limit, t, ops).units)
    decreases |ops|
  {
    hide ParseMpu;
    hide Good;
    hide FinalizeHevc;
    if ops != [] {
      var r := Step(limit, t, ops[0]);
      match ops[0] {
        case Deliver(p) => ParseMpuSound(limit, t, p, now);
        case Mpt(_, _, _) =>
        case EndOfStream =>
          FinalizeSound(limit, t, now);
          Hevc.EmptyProper(limit);
      }
      RunSoundFrom(limit, r.track, ops[1..], Offset(ops[0], now));
    }
  }

  // ----- the time stamps of a whole run

  /** What the clock is told when a unit is handed on: its MPU and sample, and the descriptors that the tables have for
      that MPU at that moment. */
  function HandOnOp(t: Track, items: seq<Hevc.Item>): Timing.Op
    requires items != []
  {
    var first := items[0];
    Timing.Au(first.mpu, first.sample, Lookup(t.mappings, first.mpu), Lookup(t.extended, first.mpu),
              first.restartOffset, None)
  }

  function AbsorbOps(t: Track, o: Hevc.Outcome): seq<Timing.Op> {
    if o.unit.Some? && o.unit.value != [] then [HandOnOp(t, o.unit.value)] else []
  }

  function ConsumeUnitOps(limit: nat, t: Track, u: Fragments.Unit, timed: bool): seq<Timing.Op> {
    var d := u.payload;
    if |d| < 4 || Be32(d[..4]) != |d| - 4 || |d| - 4 < 2 then []
    else AbsorbOps(t, Hevc.Feed(limit, t.hevc, ItemOf(u, timed)))
  }

  function ConsumePieceOps(limit: nat, t: Track, p: Packet): seq<Timing.Op> {
    match Fragments.ParseHeader(p.timed, p.body)
    case None => []
    case Some((key, payload)) =>
      var o := Fragments.Accept(limit, t.media, PieceOf(t, p, key, payload));
      if o.unit.None? then [] else ConsumeUnitOps(limit, t, o.unit.value, p.timed)
  }

  function ConsumeAllOps(limit: nat, t: Track, p: Packet, body: seq<byte>): seq<Timing.Op>
    decreases |body|
  {
    if |body| < 2 || Be16(body[0], body[1]) > |body| - 2 then []
    else
      var n := 2 + Be16(body[0], body[1]);
      var q := p.(body := body[2..n]);
      ConsumePieceOps(limit, t, q) + ConsumeAllOps(limit, ConsumePiece(limit, t, q).track, p, body[n..])
  }

  /** A change of MPU hands on what waits and then starts the clock over for the new one. */
  function EnterMpuOps(t: Track, mpu: nat): seq<Timing.Op> {
    if t.current == Some(mpu) then []
    else (if t.current.None? then [] else AbsorbOps(t, Hevc.Finalize(t.hevc))) + [Timing.Mpu]
  }

  function StepOps(limit: nat, t: Track, op: Op): seq<Timing.Op> {
    match op
    case Deliver(p) =>
      if p.aggregated && p.fragmentation != 0 then []
      else
        var u := EnterMpu(t, p.mpu).track;
        EnterMpuOps(t, p.mpu)
        + if p.aggregated then ConsumeAllOps(limit, u, p, p.body) else ConsumePieceOps(limit, u, p)
    case Mpt(_, _, _) => []
    case EndOfStream => AbsorbOps(t, Hevc.Finalize(t.hevc)) + [Timing.Restart]
  }

  /** What the clock is told over a run of the track. */
  function TimingOps(limit: nat, t: Track, ops: seq<Op>): seq<Timing.Op>
    decreases |ops|
  {
    if ops == [] then [] else StepOps(limit, t, ops[0]) + TimingOps(limit, Step(limit, t, ops[0]).track, ops[1..])
  }

  function StampsOf(us: seq<AccessUnit>): seq<Timing.Stamp> { seq(|us|, i requires 0 <= i < |us| => us[i].stamp) }

  /** The clock went through these operations, and the stamps they gave are those of the units, in order. */
  predicate TimedAs(before: Timing.Clock, r: Result, timing: seq<Timing.Op>) {
    r.track.clock == Timing.RunClock(before, timing) && StampsOf(r.units) == Timing.Stamps(before, timing)
  }

  lemma NothingTimed(t: Track)
    ensures TimedAs(t.clock, Result(t, []), [])
  {
  }

  lemma TimedBoth(before: Timing.Clock, r: Result, later: Result, a: seq<Timing.Op>, b: seq<Timing.Op>)
    requires TimedAs(before, r, a) && TimedAs(r.track.clock, later, b)
    ensures TimedAs(before, Append(r, later), a + b)
  {
    hide Timing.RunClock;
    hide Timing.Stamps;
    Timing.RunAppend(before, a, b);
    assert StampsOf(r.units + later.units) == StampsOf(r.units) + StampsOf(later.units);
  }

  /** Only the clock and the units matter. */
  lemma TimedAlike(before: Timing.Clock, r: Result, s: Result, timing: seq<Timing.Op>)
    requires TimedAs(before, r, timing) && s.track.clock == r.track.clock && s.units == r.units
    ensures TimedAs(before, s, timing)
  {
  }

  lemma DamagedTimed(t: Track)
    ensures TimedAs(t.clock, Result(Damage(t, true), []), [])
  {
  }

  lemma HandOnTimed(t: Track, items: seq<Hevc.Item>)
    requires items != []
    ensures TimedAs(t.clock, HandOn(t, items), [HandOnOp(t, items)])
  {
    hide Timing.Emit;
    Timing.RunOne(t.clock, HandOnOp(t, items));
  }

  lemma AbsorbTimed(t: Track, o: Hevc.Outcome)
    ensures TimedAs(t.clock, Absorb(t, o), AbsorbOps(t, o))
  {
    hide HandOn;
    hide TimedAs;
    var r := if o.unit.Some? && o.unit.value != [] then HandOn(t, o.unit.value) else Result(t, []);
    if o.unit.Some? && o.unit.value != [] { HandOnTimed(t, o.unit.value); } else { NothingTimed(t); }
    TimedAlike(t.clock, r, Absorb(t, o), AbsorbOps(t, o));
  }

  lemma ConsumeUnitTimed(limit: nat, t: Track, u: Fragments.Unit, timed: bool)
    ensures TimedAs(t.clock, ConsumeUnit(limit, t, u, timed), ConsumeUnitOps(limit, t, u, timed))
  {
    hide Absorb;
    hide AbsorbOps;
    hide Hevc.Feed;
    hide TimedAs;
    DamagedTimed(t);
    var d := u.payload;
    if |d| >= 4 && Be32(d[..4]) == |d| - 4 && |d| - 4 >= 2 {
      AbsorbTimed(t, Hevc.Feed(limit, t.hevc, ItemOf(u, timed)));
    }
  }

  lemma ConsumePieceTimed(limit: nat, t: Track, p: Packet)
    ensures TimedAs(t.clock, ConsumePiece(limit, t, p), ConsumePieceOps(limit, t, p))
  {
    hide Fragments.Accept;
    hide HandOn;
    hide Hevc.Feed;
    hide TimedAs;
    hide ConsumeUnit;
    DamagedTimed(t);
    match Fragments.ParseHeader(p.timed, p.body)
    case None =>
    case Some((key, payload)) =>
      var o := Fragments.Accept(limit, t.media, PieceOf(t, p, key, payload));
      var next := Damage(t.(media := o.next), o.damaged);
      NothingTimed(next);
      if o.unit.Some? { ConsumeUnitTimed(limit, next, o.unit.value, p.timed); }
  }

  lemma {:induction false} ConsumeAllTimed(limit: nat, t: Track, p: Packet, body: seq<byte>)
    ensures TimedAs(t.clock, ConsumeAll(limit, t, p, body), ConsumeAllOps(limit, t, p, body))
    decreases |body|
  {
    hide ConsumePiece;
    hide ConsumePieceOps;
    hide TimedAs;
    NothingTimed(t);
    DamagedTimed(t);
    if |body| >= 2 && Be16(body[0], body[1]) <= |body| - 2 {
      var n := 2 + Be16(body[0], body[1]);
      var q := p.(body := body[2..n]);
      var r := ConsumePiece(limit, t, q);
      ConsumePieceTimed(limit, t, q);
      ConsumeAllTimed(limit, r.track, p, body[n..]);
      TimedBoth(t.clock, r, ConsumeAll(limit, r.track, p, body[n..]), ConsumePieceOps(limit, t, q),
                ConsumeAllOps(limit, r.track, p, body[n..]));
    }
  }

  lemma ClockMoved(t: Track, op: Timing.Op, c: Timing.Clock)
    requires Timing.Apply(t.clock, op) == Timing.Stamped(c, None, None)
    ensures TimedAs(t.clock, Result(t.(clock := c), []), [op])
  {
    Timing.RunOne(t.clock, op);
  }

  lemma EnterMpuTimed(t: Track, mpu: nat)
    ensures TimedAs(t.clock, EnterMpu(t, mpu), EnterMpuOps(t, mpu))
  {
    hide TimedAs;
    hide Absorb;
    hide AbsorbOps;
    hide Hevc.Finalize;
    NothingTimed(t);
    if t.current != Some(mpu) {
      var r := if t.current.None? then Result(t, []) else FinalizeHevc(t);
      var first := if t.current.None? then [] else AbsorbOps(t, Hevc.Finalize(t.hevc));
      if t.current.Some? { AbsorbTimed(t, Hevc.Finalize(t.hevc)); }
      var started := Result(r.track.(clock := Timing.StartMpu(r.track.clock)), []);
      ClockMoved(r.track, Timing.Mpu, Timing.StartMpu(r.track.clock));
      TimedBoth(t.clock, r, started, first, [Timing.Mpu]);
      TimedAlike(t.clock, Append(r, started), EnterMpu(t, mpu), first + [Timing.Mpu]);
    }
  }

  lemma StepTimed(limit: nat, t: Track, op: Op)
    ensures TimedAs(t.clock, Step(limit, t, op), StepOps(limit, t, op))
  {
    hide TimedAs;
    hide ConsumePiece;
    hide ConsumePieceOps;
    hide ConsumeAll;
    hide ConsumeAllOps;
    hide EnterMpu;
    hide EnterMpuOps;
    hide Absorb;
    hide AbsorbOps;
    hide Hevc.Finalize;
    NothingTimed(t);
    match op
    case Deliver(p) =>
      DamagedTimed(t);
      var r := EnterMpu(t, p.mpu);
      EnterMpuTimed(t, p.mpu);
      ConsumePieceTimed(limit, r.track, p);
      ConsumeAllTimed(limit, r.track, p, p.body);
      TimedBoth(t.clock, r, ConsumePiece(limit, r.track, p), EnterMpuOps(t, p.mpu), ConsumePieceOps(limit, r.track, p));
      TimedBoth(t.clock, r, ConsumeAll(limit, r.track, p, p.body), EnterMpuOps(t, p.mpu),
                ConsumeAllOps(limit, r.track, p, p.body));
    case Mpt(_, _, _) => TimedAlike(t.clock, Result(t, []), Step(limit, t, op), []);
    case EndOfStream =>
      var r := FinalizeHevc(t);
      var ended := Result(r.track.(clock := Timing.NEW_CLOCK), []);
      AbsorbTimed(t, Hevc.Finalize(t.hevc));
      ClockMoved(r.track, Timing.Restart, Timing.NEW_CLOCK);
      TimedBoth(t.clock, r, ended, AbsorbOps(t, Hevc.Finalize(t.hevc)), [Timing.Restart]);
      TimedAlike(t.clock, Append(r, ended), Step(limit, t, op), StepOps(limit, t, op));
  }

  /** Over every run of a track, its clock is where those operations take it, and its units carry exactly the stamps
      that they give. */
  lemma {:induction false} RunTimed(limit: nat, t: Track, ops: seq<Op>)
    ensures TimedAs(t.clock, Run(limit, t, ops), TimingOps(limit, t, ops))
    decreases |ops|
  {
    hide TimedAs;
    hide Step;
    hide StepOps;
    if ops == [] {
      NothingTimed(t);
    } else {
      var r := Step(limit, t, ops[0]);
      StepTimed(limit, t, ops[0]);
      RunTimed(limit, r.track, ops[1..]);
      TimedBoth(t.clock, r, Run(limit, r.track, ops[1..]), StepOps(limit, t, ops[0]),
                TimingOps(limit, r.track, ops[1..]));
    }
  }

  /** So the leap correction of a track is one second for each announced insertion less one for each announced deletion,
      by the descriptors its own tables had for the MPUs that were examined since the stream last ended. */
  lemma RunLeapOffset(limit: nat, inputOffset: nat, ops: seq<Op>)
    ensures (var t := NewTrack(inputOffset);
             Run(limit, t, ops).track.clock.leapOffset
             == Timing.Correction(0, Timing.Examined(Timing.NEW_CLOCK, TimingOps(limit, t, ops))))
  {
    hide Run;
    hide TimingOps;
    var t := NewTrack(inputOffset);
    RunTimed(limit, t, ops);
    Timing.LeapOffset(Timing.NEW_CLOCK, TimingOps(limit, t, ops));
  }

  /** And under one type 1 descriptor, units that come in order are all handed on, each with its own decode time. */
  lemma RunInOrder(limit: nat, t: Track, ops: seq<Op>, from: nat, e: Timing.Extended)
    requires Timing.InOrder(t.clock, TimingOps(limit, t, ops), from, e)
    requires t.clock.lastDts.Some? ==> Timing.Covers(e, from) && t.clock.lastDts.value == Timing.FixedDts(e, from)
    ensures (var timing, units := TimingOps(limit, t, ops), Run(limit, t, ops).units;
             && |units| == |timing| && Timing.AllStamped(t.clock, timing, e)
             && Timing.DecodeTimes(StampsOf(units)) == Timing.OwnTimes(t.clock, timing, e))
  {
    hide Run;
    hide TimingOps;
    var timing := TimingOps(limit, t, ops);
    RunTimed(limit, t, ops);
    Timing.InOrderKept(t.clock, timing, from, e);
    Timing.StampedInFull(t.clock, timing, e);
    Timing.OwnTimesCount(t.clock, timing, e);
  }

  // ----- damage shows on the next unit

  /** Once damage is noted it stays noted until a unit is handed on, and that unit carries it. */
  predicate Shows(r: Result) { if r.units == [] then r.track.discontinuity else r.units[0].discontinuity }

  lemma AbsorbShows(t: Track, o: Hevc.Outcome)
    requires t.discontinuity
    ensures Shows(Absorb(t, o))
  {
    hide Timing.Emit;
    hide Hevc.AnnexB;
    hide Hevc.HasRap;
  }

  lemma ShowsBoth(r: Result, later: Result)
    requires Shows(r) && (r.track.discontinuity ==> Shows(later))
    ensures Shows(Append(r, later))
  {
    if r.units == [] { assert [] + later.units == later.units; }
  }

  lemma ConsumePieceShows(limit: nat, t: Track, p: Packet)
    requires t.discontinuity
    ensures Shows(ConsumePiece(limit, t, p))
  {
    hide Absorb;
    hide Hevc.Feed;
    hide Fragments.Accept;
    match Fragments.ParseHeader(p.timed, p.body)
    case None =>
    case Some((key, payload)) =>
      var o := Fragments.Accept(limit, t.media, PieceOf(t, p, key, payload));
      var next := Damage(t.(media := o.next), o.damaged);
      if o.unit.Some? {
        var d := o.unit.value.payload;
        if |d| >= 4 && Be32(d[..4]) == |d| - 4 && |d| - 4 >= 2 {
          AbsorbShows(next, Hevc.Feed(limit, next.hevc, ItemOf(o.unit.value, p.timed)));
        }
      }
  }

  lemma {:induction false} ConsumeAllShows(limit: nat, t: Track, p: Packet, body: seq<byte>)
    requires t.discontinuity
    ensures Shows(ConsumeAll(limit, t, p, body))
    decreases |body|
  {
    hide ConsumePiece;
    if |body| >= 2 && Be16(body[0], body[1]) <= |body| - 2 {
      var n := 2 + Be16(body[0], body[1]);
      var r := ConsumePiece(limit, t, p.(body := body[2..n]));
      ConsumePieceShows(limit, t, p.(body := body[2..n]));
      if r.track.discontinuity { ConsumeAllShows(limit, r.track, p, body[n..]); }
      ShowsBoth(r, ConsumeAll(limit, r.track, p, body[n..]));
    }
  }

  lemma StepShows(limit: nat, t: Track, op: Op)
    requires t.discontinuity
    ensures Shows(Step(limit, t, op))
  {
    hide Absorb;
    hide Hevc.Finalize;
    hide ConsumePiece;
    hide ConsumeAll;
    AbsorbShows(t, Hevc.Finalize(t.hevc));
    match op
    case Deliver(p) =>
      var r := EnterMpu(t, p.mpu);
      if r.track.discontinuity {
        ConsumePieceShows(limit, r.track, p);
        ConsumeAllShows(limit, r.track, p, p.body);
      }
      ShowsBoth(r, ConsumePiece(limit, r.track, p));
      ShowsBoth(r, ConsumeAll(limit, r.track, p, p.body));
    case Mpt(_, _, _) =>
    case EndOfStream =>
  }

  /** Over every run: when damage is noted, the next unit handed on, whenever that is, is marked. */
  lemma {:induction false} DamageShows(limit: nat, t: Track, ops: seq<Op>)
    requires t.discontinuity
    ensures Shows(Run(limit, t, ops))
    decreases |ops|
  {
    hide Step;
    if ops != [] {
      var r := Step(limit, t, ops[0]);
      StepShows(limit, t, ops[0]);
      if r.track.discontinuity { DamageShows(limit, r.track, ops[1..]); }
      ShowsBoth(r, Run(limit, r.track, ops[1..]));
    }
  }

  /** So after a gap in the packet numbers of an MPU the next unit is marked, even one that the very packet
      completes. */
  lemma GapShows(limit: nat, t: Track, p: Packet, ops: seq<Op>)
    requires t.current == Some(p.mpu) && !p.aggregated && Fragments.ParseHeader(p.timed, p.body).Some?
    requires t.media.phase != Fragments.Initial
    requires p.sequence != t.media.last && p.sequence != Fragments.NextSequence(t.media.last)
    ensures Shows(Run(limit, t, [Deliver(p)] + ops))
  {
    var (key, payload) := Fragments.ParseHeader(p.timed, p.body).value;
    var piece := PieceOf(t, p, key, payload);
    var o := Fragments.Accept(limit, t.media, piece);
    Fragments.LossIsNoted(limit, t.media, piece);
    hide Fragments.Accept;
    hide Absorb;
    hide Hevc.Feed;
    var next := Damage(t.(media := o.next), o.damaged);
    if o.unit.Some? {
      var d := o.unit.value.payload;
      if |d| >= 4 && Be32(d[..4]) == |d| - 4 && |d| - 4 >= 2 {
        AbsorbShows(next, Hevc.Feed(limit, next.hevc, ItemOf(o.unit.value, p.timed)));
      }
    }
    var r := Step(limit, t, Deliver(p));
    assert r == ConsumePiece(limit, t, p) by {
      var c := ConsumePiece(limit, t, p);
      assert [] + c.units == c.units;
    }
    assert Shows(r);
    assert ([Deliver(p)] + ops)[1..] == ops;
    hide Step;
    if r.track.discontinuity { DamageShows(limit, r.track, ops); }
    ShowsBoth(r, Run(limit, r.track, ops));
  }
}
