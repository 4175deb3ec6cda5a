/** Time stamps of access units: the two descriptor recurrences of section 7.4.3.35 of ARIB STD-B60, the leap-second
    correction of TR-B39 Appendix 1 Chapter 2, and the expansion of short NTP stamps. */
module Timing {
  import opened Bytes

  datatype Mapping = Mapping(ntp: nat, restart: nat)

  datatype Extended = Extended(leap: nat, decodingTimeOffset: nat, dtsPts: seq<nat>, ptsGaps: seq<nat>,
                               offsetType: nat, restart: nat)

  function Sum(s: seq<nat>): nat { if s == [] then 0 else Sum(s[..|s| - 1]) + s[|s| - 1] }

  predicate Covers(e: Extended, i: nat) { i < |e.dtsPts| && i < |e.ptsGaps| }

  /** Type 1: decode times step by one fixed interval. */
  function FixedDts(e: Extended, i: nat): int
    requires Covers(e, i)
  {
    i * e.ptsGaps[0] - e.decodingTimeOffset
  }

  function FixedPts(e: Extended, i: nat): int
    requires Covers(e, i)
  {
    FixedDts(e, i) + e.dtsPts[i]
  }

  /** Type 2: presentation times accumulate the gaps in decode order. */
  function GapPts(e: Extended, i: nat): int
    requires Covers(e, i)
  {
    Sum(e.ptsGaps[..i])
  }

  function GapDts(e: Extended, i: nat): int
    requires Covers(e, i)
  {
    if i == 0 then 0 - e.decodingTimeOffset else GapPts(e, i) - e.dtsPts[i]
  }

  predicate Same(e: Extended, i: nat)
    requires Covers(e, i)
  {
    FixedDts(e, i) == GapDts(e, i) && FixedPts(e, i) == GapPts(e, i)
  }

  /** How far the accumulated gaps have drifted from the fixed interval by index `i`. */
  function Drift(e: Extended, i: nat): int
    requires Covers(e, i)
  {
    Sum(e.ptsGaps[..i]) - i * e.ptsGaps[0]
  }

  /** The two recurrences give an access unit the same times exactly when the drift of its gaps is the excess of its
      own DTS-PTS distance over the decoding offset. */
  lemma RecurrencesAgree(e: Extended, i: nat)
    requires Covers(e, i)
    ensures Same(e, i) <==> Drift(e, i) == e.dtsPts[i] - e.decodingTimeOffset
  {
    if i == 0 { assert e.ptsGaps[..0] == []; }
  }

  /** With uniform gaps and every distance equal to the decoding offset they agree at every index. */
  lemma UniformAgree(e: Extended, i: nat)
    requires Covers(e, i)
    requires forall g :: g in e.ptsGaps ==> g == e.ptsGaps[0]
    requires forall d :: d in e.dtsPts ==> d == e.decodingTimeOffset
    ensures Same(e, i)
  {
    UniformSum(e.ptsGaps, i);
    RecurrencesAgree(e, i);
    assert e.dtsPts[i] in e.dtsPts;
  }

  lemma {:induction false} UniformSum(s: seq<nat>, i: nat)
    requires i <= |s| && s != [] && forall g :: g in s ==> g == s[0]
    ensures Sum(s[..i]) == i * s[0]
  {
    if i > 0 {
      UniformSum(s, i - 1);
      assert s[..i][..i - 1] == s[..i - 1] && s[i - 1] in s;
    } else {
      assert s[..0] == [];
    }
  }

  // ----- stamping access units

  /** The part of a track that stamping reads and changes. */
  datatype Clock = Clock(auIndex: nat, lastDts: Option<int>, previousLeap: nat, leapOffset: int, examined: Option<nat>)

  datatype Stamp = Stamp(pts: int, dts: int, ntp: nat, restart: nat)

  /** `leap` is the leap indicator when this access unit was the one of its MPU that got examined. */
  datatype Stamped = Stamped(next: Clock, stamp: Option<Stamp>, leap: Option<nat>)

  function AuIndex(c: Clock, sample: nat): nat { if sample != 0 then sample - 1 else c.auIndex }

  function Counted(c: Clock, sample: nat): Clock {
    c.(auIndex := if sample != 0 then Max(c.auIndex, sample) else c.auIndex + 1)
  }

  function LeapStep(previous: nat, now: nat): int {
    if previous == 1 && now == 0 then UINT32 else if previous == 2 && now == 0 then -UINT32 else 0
  }

  /** Fold the leap indicator of an MPU into the correction, once per MPU. */
  function Examine(c: Clock, mpu: nat, e: Extended): Clock {
    if c.examined == Some(mpu) then c
    else c.(leapOffset := c.leapOffset + LeapStep(c.previousLeap, e.leap), previousLeap := e.leap,
            examined := Some(mpu))
  }

  predicate Described(c: Clock, sample: nat, mapping: Option<Mapping>, extended: Option<Extended>) {
    mapping.Some? && extended.Some? && Covers(extended.value, AuIndex(c, sample))
  }

  /** A type 1 unit whose decode time runs backwards inside its MPU is dropped. */
  predicate Backwards(c: Clock, e: Extended, i: nat)
    requires Covers(e, i)
  {
    e.offsetType != 2 && c.lastDts.Some? && FixedDts(e, i) < c.lastDts.value
  }

  function Times(e: Extended, i: nat): (int, int)
    requires Covers(e, i)
  {
    if e.offsetType == 2 then (GapDts(e, i), GapPts(e, i)) else (FixedDts(e, i), FixedPts(e, i))
  }

  /** Stamp one access unit from the descriptors of its MPU; a subtitle without them takes `anchor`, the expanded
      delivery time, and any other unit without them is dropped. */
  function Emit(c: Clock, mpu: nat, sample: nat, mapping: Option<Mapping>, extended: Option<Extended>, restart: nat,
                anchor: Option<nat>): Stamped {
    var counted, i := Counted(c, sample), AuIndex(c, sample);
    if Described(c, sample, mapping, extended) then
      var e := extended.value;
      if Backwards(c, e, i) then Stamped(counted, None, None)
      else
        var (dts, pts) := Times(e, i);
        var timed := if e.offsetType == 2 then counted else counted.(lastDts := Some(dts));
        var next := Examine(timed, mpu, e);
        var earliest := Min(restart, Min(mapping.value.restart, e.restart));
        Stamped(next, Some(Stamp(pts, dts, (mapping.value.ntp + next.leapOffset) % UINT64, earliest)),
                if c.examined == Some(mpu) then None else Some(e.leap))
    else if anchor.Some? then
      Stamped(counted, Some(Stamp(0, 0, anchor.value, restart)), None)
    else
      Stamped(counted, None, None)
  }

  /** The two times of the unit at place i: under type 2, presentation accumulates the gaps and decoding lies before
      it by the unit's own distance, or at the start by the decoding offset; otherwise decoding steps by the first
      gap, from the decoding offset before zero, and presentation lies behind it by the unit's own distance. */
  predicate AreTimes(e: Extended, i: nat, dts: int, pts: int)
    requires Covers(e, i)
  {
    if e.offsetType == 2 then
      && pts == Sum(e.ptsGaps[..i])
      && dts == (if i == 0 then 0 - e.decodingTimeOffset else Sum(e.ptsGaps[..i]) - e.dtsPts[i])
    else
      && dts == i * e.ptsGaps[0] - e.decodingTimeOffset
      && pts == i * e.ptsGaps[0] - e.decodingTimeOffset + e.dtsPts[i]
  }

  /** The correction after an MPU with this leap indicator, unless it was examined before: a second of NTP time (section
      6 of RFC 5905) more when an announced insertion is over, and one less when an announced deletion is. */
  function LeapAfter(c: Clock, mpu: nat, leap: nat): int {
    if c.examined == Some(mpu) || leap != 0 then c.leapOffset
    else if c.previousLeap == 1 then c.leapOffset + 0x1_0000_0000
    else if c.previousLeap == 2 then c.leapOffset - 0x1_0000_0000
    else c.leapOffset
  }

  /** The place a unit takes: that of its sample number, counted from one, or the next free one. */
  function PlaceOf(c: Clock, sample: nat): nat { if sample > 0 then sample - 1 else c.auIndex }

  /** A unit whose MPU has both descriptors, reaching to its place, is stamped unless its decode time would run
      backwards under type 1. Its stamp has those times, the stamp of the MPU with the correction, and the earliest
      restart offset, and the MPU is then examined. */
  lemma StampExactly(c: Clock, mpu: nat, sample: nat, mapping: Mapping, e: Extended, restart: nat, anchor: Option<nat>)
    requires PlaceOf(c, sample) < |e.dtsPts| && PlaceOf(c, sample) < |e.ptsGaps|
    ensures (var i := PlaceOf(c, sample);
             var s := Emit(c, mpu, sample, Some(mapping), Some(e), restart, anchor);
             var next, stamp := s.next, s.stamp;
             && next.auIndex == Max(c.auIndex, i + 1)
             && (stamp.None? <==>
                   e.offsetType != 2 && c.lastDts.Some? && i * e.ptsGaps[0] - e.decodingTimeOffset < c.lastDts.value)
             && (stamp.None? ==> next == c.(auIndex := next.auIndex))
             && (stamp.Some? ==>
                   && AreTimes(e, i, stamp.value.dts, stamp.value.pts)
                   && stamp.value.ntp == (mapping.ntp + LeapAfter(c, mpu, e.leap)) % UINT64
                   && stamp.value.restart == Min(restart, Min(mapping.restart, e.restart))
                   && next.lastDts == (if e.offsetType == 2 then c.lastDts else Some(stamp.value.dts))
                   && next.leapOffset == LeapAfter(c, mpu, e.leap) && next.examined == Some(mpu)
                   && next.previousLeap == (if c.examined == Some(mpu) then c.previousLeap else e.leap)))
  {
    hide Sum;
  }

  /** Any other unit is dropped, or takes its anchor and no times; either way it takes its place. */
  lemma UndescribedExactly(c: Clock, mpu: nat, sample: nat, mapping: Option<Mapping>, extended: Option<Extended>,
                           restart: nat, anchor: Option<nat>)
    requires mapping.None? || extended.None?
             || PlaceOf(c, sample) >= |extended.value.dtsPts| || PlaceOf(c, sample) >= |extended.value.ptsGaps|
    ensures (var s := Emit(c, mpu, sample, mapping, extended, restart, anchor);
             && s.next == c.(auIndex := Max(c.auIndex, PlaceOf(c, sample) + 1))
             && s.stamp == if anchor.None? then None else Some(Stamp(0, 0, anchor.value, restart)))
  {
  }

  /** Under type 2 the first unit is presented at zero, and each later than the one before it by the gap between
      them. */
  lemma GapsAccumulate(e: Extended, i: nat, dts: int, pts: int, nextDts: int, nextPts: int)
    requires e.offsetType == 2 && Covers(e, i + 1) && AreTimes(e, i, dts, pts) && AreTimes(e, i + 1, nextDts, nextPts)
    ensures nextPts == pts + e.ptsGaps[i] && (i == 0 ==> pts == 0) && nextPts - nextDts == e.dtsPts[i + 1]
  {
    assert e.ptsGaps[..i + 1][..i] == e.ptsGaps[..i];
    if i == 0 { assert e.ptsGaps[..0] == []; }
  }

  function StartMpu(c: Clock): Clock { c.(auIndex := 0, lastDts := None, examined := None) }

  const NEW_CLOCK := Clock(0, None, 0, 0, None)

  lemma RestartIsEarliest(c: Clock, mpu: nat, sample: nat, mapping: Option<Mapping>, extended: Option<Extended>,
                          restart: nat, anchor: Option<nat>)
    ensures (var s := Emit(c, mpu, sample, mapping, extended, restart, anchor).stamp;
             s.Some? ==>
               && s.value.restart <= restart
               && (Described(c, sample, mapping, extended) ==>
                     s.value.restart <= mapping.value.restart && s.value.restart <= extended.value.restart))
  {
  }

  // ----- runs of one track

  /** A new MPU; the end of the stream, which starts everything over; or an access unit with the descriptors found for
      it. */
  datatype Op =
    | Mpu
    | Restart
    | Au(mpu: nat, sample: nat, mapping: Option<Mapping>, extended: Option<Extended>, restart: nat, anchor: Option<nat>)

  function Apply(c: Clock, op: Op): Stamped {
    match op
    case Mpu => Stamped(StartMpu(c), None, None)
    case Restart => Stamped(NEW_CLOCK, None, None)
    case Au(mpu, sample, mapping, extended, restart, anchor) => Emit(c, mpu, sample, mapping, extended, restart, anchor)
  }

  function RunClock(c: Clock, ops: seq<Op>): Clock
    decreases |ops|
  {
    if ops == [] then c else RunClock(Apply(c, ops[0]).next, ops[1..])
  }

  /** The stamps given, in order. */
  function Stamps(c: Clock, ops: seq<Op>): seq<Stamp>
    decreases |ops|
  {
    if ops == [] then []
    else
      var s := Apply(c, ops[0]);
      (if s.stamp.Some? then [s.stamp.value] else []) + Stamps(s.next, ops[1..])
  }

  lemma {:induction false} RunAppend(c: Clock, ops: seq<Op>, more: seq<Op>)
    ensures RunClock(c, ops + more) == RunClock(RunClock(c, ops), more)
    ensures Stamps(c, ops + more) == Stamps(c, ops) + Stamps(RunClock(c, ops), more)
    decreases |ops|
  {
    if ops == [] {
      assert ops + more == more;
    } else {
      hide Apply;
      assert (ops + more)[1..] == ops[1..] + more;
      RunAppend(Apply(c, ops[0]).next, ops[1..], more);
    }
  }

  lemma RunOne(c: Clock, op: Op)
    ensures RunClock(c, [op]) == Apply(c, op).next
    ensures Stamps(c, [op]) == if Apply(c, op).stamp.Some? then [Apply(c, op).stamp.value] else []
  {
    hide Apply;
    assert [op][1..] == [];
  }

  /** The leap indicators examined since the last restart, in order. */
  function Examined(c: Clock, ops: seq<Op>): seq<nat>
    decreases |ops|
  {
    if ops == [] then []
    else
      var s := Apply(c, ops[0]);
      (if s.leap.Some? && Restart !in ops then [s.leap.value] else []) + Examined(s.next, ops[1..])
  }

  /** How often `to` directly follows `from` in `previous` followed by `leaps`. */
  function Transitions(previous: nat, leaps: seq<nat>, from: nat, to: nat): nat
    decreases |leaps|
  {
    if leaps == [] then 0
    else (if previous == from && leaps[0] == to then 1 else 0) + Transitions(leaps[0], leaps[1..], from, to)
  }

  function Correction(previous: nat, leaps: seq<nat>): int {
    UINT32 * (Transitions(previous, leaps, 1, 0) - Transitions(previous, leaps, 2, 0))
  }

  /** Over every run, the correction is one second for each announced insertion less one for each announced deletion
      since the leap state was last reset. */
  lemma LeapOffset(c: Clock, ops: seq<Op>)
    requires c.previousLeap == 0 && c.leapOffset == 0
    ensures RunClock(c, ops).leapOffset == Correction(0, Examined(c, ops))
  {
    LeapOffsetFrom(c, ops);
  }

  lemma {:induction false} LeapOffsetFrom(c: Clock, ops: seq<Op>)
    ensures RunClock(c, ops).leapOffset
         == if Restart in ops then Correction(0, Examined(c, ops))
            else c.leapOffset + Correction(c.previousLeap, Examined(c, ops))
    decreases |ops|
  {
    if ops != [] {
      hide Apply;
      var s, rest := Apply(c, ops[0]), Examined(Apply(c, ops[0]).next, ops[1..]);
      LeapOffsetFrom(s.next, ops[1..]);
      LeapOne(c, ops[0]);
      assert Restart in ops <==> ops[0] == Restart || Restart in ops[1..];
      if s.leap.Some? && Restart !in ops {
        assert ([s.leap.value] + rest)[1..] == rest;
      } else {
        assert [] + rest == rest;
      }
    }
  }

  lemma LeapOne(c: Clock, op: Op)
    ensures (var s := Apply(c, op);
             if op.Restart? then s.leap.None? && s.next.previousLeap == 0 && s.next.leapOffset == 0
             else if s.leap.Some? then
               && s.next.previousLeap == s.leap.value
               && s.next.leapOffset == c.leapOffset + LeapStep(c.previousLeap, s.leap.value)
             else s.next.previousLeap == c.previousLeap && s.next.leapOffset == c.leapOffset)
  {
  }

  /** Access units of one MPU. */
  predicate OneMpu(ops: seq<Op>, mpu: nat) { forall k :: 0 <= k < |ops| ==> ops[k].Au? && ops[k].mpu == mpu }

  /** However many access units an MPU has, its leap indicator counts at most once. */
  lemma {:induction false} ExaminedOnce(c: Clock, ops: seq<Op>, mpu: nat)
    requires OneMpu(ops, mpu)
    ensures |Examined(c, ops)| <= 1 && (c.examined == Some(mpu) ==> Examined(c, ops) == [])
    decreases |ops|
  {
    if ops != [] {
      assert ops[0].Au? && ops[0].mpu == mpu;
      ExaminedOnce(Apply(c, ops[0]).next, ops[1..], mpu);
    }
  }

  /** Access units in order, from index `from` on, under one type 1 descriptor; an untimed one takes the next free
      index. */
  predicate InOrder(c: Clock, ops: seq<Op>, from: nat, e: Extended)
    decreases |ops|
  {
    e.offsetType != 2 &&
    (ops == [] ||
     (var op := ops[0];
      && op.Au? && op.mapping.Some? && op.extended == Some(e)
      && from <= AuIndex(c, op.sample) && Covers(e, AuIndex(c, op.sample))
      && InOrder(Apply(c, op).next, ops[1..], AuIndex(c, op.sample), e)))
  }

  /** Each is stamped with its own decode time. */
  predicate AllStamped(c: Clock, ops: seq<Op>, e: Extended)
    decreases |ops|
  {
    ops == [] ||
    (var s := Apply(c, ops[0]);
     && ops[0].Au? && Covers(e, AuIndex(c, ops[0].sample))
     && s.stamp.Some? && s.stamp.value.dts == FixedDts(e, AuIndex(c, ops[0].sample))
     && AllStamped(s.next, ops[1..], e))
  }

  /** Type 1 never drops units that come in order. */
  lemma {:induction false} InOrderKept(c: Clock, ops: seq<Op>, from: nat, e: Extended)
    requires InOrder(c, ops, from, e)
    requires c.lastDts.Some? ==> Covers(e, from) && c.lastDts.value == FixedDts(e, from)
    ensures AllStamped(c, ops, e)
    decreases |ops|
  {
    if ops != [] {
      var i := AuIndex(c, ops[0].sample);
      if c.lastDts.Some? { FixedDtsRises(e, from, i); }
      InOrderKept(Apply(c, ops[0]).next, ops[1..], i, e);
    }
  }

  /** The decode times of the indexes that the units take. */
  function OwnTimes(c: Clock, ops: seq<Op>, e: Extended): seq<int>
    requires AllStamped(c, ops, e)
    decreases |ops|
  {
    if ops == [] then []
    else [FixedDts(e, AuIndex(c, ops[0].sample))] + OwnTimes(Apply(c, ops[0]).next, ops[1..], e)
  }

  lemma {:induction false} OwnTimesCount(c: Clock, ops: seq<Op>, e: Extended)
    requires AllStamped(c, ops, e)
    ensures |OwnTimes(c, ops, e)| == |ops|
    decreases |ops|
  {
    if ops != [] { OwnTimesCount(Apply(c, ops[0]).next, ops[1..], e); }
  }

  function DecodeTimes(stamps: seq<Stamp>): seq<int> { seq(|stamps|, i requires 0 <= i < |stamps| => stamps[i].dts) }

  lemma {:induction false} StampedInFull(c: Clock, ops: seq<Op>, e: Extended)
    requires AllStamped(c, ops, e)
    ensures DecodeTimes(Stamps(c, ops)) == OwnTimes(c, ops, e)
    decreases |ops|
  {
    if ops != [] {
      var s := Apply(c, ops[0]);
      var rest := Stamps(s.next, ops[1..]);
      StampedInFull(s.next, ops[1..], e);
      assert DecodeTimes([s.stamp.value] + rest) == [s.stamp.value.dts] + DecodeTimes(rest);
    }
  }

  /** Untimed units are always in order, as far as the descriptor reaches. */
  lemma {:induction false} UntimedInOrder(c: Clock, ops: seq<Op>, from: nat, e: Extended)
    requires e.offsetType != 2 && from <= c.auIndex && (ops == [] || Covers(e, c.auIndex + |ops| - 1))
    requires forall op :: op in ops ==> op.Au? && op.sample == 0 && op.mapping.Some? && op.extended == Some(e)
    ensures InOrder(c, ops, from, e)
    decreases |ops|
  {
    if ops != [] {
      assert ops[0] in ops;
      UntimedInOrder(Apply(c, ops[0]).next, ops[1..], c.auIndex, e);
    }
  }

  /** Type 1 decode times never fall inside an MPU. */
  lemma FixedDtsRises(e: Extended, i: nat, j: nat)
    requires i <= j && Covers(e, i) && Covers(e, j)
    ensures FixedDts(e, i) <= FixedDts(e, j)
  {
    assert j * e.ptsGaps[0] - i * e.ptsGaps[0] == (j - i) * e.ptsGaps[0];
  }

  // ----- short NTP stamps

  /** The full stamp nearest to `reference` whose low sixteen bits of seconds are those of the short form. */
  function ExpandSeconds(short: nat, reference: nat): int
    requires short < 0x1_0000 && reference < UINT32
  {
    var base := reference - reference % 0x1_0000 + short;
    var low := if base - reference > 32768 then base - 0x1_0000 else base;
    if reference - low > 32768 then low + 0x1_0000 else low
  }

  function ExpandShortNtp(short: nat, reference: nat): nat
    requires short < UINT32 && reference < UINT64
  {
    var seconds := ExpandSeconds(short / 0x1_0000, reference / UINT32);
    (seconds % UINT32) * UINT32 + (short % 0x1_0000) * 0x1_0000
  }

  /** The seconds picked agree with the short form and lie within 32768 seconds of the reference; away from the
      midpoint there are no others. */
  lemma ExpandNearest(short: nat, reference: nat, other: int)
    requires short < 0x1_0000 && reference < UINT32
    ensures (var s := ExpandSeconds(short, reference);
             && s % 0x1_0000 == short
             && -32768 <= s - reference <= 32768
             && (other % 0x1_0000 == short && -32768 < other - reference < 32768 ==> other == s))
  {
    var s := ExpandSeconds(short, reference);
    var k, r := reference / 0x1_0000, reference % 0x1_0000;
    assert reference == k * 0x1_0000 + r;
    var q := other / 0x1_0000;
    assert other == q * 0x1_0000 + other % 0x1_0000;
    assert s == k * 0x1_0000 + short || s == (k - 1) * 0x1_0000 + short || s == (k + 1) * 0x1_0000 + short;
  }

  /** The expanded stamp carries the short form's own bits in the middle of its 64. */
  lemma ExpandKeepsShort(short: nat, reference: nat)
    requires short < UINT32 && reference < UINT64
    ensures (var full := ExpandShortNtp(short, reference);
             full < UINT64 && (full / 0x1_0000) % UINT32 == short && full % 0x1_0000 == 0)
  {
    var hi, lo := short / 0x1_0000, short % 0x1_0000;
    var seconds := ExpandSeconds(hi, reference / UINT32);
    ExpandNearest(hi, reference / UINT32, 0);
    var m := seconds % UINT32;
    ModOfMod(seconds);
    var p := m / 0x1_0000;
    assert m == p * 0x1_0000 + hi;
    var full := m * UINT32 + lo * 0x1_0000;
    assert full == 0x1_0000 * (p * UINT32 + (hi * 0x1_0000 + lo));
    assert full / 0x1_0000 == p * UINT32 + short;
    ModShift(p, short);
  }

  lemma ModOfMod(x: int)
    ensures (x % UINT32) % 0x1_0000 == x % 0x1_0000
  {
    var q, r := x / UINT32, x % UINT32;
    var a, b := r / 0x1_0000, r % 0x1_0000;
    assert x == 0x1_0000 * (q * 0x1_0000 + a) + b;
    ModUnique(x, q * 0x1_0000 + a, b);
  }

  lemma ModUnique(x: int, q: int, r: int)
    requires x == 0x1_0000 * q + r && 0 <= r < 0x1_0000
    ensures x % 0x1_0000 == r
  {
    var k := x / 0x1_0000 - q;
    assert 0x1_0000 * k == r - x % 0x1_0000;
  }

  lemma ModShift(p: nat, x: nat)
    requires x < UINT32
    ensures (p * UINT32 + x) % UINT32 == x
  {
  }
}
