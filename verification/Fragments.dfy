/** Reassembly of fragmented MFUs: the state machine that the data-asset and the media paths share. */
module Fragments {
  import opened Bytes

  datatype Phase = Initial | Idle | Collecting | Skipping

  datatype Extensions = Extensions(downloadId: Option<nat>, itemFragment: Option<nat>, lastItemFragment: Option<nat>)

  /** What a unit inherits from the packet that starts it. */
  datatype Head = Head(inputOffset: nat, restartOffset: nat, randomAccess: bool, extensions: Extensions)

  type Sequence = n: nat | n < UINT32

  /** 0 is a complete unit, 1 the first, 2 a middle and 3 the last fragment of one. */
  type Fragmentation = f: nat | f < 4

  /** One MFU piece as carried by one packet; `key` is the sample number or the item id. */
  datatype Piece = Piece(sequence: Sequence, mpu: nat, key: nat, fragmentation: Fragmentation, aggregated: bool,
                         payload: seq<byte>, head: Head)

  datatype Unit = Unit(mpu: nat, key: nat, payload: seq<byte>, head: Head)

  datatype Assembly = Assembly(phase: Phase, last: Sequence, mpu: nat, key: nat, head: Head, data: seq<byte>)

  datatype Outcome = Outcome(next: Assembly, unit: Option<Unit>, damaged: bool)

  function NextSequence(n: Sequence): Sequence { (n + 1) % UINT32 }

  /** The MFU header: 14 bytes with the sample number at 4 when timed, 4 bytes of item id otherwise. */
  function ParseHeader(timed: bool, data: seq<byte>): Option<(nat, seq<byte>)> {
    if timed then if |data| < 14 then None else Some((Be32(data[4..8]), data[14..]))
    else if |data| < 4 then None else Some((Be32(data[..4]), data[4..]))
  }

  /** A repetition of the packet seen last: dropped without a trace. */
  predicate Repeats(a: Assembly, p: Piece) {
    a.phase != Initial && p.sequence == a.last && !(p.aggregated && p.fragmentation == 0)
  }

  /** A gap in the packet sequence drops whatever was being collected. */
  predicate Jumps(a: Assembly, p: Piece) {
    && a.phase != Initial
    && p.sequence != NextSequence(a.last)
    && !(p.aggregated && p.fragmentation == 0 && p.sequence == a.last)
  }

  predicate Continues(a: Assembly, p: Piece) {
    a.phase == Collecting && a.mpu == p.mpu && a.key == p.key
  }

  function Cleared(a: Assembly, phase: Phase): Assembly { a.(data := [], phase := phase) }

  function Merge(h: Head, p: Piece): Head { h.(randomAccess := h.randomAccess || p.head.randomAccess) }

  /** One piece through the state machine. */
  function Accept(limit: nat, before: Assembly, p: Piece): Outcome {
    if Repeats(before, p) then Outcome(before, None, false)
    else
      var jump := Jumps(before, p);
      var a := (if jump then Cleared(before, Skipping) else before).(last := p.sequence);
      if p.fragmentation == 0 then
        Outcome(Cleared(a, Idle), Some(Unit(p.mpu, p.key, p.payload, p.head)), jump || a.phase == Collecting)
      else if p.fragmentation == 1 then
        if |p.payload| > limit then
          Outcome(a.(data := [], phase := Skipping, mpu := p.mpu, key := p.key, head := p.head), None, true)
        else Outcome(a.(data := p.payload, phase := Collecting, mpu := p.mpu, key := p.key, head := p.head), None, jump)
      else if p.fragmentation == 2 then
        if a.phase == Skipping then Outcome(a, None, jump)
        else if !Continues(a, p) then Outcome(Cleared(a, Skipping), None, true)
        else if |a.data| + |p.payload| > limit then Outcome(Cleared(a, Skipping).(head := Merge(a.head, p)), None, true)
        else Outcome(a.(data := a.data + p.payload, head := Merge(a.head, p)), None, jump)
      else
        if a.phase == Skipping then Outcome(Cleared(a, Idle), None, jump)
        else if !Continues(a, p) then Outcome(Cleared(a, Idle), None, true)
        else
          var head := Merge(a.head, p);
          if |a.data| + |p.payload| > limit then Outcome(Cleared(a, Idle).(head := head), None, true)
          else Outcome(Cleared(a, Idle).(head := head), Some(Unit(a.mpu, a.key, a.data + p.payload, head)), jump)
  }

  // ----- runs

  datatype Trace = Trace(last: Assembly, units: seq<Unit>)

  function Emitted(o: Outcome): seq<Unit> { if o.unit.Some? then [o.unit.value] else [] }

  function Run(limit: nat, a: Assembly, ps: seq<Piece>): Trace
    decreases |ps|
  {
    if ps == [] then Trace(a, [])
    else
      var o := Accept(limit, a, ps[0]);
      var rest := Run(limit, o.next, ps[1..]);
      Trace(rest.last, Emitted(o) + rest.units)
  }

  lemma {:induction false} RunAppend(limit: nat, a: Assembly, ps: seq<Piece>, qs: seq<Piece>)
    ensures (var first := Run(limit, a, ps);
             var second := Run(limit, first.last, qs);
             Run(limit, a, ps + qs) == Trace(second.last, first.units + second.units))
    decreases |ps|
  {
    if ps == [] {
      assert ps + qs == qs;
      assert [] + Run(limit, a, qs).units == Run(limit, a, qs).units;
    } else {
      assert (ps + qs)[1..] == ps[1..] + qs;
      var o := Accept(limit, a, ps[0]);
      RunAppend(limit, o.next, ps[1..], qs);
      var first := Run(limit, o.next, ps[1..]);
      var second := Run(limit, first.last, qs);
      assert Emitted(o) + (first.units + second.units) == (Emitted(o) + first.units) + second.units;
    }
  }

  /** The pieces that are not repetitions. */
  function Fresh(limit: nat, a: Assembly, ps: seq<Piece>): seq<Piece>
    decreases |ps|
  {
    if ps == [] then []
    else (if Repeats(a, ps[0]) then [] else [ps[0]]) + Fresh(limit, Accept(limit, a, ps[0]).next, ps[1..])
  }

  /** Repeated packets leave no trace: the run is the run of the pieces that are not repetitions. */
  lemma {:induction false} RepeatsAreInvisible(limit: nat, a: Assembly, ps: seq<Piece>)
    ensures Run(limit, a, ps) == Run(limit, a, Fresh(limit, a, ps))
    decreases |ps|
  {
    if ps != [] {
      var o := Accept(limit, a, ps[0]);
      RepeatsAreInvisible(limit, o.next, ps[1..]);
      var rest := Fresh(limit, o.next, ps[1..]);
      if Repeats(a, ps[0]) {
        assert [] + rest == rest && [] + Run(limit, a, rest).units == Run(limit, a, rest).units;
      } else {
        assert ([ps[0]] + rest)[1..] == rest;
      }
    }
  }

  // ----- what an emitted unit is made of

  function Payloads(ps: seq<Piece>): seq<byte> {
    if ps == [] then [] else Payloads(ps[..|ps| - 1]) + ps[|ps| - 1].payload
  }

  /** The payload of a unit is the payloads of its pieces in the order of the packets. */
  lemma {:induction false} PayloadsInOrder(ps: seq<Piece>)
    ensures Payloads(ps) == Flatten(seq(|ps|, i requires 0 <= i < |ps| => ps[i].payload))
    decreases |ps|
  {
    var parts := seq(|ps|, i requires 0 <= i < |ps| => ps[i].payload);
    if ps != [] {
      var before := ps[..|ps| - 1];
      PayloadsInOrder(before);
      assert parts[..|ps| - 1] == seq(|before|, i requires 0 <= i < |before| => before[i].payload);
      FlattenSnoc(parts[..|ps| - 1], ps[|ps| - 1].payload);
      assert parts == parts[..|ps| - 1] + [ps[|ps| - 1].payload];
    }
  }

  /** The two headers: of a timed MFU fourteen bytes with the sample number behind the first four, of another one the
      item number alone. */
  lemma HeadersRead(four: seq<byte>, six: seq<byte>, n: nat, payload: seq<byte>)
    requires |four| == 4 && |six| == 6 && n < UINT32
    ensures ParseHeader(true, four + Wire32(n) + six + payload) == Some((n, payload))
    ensures ParseHeader(false, Wire32(n) + payload) == Some((n, payload))
  {
    hide Wire32;
    var body, item := four + Wire32(n) + six + payload, Wire32(n) + payload;
    assert body[4..8] == Wire32(n) && body[14..] == payload;
    assert item[..4] == Wire32(n) && item[4..] == payload;
  }

  function AnyRandomAccess(ps: seq<Piece>): bool { exists p :: p in ps && p.head.randomAccess }

  /** A first piece and middles after it: consecutive packets, one MPU, one sample or item. */
  predicate Chain(ps: seq<Piece>) {
    && ps != [] && ps[0].fragmentation == 1
    && (forall i :: 1 <= i < |ps| ==> ps[i].fragmentation == 2)
    && Linked(ps)
  }

  predicate Linked(ps: seq<Piece>) {
    forall i :: 1 <= i < |ps| ==>
      ps[i].sequence == NextSequence(ps[i - 1].sequence) && ps[i].mpu == ps[0].mpu && ps[i].key == ps[0].key
  }

  /** A chain closed by its last piece. */
  predicate Complete(ps: seq<Piece>) {
    && |ps| >= 2 && Chain(ps[..|ps| - 1])
    && ps[|ps| - 1].fragmentation == 3
    && Linked(ps)
  }

  function UnitOf(ps: seq<Piece>): Unit
    requires ps != []
  {
    Unit(ps[0].mpu, ps[0].key, Payloads(ps), ps[0].head.(randomAccess := AnyRandomAccess(ps)))
  }

  /** The unit is one unfragmented piece or a complete chain, and in the latter case within the limit. */
  predicate Genuine(limit: nat, u: Unit, ps: seq<Piece>) {
    if |ps| == 1 then ps[0].fragmentation == 0 && u == Unit(ps[0].mpu, ps[0].key, ps[0].payload, ps[0].head)
    else Complete(ps) && u == UnitOf(ps) && |u.payload| <= limit
  }

  /** While collecting, the buffer holds exactly the chain `h[i..]` that ends at the packet seen last. */
  predicate Gathered(limit: nat, a: Assembly, h: seq<Piece>, i: nat) {
    && i < |h|
    && var ps := h[i..];
    && Chain(ps)
    && a.mpu == ps[0].mpu && a.key == ps[0].key
    && a.last == ps[|ps| - 1].sequence
    && a.data == Payloads(ps) && |a.data| <= limit
    && a.head == ps[0].head.(randomAccess := AnyRandomAccess(ps))
  }

  ghost predicate Consistent(limit: nat, a: Assembly, h: seq<Piece>) {
    if a.phase == Collecting then exists i: nat :: Gathered(limit, a, h, i) else a.data == []
  }

  lemma Snoc(ps: seq<Piece>, p: Piece)
    requires ps != []
    ensures Payloads(ps + [p]) == Payloads(ps) + p.payload
    ensures AnyRandomAccess(ps + [p]) == (AnyRandomAccess(ps) || p.head.randomAccess)
    ensures (ps + [p])[..|ps|] == ps
  {
    assert (ps + [p])[..|ps + [p]| - 1] == ps;
    assert forall q :: q in ps + [p] <==> q in ps || q == p;
  }

  lemma Single(p: Piece)
    ensures Payloads([p]) == p.payload && AnyRandomAccess([p]) == p.head.randomAccess
  {
    assert [p][..0] == [];
    assert Payloads([p][..0]) + p.payload == p.payload;
    assert forall q :: q in [p] <==> q == p;
  }

  lemma Linking(limit: nat, a: Assembly, h: seq<Piece>, i: nat, p: Piece)
    requires a.phase == Collecting && Gathered(limit, a, h, i)
    requires !Repeats(a, p) && !Jumps(a, p) && Continues(a, p) && p.fragmentation != 0
    ensures Linked(h[i..] + [p])
  {
    var ps := h[i..];
    forall k | 1 <= k < |ps + [p]|
      ensures (ps + [p])[k].sequence == NextSequence((ps + [p])[k - 1].sequence)
      ensures (ps + [p])[k].mpu == ps[0].mpu && (ps + [p])[k].key == ps[0].key
    {
      if k < |ps| { assert (ps + [p])[k] == ps[k]; }
    }
  }

  ghost predicate EmitsGenuine(limit: nat, o: Outcome, h: seq<Piece>) {
    o.unit.Some? ==> exists i: nat :: i < |h| && Genuine(limit, o.unit.value, h[i..])
  }

  /** One fresh piece keeps the assembler consistent with the history, and what it emits is genuine. */
  lemma AcceptSound(limit: nat, a: Assembly, h: seq<Piece>, p: Piece)
    requires Consistent(limit, a, h) && !Repeats(a, p)
    ensures (var o := Accept(limit, a, p);
             Consistent(limit, o.next, h + [p]) && EmitsGenuine(limit, o, h + [p]))
  {
    if p.fragmentation <= 1 {
      StartSound(limit, a, h, p);
    } else if Continues(a, p) && !Jumps(a, p) {
      var i: nat :| Gathered(limit, a, h, i);
      if |a.data| + |p.payload| <= limit {
        if p.fragmentation == 2 { Extended(limit, a, h, i, p); } else { Closed(limit, a, h, i, p); }
      }
    }
  }

  lemma StartSound(limit: nat, a: Assembly, h: seq<Piece>, p: Piece)
    requires !Repeats(a, p) && p.fragmentation <= 1
    ensures (var o := Accept(limit, a, p);
             Consistent(limit, o.next, h + [p]) && EmitsGenuine(limit, o, h + [p]))
  {
    var o, i := Accept(limit, a, p), |h|;
    assert (h + [p])[i..] == [p];
    Single(p);
    if o.unit.Some? { assert Genuine(limit, o.unit.value, (h + [p])[i..]); }
    if o.next.phase == Collecting { assert Gathered(limit, o.next, h + [p], i); }
  }

  lemma Extended(limit: nat, a: Assembly, h: seq<Piece>, i: nat, p: Piece)
    requires a.phase == Collecting && Gathered(limit, a, h, i)
    requires !Repeats(a, p) && !Jumps(a, p) && Continues(a, p) && p.fragmentation == 2
    requires |a.data| + |p.payload| <= limit
    ensures Gathered(limit, Accept(limit, a, p).next, h + [p], i)
  {
    assert (h + [p])[i..] == h[i..] + [p];
    Snoc(h[i..], p);
    Linking(limit, a, h, i, p);
  }

  lemma Closed(limit: nat, a: Assembly, h: seq<Piece>, i: nat, p: Piece)
    requires a.phase == Collecting && Gathered(limit, a, h, i)
    requires !Repeats(a, p) && !Jumps(a, p) && Continues(a, p) && p.fragmentation == 3
    requires |a.data| + |p.payload| <= limit
    ensures Genuine(limit, Accept(limit, a, p).unit.value, (h + [p])[i..])
  {
    assert (h + [p])[i..] == h[i..] + [p];
    Snoc(h[i..], p);
    Linking(limit, a, h, i, p);
  }

  /** Every unit of `us` is genuine in the history: it is a contiguous stretch of the fresh packets. */
  ghost predicate AllGenuine(limit: nat, us: seq<Unit>, h: seq<Piece>) {
    forall u :: u in us ==> exists i, j :: 0 <= i < j <= |h| && Genuine(limit, u, h[i..j])
  }

  lemma GenuineGrows(limit: nat, us: seq<Unit>, h: seq<Piece>, more: seq<Piece>)
    requires AllGenuine(limit, us, h)
    ensures AllGenuine(limit, us, h + more)
  {
    forall u | u in us
      ensures exists i, j :: 0 <= i < j <= |h + more| && Genuine(limit, u, (h + more)[i..j])
    {
      var i, j :| 0 <= i < j <= |h| && Genuine(limit, u, h[i..j]);
      assert (h + more)[i..j] == h[i..j];
    }
  }

  /** Over every run from a new assembler, on any packets, every unit handed on is one unfragmented piece or the
      concatenation of one first, any middle and one last piece that arrived as consecutive packets
      (mod 2^32, repetitions aside) of one MPU and one sample or item, within the size limit. */
  lemma RunSound(limit: nat, a: Assembly, ps: seq<Piece>)
    requires a.phase == Initial && a.data == []
    ensures AllGenuine(limit, Run(limit, a, ps).units, Fresh(limit, a, ps))
  {
    RunSoundFrom(limit, a, [], ps);
    assert [] + Fresh(limit, a, ps) == Fresh(limit, a, ps);
  }

  lemma {:induction false} RunSoundFrom(limit: nat, a: Assembly, h: seq<Piece>, ps: seq<Piece>)
    requires Consistent(limit, a, h)
    ensures AllGenuine(limit, Run(limit, a, ps).units, h + Fresh(limit, a, ps))
    decreases |ps|
  {
    hide Accept;
    hide Consistent;
    hide AllGenuine;
    if ps == [] {
      NoUnits(limit, h + Fresh(limit, a, ps));
    } else {
      var p, o := ps[0], Accept(limit, a, ps[0]);
      var rest, units := Fresh(limit, o.next, ps[1..]), Run(limit, o.next, ps[1..]).units;
      if Repeats(a, p) {
        RepeatIsIdle(limit, a, p);
        RunSoundFrom(limit, a, h, ps[1..]);
        assert [] + rest == rest && [] + units == units;
      } else {
        AcceptSound(limit, a, h, p);
        RunSoundFrom(limit, o.next, h + [p], ps[1..]);
        assert (h + [p]) + rest == h + ([p] + rest);
        EmittedGenuine(limit, o, h + [p]);
        GenuineGrows(limit, Emitted(o), h + [p], rest);
        GenuineBoth(limit, Emitted(o), units, (h + [p]) + rest);
      }
    }
  }

  lemma NoUnits(limit: nat, h: seq<Piece>)
    ensures AllGenuine(limit, [], h)
  {
  }

  lemma RepeatIsIdle(limit: nat, a: Assembly, p: Piece)
    requires Repeats(a, p)
    ensures Accept(limit, a, p) == Outcome(a, None, false)
  {
  }

  lemma GenuineBoth(limit: nat, us: seq<Unit>, vs: seq<Unit>, h: seq<Piece>)
    requires AllGenuine(limit, us, h) && AllGenuine(limit, vs, h)
    ensures AllGenuine(limit, us + vs, h)
  {
  }

  lemma EmittedGenuine(limit: nat, o: Outcome, h: seq<Piece>)
    requires EmitsGenuine(limit, o, h)
    ensures AllGenuine(limit, Emitted(o), h)
  {
    if o.unit.Some? {
      var i: nat :| i < |h| && Genuine(limit, o.unit.value, h[i..]);
      assert h[i..|h|] == h[i..];
    }
  }

  // ----- the converse: nothing is lost

  /** From any state of the assembler, a fragmented unit within the limit whose first packet is not the one seen
      last is handed on exactly once and unchanged, however often its packets are repeated. */
  lemma NothingLost(limit: nat, a: Assembly, ps: seq<Piece>)
    requires (var fs := Fresh(limit, a, ps);
              Complete(fs) && |Payloads(fs)| <= limit)
    ensures Run(limit, a, ps).units == [UnitOf(Fresh(limit, a, ps))]
    ensures Run(limit, a, ps).last.phase == Idle
  {
    hide Accept;
    RepeatsAreInvisible(limit, a, ps);
    FreshAgain(limit, a, ps);
    var fs := Fresh(limit, a, ps);
    FirstIsFresh(limit, a, fs);
    ChainIsHandedOn(limit, a, fs);
  }

  function Copies<T>(p: T, n: nat): seq<T> { if n == 0 then [] else [p] + Copies(p, n - 1) }

  /** Each piece as often as the list says, and once more. */
  function Spread<T>(fs: seq<T>, ns: seq<nat>): seq<T>
    requires |ns| == |fs|
  {
    if fs == [] then [] else [fs[0]] + (Copies(fs[0], ns[0]) + Spread(fs[1..], ns[1..]))
  }

  lemma FreshRepeat(limit: nat, a: Assembly, ps: seq<Piece>)
    requires ps != [] && Repeats(a, ps[0])
    ensures Fresh(limit, a, ps) == Fresh(limit, a, ps[1..])
  {
    hide Accept;
    RepeatIsIdle(limit, a, ps[0]);
    assert [] + Fresh(limit, a, ps[1..]) == Fresh(limit, a, ps[1..]);
  }

  lemma {:induction false} CopiesSkipped(limit: nat, a: Assembly, p: Piece, n: nat, rest: seq<Piece>)
    requires Repeats(a, p)
    ensures Fresh(limit, a, Copies(p, n) + rest) == Fresh(limit, a, rest)
    decreases n
  {
    hide Fresh;
    if n == 0 {
      assert Copies(p, n) + rest == rest;
    } else {
      CopiesSkipped(limit, a, p, n - 1, rest);
      assert (Copies(p, n) + rest)[1..] == Copies(p, n - 1) + rest && (Copies(p, n) + rest)[0] == p;
      FreshRepeat(limit, a, Copies(p, n) + rest);
    }
  }

  /** Pieces numbered without a gap, none of them aggregated. */
  predicate Consecutive(fs: seq<Piece>) {
    && (forall i :: 0 <= i < |fs| ==> !(fs[i].aggregated && fs[i].fragmentation == 0))
    && (forall i :: 0 < i < |fs| ==> fs[i].sequence == NextSequence(fs[i - 1].sequence))
  }

  lemma AcceptedLast(limit: nat, a: Assembly, p: Piece)
    requires !Repeats(a, p)
    ensures (var t := Accept(limit, a, p).next; t.phase != Initial && t.last == p.sequence)
  {
  }

  lemma {:induction false} SpreadIsFresh(limit: nat, a: Assembly, fs: seq<Piece>, ns: seq<nat>)
    requires |ns| == |fs| && Consecutive(fs)
    requires fs != [] ==> a.phase == Initial || fs[0].sequence != a.last
    ensures Fresh(limit, a, Spread(fs, ns)) == fs
    decreases |fs|
  {
    if fs != [] {
      hide Accept;
      hide Repeats;
      hide Consecutive;
      hide Copies;
      var p, more := fs[0], Spread(fs[1..], ns[1..]);
      var t := Accept(limit, a, p).next;
      FirstOfMany(limit, a, fs);
      CopiesSkipped(limit, t, p, ns[0], more);
      assert Spread(fs, ns)[1..] == Copies(p, ns[0]) + more;
      SpreadIsFresh(limit, t, fs[1..], ns[1..]);
      assert [p] + fs[1..] == fs;
    }
  }

  lemma FirstOfMany(limit: nat, a: Assembly, fs: seq<Piece>)
    requires fs != [] && Consecutive(fs) && (a.phase == Initial || fs[0].sequence != a.last)
    ensures (var t := Accept(limit, a, fs[0]).next;
             && !Repeats(a, fs[0]) && Repeats(t, fs[0]) && Consecutive(fs[1..])
             && (|fs| > 1 ==> fs[1].sequence != t.last))
  {
    hide Accept;
    AcceptedLast(limit, a, fs[0]);
    if |fs| > 1 { assert fs[1].sequence == NextSequence(fs[0].sequence); }
  }

  /** In terms of the packets alone: from any state, a fragmented unit whose first packet does not have the number seen
      last is handed on exactly once and unchanged, each of its packets coming any number of times. */
  lemma UnitComesThrough(limit: nat, a: Assembly, fs: seq<Piece>, ns: seq<nat>)
    requires |ns| == |fs| && Complete(fs) && |Payloads(fs)| <= limit
    requires a.phase == Initial || fs[0].sequence != a.last
    ensures Run(limit, a, Spread(fs, ns)).units == [UnitOf(fs)]
    ensures Run(limit, a, Spread(fs, ns)).last.phase == Idle
  {
    SpreadIsFresh(limit, a, fs, ns);
    NothingLost(limit, a, Spread(fs, ns));
  }

  /** One unfragmented piece, or a complete chain within the limit. */
  predicate Carries(limit: nat, fs: seq<Piece>) {
    if |fs| == 1 then fs[0].fragmentation == 0 && !fs[0].aggregated else Complete(fs) && |Payloads(fs)| <= limit
  }

  /** What an assembler has seen last does not look like a repetition of the piece. */
  predicate Expects(a: Assembly, sequence: Sequence) { a.phase == Initial || sequence != a.last }

  lemma CarriesConsecutive(limit: nat, fs: seq<Piece>)
    requires Carries(limit, fs)
    ensures fs != [] && Consecutive(fs)
  {
  }

  /** The same for any unit, fragmented or not; and the last number seen is then that of its last packet. */
  lemma AnyUnitComesThrough(limit: nat, a: Assembly, fs: seq<Piece>, ns: seq<nat>)
    requires |ns| == |fs| && Carries(limit, fs) && Expects(a, fs[0].sequence)
    ensures (var t := Run(limit, a, Spread(fs, ns));
             && t.units == [UnitOf(fs)] && t.last.phase == Idle && t.last.last == fs[|fs| - 1].sequence)
  {
    hide Accept;
    hide Complete;
    CarriesConsecutive(limit, fs);
    SpreadIsFresh(limit, a, fs, ns);
    RepeatsAreInvisible(limit, a, Spread(fs, ns));
    LastSeen(limit, a, fs);
    if |fs| == 1 {
      OneWhole(limit, a, fs[0]);
      assert fs == [fs[0]];
    } else {
      UnitComesThrough(limit, a, fs, ns);
    }
  }

  lemma OneWhole(limit: nat, a: Assembly, p: Piece)
    requires p.fragmentation == 0 && !p.aggregated && Expects(a, p.sequence)
    ensures (var t := Run(limit, a, [p]); t.units == [UnitOf([p])] && t.last.phase == Idle)
  {
    RunOne(limit, a, p);
    Single(p);
  }

  lemma LastSeen(limit: nat, a: Assembly, fs: seq<Piece>)
    requires fs != [] && Consecutive(fs) && Expects(a, fs[0].sequence)
    ensures Run(limit, a, fs).last.last == fs[|fs| - 1].sequence
    decreases |fs|
  {
    hide Accept;
    hide Consecutive;
    FirstOfMany(limit, a, fs);
    AcceptedLast(limit, a, fs[0]);
    var t := Accept(limit, a, fs[0]).next;
    if |fs| > 1 {
      LastSeen(limit, t, fs[1..]);
    } else {
      assert fs[1..] == [];
    }
  }

  lemma ChainIsHandedOn(limit: nat, a: Assembly, fs: seq<Piece>)
    requires Complete(fs) && |Payloads(fs)| <= limit && !Repeats(a, fs[0])
    ensures (var t := Run(limit, a, fs); t.units == [UnitOf(fs)] && t.last.phase == Idle)
  {
    hide Accept;
    hide Run;
    hide Chain;
    var n := |fs| - 1;
    var ps, p := fs[..n], fs[n];
    assert fs == ps + [p];
    PayloadsGrow(fs, n);
    Collects(limit, a, fs, n);
    RunAppend(limit, a, ps, [p]);
    var now := Run(limit, a, ps).last;
    RunOne(limit, now, p);
    LastCloses(limit, now, fs);
    assert [] + [UnitOf(fs)] == [UnitOf(fs)];
  }

  lemma RunOne(limit: nat, a: Assembly, p: Piece)
    ensures (var o := Accept(limit, a, p); Run(limit, a, [p]) == Trace(o.next, Emitted(o)))
  {
    var o := Accept(limit, a, p);
    assert [p][1..] == [] && Run(limit, o.next, []) == Trace(o.next, []);
    assert Emitted(o) + [] == Emitted(o);
  }

  lemma LastCloses(limit: nat, now: Assembly, fs: seq<Piece>)
    requires Complete(fs) && |Payloads(fs)| <= limit
    requires now.phase == Collecting && Gathered(limit, now, fs[..|fs| - 1], 0)
    ensures (var o := Accept(limit, now, fs[|fs| - 1]); o.unit == Some(UnitOf(fs)) && o.next.phase == Idle)
  {
    var n := |fs| - 1;
    var ps, p := fs[..n], fs[n];
    assert ps[0..] == ps && fs == ps + [p];
    Snoc(ps, p);
    assert p.sequence == NextSequence(ps[n - 1].sequence) && p.mpu == fs[0].mpu && p.key == fs[0].key;
  }

  lemma FirstIsFresh(limit: nat, a: Assembly, fs: seq<Piece>)
    requires fs != [] && Fresh(limit, a, fs) == fs
    ensures !Repeats(a, fs[0])
  {
    if Repeats(a, fs[0]) { FreshShrinks(limit, Accept(limit, a, fs[0]).next, fs[1..]); }
  }

  lemma {:induction false} FreshShrinks(limit: nat, a: Assembly, ps: seq<Piece>)
    ensures |Fresh(limit, a, ps)| <= |ps|
    decreases |ps|
  {
    if ps != [] { FreshShrinks(limit, Accept(limit, a, ps[0]).next, ps[1..]); }
  }

  lemma {:induction false} FreshAgain(limit: nat, a: Assembly, ps: seq<Piece>)
    ensures Fresh(limit, a, Fresh(limit, a, ps)) == Fresh(limit, a, ps)
    decreases |ps|
  {
    if ps != [] {
      var o := Accept(limit, a, ps[0]);
      FreshAgain(limit, o.next, ps[1..]);
      var rest := Fresh(limit, o.next, ps[1..]);
      if Repeats(a, ps[0]) {
        assert [] + rest == rest;
      } else {
        assert ([ps[0]] + rest)[1..] == rest;
      }
    }
  }

  lemma {:induction false} PayloadsGrow(ps: seq<Piece>, n: nat)
    requires n <= |ps|
    ensures |Payloads(ps[..n])| <= |Payloads(ps)|
    decreases |ps|
  {
    if n < |ps| {
      PayloadsGrow(ps[..|ps| - 1], n);
      assert ps[..|ps| - 1][..n] == ps[..n];
    } else {
      assert ps[..n] == ps;
    }
  }

  lemma ChainPrefix(ps: seq<Piece>, m: nat)
    requires Chain(ps) && 1 <= m <= |ps|
    ensures Chain(ps[..m])
  {
    assert forall i :: 0 <= i < m ==> ps[..m][i] == ps[i];
  }

  /** Having taken the first `n` pieces of a chain, the assembler holds exactly them and has handed on nothing. */
  lemma {:induction false} Collects(limit: nat, a: Assembly, fs: seq<Piece>, n: nat)
    requires 1 <= n <= |fs| && Chain(fs[..n]) && !Repeats(a, fs[0]) && |Payloads(fs[..n])| <= limit
    ensures (var t := Run(limit, a, fs[..n]);
             t.units == [] && t.last.phase == Collecting && Gathered(limit, t.last, fs[..n], 0))
    decreases n
  {
    hide Accept;
    hide Gathered;
    hide Run;
    hide Linked;
    hide Repeats;
    hide Payloads;
    var ps := fs[..n];
    if n == 1 {
      assert ps == [fs[0]];
      FirstCollects(limit, a, fs[0]);
      RunOne(limit, a, fs[0]);
    } else {
      var m, p := n - 1, fs[n - 1];
      assert ps == fs[..m] + [p] && ps[..m] == fs[..m];
      PayloadsGrow(ps, m);
      ChainPrefix(ps, m);
      Collects(limit, a, fs, m);
      RunAppend(limit, a, fs[..m], [p]);
      var now := Run(limit, a, fs[..m]).last;
      RunOne(limit, now, p);
      MiddleCollects(limit, now, fs[..m], p);
    }
  }

  lemma FirstCollects(limit: nat, a: Assembly, p: Piece)
    requires p.fragmentation == 1 && !Repeats(a, p) && |Payloads([p])| <= limit
    ensures (var o := Accept(limit, a, p);
             o.unit == None && o.next.phase == Collecting && Gathered(limit, o.next, [p], 0))
  {
    Single(p);
    assert [p][0..] == [p];
  }

  lemma MiddleCollects(limit: nat, now: Assembly, h: seq<Piece>, p: Piece)
    requires now.phase == Collecting && Gathered(limit, now, h, 0)
    requires Chain(h + [p]) && |Payloads(h + [p])| <= limit
    ensures (var o := Accept(limit, now, p);
             o.unit == None && o.next.phase == Collecting && Gathered(limit, o.next, h + [p], 0))
  {
    assert h[0..] == h;
    MiddleFits(h, p);
    hide Chain;
    hide Linked;
    Snoc(h, p);
    Extended(limit, now, h, 0, p);
  }

  lemma MiddleFits(h: seq<Piece>, p: Piece)
    requires h != [] && Chain(h + [p])
    ensures p.fragmentation == 2 && p.sequence == NextSequence(h[|h| - 1].sequence)
    ensures p.mpu == h[0].mpu && p.key == h[0].key
  {
    var ps := h + [p];
    assert ps[|h|] == p && ps[|h| - 1] == h[|h| - 1] && ps[0] == h[0];
  }

  // ----- what is lost is noted

  /** The piece joins what is being collected, or completes it. */
  predicate Joins(a: Assembly, p: Piece, o: Outcome) {
    || (p.fragmentation == 2 && o.next.phase == Collecting && o.next.data == a.data + p.payload)
    || (p.fragmentation == 3 && o.unit.Some? && o.unit.value.payload == a.data + p.payload)
  }

  /** A gap in the packet numbers is always noted as damage. What was being collected is either joined by the next
      packet or lost, and a loss is noted unless the first fragment of another unit comes with the very next number. */
  lemma LossIsNoted(limit: nat, a: Assembly, p: Piece)
    requires !Repeats(a, p)
    ensures (var o := Accept(limit, a, p);
             && (Jumps(a, p) ==> o.damaged)
             && (a.phase == Collecting ==>
                   (!Joins(a, p, o) && !o.damaged <==>
                    p.fragmentation == 1 && p.sequence == NextSequence(a.last) && |p.payload| <= limit)))
  {
  }

  /** And the packets of a unit that follow on each other, when nothing is being collected, cause none. */
  lemma {:induction false} ChainIsUndamaged(limit: nat, a: Assembly, fs: seq<Piece>, n: nat)
    requires Carries(limit, fs) && n < |fs|
    requires a.phase == Initial || (a.phase != Collecting && fs[0].sequence == NextSequence(a.last))
    ensures !Accept(limit, Run(limit, a, fs[..n]).last, fs[n]).damaged
  {
    if n == 0 {
      assert fs[..0] == [];
      FirstFits(limit, fs);
      hide Payloads;
      hide Chain;
    } else {
      ChainPart(limit, fs, n);
      FirstExpected(a, fs[0]);
      hide Accept;
      hide Run;
      hide Chain;
      hide Carries;
      hide Gathered;
      hide Repeats;
      hide Payloads;
      Collects(limit, a, fs, n);
      assert fs[..n][0] == fs[0] && fs[..n][n - 1] == fs[n - 1];
      NextIsUndamaged(limit, Run(limit, a, fs[..n]).last, fs[..n], fs[n]);
    }
  }

  lemma NextIsUndamaged(limit: nat, now: Assembly, h: seq<Piece>, p: Piece)
    requires now.phase == Collecting && Gathered(limit, now, h, 0) && |Payloads(h + [p])| <= limit
    requires p.sequence == NextSequence(h[|h| - 1].sequence) && p.mpu == h[0].mpu && p.key == h[0].key
    requires p.fragmentation >= 2
    ensures !Accept(limit, now, p).damaged
  {
    hide Chain;
    hide AnyRandomAccess;
    assert h[0..] == h;
    Snoc(h, p);
    hide Payloads;
  }

  lemma FirstFits(limit: nat, fs: seq<Piece>)
    requires Carries(limit, fs)
    ensures fs[0].fragmentation <= 1 && (fs[0].fragmentation == 1 ==> |fs[0].payload| <= limit)
  {
    if |fs| > 1 {
      PayloadsGrow(fs, 1);
      assert fs[..1] == [fs[0]];
      Single(fs[0]);
      assert fs[..|fs| - 1][0] == fs[0];
    }
  }

  lemma FirstExpected(a: Assembly, p: Piece)
    requires a.phase == Initial || p.sequence == NextSequence(a.last)
    ensures !Repeats(a, p)
  {
  }

  lemma ChainPart(limit: nat, fs: seq<Piece>, n: nat)
    requires Carries(limit, fs) && 1 <= n < |fs|
    ensures Chain(fs[..n]) && |Payloads(fs[..n])| <= limit && |Payloads(fs[..n] + [fs[n]])| <= limit
    ensures fs[n].sequence == NextSequence(fs[n - 1].sequence) && fs[n].mpu == fs[0].mpu && fs[n].key == fs[0].key
    ensures fs[n].fragmentation == if n == |fs| - 1 then 3 else 2
  {
    PayloadsGrow(fs, n);
    PayloadsGrow(fs, n + 1);
    assert fs[..n] + [fs[n]] == fs[..n + 1];
    var all := fs[..|fs| - 1];
    assert forall i :: 0 <= i < |fs| - 1 ==> all[i] == fs[i];
    assert forall i :: 0 <= i < n ==> fs[..n][i] == fs[i];
    hide Payloads;
  }
}
