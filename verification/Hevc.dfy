/** Assembly of HEVC access units from NAL units: which NALs go together, and what is handed on. */
module Hevc {
  import opened Bytes

  /** A NAL unit has at least its two header bytes. */
  type Nal = s: seq<byte> | |s| >= 2 witness [0, 0]

  function NalType(n: Nal): nat { (n[0] / 2) % 64 }

  predicate IsVcl(n: Nal) { NalType(n) <= 31 }

  predicate IsIrap(n: Nal) { 16 <= NalType(n) <= 23 }

  predicate FirstSlice(n: Nal) { IsVcl(n) && |n| >= 3 && n[2] >= 0x80 }

  predicate IsAud(n: Nal) { NalType(n) == 35 }

  /** Parameter sets and prefix SEI. */
  predicate IsPrefix(n: Nal) { NalType(n) == 32 || NalType(n) == 33 || NalType(n) == 34 || NalType(n) == 39 }

  /** The two header bytes (section 7.3.1.2 of H.265): a zero bit, six bits of type, six of layer, three of temporal
      identifier. */
  function Header(kind: nat, layer: nat, temporal: nat): seq<byte>
    requires kind < 64 && layer < 64 && temporal < 8
  {
    [kind * 2 + layer / 32, layer % 32 * 8 + temporal]
  }

  /** One NAL as it arrives: its MPU, its sample number (0 when untimed) and the packet's flags and offsets. */
  datatype Item = Item(nal: Nal, mpu: nat, sample: nat, randomAccess: bool, inputOffset: nat, restartOffset: nat)

  predicate Rap(i: Item) { i.randomAccess || IsIrap(i.nal) }

  /** What a NAL unit counts as, from its type and the first bit behind its header. */
  lemma KindsOnTheWire(kind: nat, layer: nat, temporal: nat, rest: seq<byte>, item: Item)
    requires kind < 64 && layer < 64 && temporal < 8 && item.nal == Header(kind, layer, temporal) + rest
    ensures (var n := item.nal;
             && (IsVcl(n) <==> kind < 32)
             && (IsIrap(n) <==> kind in {16, 17, 18, 19, 20, 21, 22, 23})
             && (FirstSlice(n) <==> kind < 32 && rest != [] && rest[0] / 128 == 1)
             && (IsAud(n) <==> kind == 35)
             && (IsPrefix(n) <==> kind in {32, 33, 34, 39})
             && (Rap(item) <==> item.randomAccess || 16 <= kind <= 23))
  {
    var n := item.nal;
    assert rest != [] ==> n[2] == rest[0];
    assert n[0] / 2 == kind;
  }

  /** Byte-stream form: each NAL behind a three-byte start code. */
  function AnnexB(items: seq<Item>): seq<byte> {
    if items == [] then [] else AnnexB(items[..|items| - 1]) + [0, 0, 1] + items[|items| - 1].nal
  }

  predicate HasVcl(items: seq<Item>) { exists i :: i in items && IsVcl(i.nal) }

  predicate HasRap(items: seq<Item>) { exists i :: i in items && Rap(i) }

  /** What is waiting (no items: nothing is active), and the two flags that decide what may pass. */
  datatype State = State(items: seq<Item>, skipping: bool, waitForRap: bool)

  datatype Outcome = Outcome(next: State, unit: Option<seq<Item>>, damaged: bool)

  /** Close what is waiting: hand it on, unless it has no picture or random access is still awaited. */
  function Finalize(st: State): Outcome {
    if st.items == [] then Outcome(st, None, false)
    else if !HasVcl(st.items) then Outcome(st.(items := []), None, true)
    else if st.waitForRap && !HasRap(st.items) then Outcome(st.(items := []), None, false)
    else Outcome(st.(items := [], waitForRap := st.waitForRap && !HasRap(st.items)), Some(st.items), false)
  }

  predicate StartsAccessUnit(n: Nal) { IsAud(n) || FirstSlice(n) || IsPrefix(n) }

  /** The item cannot belong to what is waiting. */
  predicate Begins(items: seq<Item>, i: Item) {
    || IsAud(i.nal)
    || (FirstSlice(i.nal) && HasVcl(items))
    || (IsPrefix(i.nal) && HasVcl(items))
    || (i.sample != 0 && items != [] && items[0].sample != i.sample)
  }

  /** One NAL. */
  function Feed(limit: nat, st: State, i: Item): Outcome {
    if st.skipping && !StartsAccessUnit(i.nal) then Outcome(st, None, false)
    else
      var st := st.(skipping := false);
      if IsVcl(i.nal) && !FirstSlice(i.nal) && !HasVcl(st.items) then
        Outcome(st.(items := [], skipping := true), None, true)
      else
        var closed := if Begins(st.items, i) then Finalize(st) else Outcome(st, None, false);
        Add(limit, closed, i)
  }

  function Add(limit: nat, closed: Outcome, i: Item): Outcome {
    var held := closed.next.items;
    if |AnnexB(held)| > limit || limit - |AnnexB(held)| < |i.nal| + 3 then
      Outcome(closed.next.(items := []), closed.unit, true)
    else
      closed.(next := closed.next.(items := held + [i]))
  }

  // ----- what every access unit handed on looks like

  predicate OneSample(items: seq<Item>) {
    forall i, j :: i in items && j in items && i.sample != 0 && j.sample != 0 ==> i.sample == j.sample
  }

  /** The ordering of section 7.4.2.4.4 of H.265 as far as the assembler promises it. */
  predicate Ordered(items: seq<Item>) {
    && (forall k :: 0 < k < |items| ==> !IsAud(items[k].nal))
    && (forall j, k :: 0 <= j < k < |items| && IsVcl(items[j].nal) ==>
          !IsPrefix(items[k].nal) && !FirstSlice(items[k].nal))
    && (forall k :: 0 < k < |items| && IsVcl(items[k].nal) && !HasVcl(items[..k]) ==> FirstSlice(items[k].nal))
  }

  /** The invariant of what is waiting. */
  predicate Proper(limit: nat, items: seq<Item>) {
    && Ordered(items)
    && OneSample(items)
    && (items != [] && items[0].sample == 0 ==> forall i :: i in items ==> i.sample == 0)
    && |AnnexB(items)| <= limit
  }

  predicate AccessUnit(limit: nat, items: seq<Item>) { items != [] && HasVcl(items) && Proper(limit, items) }

  lemma AnnexBSnoc(items: seq<Item>, i: Item)
    ensures AnnexB(items + [i]) == AnnexB(items) + [0, 0, 1] + i.nal
    ensures HasVcl(items + [i]) == (HasVcl(items) || IsVcl(i.nal))
    ensures HasRap(items + [i]) == (HasRap(items) || Rap(i))
  {
    assert (items + [i])[..|items + [i]| - 1] == items;
    assert forall j :: j in items + [i] <==> j in items || j == i;
  }

  /** The byte stream is the NALs in order, each behind its start code. */
  lemma {:induction false} AnnexBInOrder(items: seq<Item>)
    ensures AnnexB(items) == Flatten(seq(|items|, i requires 0 <= i < |items| => [0x00, 0x00, 0x01] + items[i].nal))
    decreases |items|
  {
    var parts := seq(|items|, i requires 0 <= i < |items| => [0x00, 0x00, 0x01] + items[i].nal);
    if items != [] {
      var before, last := items[..|items| - 1], items[|items| - 1];
      AnnexBInOrder(before);
      assert parts[..|items| - 1] == seq(|before|, i requires 0 <= i < |before| => [0x00, 0x00, 0x01] + before[i].nal);
      FlattenSnoc(parts[..|items| - 1], [0, 0, 1] + last.nal);
      assert parts == parts[..|items| - 1] + [[0, 0, 1] + last.nal];
      assert AnnexB(before) + [0, 0, 1] + last.nal == AnnexB(before) + ([0, 0, 1] + last.nal);
    }
  }

  lemma VclBefore(items: seq<Item>, k: nat)
    requires k < |items| && IsVcl(items[k].nal)
    ensures HasVcl(items)
  {
    assert items[k] in items;
  }

  lemma SnocProper(limit: nat, items: seq<Item>, i: Item)
    requires Proper(limit, items) && (items == [] || !Begins(items, i))
    requires IsVcl(i.nal) && !FirstSlice(i.nal) ==> HasVcl(items) || items == []
    requires |AnnexB(items)| + |i.nal| + 3 <= limit
    ensures Proper(limit, items + [i])
  {
    AnnexBSnoc(items, i);
    SnocOrdered(items, i);
    SnocSample(limit, items, i);
  }

  lemma SnocOrdered(items: seq<Item>, i: Item)
    requires Ordered(items) && (items == [] || !Begins(items, i))
    requires IsVcl(i.nal) && !FirstSlice(i.nal) ==> HasVcl(items) || items == []
    ensures Ordered(items + [i])
  {
    var all, n := items + [i], |items|;
    forall j, k | 0 <= j < k < |all| && IsVcl(all[j].nal)
      ensures !IsPrefix(all[k].nal) && !FirstSlice(all[k].nal)
    {
      if k == n { VclBefore(items, j); }
    }
    forall k | 0 < k < |all| && IsVcl(all[k].nal) && !HasVcl(all[..k])
      ensures FirstSlice(all[k].nal)
    {
      assert all[..k] == items[..k];
      if k == n { assert items[..k] == items; }
    }
  }

  lemma SnocSample(limit: nat, items: seq<Item>, i: Item)
    requires Proper(limit, items) && (items == [] || !Begins(items, i))
    ensures OneSample(items + [i])
    ensures (items + [i])[0].sample == 0 ==> forall j :: j in items + [i] ==> j.sample == 0
  {
    var all := items + [i];
    if items != [] {
      assert items[0] in items && all[0] == items[0];
    }
    forall j | j in all
      ensures j in items || j == i
    {
    }
  }

  /** What a step hands on is an access unit, and the step keeps what waits proper; while random access is awaited
      only a random-access unit passes, and passing it ends the wait. */
  predicate StepSound(limit: nat, st: State, o: Outcome) {
    && Proper(limit, o.next.items)
    && (o.unit.Some? ==> AccessUnit(limit, o.unit.value) && o.unit.value == st.items)
    && (o.unit.Some? && st.waitForRap ==> HasRap(o.unit.value))
    && o.next.waitForRap == (st.waitForRap && o.unit.None?)
  }

  lemma FinalizeSound(limit: nat, st: State)
    requires Proper(limit, st.items)
    ensures StepSound(limit, st, Finalize(st)) && Finalize(st).next.items == []
  {
  }

  lemma AddSound(limit: nat, st: State, closed: Outcome, i: Item)
    requires StepSound(limit, st, closed)
    requires (var held := closed.next.items; held == [] || !Begins(held, i))
    requires IsVcl(i.nal) && !FirstSlice(i.nal) ==> HasVcl(closed.next.items) || closed.next.items == []
    ensures StepSound(limit, st, Add(limit, closed, i))
  {
    hide Proper;
    hide Begins;
    var held := closed.next.items;
    if |AnnexB(held)| + |i.nal| + 3 <= limit { SnocProper(limit, held, i); }
    EmptyProper(limit);
  }

  lemma EmptyProper(limit: nat)
    ensures Proper(limit, [])
  {
  }

  lemma FeedSound(limit: nat, st: State, i: Item)
    requires Proper(limit, st.items)
    ensures StepSound(limit, st, Feed(limit, st, i))
  {
    hide Proper;
    hide Add;
    hide Begins;
    EmptyProper(limit);
    var begun := st.(skipping := false);
    if Begins(st.items, i) {
      FinalizeSound(limit, begun);
      AddSound(limit, begun, Finalize(begun), i);
    } else if IsVcl(i.nal) && !FirstSlice(i.nal) ==> HasVcl(st.items) {
      AddSound(limit, begun, Outcome(begun, None, false), i);
    }
  }

  // ----- what is lost is noted

  /** What a step keeps: the unit handed on, and behind it what waits. */
  function KeptBy(o: Outcome): seq<Item> { (if o.unit.Some? then o.unit.value else []) + o.next.items }

  /** One NAL leaves everything in place behind what waited, or else notes damage exactly unless it is skipped or what
      waited is passed over for not offering random access. */
  lemma LossIsNoted(limit: nat, st: State, i: Item)
    requires st.skipping ==> st.items == []
    ensures (var o := Feed(limit, st, i); var all := st.items + [i];
             if st.skipping && !(IsAud(i.nal) || FirstSlice(i.nal) || IsPrefix(i.nal))
             then !o.damaged && o.next == st && o.unit == None
             else if o.damaged then |KeptBy(o)| < |all|
             else KeptBy(o) == all || (KeptBy(o) == [i] && st.waitForRap && !HasRap(st.items)))
  {
    hide HasRap;
    hide AnnexB;
  }

  /** The same at the end of what waits. */
  lemma EndIsNoted(st: State)
    ensures (var o := Finalize(st);
             && o.next.items == []
             && (o.unit == Some(st.items) || (o.unit == None && (st.items == [] || o.damaged
                                                                || (st.waitForRap && !HasRap(st.items)))))
             && (o.damaged ==> o.unit == None && st.items != []))
  {
  }

  // ----- runs

  /** A NAL; the change of MPU; the end of the stream; a track that is new or changes its codec. */
  datatype Op = Arrive(item: Item) | MpuChange | EndOfStream | Install

  /** What a run shows: units handed on, and the points from which random access is awaited again. */
  datatype Event = Unit(items: seq<Item>) | Await

  function Handed(o: Outcome): seq<Event> { if o.unit.Some? then [Unit(o.unit.value)] else [] }

  function Step(limit: nat, st: State, op: Op): (State, seq<Event>) {
    match op
    case Arrive(i) => var o := Feed(limit, st, i); (o.next, Handed(o))
    case MpuChange => var o := Finalize(st); (o.next, Handed(o))
    case EndOfStream => (State([], false, true), Handed(Finalize(st)) + [Await])
    case Install => (State([], false, true), [Await])
  }

  function Run(limit: nat, st: State, ops: seq<Op>): (State, seq<Event>)
    decreases |ops|
  {
    if ops == [] then (st, [])
    else
      var (next, es) := Step(limit, st, ops[0]);
      var (last, rest) := Run(limit, next, ops[1..]);
      (last, es + rest)
  }

  /** All units are access units, and the first one after every `Await` (and the very first, if `waiting`) offers
      random access. */
  predicate Lawful(limit: nat, es: seq<Event>, waiting: bool) {
    if es == [] then true
    else match es[0]
      case Await => Lawful(limit, es[1..], true)
      case Unit(items) => AccessUnit(limit, items) && (waiting ==> HasRap(items)) && Lawful(limit, es[1..], false)
  }

  /** Over every run of a track, from its installation on. */
  lemma RunSound(limit: nat, ops: seq<Op>)
    ensures Lawful(limit, Run(limit, State([], false, true), ops).1, true)
  {
    RunSoundFrom(limit, State([], false, true), ops);
  }

  lemma {:induction false} RunSoundFrom(limit: nat, st: State, ops: seq<Op>)
    requires Proper(limit, st.items)
    ensures Lawful(limit, Run(limit, st, ops).1, st.waitForRap)
    decreases |ops|
  {
    hide Proper;
    hide Feed;
    hide Finalize;
    if ops != [] {
      var (next, es) := Step(limit, st, ops[0]);
      var rest := Run(limit, next, ops[1..]).1;
      EmptyProper(limit);
      match ops[0]
      case Arrive(i) =>
        FeedSound(limit, st, i);
        RunSoundFrom(limit, next, ops[1..]);
        LawfulAfter(limit, st, Feed(limit, st, i), rest);
      case MpuChange =>
        FinalizeSound(limit, st);
        RunSoundFrom(limit, next, ops[1..]);
        LawfulAfter(limit, st, Finalize(st), rest);
      case EndOfStream =>
        FinalizeSound(limit, st);
        RunSoundFrom(limit, next, ops[1..]);
        LawfulAtEnd(limit, st, Finalize(st), rest);
      case Install =>
        RunSoundFrom(limit, next, ops[1..]);
        assert ([Await] + rest)[1..] == rest;
    }
  }

  lemma LawfulAfter(limit: nat, st: State, o: Outcome, rest: seq<Event>)
    requires StepSound(limit, st, o) && Lawful(limit, rest, o.next.waitForRap)
    ensures Lawful(limit, Handed(o) + rest, st.waitForRap)
  {
    if o.unit.Some? {
      assert (Handed(o) + rest)[1..] == rest;
    } else {
      assert Handed(o) + rest == rest;
    }
  }

  lemma LawfulAtEnd(limit: nat, st: State, o: Outcome, rest: seq<Event>)
    requires StepSound(limit, st, o) && Lawful(limit, rest, true)
    ensures Lawful(limit, (Handed(o) + [Await]) + rest, st.waitForRap)
  {
    var later := [Await] + rest;
    assert later[1..] == rest;
    assert (Handed(o) + [Await]) + rest == Handed(o) + later;
    if o.unit.Some? {
      assert (Handed(o) + later)[1..] == later;
    } else {
      assert Handed(o) + later == later;
    }
  }

  // ----- the converse: well-formed pictures come back whole

  /** An access unit as an encoder sends it: one sample number; an optional delimiter, non-VCL NALs, then the first
      slice, and after it neither another first slice nor anything that opens an access unit. */
  predicate Sent(limit: nat, au: seq<Item>) {
    && AccessUnit(limit, au)
    && (forall i :: i in au ==> i.sample == au[0].sample)
    && (forall k :: 0 <= k < |au| && IsVcl(au[k].nal) && !HasVcl(au[..k]) ==> FirstSlice(au[k].nal))
  }

  /** The next unit shows that it is one: it opens with a delimiter, a prefix or a first slice, or it is no slice and
      carries a new sample number. */
  predicate Separated(au: seq<Item>, next: seq<Item>)
    requires au != [] && next != []
  {
    var i := next[0];
    StartsAccessUnit(i.nal) || (!IsVcl(i.nal) && i.sample != 0 && i.sample != au[0].sample)
  }

  predicate Stream(limit: nat, aus: seq<seq<Item>>) {
    && (forall k :: 0 <= k < |aus| ==> Sent(limit, aus[k]))
    && (forall k :: 0 < k < |aus| ==> Separated(aus[k - 1], aus[k]))
  }

  function Arrivals(items: seq<Item>): seq<Op> { seq(|items|, k requires 0 <= k < |items| => Arrive(items[k])) }

  function AllArrivals(aus: seq<seq<Item>>): seq<Op> {
    if aus == [] then [] else Arrivals(aus[0]) + AllArrivals(aus[1..])
  }

  /** What is known when the next unit begins: a complete unit waits, or nothing does. */
  predicate Before(limit: nat, prev: seq<Item>, next: seq<Item>) {
    next != [] && (prev != [] ==> AccessUnit(limit, prev) && Separated(prev, next))
  }

  function Closing(prev: seq<Item>, waiting: bool): seq<Event> {
    if prev == [] || (waiting && !HasRap(prev)) then [] else [Unit(prev)]
  }

  /** The units from the first one that offers random access, or all of them when none is awaited. */
  function Passing(aus: seq<seq<Item>>, waiting: bool): seq<Event> {
    if aus == [] then [] else Closing(aus[0], waiting) + Passing(aus[1..], waiting && !HasRap(aus[0]))
  }

  predicate StillWaits(aus: seq<seq<Item>>, waiting: bool) {
    waiting && forall k :: 0 <= k < |aus| ==> !HasRap(aus[k])
  }

  lemma {:induction false} RunAppend(limit: nat, st: State, ops: seq<Op>, more: seq<Op>)
    ensures (var (mid, es) := Run(limit, st, ops);
             var (last, fs) := Run(limit, mid, more);
             Run(limit, st, ops + more) == (last, es + fs))
    decreases |ops|
  {
    if ops == [] {
      assert ops + more == more;
      assert [] + Run(limit, st, more).1 == Run(limit, st, more).1;
    } else {
      hide Step;
      assert (ops + more)[1..] == ops[1..] + more;
      var (next, e) := Step(limit, st, ops[0]);
      RunAppend(limit, next, ops[1..], more);
      var (mid, es) := Run(limit, next, ops[1..]);
      var fs := Run(limit, mid, more).1;
      assert e + (es + fs) == (e + es) + fs;
    }
  }

  lemma RunOne(limit: nat, st: State, op: Op)
    ensures Run(limit, st, [op]) == Step(limit, st, op)
  {
    var (next, es) := Step(limit, st, op);
    assert [op][1..] == [] && es + [] == es;
  }

  lemma {:induction false} AnnexBGrows(items: seq<Item>, k: nat)
    requires k <= |items|
    ensures |AnnexB(items[..k])| <= |AnnexB(items)|
    decreases |items|
  {
    if k < |items| {
      AnnexBGrows(items[..|items| - 1], k);
      assert items[..|items| - 1][..k] == items[..k];
    } else {
      assert items[..k] == items;
    }
  }

  /** The first NAL of a unit closes the unit before it and waits alone. */
  lemma FeedFirst(limit: nat, prev: seq<Item>, waiting: bool, au: seq<Item>)
    requires Before(limit, prev, au) && Sent(limit, au)
    ensures Step(limit, State(prev, false, waiting), Arrive(au[0]))
         == (State(au[..1], false, waiting && !HasRap(prev)), Closing(prev, waiting))
  {
    var i := au[0];
    assert au[..1] == [i] && au[..0] == [] && [] + [i] == [i];
    AnnexBGrows(au, 1);
    AnnexBSnoc([], i);
    assert IsVcl(i.nal) ==> FirstSlice(i.nal) || prev != [];
    if prev != [] { assert Begins(prev, i); }
  }

  lemma Joins(limit: nat, au: seq<Item>, k: nat)
    requires Sent(limit, au) && 1 <= k < |au|
    ensures !Begins(au[..k], au[k])
    ensures IsVcl(au[k].nal) && !FirstSlice(au[k].nal) ==> HasVcl(au[..k])
  {
    var items := au[..k];
    assert au[k] in au && items[0] == au[0];
    if HasVcl(items) {
      var j :| j in items && IsVcl(j.nal);
      var m :| 0 <= m < k && items[m] == j;
      assert au[m] == j;
    }
  }

  lemma FeedJoins(limit: nat, st: State, i: Item)
    requires !st.skipping && !Begins(st.items, i) && |AnnexB(st.items)| + 3 + |i.nal| <= limit
    requires IsVcl(i.nal) && !FirstSlice(i.nal) ==> HasVcl(st.items)
    ensures Feed(limit, st, i) == Outcome(st.(items := st.items + [i]), None, false)
  {
    hide Begins;
    hide HasVcl;
    hide FirstSlice;
    assert st.(skipping := false) == st;
  }

  /** The others join it. */
  lemma FeedNext(limit: nat, waiting: bool, au: seq<Item>, k: nat)
    requires Sent(limit, au) && 1 <= k < |au|
    ensures Step(limit, State(au[..k], false, waiting), Arrive(au[k])) == (State(au[..k + 1], false, waiting), [])
  {
    hide Begins;
    hide FirstSlice;
    hide Feed;
    hide Ordered;
    hide OneSample;
    hide IsVcl;
    Joins(limit, au, k);
    assert au[..k + 1] == au[..k] + [au[k]];
    AnnexBGrows(au, k + 1);
    AnnexBSnoc(au[..k], au[k]);
    FeedJoins(limit, State(au[..k], false, waiting), au[k]);
  }

  lemma {:induction false} FeedUnit(limit: nat, prev: seq<Item>, waiting: bool, au: seq<Item>, k: nat)
    requires Before(limit, prev, au) && Sent(limit, au) && 1 <= k <= |au|
    ensures Run(limit, State(prev, false, waiting), Arrivals(au)[..k])
         == (State(au[..k], false, waiting && !HasRap(prev)), Closing(prev, waiting))
    decreases k
  {
    hide Step;
    hide Sent;
    var st, ops := State(prev, false, waiting), Arrivals(au);
    if k == 1 {
      assert ops[..1] == [Arrive(au[0])];
      RunOne(limit, st, ops[0]);
      FeedFirst(limit, prev, waiting, au);
    } else {
      assert ops[..k] == ops[..k - 1] + [Arrive(au[k - 1])];
      FeedUnit(limit, prev, waiting, au, k - 1);
      RunAppend(limit, st, ops[..k - 1], [Arrive(au[k - 1])]);
      var now := State(au[..k - 1], false, waiting && !HasRap(prev));
      RunOne(limit, now, Arrive(au[k - 1]));
      FeedNext(limit, now.waitForRap, au, k - 1);
      assert Closing(prev, waiting) + [] == Closing(prev, waiting);
    }
  }

  lemma FinalizeUnit(limit: nat, prev: seq<Item>, waiting: bool)
    requires AccessUnit(limit, prev)
    ensures Run(limit, State(prev, false, waiting), [MpuChange])
         == (State([], false, waiting && !HasRap(prev)), Closing(prev, waiting))
  {
    RunOne(limit, State(prev, false, waiting), MpuChange);
  }

  /** Whatever well-formed pictures are sent, the assembler hands back exactly those pictures, NAL by NAL, from the
      first that offers random access on (or all, when that is not awaited); the last one when the MPU ends. */
  lemma RoundTrip(limit: nat, aus: seq<seq<Item>>, waiting: bool)
    requires aus != [] && Stream(limit, aus)
    ensures Run(limit, State([], false, waiting), AllArrivals(aus) + [MpuChange])
         == (State([], false, StillWaits(aus, waiting)), Passing(aus, waiting))
  {
    RoundTripFrom(limit, [], waiting, aus);
    assert [] + Passing(aus, waiting) == Passing(aus, waiting);
  }

  lemma StreamTail(limit: nat, aus: seq<seq<Item>>)
    requires Stream(limit, aus) && aus != []
    ensures Stream(limit, aus[1..])
    ensures aus[0] != [] && AccessUnit(limit, aus[0]) && (|aus| > 1 ==> Before(limit, aus[0], aus[1]))
  {
    hide Proper;
    var rest := aus[1..];
    assert forall k :: 0 <= k < |rest| ==> rest[k] == aus[k + 1];
  }

  lemma {:induction false} RoundTripFrom(limit: nat, prev: seq<Item>, waiting: bool, aus: seq<seq<Item>>)
    requires Stream(limit, aus)
    requires if aus != [] then Before(limit, prev, aus[0]) else prev != [] && AccessUnit(limit, prev)
    ensures Run(limit, State(prev, false, waiting), AllArrivals(aus) + [MpuChange])
         == (State([], false, StillWaits(aus, waiting && !HasRap(prev))),
             Closing(prev, waiting) + Passing(aus, waiting && !HasRap(prev)))
    decreases |aus|
  {
    hide Run;
    hide Separated;
    hide AccessUnit;
    hide HasRap;
    hide Closing;
    var st, now := State(prev, false, waiting), waiting && !HasRap(prev);
    if aus == [] {
      assert AllArrivals(aus) + [MpuChange] == [MpuChange];
      FinalizeUnit(limit, prev, waiting);
      assert Closing(prev, waiting) + Passing(aus, now) == Closing(prev, waiting);
    } else {
      var au, rest := aus[0], aus[1..];
      var ops, later := Arrivals(au), AllArrivals(rest) + [MpuChange];
      assert AllArrivals(aus) + [MpuChange] == ops + later;
      assert ops[..|au|] == ops && au[..|au|] == au;
      StreamTail(limit, aus);
      FeedUnit(limit, prev, waiting, au, |au|);
      RunAppend(limit, st, ops, later);
      RoundTripFrom(limit, au, now, rest);
      StillWaitsTail(aus, now);
      assert Passing(aus, now) == Closing(au, now) + Passing(rest, now && !HasRap(au));
    }
  }

  lemma StillWaitsTail(aus: seq<seq<Item>>, waiting: bool)
    requires aus != []
    ensures StillWaits(aus, waiting) == StillWaits(aus[1..], waiting && !HasRap(aus[0]))
  {
    if StillWaits(aus[1..], waiting && !HasRap(aus[0])) {
      forall k | 0 <= k < |aus|
        ensures !HasRap(aus[k])
      {
        if k > 0 { assert aus[1..][k - 1] == aus[k]; }
      }
    }
  }

  // ----- pictures that do not open with their first slice

  predicate Continuation(n: Nal) { IsVcl(n) && !FirstSlice(n) }

  /** While NALs are skipped nothing waits; what waits is proper. */
  predicate Reachable(limit: nat, st: State) { Proper(limit, st.items) && (st.skipping ==> st.items == []) }

  /** The guard of the branch: nothing is being skipped, a picture waits, the sample number is new, and the NAL fits. */
  predicate OpensUnit(limit: nat, st: State, i: Item) {
    && !st.skipping && HasVcl(st.items) && i.sample != 0 && i.sample != st.items[0].sample && |i.nal| + 3 <= limit
  }

  /** A continuation slice closes the unit before it and opens one by itself exactly then. */
  lemma ContinuationOpensUnit(limit: nat, st: State, i: Item)
    requires Reachable(limit, st) && Continuation(i.nal)
    ensures Feed(limit, st, i).next.items == [i] <==> OpensUnit(limit, st, i)
    ensures OpensUnit(limit, st, i) ==> Feed(limit, st, i) == Add(limit, Finalize(st), i)
  {
    hide Proper;
    assert !IsAud(i.nal) && !IsPrefix(i.nal);
    if st.skipping {
      assert [i] != [];
    } else if HasVcl(st.items) {
      assert st.(skipping := false) == st;
      var none: seq<Item> := [];
      assert none + [i] == [i];
      assert |st.items + [i]| > |[i]|;
    }
  }

  function StateAt(limit: nat, ops: seq<Op>, k: nat): State
    requires k <= |ops|
  {
    Run(limit, State([], false, true), ops[..k]).0
  }

  function EventsAt(limit: nat, ops: seq<Op>, k: nat): seq<Event>
    requires k < |ops|
  {
    Step(limit, StateAt(limit, ops, k), ops[k]).1
  }

  lemma StateNext(limit: nat, ops: seq<Op>, k: nat)
    requires k < |ops|
    ensures StateAt(limit, ops, k + 1) == Step(limit, StateAt(limit, ops, k), ops[k]).0
  {
    hide Step;
    assert ops[..k + 1] == ops[..k] + [ops[k]];
    RunAppend(limit, State([], false, true), ops[..k], [ops[k]]);
    RunOne(limit, StateAt(limit, ops, k), ops[k]);
  }

  /** What waits afterwards is nothing, the NAL alone, or what waited with the NAL behind it. */
  lemma StepItems(limit: nat, st: State, op: Op)
    requires Reachable(limit, st)
    ensures (var next := Step(limit, st, op).0;
             && Reachable(limit, next)
             && (next.items == [] || (op.Arrive? && next.items == [op.item])
                 || (op.Arrive? && st.items != [] && next.items == st.items + [op.item])))
  {
    hide Proper;
    EmptyProper(limit);
    match op
    case Arrive(i) =>
      FeedSound(limit, st, i);
      var none: seq<Item> := [];
      assert none + [i] == [i];
    case MpuChange => FinalizeSound(limit, st);
    case EndOfStream =>
    case Install =>
  }

  lemma {:induction false} StateReachable(limit: nat, ops: seq<Op>, k: nat)
    requires k <= |ops|
    ensures Reachable(limit, StateAt(limit, ops, k))
    decreases k
  {
    hide Reachable;
    hide Step;
    if k == 0 {
      NothingWaits(limit);
    } else {
      StateReachable(limit, ops, k - 1);
      StepItems(limit, StateAt(limit, ops, k - 1), ops[k - 1]);
      StateNext(limit, ops, k - 1);
    }
  }

  lemma NothingWaits(limit: nat)
    ensures Reachable(limit, State([], false, true))
  {}

  lemma NothingAtFirst(limit: nat, ops: seq<Op>)
    ensures StateAt(limit, ops, 0).items == []
  {
    assert ops[..0] == [];
  }

  /** What waits before operation m was opened by the NAL of operation k and has only grown since. */
  ghost predicate WaitsSince(limit: nat, ops: seq<Op>, k: nat, m: nat) {
    && k < m <= |ops| && ops[k].Arrive? && StateAt(limit, ops, k + 1).items == [ops[k].item]
    && forall j: nat :: k < j < m ==> StateAt(limit, ops, j).items < StateAt(limit, ops, j + 1).items
  }

  lemma {:induction false} WaitsSinceSome(limit: nat, ops: seq<Op>, m: nat) returns (k: nat)
    requires m <= |ops| && StateAt(limit, ops, m).items != []
    ensures WaitsSince(limit, ops, k, m)
    decreases m
  {
    hide Step;
    hide Reachable;
    if m == 0 {
      NothingAtFirst(limit, ops);
      assert false;
    } else {
      var st := StateAt(limit, ops, m - 1);
      StateReachable(limit, ops, m - 1);
      StepItems(limit, st, ops[m - 1]);
      StateNext(limit, ops, m - 1);
      if StateAt(limit, ops, m).items == [ops[m - 1].item] {
        k := m - 1;
      } else {
        k := WaitsSinceSome(limit, ops, m - 1);
      }
    }
  }

  lemma {:induction false} HeadStays(limit: nat, ops: seq<Op>, k: nat, m: nat)
    requires WaitsSince(limit, ops, k, m)
    ensures StateAt(limit, ops, m).items != [] && StateAt(limit, ops, m).items[0] == ops[k].item
    decreases m
  {
    hide StateAt;
    if m > k + 1 {
      HeadStays(limit, ops, k, m - 1);
      assert StateAt(limit, ops, m - 1).items < StateAt(limit, ops, m - 1 + 1).items;
    }
  }

  /** The first slice of the unit is a first slice. */
  predicate Leads(items: seq<Item>) {
    forall k :: 0 <= k < |items| && IsVcl(items[k].nal) && !HasVcl(items[..k]) ==> FirstSlice(items[k].nal)
  }

  lemma LeadsExactly(limit: nat, items: seq<Item>)
    requires Proper(limit, items) && items != []
    ensures Leads(items) <==> !Continuation(items[0].nal)
  {
    assert items[..0] == [] && !HasVcl(items[..0]);
  }

  /** A continuation slice opened, at operation k, the unit that is handed on at operation m. */
  ghost predicate TornUnit(limit: nat, ops: seq<Op>, k: nat, m: nat) {
    && m < |ops| && WaitsSince(limit, ops, k, m)
    && Continuation(ops[k].item.nal) && OpensUnit(limit, StateAt(limit, ops, k), ops[k].item)
  }

  lemma HandedWaited(limit: nat, st: State, op: Op, items: seq<Item>)
    requires Reachable(limit, st) && Unit(items) in Step(limit, st, op).1
    ensures items == st.items && items != []
  {
    hide Proper;
    if op.Arrive? { FeedSound(limit, st, op.item); }
  }

  /** Over every run, a unit handed on opens with its first slice exactly when no continuation slice opened it. */
  lemma UnitLeadsExactly(limit: nat, ops: seq<Op>, m: nat, items: seq<Item>)
    requires m < |ops| && Unit(items) in EventsAt(limit, ops, m)
    ensures Leads(items) <==> !exists k: nat :: TornUnit(limit, ops, k, m)
  {
    hide Step;
    hide Proper;
    hide Leads;
    hide Continuation;
    hide OpensUnit;
    hide WaitsSince;
    var st := StateAt(limit, ops, m);
    StateReachable(limit, ops, m);
    HandedWaited(limit, st, ops[m], items);
    LeadsExactly(limit, items);
    if Leads(items) {
      forall k | TornUnit(limit, ops, k, m) ensures false { HeadStays(limit, ops, k, m); }
    } else {
      var k := WaitsSinceSome(limit, ops, m);
      HeadStays(limit, ops, k, m);
      OpenedBy(limit, ops, k, m);
      assert TornUnit(limit, ops, k, m);
    }
  }

  lemma OpenedBy(limit: nat, ops: seq<Op>, k: nat, m: nat)
    requires WaitsSince(limit, ops, k, m) && Continuation(ops[k].item.nal)
    ensures OpensUnit(limit, StateAt(limit, ops, k), ops[k].item)
  {
    hide OpensUnit;
    hide Continuation;
    hide Feed;
    StateReachable(limit, ops, k);
    StateNext(limit, ops, k);
    ContinuationOpensUnit(limit, StateAt(limit, ops, k), ops[k].item);
  }

  lemma {:induction false} EventFrom(limit: nat, ops: seq<Op>, n: nat, e: Event)
    requires n <= |ops|
    ensures e in Run(limit, State([], false, true), ops[..n]).1 <==>
            exists m :: 0 <= m < n && e in EventsAt(limit, ops, m)
  {
    hide Step;
    var st := State([], false, true);
    if n == 0 {
      assert ops[..n] == [];
    } else {
      assert ops[..n] == ops[..n - 1] + [ops[n - 1]];
      RunAppend(limit, st, ops[..n - 1], [ops[n - 1]]);
      RunOne(limit, StateAt(limit, ops, n - 1), ops[n - 1]);
      EventFrom(limit, ops, n - 1, e);
      assert e in EventsAt(limit, ops, n - 1) <==> e in Step(limit, StateAt(limit, ops, n - 1), ops[n - 1]).1;
    }
  }

  /** A unit that a continuation slice opened is handed on. */
  ghost predicate HandsOnTorn(limit: nat, ops: seq<Op>) {
    exists k: nat, m: nat, items :: m < |ops| && TornUnit(limit, ops, k, m) && Unit(items) in EventsAt(limit, ops, m)
  }

  /** So all units of a run open with their first slice exactly when no unit opened under that guard is handed on. */
  lemma RunLeadsExactly(limit: nat, ops: seq<Op>)
    ensures (forall items :: Unit(items) in Run(limit, State([], false, true), ops).1 ==> Leads(items))
       <==> !HandsOnTorn(limit, ops)
  {
    hide EventsAt;
    hide Leads;
    hide TornUnit;
    hide Run;
    var es := Run(limit, State([], false, true), ops).1;
    assert ops[..|ops|] == ops;
    if HandsOnTorn(limit, ops) {
      var k: nat, m: nat, items :| m < |ops| && TornUnit(limit, ops, k, m) && Unit(items) in EventsAt(limit, ops, m);
      UnitLeadsExactly(limit, ops, m, items);
      EventFrom(limit, ops, |ops|, Unit(items));
      assert Unit(items) in es && !Leads(items);
    } else {
      forall items | Unit(items) in es
        ensures Leads(items)
      {
        EventFrom(limit, ops, |ops|, Unit(items));
        var m :| 0 <= m < |ops| && Unit(items) in EventsAt(limit, ops, m);
        UnitLeadsExactly(limit, ops, m, items);
      }
    }
  }

  const FIRST := Item([2, 1, 0x80], 0, 1, false, 0, 0)
  const REST := Item([2, 1, 0], 0, 2, false, 0, 0)

  /** It happens: two slices of different sample numbers, the second a continuation, come out as two units; while
      random access is awaited the same two are dropped. */
  lemma ContinuationWitness(limit: nat, waiting: bool)
    requires limit >= 6
    ensures Continuation(REST.nal)
    ensures Run(limit, State([], false, waiting), [Arrive(FIRST), Arrive(REST), MpuChange]).1
         == if waiting then [] else [Unit([FIRST]), Unit([REST])]
  {
    hide Step;
    var ops := [Arrive(FIRST), Arrive(REST), MpuChange];
    assert ops[1..] == [Arrive(REST), MpuChange] && ops[1..][1..] == [MpuChange];
    RunOne(limit, State([REST], false, waiting), MpuChange);
    WitnessFirst(limit, waiting);
    WitnessRest(limit, waiting);
    WitnessLast(limit, waiting);
    if !waiting { assert [Unit([FIRST])] + [Unit([REST])] == [Unit([FIRST]), Unit([REST])]; }
  }

  lemma WitnessFirst(limit: nat, waiting: bool)
    requires limit >= 6
    ensures Step(limit, State([], false, waiting), Arrive(FIRST)) == (State([FIRST], false, waiting), [])
  {
    AnnexBSnoc([], FIRST);
    assert [] + [FIRST] == [FIRST];
  }

  lemma WitnessRest(limit: nat, waiting: bool)
    requires limit >= 6
    ensures Step(limit, State([FIRST], false, waiting), Arrive(REST))
         == (State([REST], false, waiting), if waiting then [] else [Unit([FIRST])])
  {
    AnnexBSnoc([], REST);
    assert [] + [REST] == [REST] && FIRST in [FIRST] && !Rap(FIRST);
  }

  lemma WitnessLast(limit: nat, waiting: bool)
    ensures Step(limit, State([REST], false, waiting), MpuChange)
         == (State([], false, waiting), if waiting then [] else [Unit([REST])])
  {
    assert REST in [REST] && !Rap(REST);
  }
}
