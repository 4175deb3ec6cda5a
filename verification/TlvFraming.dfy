/** What TLV framing means: the simple framing of a synchronized stream, and the
    buffered resynchronizing parser that every path of `TlvParser` must agree with. */
module TlvFraming {
  import opened Bytes

  datatype Limits = Limits(maxTlvPayload: nat, maxResyncBuffer: nat)

  datatype Fault = MalformedInput | ResourceLimit

  /** Everything the parser tells its owner, in order. */
  datatype Event =
    | Packet(kind: byte, payload: seq<byte>, offset: nat)
    | Resync(offset: nat)
    | Error(code: Fault, offset: nat)

  /** `offset` is the absolute position of `buffer[0]`. */
  datatype State = State(synced: bool, buffer: seq<byte>, offset: nat)

  datatype Outcome = Outcome(state: State, events: seq<Event>)

  predicate CandidateType(t: byte) { t == 0x01 || t == 0x02 || t == 0x03 || t == 0xfe || t == 0xff }

  function PayloadSize(s: seq<byte>): nat
    requires |s| >= 4
  {
    Be16(s[2], s[3])
  }

  /** The bytes start with a header the synchronized parser refuses. */
  predicate Broken(l: Limits, s: seq<byte>) {
    |s| >= 4 && (s[0] != 0x7f || PayloadSize(s) > l.maxTlvPayload)
  }

  /** The bytes start with a complete acceptable packet. */
  predicate Whole(l: Limits, s: seq<byte>) {
    |s| >= 4 && !Broken(l, s) && |s| >= 4 + PayloadSize(s)
  }

  predicate Settled(l: Limits, s: seq<byte>) { !Broken(l, s) && !Whole(l, s) }

  function First(s: seq<byte>, offset: nat): Event
    requires |s| >= 4 && |s| >= 4 + PayloadSize(s)
  {
    Packet(s[1], s[4..4 + PayloadSize(s)], offset)
  }

  // ----- the simple framing of a stream that is in step

  datatype Framing = Framing(packets: seq<Event>, rest: seq<byte>, offset: nat, lost: bool)

  /** Cut packets off the front until the bytes run out (`lost` false) or a bad header (`lost` true). */
  function Frame(l: Limits, s: seq<byte>, offset: nat): Framing
    decreases |s|
  {
    if Whole(l, s) then
      var n := 4 + PayloadSize(s);
      var f := Frame(l, s[n..], offset + n);
      Prefixed([First(s, offset)], f)
    else
      Framing([], s, offset, Broken(l, s))
  }

  lemma FrameWhole(l: Limits, s: seq<byte>, offset: nat)
    requires Whole(l, s)
    ensures Frame(l, s, offset)
         == (var n := 4 + PayloadSize(s); Prefixed([First(s, offset)], Frame(l, s[n..], offset + n)))
  {
  }

  lemma {:induction false} FrameSettles(l: Limits, s: seq<byte>, offset: nat)
    ensures (var f := Frame(l, s, offset);
             if f.lost then Broken(l, f.rest) else Settled(l, f.rest))
    decreases |s|
  {
    if Whole(l, s) {
      var n := 4 + PayloadSize(s);
      FrameSettles(l, s[n..], offset + n);
    }
  }

  /** A header, once complete, reads the same however much follows it. */
  lemma HeaderStays(l: Limits, s: seq<byte>, t: seq<byte>, offset: nat)
    requires |s| >= 4
    ensures PayloadSize(s + t) == PayloadSize(s) && Broken(l, s + t) == Broken(l, s)
    ensures Whole(l, s) ==>
              && Whole(l, s + t) && First(s + t, offset) == First(s, offset)
              && (s + t)[4 + PayloadSize(s)..] == s[4 + PayloadSize(s)..] + t
  {
    if Whole(l, s) {
      var n := 4 + PayloadSize(s);
      assert (s + t)[4..n] == s[4..n];
    }
  }

  function Prefixed(first: seq<Event>, f: Framing): Framing { f.(packets := first + f.packets) }

  /** More input only extends the framing. */
  lemma {:induction false} FrameExtends(l: Limits, s: seq<byte>, t: seq<byte>, offset: nat)
    ensures (var f := Frame(l, s, offset);
             Frame(l, s + t, offset) == Prefixed(f.packets, Frame(l, f.rest + t, f.offset)))
    decreases |s|
  {
    if Whole(l, s) {
      HeaderStays(l, s, t, offset);
      var n, first := 4 + PayloadSize(s), [First(s, offset)];
      var f := Frame(l, s[n..], offset + n);
      var g := Frame(l, f.rest + t, f.offset);
      calc {
        Frame(l, s + t, offset);
        Prefixed(first, Frame(l, s[n..] + t, offset + n));
        { FrameExtends(l, s[n..], t, offset + n); }
        Prefixed(first, Prefixed(f.packets, g));
        { assert first + (f.packets + g.packets) == (first + f.packets) + g.packets; }
        Prefixed(first + f.packets, g);
      }
      assert Frame(l, s, offset) == Prefixed(first, f);
    } else {
      var g := Frame(l, s + t, offset);
      assert [] + g.packets == g.packets;
    }
  }

  /** A loss, once reached, stays where it is. */
  lemma {:induction false} LossStays(l: Limits, s: seq<byte>, t: seq<byte>, offset: nat)
    requires Frame(l, s, offset).lost
    ensures (var f := Frame(l, s, offset);
             Frame(l, s + t, offset) == f.(rest := f.rest + t))
    decreases |s|
  {
    if |s| >= 4 { HeaderStays(l, s, t, offset); }
    if Whole(l, s) {
      var n := 4 + PayloadSize(s);
      LossStays(l, s[n..], t, offset + n);
    }
  }

  // ----- resynchronization

  /** A complete acceptable packet at `i`, confirmed by the header after it or by the end of the stream. */
  predicate Boundary(l: Limits, s: seq<byte>, i: nat, eos: bool) {
    && i + 4 <= |s|
    && s[i] == 0x7f && CandidateType(s[i + 1])
    && var n := Be16(s[i + 2], s[i + 3]);
       var next := i + 4 + n;
    && n <= l.maxTlvPayload
    && next <= |s|
    && ((eos && next == |s|) || (next + 4 <= |s| && s[next] == 0x7f && CandidateType(s[next + 1])))
  }

  /** The earliest validated boundary at or after `i`. */
  function FirstBoundary(l: Limits, s: seq<byte>, i: nat, eos: bool): (r: Option<nat>)
    requires i <= |s|
    ensures r.Some? ==> i <= r.value && Boundary(l, s, r.value, eos)
    ensures r.Some? ==> forall k :: i <= k < r.value ==> !Boundary(l, s, k, eos)
    ensures r.None? ==> forall k: nat :: i <= k ==> !Boundary(l, s, k, eos)
    decreases |s| - i
  {
    if i + 4 > |s| then None
    else if Boundary(l, s, i, eos) then Some(i)
    else FirstBoundary(l, s, i + 1, eos)
  }

  // ----- the buffered parser

  /** What an unsynchronized parser that finds no boundary keeps, and what it reports. */
  function GiveUp(l: Limits, s: seq<byte>, offset: nat, eos: bool): Outcome {
    if eos then
      Outcome(State(false, [], offset + |s|), if s == [] then [] else [Error(MalformedInput, offset)])
    else if |s| > l.maxResyncBuffer then
      var keep := Min(3, |s|);
      Outcome(State(false, s[|s| - keep..], offset + |s| - keep), [Error(ResourceLimit, offset)])
    else
      Outcome(State(false, s, offset), [])
  }

  function Then(first: seq<Event>, o: Outcome): Outcome { o.(events := first + o.events) }

  datatype Move = Stop(outcome: Outcome) | Go(first: seq<Event>, next: State)

  /** One move of the buffered parser. */
  function Step(l: Limits, st: State, eos: bool): Move {
    var s, offset := st.buffer, st.offset;
    if !st.synced then
      match FirstBoundary(l, s, 0, eos)
      case None => Stop(GiveUp(l, s, offset, eos))
      case Some(i) => Go(if i == 0 then [] else [Error(MalformedInput, offset)], State(true, s[i..], offset + i))
    else if Broken(l, s) then
      Go([Error(if s[0] != 0x7f then MalformedInput else ResourceLimit, offset), Resync(offset)],
         State(false, s[1..], offset + 1))
    else if Whole(l, s) then
      var n := 4 + PayloadSize(s);
      Go([First(s, offset)], State(true, s[n..], offset + n))
    else if eos then
      Stop(Outcome(State(true, [], offset + |s|), if s == [] then [] else [Error(MalformedInput, offset)]))
    else
      Stop(Outcome(st, []))
  }

  lemma StepDecreases(l: Limits, st: State, eos: bool)
    ensures (var m := Step(l, st, eos);
             m.Go? ==> |m.next.buffer| < |st.buffer| || (|m.next.buffer| == |st.buffer| && !st.synced && m.next.synced))
  {
  }

  /** Run the buffered parser over all it holds. */
  function Settle(l: Limits, st: State, eos: bool): Outcome
    decreases |st.buffer|, !st.synced
  {
    StepDecreases(l, st, eos);
    match Step(l, st, eos)
    case Stop(o) => o
    case Go(first, next) => Then(first, Settle(l, next, eos))
  }

  lemma SettleWhole(l: Limits, s: seq<byte>, offset: nat, eos: bool)
    requires Whole(l, s)
    ensures Settle(l, State(true, s, offset), eos)
         == (var n := 4 + PayloadSize(s);
             Then([First(s, offset)], Settle(l, State(true, s[n..], offset + n), eos)))
  {
  }

  lemma SettleBroken(l: Limits, s: seq<byte>, offset: nat, eos: bool)
    requires Broken(l, s)
    ensures Settle(l, State(true, s, offset), eos)
         == Then([Error(if s[0] != 0x7f then MalformedInput else ResourceLimit, offset), Resync(offset)],
                 Settle(l, State(false, s[1..], offset + 1), eos))
  {
  }

  lemma SettleWaits(l: Limits, s: seq<byte>, offset: nat)
    requires Settled(l, s)
    ensures Settle(l, State(true, s, offset), false) == Outcome(State(true, s, offset), [])
  {
  }

  /** The simple `push`: buffer everything, then run the parser. */
  function Push(l: Limits, st: State, data: seq<byte>): Outcome {
    if data == [] then Outcome(st, []) else Settle(l, st.(buffer := st.buffer + data), false)
  }

  /** The end of the stream. */
  function Flush(l: Limits, st: State): Outcome {
    var o := Settle(l, st, true);
    o.(state := o.state.(synced := false))
  }

  /** `o` reports the packets of the framing `f` and then either holds its rest or reports the loss at its offset. */
  predicate Realizes(o: Outcome, f: Framing) {
    if f.lost then
      && f.packets <= o.events
      && |o.events| >= |f.packets| + 2
      && o.events[|f.packets|].Error?
      && o.events[|f.packets| + 1] == Resync(f.offset)
    else o == Outcome(State(true, f.rest, f.offset), f.packets)
  }

  lemma RealizesAfter(first: seq<Event>, o: Outcome, f: Framing)
    requires Realizes(o, f)
    ensures Realizes(Then(first, o), Prefixed(first, f))
  {
  }

  /** While in step the buffered parser is exactly the framing function; a loss is reported at its offset. */
  lemma {:induction false} SettleIsFrame(l: Limits, s: seq<byte>, offset: nat)
    ensures Realizes(Settle(l, State(true, s, offset), false), Frame(l, s, offset))
    decreases |s|
  {
    if Whole(l, s) {
      hide Realizes;
      hide Settle;
      hide Frame;
      var n := 4 + PayloadSize(s);
      SettleIsFrame(l, s[n..], offset + n);
      RealizesAfter([First(s, offset)], Settle(l, State(true, s[n..], offset + n), false),
                    Frame(l, s[n..], offset + n));
      FrameWhole(l, s, offset);
      SettleWhole(l, s, offset, false);
    } else {
      StoppedIsFrame(l, s, offset);
    }
  }

  lemma StoppedIsFrame(l: Limits, s: seq<byte>, offset: nat)
    requires !Whole(l, s)
    ensures Realizes(Settle(l, State(true, s, offset), false), Frame(l, s, offset))
  {
    hide Settle;
    if Broken(l, s) { SettleBroken(l, s, offset, false); } else { SettleWaits(l, s, offset); }
  }

  // ----- chunk invariance

  /** Push the chunks one after another. */
  function PushAll(l: Limits, st: State, chunks: seq<seq<byte>>): Outcome
    decreases |chunks|
  {
    if chunks == [] then Outcome(st, [])
    else
      var o := Push(l, st, chunks[0]);
      Then(o.events, PushAll(l, o.state, chunks[1..]))
  }

  /** However a synchronized stream is cut into pushes, the packets, their absolute offsets and the bytes left
      over are those of framing the whole input at once; if sync is lost, the packets before the loss
      and the place of the loss are still the same. */
  lemma {:induction false} ChunkInvariance(l: Limits, st: State, chunks: seq<seq<byte>>)
    requires st.synced && Settled(l, st.buffer)
    ensures Realizes(PushAll(l, st, chunks), Frame(l, st.buffer + Flatten(chunks), st.offset))
    decreases |chunks|
  {
    hide Realizes;
    hide Frame;
    hide Push;
    if chunks == [] {
      assert st.buffer + Flatten(chunks) == st.buffer;
      NothingPushed(l, st);
    } else {
      var held, tail := st.buffer + chunks[0], Flatten(chunks[1..]);
      assert st.buffer + Flatten(chunks) == held + tail;
      var o, h := Push(l, st, chunks[0]), Frame(l, held, st.offset);
      PushIsFrame(l, st, chunks[0]);
      var rest := PushAll(l, o.state, chunks[1..]);
      if h.lost {
        LostEarly(l, o, h, rest, tail);
        LossStays(l, held, tail, st.offset);
      } else {
        InStep(l, o, h);
        FrameSettles(l, held, st.offset);
        ChunkInvariance(l, o.state, chunks[1..]);
        FrameExtends(l, held, tail, st.offset);
        RealizesAfter(o.events, rest, Frame(l, h.rest + tail, h.offset));
      }
    }
  }

  lemma NothingPushed(l: Limits, st: State)
    requires st.synced && Settled(l, st.buffer)
    ensures Realizes(Outcome(st, []), Frame(l, st.buffer, st.offset))
  {
  }

  lemma PushIsFrame(l: Limits, st: State, data: seq<byte>)
    requires st.synced && Settled(l, st.buffer)
    ensures Realizes(Push(l, st, data), Frame(l, st.buffer + data, st.offset))
  {
    hide Realizes;
    hide Frame;
    hide Settle;
    if data == [] {
      assert st.buffer + data == st.buffer;
      NothingPushed(l, st);
    } else {
      SettleIsFrame(l, st.buffer + data, st.offset);
    }
  }

  lemma InStep(l: Limits, o: Outcome, f: Framing)
    requires Realizes(o, f) && !f.lost
    ensures o == Outcome(State(true, f.rest, f.offset), f.packets)
  {
  }

  lemma LostEarly(l: Limits, o: Outcome, f: Framing, later: Outcome, tail: seq<byte>)
    requires Realizes(o, f) && f.lost
    ensures Realizes(Then(o.events, later), f.(rest := f.rest + tail))
  {
  }

  // ----- round trip

  type Payload = s: seq<byte> | |s| < 0x1_0000 witness []

  datatype Tlv = Tlv(kind: byte, payload: Payload)

  predicate Fits(l: Limits, ps: seq<Tlv>) { forall p :: p in ps ==> |p.payload| <= l.maxTlvPayload }

  function EncodeOne(p: Tlv): seq<byte> { [0x7f, p.kind] + Wire16(|p.payload|) + p.payload }

  function Encode(ps: seq<Tlv>): seq<byte> {
    if ps == [] then [] else EncodeOne(ps[0]) + Encode(ps[1..])
  }

  function Placed(ps: seq<Tlv>, offset: nat): seq<Event> {
    if ps == [] then []
    else [Packet(ps[0].kind, ps[0].payload, offset)] + Placed(ps[1..], offset + 4 + |ps[0].payload|)
  }

  lemma EncodedIsWhole(l: Limits, p: Tlv, offset: nat)
    requires |p.payload| <= l.maxTlvPayload
    ensures (var s := EncodeOne(p);
             && |s| == 4 + |p.payload| && Whole(l, s) && PayloadSize(s) == |p.payload|
             && First(s, offset) == Packet(p.kind, p.payload, offset))
  {
    var s := EncodeOne(p);
    assert s[2] == Wire16(|p.payload|)[0] && s[3] == Wire16(|p.payload|)[1];
    assert s[4..4 + |p.payload|] == p.payload;
  }

  lemma FrameCons(l: Limits, head: seq<byte>, tail: seq<byte>, offset: nat)
    requires Whole(l, head) && |head| == 4 + PayloadSize(head)
    ensures Frame(l, head + tail, offset) == Prefixed([First(head, offset)], Frame(l, tail, offset + |head|))
  {
    hide Frame;
    HeaderStays(l, head, tail, offset);
    FrameWhole(l, head + tail, offset);
    assert head[|head|..] + tail == tail;
  }

  function PlacedFraming(ps: seq<Tlv>, offset: nat): Framing {
    Framing(Placed(ps, offset), [], offset + |Encode(ps)|, false)
  }

  lemma PlacedCons(ps: seq<Tlv>, offset: nat)
    requires ps != []
    ensures (var p := ps[0];
             PlacedFraming(ps, offset) == Prefixed([Packet(p.kind, p.payload, offset)],
                                                   PlacedFraming(ps[1..], offset + 4 + |p.payload|)))
  {
  }

  lemma {:induction false} FrameEncode(l: Limits, ps: seq<Tlv>, offset: nat)
    requires Fits(l, ps)
    ensures Frame(l, Encode(ps), offset) == PlacedFraming(ps, offset)
    decreases |ps|
  {
    hide Frame;
    hide PlacedFraming;
    if ps == [] {
      EmptyFraming(l, offset);
    } else {
      var head := EncodeOne(ps[0]);
      EncodedIsWhole(l, ps[0], offset);
      FrameCons(l, head, Encode(ps[1..]), offset);
      FrameEncode(l, ps[1..], offset + |head|);
      PlacedCons(ps, offset);
    }
  }

  lemma EmptyFraming(l: Limits, offset: nat)
    ensures Frame(l, [], offset) == PlacedFraming([], offset)
  {
  }

  /** Whatever packets are sent, in whatever chunks, a synchronized parser hands back exactly those packets. */
  lemma RoundTrip(l: Limits, ps: seq<Tlv>, chunks: seq<seq<byte>>, offset: nat)
    requires Fits(l, ps)
    requires Flatten(chunks) == Encode(ps)
    ensures PushAll(l, State(true, [], offset), chunks)
         == Outcome(State(true, [], offset + |Encode(ps)|), Placed(ps, offset))
  {
    hide PushAll;
    hide Encode;
    hide Placed;
    hide Frame;
    FrameEncode(l, ps, offset);
    ChunkInvariance(l, State(true, [], offset), chunks);
    assert [] + Flatten(chunks) == Encode(ps);
  }

  // ----- soundness over any run, with garbage and resynchronization

  /** The packets among `es` are disjoint slices of `stream`, in order, at the offsets they claim (`base` is the
      offset of `stream[0]`), the first not before `from` and the last ending by `to`. */
  predicate InOrder(es: seq<Event>, stream: seq<byte>, base: nat, from: nat, to: nat) {
    if es == [] then from <= to
    else match es[0]
      case Packet(kind, payload, offset) =>
        && base <= offset && from <= offset
        && offset + 4 + |payload| <= base + |stream|
        && var s := stream[offset - base..];
        && s[0] == 0x7f && s[1] == kind && PayloadSize(s) == |payload|
        && s[4..4 + |payload|] == payload
        && InOrder(es[1..], stream, base, offset + 4 + |payload|, to)
      case Resync(offset) => from <= offset && InOrder(es[1..], stream, base, offset, to)
      case Error(_, offset) => from <= offset && InOrder(es[1..], stream, base, offset, to)
  }

  lemma {:induction false} InOrderAppend(a: seq<Event>, b: seq<Event>, stream: seq<byte>, base: nat,
                                         from: nat, mid: nat, to: nat)
    requires InOrder(a, stream, base, from, mid) && InOrder(b, stream, base, mid, to)
    ensures InOrder(a + b, stream, base, from, to)
    decreases |a|
  {
    if a == [] {
      assert a + b == b;
      if b != [] { InOrderFrom(b, stream, base, from, mid, to); }
    } else {
      assert (a + b)[1..] == a[1..] + b;
      var next := if a[0].Packet? then a[0].offset + 4 + |a[0].payload| else a[0].offset;
      InOrderAppend(a[1..], b, stream, base, next, mid, to);
    }
  }

  lemma InOrderFrom(es: seq<Event>, stream: seq<byte>, base: nat, lo: nat, from: nat, to: nat)
    requires InOrder(es, stream, base, from, to) && lo <= from
    ensures InOrder(es, stream, base, lo, to)
  {
  }

  lemma {:induction false} InOrderGrows(es: seq<Event>, stream: seq<byte>, more: seq<byte>, base: nat, from: nat,
                                        to: nat)
    requires InOrder(es, stream, base, from, to)
    ensures InOrder(es, stream + more, base, from, to)
    decreases |es|
  {
    if es != [] {
      if es[0].Packet? {
        var k, n := es[0].offset - base, 4 + |es[0].payload|;
        assert (stream + more)[k..] == stream[k..] + more;
        assert (stream[k..] + more)[4..n] == stream[k..][4..n];
        InOrderGrows(es[1..], stream, more, base, es[0].offset + n, to);
      } else {
        InOrderGrows(es[1..], stream, more, base, es[0].offset, to);
      }
    }
  }

  /** The parser holds exactly the unconsumed tail of the stream pushed so far. */
  predicate Holds(st: State, stream: seq<byte>, base: nat) {
    && base <= st.offset
    && st.offset + |st.buffer| == base + |stream|
    && st.buffer == stream[st.offset - base..]
  }

  /** After a run: in step and settled within one packet, or out of step within the resync limit. */
  predicate Bounded(l: Limits, st: State) {
    if st.synced then Settled(l, st.buffer) && |st.buffer| < 4 + l.maxTlvPayload
    else |st.buffer| <= Max(l.maxResyncBuffer, 3)
  }

  predicate SettledSoundly(l: Limits, st: State, o: Outcome, eos: bool, stream: seq<byte>, base: nat) {
    && Holds(o.state, stream, base)
    && InOrder(o.events, stream, base, st.offset, o.state.offset)
    && if eos then o.state.buffer == [] else Bounded(l, o.state)
  }

  /** Dropping `n` bytes from the front, with some error or resync events, keeps the run sound. */
  lemma Discard(l: Limits, st: State, n: nat, first: seq<Event>, synced: bool, o: Outcome, eos: bool,
                stream: seq<byte>, base: nat)
    requires Holds(st, stream, base) && n <= |st.buffer|
    requires SettledSoundly(l, State(synced, st.buffer[n..], st.offset + n), o, eos, stream, base)
    requires |first| <= 2 && forall e :: e in first ==> !e.Packet? && e.offset == st.offset
    ensures SettledSoundly(l, st, Then(first, o), eos, stream, base)
  {
    InOrderFrom(o.events, stream, base, st.offset, st.offset + n, o.state.offset);
    if first != [] {
      if |first| == 2 {
        assert first[1..] == [first[1]] && first[1..][1..] == [];
        assert first[1] in first;
      }
      assert first[0] in first;
      assert InOrder(first, stream, base, st.offset, st.offset);
      InOrderAppend(first, o.events, stream, base, st.offset, st.offset, o.state.offset);
    } else {
      assert first + o.events == o.events;
    }
  }

  lemma Deliver(l: Limits, st: State, o: Outcome, eos: bool, stream: seq<byte>, base: nat)
    requires Holds(st, stream, base) && Whole(l, st.buffer)
    requires (var n := 4 + PayloadSize(st.buffer);
              SettledSoundly(l, State(true, st.buffer[n..], st.offset + n), o, eos, stream, base))
    ensures SettledSoundly(l, st, Then([First(st.buffer, st.offset)], o), eos, stream, base)
  {
    assert ([First(st.buffer, st.offset)] + o.events)[1..] == o.events;
  }

  lemma {:induction false} SettleSound(l: Limits, st: State, eos: bool, stream: seq<byte>, base: nat)
    requires Holds(st, stream, base)
    ensures SettledSoundly(l, st, Settle(l, st, eos), eos, stream, base)
    decreases |st.buffer|, !st.synced
  {
    hide SettledSoundly;
    hide Step;
    StepDecreases(l, st, eos);
    match Step(l, st, eos)
    case Stop(o) =>
      StopSound(l, st, eos, stream, base);
    case Go(first, next) =>
      GoHolds(l, st, eos, stream, base);
      SettleSound(l, next, eos, stream, base);
      GoSound(l, st, Settle(l, next, eos), eos, stream, base);
  }

  lemma StopSound(l: Limits, st: State, eos: bool, stream: seq<byte>, base: nat)
    requires Holds(st, stream, base) && Step(l, st, eos).Stop?
    ensures SettledSoundly(l, st, Step(l, st, eos).outcome, eos, stream, base)
  {
    var o := Step(l, st, eos).outcome;
    if |o.events| == 1 { assert InOrder(o.events[1..], stream, base, st.offset, o.state.offset); }
  }

  lemma HoldsAfter(st: State, n: nat, synced: bool, stream: seq<byte>, base: nat)
    requires Holds(st, stream, base) && n <= |st.buffer|
    ensures Holds(State(synced, st.buffer[n..], st.offset + n), stream, base)
  {
  }

  lemma StepDrops(l: Limits, st: State, eos: bool)
    ensures (var m := Step(l, st, eos);
             m.Go? ==>
               && 0 <= m.next.offset - st.offset <= |st.buffer|
               && m.next.buffer == st.buffer[m.next.offset - st.offset..])
  {
  }

  lemma GoHolds(l: Limits, st: State, eos: bool, stream: seq<byte>, base: nat)
    requires Holds(st, stream, base) && Step(l, st, eos).Go?
    ensures Holds(Step(l, st, eos).next, stream, base)
  {
    hide Step;
    hide Holds;
    StepDrops(l, st, eos);
    var next := Step(l, st, eos).next;
    HoldsAfter(st, next.offset - st.offset, next.synced, stream, base);
  }

  lemma GoSound(l: Limits, st: State, o: Outcome, eos: bool, stream: seq<byte>, base: nat)
    requires Holds(st, stream, base) && Step(l, st, eos).Go?
    requires SettledSoundly(l, Step(l, st, eos).next, o, eos, stream, base)
    ensures SettledSoundly(l, st, Then(Step(l, st, eos).first, o), eos, stream, base)
  {
    hide SettledSoundly;
    var m := Step(l, st, eos);
    if st.synced && !Broken(l, st.buffer) {
      Deliver(l, st, o, eos, stream, base);
    } else {
      Discard(l, st, m.next.offset - st.offset, m.first, m.next.synced, o, eos, stream, base);
    }
  }

  datatype Op = PushOp(data: seq<byte>) | FlushOp

  function Run(l: Limits, st: State, ops: seq<Op>): Outcome
    decreases |ops|
  {
    if ops == [] then Outcome(st, [])
    else
      var o := match ops[0] case PushOp(data) => Push(l, st, data) case FlushOp => Flush(l, st);
      Then(o.events, Run(l, o.state, ops[1..]))
  }

  function Pushed(ops: seq<Op>): seq<byte> {
    if ops == [] then [] else (if ops[0].PushOp? then ops[0].data else []) + Pushed(ops[1..])
  }

  /** Over every run of pushes and flushes from a reset, on any bytes at all: packets are disjoint in-order slices of
      the input at the offsets they claim, no byte is lost count of, and the buffer stays bounded. */
  lemma RunSound(l: Limits, ops: seq<Op>, base: nat)
    ensures (var o := Run(l, State(false, [], base), ops);
             var stream := Pushed(ops);
             && o.state.offset + |o.state.buffer| == base + |stream|
             && Holds(o.state, stream, base)
             && InOrder(o.events, stream, base, base, o.state.offset)
             && Bounded(l, o.state)
             && (ops != [] && ops[|ops| - 1].FlushOp? ==> o.state.buffer == []))
  {
    RunSoundFrom(l, State(false, [], base), ops, [], base);
    assert [] + Pushed(ops) == Pushed(ops);
  }

  lemma {:induction false} RunSoundFrom(l: Limits, st: State, ops: seq<Op>, stream: seq<byte>, base: nat)
    requires Holds(st, stream, base) && Bounded(l, st)
    ensures (var o := Run(l, st, ops);
             && Holds(o.state, stream + Pushed(ops), base)
             && InOrder(o.events, stream + Pushed(ops), base, st.offset, o.state.offset)
             && Bounded(l, o.state)
             && (ops != [] && ops[|ops| - 1].FlushOp? ==> o.state.buffer == []))
    decreases |ops|
  {
    if ops == [] {
      assert stream + Pushed(ops) == stream;
    } else {
      var data := if ops[0].PushOp? then ops[0].data else [];
      var now := stream + data;
      assert now + Pushed(ops[1..]) == stream + Pushed(ops);
      var o := if ops[0].PushOp? then Push(l, st, data) else Flush(l, st);
      StepSound(l, st, ops[0], stream, base);
      RunSoundFrom(l, o.state, ops[1..], now, base);
      InOrderGrows(o.events, now, Pushed(ops[1..]), base, st.offset, o.state.offset);
      var r := Run(l, o.state, ops[1..]);
      InOrderAppend(o.events, r.events, stream + Pushed(ops), base, st.offset, o.state.offset, r.state.offset);
      if |ops| > 1 { assert ops[|ops| - 1] == ops[1..][|ops| - 2]; }
    }
  }

  lemma StepSound(l: Limits, st: State, op: Op, stream: seq<byte>, base: nat)
    requires Holds(st, stream, base) && Bounded(l, st)
    ensures (var data := if op.PushOp? then op.data else [];
             var o := if op.PushOp? then Push(l, st, data) else Flush(l, st);
             && Holds(o.state, stream + data, base)
             && InOrder(o.events, stream + data, base, st.offset, o.state.offset)
             && Bounded(l, o.state)
             && (op.FlushOp? ==> o.state.buffer == []))
  {
    var data := if op.PushOp? then op.data else [];
    var held := st.(buffer := st.buffer + data);
    assert Holds(held, stream + data, base);
    SettleSound(l, held, op.FlushOp?, stream + data, base);
    if data == [] {
      assert held.buffer == st.buffer && stream + data == stream;
    }
  }
}
