/** The incremental TLV parser: top-up of a split packet, direct framing of the caller's bytes, and the buffered
    resynchronizing loop, all proved to be the one buffered parser of `TlvFraming`. */
module TlvParsing {
  import opened Bytes
  import opened TlvFraming

  /** What the owner acts on: packets and resynchronizations, without the error reports. */
  function Delivered(es: seq<Event>): seq<Event> {
    if es == [] then []
    else (if es[0].Error? then [] else [es[0]]) + Delivered(es[1..])
  }

  lemma {:induction false} DeliveredAppend(a: seq<Event>, b: seq<Event>)
    ensures Delivered(a + b) == Delivered(a) + Delivered(b)
    decreases |a|
  {
    if a == [] {
      assert a + b == b;
    } else {
      assert (a + b)[1..] == a[1..] + b;
      DeliveredAppend(a[1..], b);
    }
  }

  // ----- the outcome of a push, with the one report that buffering would not make

  function Refused(s: seq<byte>, offset: nat): seq<Event>
    requires |s| >= 4
  {
    [Error(if s[0] != 0x7f then MalformedInput else ResourceLimit, offset), Resync(offset)]
  }

  /** A header that was split over two pushes is refused, more input follows it, and the three bytes left of it exceed
      the resync limit by themselves. */
  predicate ReportsOnceMore(l: Limits, st: State, data: seq<byte>) {
    && st.synced && 0 < |st.buffer| < 4 < |st.buffer| + |data|
    && Broken(l, (st.buffer + data)[..4]) && l.maxResyncBuffer < 3
  }

  /** The buffered push, and in that one case a resource limit reported right after the loss. */
  function PushOutcome(l: Limits, st: State, data: seq<byte>): Outcome {
    var o := TlvFraming.Push(l, st, data);
    if ReportsOnceMore(l, st, data) then
      LossComesFirst(l, st, data);
      o.(events := o.events[..2] + [Error(ResourceLimit, st.offset + 1)] + o.events[2..])
    else o
  }

  lemma FourBytes(l: Limits, s: seq<byte>)
    requires |s| >= 4
    ensures Broken(l, s[..4]) == Broken(l, s)
  {
    assert s == s[..4] + s[4..];
    HeaderStays(l, s[..4], s[4..], 0);
  }

  lemma LossComesFirst(l: Limits, st: State, data: seq<byte>)
    requires ReportsOnceMore(l, st, data)
    ensures (var s := st.buffer + data; var o := TlvFraming.Push(l, st, data);
             |o.events| >= 2 && o.events[..2] == Refused(s, st.offset)
             && o == Then(Refused(s, st.offset), Settle(l, State(false, s[1..], st.offset + 1), false)))
  {
    hide Settle;
    FourBytes(l, st.buffer + data);
    SettleBroken(l, st.buffer + data, st.offset, false);
  }

  /** Against the buffered push: the state and the deliveries are always the same, and the reports are the same except
      in exactly that case, when there is one more. */
  lemma ReportsExactly(l: Limits, st: State, data: seq<byte>)
    ensures (var got, want := PushOutcome(l, st, data), TlvFraming.Push(l, st, data);
             && got.state == want.state && Delivered(got.events) == Delivered(want.events)
             && (got.events == want.events <==> !ReportsOnceMore(l, st, data))
             && |got.events| == |want.events| + (if ReportsOnceMore(l, st, data) then 1 else 0))
  {
    hide TlvFraming.Push;
    if ReportsOnceMore(l, st, data) {
      LossComesFirst(l, st, data);
      var es, e := TlvFraming.Push(l, st, data).events, [Error(ResourceLimit, st.offset + 1)];
      DeliveredAppend(es[..2] + e, es[2..]);
      DeliveredAppend(es[..2], e);
      DeliveredAppend(es[..2], es[2..]);
      assert es[..2] + es[2..] == es && e[1..] == [];
      assert Delivered(es[..2]) + [] == Delivered(es[..2]);
    }
  }

  /** It happens when the resync limit is below three: three bytes of a bad header, then two more bytes. */
  lemma OnceMoreWitness(l: Limits)
    requires l.maxResyncBuffer < 3
    ensures (var st, data := State(true, [0x47, 0, 0], 0), [0, 0];
             && Settled(l, st.buffer) && ReportsOnceMore(l, st, data)
             && TlvFraming.Push(l, st, data).events == [Error(MalformedInput, 0), Resync(0), Error(ResourceLimit, 1)]
             && PushOutcome(l, st, data).events
                == [Error(MalformedInput, 0), Resync(0), Error(ResourceLimit, 1), Error(ResourceLimit, 1)])
  {
    var st, data := State(true, [0x47, 0, 0], 0), [0, 0];
    LossComesFirst(l, st, data);
    assert FirstBoundary(l, [0, 0, 0, 0], 0, false).None?;
    assert (st.buffer + data)[1..] == [0, 0, 0, 0];
    assert Settle(l, State(false, [0, 0, 0, 0], 1), false) == GiveUp(l, [0, 0, 0, 0], 1, false);
  }

  // ----- completing the split packet first

  /** Fewer than four bytes hold no boundary. */
  lemma TooShort(l: Limits, s: seq<byte>, offset: nat)
    requires |s| == 3
    ensures Settle(l, State(false, s, offset), false)
         == Outcome(State(false, s, offset), if l.maxResyncBuffer < 3 then [Error(ResourceLimit, offset)] else [])
  {
    assert s[|s| - 3..] == s;
  }

  /** `piece` completes the header, or the packet that waits behind one. */
  predicate Completes(l: Limits, held: seq<byte>, piece: seq<byte>) {
    var s := held + piece;
    0 < |held| < |s| && Settled(l, held) && ((|held| < 4 && |s| == 4) || (Whole(l, s) && |s| == 4 + PayloadSize(s)))
  }

  /** Completing only the split packet first and parsing the rest of the input after it is the push of both. */
  lemma TopUp(l: Limits, now: State, piece: seq<byte>, rest: seq<byte>)
    requires now.synced && Completes(l, now.buffer, piece)
    ensures (var o := Settle(l, State(true, now.buffer + piece, now.offset), false);
             && Then(o.events, PushOutcome(l, o.state, rest)) == PushOutcome(l, now, piece + rest)
             && Rests(l, o.state))
  {
    hide Settle;
    hide PushOutcome;
    hide Broken;
    var s := now.buffer + piece;
    if Broken(l, s) {
      TopUpBroken(l, now, piece, rest);
    } else if Whole(l, s) {
      TopUpWhole(l, now, piece, rest);
    } else {
      TopUpWaits(l, now, piece, rest);
    }
  }

  /** Where a top-up ends: waiting for the rest of one packet, or out of step with three bytes. */
  predicate Rests(l: Limits, st: State) { if st.synced then Settled(l, st.buffer) else |st.buffer| == 3 }

  lemma NothingMore(l: Limits, st: State)
    ensures PushOutcome(l, st, []) == Outcome(st, [])
  {
  }

  /** When the header, if it was split, is not refused, a push is the buffered one. */
  lemma Ordinary(l: Limits, st: State, data: seq<byte>)
    requires data != [] && (!st.synced || st.buffer == [] || |st.buffer| >= 4 || |st.buffer + data| <= 4
                            || !Broken(l, st.buffer + data))
    ensures PushOutcome(l, st, data) == Settle(l, st.(buffer := st.buffer + data), false)
  {
    hide Settle;
    hide Broken;
    if |st.buffer + data| >= 4 { FourBytes(l, st.buffer + data); }
  }

  lemma TopUpWaits(l: Limits, now: State, piece: seq<byte>, rest: seq<byte>)
    requires now.synced && Completes(l, now.buffer, piece) && Settled(l, now.buffer + piece)
    ensures (var o := Settle(l, State(true, now.buffer + piece, now.offset), false);
             Then(o.events, PushOutcome(l, o.state, rest)) == PushOutcome(l, now, piece + rest) && Rests(l, o.state))
  {
    hide Settle;
    hide PushOutcome;
    var s := now.buffer + piece;
    SettleWaits(l, s, now.offset);
    HeaderStays(l, s, rest, 0);
    assert now.buffer + (piece + rest) == s + rest;
    Ordinary(l, now, piece + rest);
    if rest == [] {
      NothingMore(l, State(true, s, now.offset));
      assert s + rest == s;
    } else {
      Ordinary(l, State(true, s, now.offset), rest);
      var want := PushOutcome(l, now, piece + rest);
      assert [] + want.events == want.events;
    }
  }

  lemma CompletesWhole(l: Limits, held: seq<byte>, piece: seq<byte>)
    requires Completes(l, held, piece) && Whole(l, held + piece)
    ensures piece != [] && Settled(l, []) && |held + piece| == 4 + PayloadSize(held + piece)
  {
  }

  lemma SettleOneWhole(l: Limits, s: seq<byte>, offset: nat, t: seq<byte>)
    requires Whole(l, s) && |s| == 4 + PayloadSize(s)
    ensures Settle(l, State(true, s + t, offset), false)
         == Then([First(s, offset)], Settle(l, State(true, t, offset + |s|), false))
    ensures |s + t| >= 4 && !Broken(l, s + t)
  {
    hide Settle;
    HeaderStays(l, s, t, offset);
    SettleWhole(l, s + t, offset, false);
    assert (s + t)[|s|..] == t;
  }

  lemma TopUpWhole(l: Limits, now: State, piece: seq<byte>, rest: seq<byte>)
    requires now.synced && Completes(l, now.buffer, piece) && Whole(l, now.buffer + piece)
    ensures (var o := Settle(l, State(true, now.buffer + piece, now.offset), false);
             Then(o.events, PushOutcome(l, o.state, rest)) == PushOutcome(l, now, piece + rest) && Rests(l, o.state))
  {
    hide Settle;
    hide PushOutcome;
    hide Completes;
    hide Broken;
    hide First;
    var s, emptied := now.buffer + piece, State(true, [], now.offset + |now.buffer + piece|);
    CompletesWhole(l, now.buffer, piece);
    SettleOneWhole(l, s, now.offset, []);
    SettleOneWhole(l, s, now.offset, rest);
    SettleWaits(l, [], emptied.offset);
    assert s + [] == s && now.buffer + (piece + rest) == s + rest && [] + rest == rest;
    var first := [First(s, now.offset)];
    assert first + [] == first;
    Ordinary(l, now, piece + rest);
    NothingMore(l, emptied);
    if rest != [] { Ordinary(l, emptied, rest); }
  }

  lemma TopUpBroken(l: Limits, now: State, piece: seq<byte>, rest: seq<byte>)
    requires now.synced && Completes(l, now.buffer, piece) && Broken(l, now.buffer + piece)
    ensures (var o := Settle(l, State(true, now.buffer + piece, now.offset), false);
             Then(o.events, PushOutcome(l, o.state, rest)) == PushOutcome(l, now, piece + rest) && Rests(l, o.state))
  {
    hide Settle;
    hide PushOutcome;
    var s, offset := now.buffer + piece, now.offset;
    assert |s| == 4;
    SettleBroken(l, s, offset, false);
    TooShort(l, s[1..], offset + 1);
    var first := Refused(s, offset);
    var extra := if l.maxResyncBuffer < 3 then [Error(ResourceLimit, offset + 1)] else [];
    var lost := State(false, s[1..], offset + 1);
    assert Settle(l, State(true, s, offset), false) == Outcome(lost, first + extra);
    if rest == [] {
      NothingMore(l, lost);
      assert piece + rest == piece && (first + extra) + [] == first + extra;
      Ordinary(l, now, piece);
    } else {
      BrokenBefore(l, now, piece, rest);
      Ordinary(l, lost, rest);
      var after := Settle(l, lost.(buffer := s[1..] + rest), false).events;
      assert (first + extra) + after == first + (extra + after);
    }
  }

  /** The push that refuses a split header and goes on behind it. */
  lemma BrokenBefore(l: Limits, now: State, piece: seq<byte>, rest: seq<byte>)
    requires now.synced && Completes(l, now.buffer, piece) && Broken(l, now.buffer + piece) && rest != []
    ensures (var s := now.buffer + piece;
             var extra := if l.maxResyncBuffer < 3 then [Error(ResourceLimit, now.offset + 1)] else [];
             PushOutcome(l, now, piece + rest)
             == Then(Refused(s, now.offset) + extra, Settle(l, State(false, s[1..] + rest, now.offset + 1), false)))
  {
    hide Settle;
    var s, offset, data := now.buffer + piece, now.offset, piece + rest;
    HeaderStays(l, s, rest, offset);
    assert now.buffer + data == s + rest && (s + rest)[1..] == s[1..] + rest;
    assert (now.buffer + data)[..4] == s;
    SettleBroken(l, s + rest, offset, false);
    var first, after := Refused(s, offset), Settle(l, State(false, s[1..] + rest, offset + 1), false).events;
    assert (first + after)[..2] == first && (first + after)[2..] == after;
    assert first + [] == first;
    if ReportsOnceMore(l, now, data) { LossComesFirst(l, now, data); }
  }

  /** Having reported `got` and come to `now`, the push of `rest` ends in `want`. */
  predicate OnCourse(l: Limits, now: State, rest: seq<byte>, got: seq<Event>, want: Outcome) {
    Then(got, PushOutcome(l, now, rest)) == want
  }

  lemma OnCourseTopUp(l: Limits, now: State, piece: seq<byte>, rest: seq<byte>, got: seq<Event>, want: Outcome)
    requires now.synced && OnCourse(l, now, piece + rest, got, want) && Completes(l, now.buffer, piece)
    ensures (var o := Settle(l, State(true, now.buffer + piece, now.offset), false);
             OnCourse(l, o.state, rest, got + o.events, want) && Rests(l, o.state))
  {
    hide Settle;
    hide PushOutcome;
    hide Rests;
    hide Completes;
    TopUp(l, now, piece, rest);
    var o := Settle(l, State(true, now.buffer + piece, now.offset), false);
    var after := PushOutcome(l, o.state, rest);
    assert got + (o.events + after.events) == (got + o.events) + after.events;
  }

  lemma OnCourseDone(l: Limits, now: State, got: seq<Event>, want: Outcome)
    requires OnCourse(l, now, [], got, want)
    ensures Outcome(now, got) == want
  {
    assert got + [] == got;
  }

  /** Too little came to complete what waits. */
  lemma OnCourseWaits(l: Limits, now: State, piece: seq<byte>, got: seq<Event>, want: Outcome)
    requires now.synced && now.buffer != [] && piece != [] && OnCourse(l, now, piece, got, want)
    requires Settled(l, now.buffer + piece)
    ensures Outcome(now.(buffer := now.buffer + piece), got) == want
  {
    hide PushOutcome;
    Ordinary(l, now, piece);
    SettleWaits(l, now.buffer + piece, now.offset);
    assert got + [] == got;
  }

  /** Bytes that complete the header or, after it, the packet. */
  function Missing(s: seq<byte>): int { if |s| < 4 then 4 - |s| else 4 + PayloadSize(s) - |s| }

  lemma ToppedUp(l: Limits, s: seq<byte>, piece: seq<byte>)
    requires Settled(l, s) && s != [] && 0 < |piece| <= Missing(s)
    ensures if |piece| < Missing(s) then Settled(l, s + piece) else Completes(l, s, piece)
  {
    if |s| >= 4 { HeaderStays(l, s, piece, 0); }
  }

  /** Taking one move and then settling is settling. */
  lemma Resume(l: Limits, st: State, eos: bool, sent: seq<Event>)
    ensures (match Step(l, st, eos)
             case Go(first, next) => Then(sent + first, Settle(l, next, eos)) == Then(sent, Settle(l, st, eos))
             case Stop(o) => Settle(l, st, eos) == o)
  {
    match Step(l, st, eos)
    case Go(first, next) =>
      var o := Settle(l, next, eos);
      assert (sent + first) + o.events == sent + (first + o.events);
    case Stop(_) =>
  }

  lemma PushSettles(l: Limits, st: State, data: seq<byte>)
    requires st.synced ==> Settled(l, st.buffer)
    ensures (var o := PushOutcome(l, st, data); o.state.synced ==> Settled(l, o.state.buffer))
  {
    hide Settle;
    var held := st.(buffer := st.buffer + data);
    SettleSound(l, held, false, held.buffer, held.offset);
  }

  class TlvParser {
    const limits: Limits
    var buffer: seq<byte>
    var cursor: nat
    var bufferOffset: nat
    var synchronized: bool
    ghost var events: seq<Event>

    ghost predicate InBounds() reads this { cursor <= |buffer| }

    /** Between calls nothing is half consumed, and a synchronized parser waits for the rest of one packet. */
    ghost predicate Valid() reads this { cursor == 0 && (synchronized ==> Settled(limits, buffer)) }

    ghost function View(): State
      requires InBounds()
      reads this
    {
      State(synchronized, buffer[cursor..], bufferOffset + cursor)
    }

    constructor (limits: Limits)
      ensures Valid() && View() == State(false, [], 0) && events == [] && this.limits == limits
    {
      this.limits := limits;
      buffer, cursor, bufferOffset, synchronized, events := [], 0, 0, false, [];
    }

    method Reset(inputOffset: nat)
      modifies this
      ensures Valid() && View() == State(false, [], inputOffset) && events == old(events)
    {
      buffer, cursor, bufferOffset, synchronized := [], 0, inputOffset, false;
    }

    method Compact()
      requires InBounds()
      modifies this
      ensures cursor == 0 && View() == old(View()) && events == old(events)
    {
      if cursor == 0 { return; }
      if cursor == |buffer| {
        buffer := [];
      } else {
        buffer := buffer[cursor..];
      }
      bufferOffset := bufferOffset + cursor;
      cursor := 0;
    }

    /** The index of the earliest validated boundary. */
    method Scan(eos: bool) returns (found: Option<nat>)
      requires InBounds()
      ensures found == FirstBoundary(limits, buffer[cursor..], 0, eos)
    {
      var s := buffer[cursor..];
      var index := 0;
      while index + 4 <= |s|
        invariant 0 <= index <= |s|
        invariant FirstBoundary(limits, s, index, eos) == FirstBoundary(limits, s, 0, eos)
      {
        if s[index] != 0x7f || !CandidateType(s[index + 1]) {
          index := index + 1;
          continue;
        }
        var payloadSize := Be16(s[index + 2], s[index + 3]);
        if payloadSize > limits.maxTlvPayload {
          index := index + 1;
          continue;
        }
        var next := index + 4 + payloadSize;
        if next > |s| {
          // A false candidate with a large length must not hide a complete packet later in the buffer.
          index := index + 1;
          continue;
        }
        var finalCompletePacket := eos && next == |s|;
        var nextHeaderPlausible := next + 4 <= |s| && s[next] == 0x7f && CandidateType(s[next + 1]);
        if !finalCompletePacket && !nextHeaderPlausible {
          index := index + 1;
          continue;
        }
        return Some(index);
      }
      return None;
    }

    /** Move to the earliest validated boundary; without one, keep only what may still start one. */
    method FindBoundary(eos: bool) returns (found: bool)
      requires InBounds() && !synchronized
      modifies `cursor, `synchronized, `events
      ensures InBounds()
      ensures Moved(old(View()), eos, found, old(events))
    {
      hide FirstBoundary;
      hide GiveUp;
      hide Broken;
      hide Whole;
      var at := Scan(eos);
      if at.Some? {
        SkipTo(at.value);
        return true;
      }
      KeepTail(eos);
      return false;
    }

    /** In step again at the boundary found, with a report if anything was skipped. */
    method SkipTo(at: nat)
      requires InBounds() && cursor + at <= |buffer|
      modifies `cursor, `synchronized, `events
      ensures InBounds()
      ensures View() == State(true, old(View()).buffer[at..], old(View()).offset + at)
      ensures events == old(events) + if at == 0 then [] else [Error(MalformedInput, old(View()).offset)]
    {
      assert buffer[cursor..][at..] == buffer[cursor + at..];
      if at != 0 {
        events := events + [Error(MalformedInput, bufferOffset + cursor)];
        cursor := cursor + at;
      }
      synchronized := true;
    }

    method KeepTail(eos: bool)
      requires InBounds() && !synchronized
      modifies `cursor, `events
      ensures InBounds()
      ensures (var before := old(View());
               var o := GiveUp(limits, before.buffer, before.offset, eos);
               View() == o.state && events == old(events) + o.events)
    {
      if eos {
        if |buffer| - cursor != 0 {
          events := events + [Error(MalformedInput, bufferOffset + cursor)];
          cursor := |buffer|;
        }
      } else if |buffer| - cursor > limits.maxResyncBuffer {
        events := events + [Error(ResourceLimit, bufferOffset + cursor)];
        var keep := Min(3, |buffer| - cursor);
        assert buffer[cursor..][|buffer| - cursor - keep..] == buffer[|buffer| - keep..];
        cursor := |buffer| - keep;
      }
    }

    /** The parser made the one move of the buffered parser from `before`, going on iff `more`. */
    ghost predicate Moved(before: State, eos: bool, more: bool, was: seq<Event>)
      reads this
      requires InBounds()
    {
      match Step(limits, before, eos)
      case Go(first, next) => more && View() == next && events == was + first
      case Stop(o) => !more && View() == o.state && events == was + o.events
    }

    method Advance(eos: bool) returns (more: bool)
      requires InBounds()
      modifies `cursor, `synchronized, `events
      ensures InBounds()
      ensures Moved(old(View()), eos, more, old(events))
    {
      hide Moved;
      if synchronized {
        more := AdvanceInStep(eos);
      } else {
        more := FindBoundary(eos);
      }
    }

    method AdvanceInStep(eos: bool) returns (more: bool)
      requires InBounds() && synchronized
      modifies `cursor, `synchronized, `events
      ensures InBounds()
      ensures Moved(old(View()), eos, more, old(events))
    {
      hide FirstBoundary;
      hide GiveUp;
      var header := buffer[cursor..];
      var offset := bufferOffset + cursor;
      ghost var before := View();
      assert before == State(true, header, offset);
      if |header| < 4 {
        if eos && |header| != 0 {
          events := events + [Error(MalformedInput, offset)];
          cursor := |buffer|;
        }
        return false;
      }
      var payloadSize := Be16(header[2], header[3]);
      if header[0] != 0x7f || payloadSize > limits.maxTlvPayload {
        LoseSync(if header[0] != 0x7f then MalformedInput else ResourceLimit);
        return true;
      }
      var packetSize := 4 + payloadSize;
      if |header| < packetSize {
        if eos {
          events := events + [Error(MalformedInput, offset)];
          cursor := |buffer|;
        }
        return false;
      }
      assert buffer[cursor + packetSize..] == header[packetSize..];
      events := events + [Packet(header[1], header[4..packetSize], offset)];
      cursor := cursor + packetSize;
      return true;
    }

    method LoseSync(code: Fault)
      requires cursor < |buffer|
      modifies `cursor, `synchronized, `events
      ensures InBounds()
      ensures View() == State(false, old(View()).buffer[1..], old(View()).offset + 1)
      ensures events == old(events) + [Error(code, old(View()).offset), Resync(old(View()).offset)]
    {
      assert buffer[cursor..][1..] == buffer[cursor + 1..];
      events := events + [Error(code, bufferOffset + cursor), Resync(bufferOffset + cursor)];
      synchronized := false;
      cursor := cursor + 1;
    }

    /** With what has been reported since `was`, the rest of the loop ends in `want`. */
    ghost predicate Underway(eos: bool, was: seq<Event>, want: Outcome)
      reads this
      requires InBounds()
    {
      was <= events && Then(events[|was|..], Settle(limits, View(), eos)) == want
    }

    lemma AfterMove(before: State, eos: bool, more: bool, was: seq<Event>, earlier: seq<Event>, want: Outcome)
      requires InBounds() && was <= earlier && Moved(before, eos, more, earlier)
      requires Then(earlier[|was|..], Settle(limits, before, eos)) == want
      ensures if more then Underway(eos, was, want) else View() == want.state && events == was + want.events
      ensures more ==> |View().buffer| < |before.buffer| ||
                       (|View().buffer| == |before.buffer| && !before.synced && synchronized)
    {
      hide Settle;
      hide Step;
      StepDecreases(limits, before, eos);
      Resume(limits, before, eos, earlier[|was|..]);
      match Step(limits, before, eos)
      case Go(first, _) => assert (earlier + first)[|was|..] == earlier[|was|..] + first;
      case Stop(o) => assert earlier + o.events == was + (earlier[|was|..] + o.events);
    }

    method Process(eos: bool)
      requires InBounds()
      modifies this
      ensures cursor == 0
      ensures (var o := Settle(limits, old(View()), eos);
               View() == o.state && events == old(events) + o.events)
    {
      hide Settle;
      hide Moved;
      ghost var was, want := events, Settle(limits, View(), eos);
      assert events[|was|..] == [] && Then([], want) == want;
      while true
        invariant InBounds() && Underway(eos, was, want)
        decreases |buffer| - cursor, !synchronized
      {
        ghost var before, earlier := View(), events;
        var more := Advance(eos);
        AfterMove(before, eos, more, was, earlier, want);
        if !more {
          Compact();
          return;
        }
      }
    }

    /** Buffer the rest of the input and run the buffered parser. */
    method ReportAll(rest: seq<byte>, ghost was: seq<Event>, ghost got: seq<Event>, ghost want: Outcome)
      requires cursor == 0 && events == was + got && rest != []
      requires synchronized ==> buffer == [] || |buffer| >= 4
      requires OnCourse(limits, View(), rest, got, want)
      modifies this
      ensures cursor == 0 && View() == want.state && events == was + want.events
    {
      hide Settle;
      hide PushOutcome;
      Ordinary(limits, View(), rest);
      ghost var now := View();
      buffer := buffer + rest;
      assert View() == now.(buffer := now.buffer + rest);
      Process(false);
      assert events == was + want.events;
    }

    /** How many bytes the waiting packet, or its header, still lacks. */
    method MissingBytes() returns (refused: bool, required: nat)
      requires Valid() && synchronized
      ensures refused <==> |buffer| >= 4 && !CandidateType(buffer[1])
      ensures !refused ==> required == Missing(buffer) && required > 0
    {
      if |buffer| < 4 { return false, 4 - |buffer|; }
      if buffer[0] != 0x7f || !CandidateType(buffer[1]) { return true, 0; }
      var payloadSize := Be16(buffer[2], buffer[3]);
      if payloadSize > limits.maxTlvPayload {
        assert false;  // such a header is refused as soon as it is complete
      }
      var packetSize := 4 + payloadSize;
      return false, packetSize - |buffer|;
    }

    /** `done` when the push has come to its end, else what is left of the input is still to be pushed. */
    ghost predicate Filled(done: bool, rest: seq<byte>, was: seq<Event>, want: Outcome)
      reads this
    {
      && was <= events && cursor == 0
      && if done then View() == want.state && events == was + want.events
         else OnCourse(limits, View(), rest, events[|was|..], want) && Rests(limits, View())
    }

    /** One turn of the top-up loop: take in what is missing, or as much of it as there is. */
    method FillOnce(data: seq<byte>, ghost was: seq<Event>, ghost want: Outcome) returns (used: nat, done: bool)
      requires synchronized && buffer != [] && data != []
      requires Filled(false, data, was, want)
      modifies this
      ensures used <= |data| && Filled(done, data[used..], was, want)
      ensures !done ==> used > 0
    {
      hide Settle;
      hide PushOutcome;
      hide OnCourse;
      hide Completes;
      ghost var now, got := View(), events[|was|..];
      assert buffer[0..] == buffer && events == was + got;
      var refused, required := MissingBytes();
      if refused {
        ReportAll(data, was, got, want);
        return 0, true;
      }
      used := Min(required, |data|);
      var piece := data[..used];
      assert data == piece + data[used..];
      ToppedUp(limits, buffer, piece);
      buffer := buffer + piece;
      assert View() == State(true, now.buffer + piece, now.offset);
      if used < required {
        assert piece == data;
        OnCourseWaits(limits, now, piece, got, want);
        return used, true;
      }
      OnCourseTopUp(limits, now, piece, data[used..], got, want);
      Process(false);
      assert events[|was|..] == got + Settle(limits, State(true, now.buffer + piece, now.offset), false).events;
      done := false;
    }

    /** Complete only the packet that crossed the previous push boundary; `done` when that used up the whole push. */
    method FillSplitPacket(data: seq<byte>) returns (inputCursor: nat, done: bool)
      requires Valid() && synchronized && data != []
      modifies this
      ensures inputCursor <= |data|
      ensures Filled(done, data[inputCursor..], old(events), PushOutcome(limits, old(View()), data))
      ensures !done ==> inputCursor == |data| || !synchronized || buffer == []
    {
      hide PushOutcome;
      hide Settled;
      ghost var was, want := events, PushOutcome(limits, View(), data);
      inputCursor := 0;
      assert data[0..] == data && events[|events|..] == [] && [] + want.events == want.events;
      assert buffer[0..] == buffer;
      while inputCursor < |data| && buffer != [] && synchronized
        invariant inputCursor <= |data| && Filled(false, data[inputCursor..], was, want)
        decreases |data| - inputCursor
      {
        var used;
        used, done := FillOnce(data[inputCursor..], was, want);
        assert data[inputCursor..][used..] == data[inputCursor + used..];
        inputCursor := inputCursor + used;
        if done { return; }
      }
      done := false;
    }

    /** Hand out the packets that lie whole in the caller's bytes, without buffering them. */
    method DeliverDirect(data: seq<byte>) returns (used: nat)
      modifies `events
      ensures used <= |data| && old(events) <= events
      ensures Then(events[|old(events)|..], Settle(limits, State(true, data[used..], bufferOffset + used), false))
           == Settle(limits, State(true, data, bufferOffset), false)
    {
      hide Settle;
      ghost var was, want := events, Settle(limits, State(true, data, bufferOffset), false);
      used := 0;
      assert data[0..] == data && events[|events|..] == [] && Then([], want) == want;
      while |data| - used >= 4
        invariant used <= |data| && was <= events
        invariant Then(events[|was|..], Settle(limits, State(true, data[used..], bufferOffset + used), false)) == want
      {
        var header := data[used..];
        if header[0] != 0x7f || !CandidateType(header[1]) { break; }
        var payloadSize := Be16(header[2], header[3]);
        if payloadSize > limits.maxTlvPayload { break; }
        var packetSize := 4 + payloadSize;
        if packetSize > |data| - used { break; }
        ghost var now, earlier := State(true, header, bufferOffset + used), events;
        Resume(limits, now, false, events[|was|..]);
        assert header[packetSize..] == data[used + packetSize..];
        events := events + [Packet(header[1], header[4..packetSize], bufferOffset + used)];
        assert events[|was|..] == earlier[|was|..] + [First(header, bufferOffset + used)];
        used := used + packetSize;
      }
    }

    /** Go through the caller's bytes with nothing buffered, and buffer what is left. */
    method PushDirect(rest: seq<byte>, ghost was: seq<Event>, ghost want: Outcome)
      requires synchronized && buffer == [] && rest != [] && Filled(false, rest, was, want)
      modifies this
      ensures Filled(true, [], was, want)
    {
      hide Settle;
      hide PushOutcome;
      ghost var sent, got := events, events[|was|..];
      Ordinary(limits, View(), rest);
      assert [] + rest == rest;
      var used := DeliverDirect(rest);
      bufferOffset := bufferOffset + used;
      ghost var now := got + events[|sent|..];
      assert events == was + now;
      DirectOnCourse(limits, rest, used, bufferOffset, got, events[|sent|..], want);
      if used != |rest| {
        ReportAll(rest[used..], was, now, want);
      } else {
        assert rest[used..] == [];
        OnCourseDone(limits, View(), now, want);
      }
    }

    /** The push of the parser, whichever of its three paths it takes, is the push specified. */
    method Push(data: seq<byte>)
      requires Valid()
      modifies this
      ensures Valid()
      ensures (var o := PushOutcome(limits, old(View()), data);
               View() == o.state && events == old(events) + o.events)
    {
      hide Settle;
      hide PushOutcome;
      hide OnCourse;
      PushSettles(limits, View(), data);
      if data == [] {
        NothingMore(limits, View());
        return;
      }
      ghost var was, want := events, PushOutcome(limits, View(), data);
      if !synchronized {
        Ordinary(limits, View(), data);
        buffer := buffer + data;
        Process(false);
        return;
      }
      var inputCursor, done := FillSplitPacket(data);
      if done { return; }
      ghost var got := events[|was|..];
      assert events == was + got;
      if inputCursor == |data| {
        assert data[inputCursor..] == [];
        OnCourseDone(limits, View(), got, want);
      } else if !synchronized || buffer != [] {
        ReportAll(data[inputCursor..], was, got, want);
      } else {
        PushDirect(data[inputCursor..], was, want);
      }
    }

    method Flush()
      requires Valid()
      modifies this
      ensures Valid()
      ensures (var o := TlvFraming.Flush(limits, old(View()));
               View() == o.state && events == old(events) + o.events)
    {
      Process(true);
      synchronized := false;
    }
  }

  lemma DirectOnCourse(l: Limits, rest: seq<byte>, used: nat, after: nat, got: seq<Event>, sent: seq<Event>,
                       want: Outcome)
    requires used <= |rest| && rest != [] && used <= after
    requires OnCourse(l, State(true, [], after - used), rest, got, want)
    requires Then(sent, Settle(l, State(true, rest[used..], after), false))
        == Settle(l, State(true, rest, after - used), false)
    ensures OnCourse(l, State(true, [], after), rest[used..], got + sent, want)
  {
    hide Settle;
    hide PushOutcome;
    var left := rest[used..];
    assert [] + rest == rest && [] + left == left;
    Ordinary(l, State(true, [], after - used), rest);
    var o := Settle(l, State(true, left, after), false);
    assert got + (sent + o.events) == (got + sent) + o.events;
    if left == [] {
      SettleWaits(l, [], after);
      NothingMore(l, State(true, [], after));
    } else {
      Ordinary(l, State(true, [], after), left);
    }
  }
}
