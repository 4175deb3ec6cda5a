/** Getting into step, over the bytes themselves: where an unsynchronized parser finds its first packet, and what it
    keeps while it finds none. */
module TlvLocking {
  import opened Bytes
  import opened TlvFraming

  /** The packet types that a header may begin with. */
  predicate Known(kind: byte) { kind in {0x01, 0x02, 0x03, 0xfe, 0xff} }

  predicate AllKnown(ps: seq<Tlv>) { forall p :: p in ps ==> Known(p.kind) }

  /** At i lies the packet, of a known type and within the limit, and behind it a header of a known type or, at the end
      of the stream, nothing. */
  predicate Confirms(l: Limits, s: seq<byte>, i: nat, eos: bool, p: Tlv, rest: seq<byte>) {
    && i <= |s| && s[i..] == EncodeOne(p) + rest && Known(p.kind) && |p.payload| <= l.maxTlvPayload
    && ((eos && rest == []) || (|rest| >= 4 && rest[0] == 0x7f && Known(rest[1])))
  }

  ghost predicate Confirmed(l: Limits, s: seq<byte>, i: nat, eos: bool) {
    exists p: Tlv, rest: seq<byte> :: Confirms(l, s, i, eos, p, rest)
  }

  lemma PacketAt(s: seq<byte>, i: nat, p: Tlv, rest: seq<byte>)
    requires i <= |s| && s[i..] == EncodeOne(p) + rest
    ensures i + 4 + |p.payload| <= |s| && s[i] == 0x7f && s[i + 1] == p.kind
    ensures Be16(s[i + 2], s[i + 3]) == |p.payload| && rest == s[i + 4 + |p.payload|..]
  {
    var t := s[i..];
    assert t[0] == s[i] && t[1] == s[i + 1] && t[2] == s[i + 2] && t[3] == s[i + 3];
    assert t[2] == Wire16(|p.payload|)[0] && t[3] == Wire16(|p.payload|)[1];
    assert rest == t[4 + |p.payload|..];
  }

  lemma PacketFrom(s: seq<byte>, i: nat)
    requires i + 4 <= |s| && s[i] == 0x7f && i + 4 + Be16(s[i + 2], s[i + 3]) <= |s|
    ensures (var n := Be16(s[i + 2], s[i + 3]); var p := Tlv(s[i + 1], s[i + 4..i + 4 + n]);
             s[i..] == EncodeOne(p) + s[i + 4 + n..])
  {
    hide Be16;
    hide Wire16;
    var n := Be16(s[i + 2], s[i + 3]);
    Wire16Exact(s[i + 2], s[i + 3]);
    assert s[i..] == s[i..i + 2] + s[i + 2..i + 4] + s[i + 4..i + 4 + n] + s[i + 4 + n..];
    assert s[i..i + 2] == [0x7f, s[i + 1]] && s[i + 2..i + 4] == [s[i + 2], s[i + 3]];
  }

  lemma ConfirmedExactly(l: Limits, s: seq<byte>, i: nat, eos: bool)
    ensures Boundary(l, s, i, eos) <==> Confirmed(l, s, i, eos)
  {
    hide EncodeOne;
    hide Be16;
    hide Boundary;
    if Boundary(l, s, i, eos) { BoundaryConfirms(l, s, i, eos); }
    if Confirmed(l, s, i, eos) {
      var p: Tlv, rest: seq<byte> :| Confirms(l, s, i, eos, p, rest);
      ConfirmsBoundary(l, s, i, eos, p, rest);
    }
  }

  lemma BoundaryConfirms(l: Limits, s: seq<byte>, i: nat, eos: bool)
    requires Boundary(l, s, i, eos)
    ensures Confirmed(l, s, i, eos)
  {
    hide EncodeOne;
    hide Be16;
    PacketFrom(s, i);
    var n := Be16(s[i + 2], s[i + 3]);
    var p, rest := Tlv(s[i + 1], s[i + 4..i + 4 + n]), s[i + 4 + n..];
    assert rest != [] ==> rest[0] == s[i + 4 + n];
    assert Confirms(l, s, i, eos, p, rest);
  }

  lemma ConfirmsBoundary(l: Limits, s: seq<byte>, i: nat, eos: bool, p: Tlv, rest: seq<byte>)
    requires Confirms(l, s, i, eos, p, rest)
    ensures Boundary(l, s, i, eos)
  {
    hide EncodeOne;
    hide Be16;
    PacketAt(s, i, p, rest);
    var next := i + 4 + |p.payload|;
    assert |rest| == |s| - next;
    assert rest != [] ==> rest[0] == s[next];
    assert |rest| >= 4 ==> rest[1] == s[next + 1];
  }

  /** The search finds the first confirmed packet, and nothing exactly when there is none. */
  lemma SearchExactly(l: Limits, s: seq<byte>, eos: bool)
    ensures match FirstBoundary(l, s, 0, eos)
            case Some(i) => Confirmed(l, s, i, eos) && forall k :: 0 <= k < i ==> !Confirmed(l, s, k, eos)
            case None => forall k: nat :: !Confirmed(l, s, k, eos)
  {
    hide Confirmed;
    hide Boundary;
    forall k: nat
      ensures Boundary(l, s, k, eos) <==> Confirmed(l, s, k, eos)
    {
      ConfirmedExactly(l, s, k, eos);
    }
  }

  // ----- out of step

  /** What is kept while no packet is confirmed: everything within the resync limit, or else the last three bytes, which
      may still begin a header. */
  function Kept(l: Limits, s: seq<byte>): seq<byte> {
    if |s| <= l.maxResyncBuffer then s else if |s| <= 3 then s else s[|s| - 3..]
  }

  /** A push gets a parser into step exactly when a confirmed packet is there; as long as there is none it keeps those
      bytes at their offset and delivers nothing. */
  lemma OutOfStep(l: Limits, st: State, data: seq<byte>)
    requires !st.synced && data != []
    ensures (var s := st.buffer + data; var kept := Kept(l, s); var o := Push(l, st, data);
             if exists k: nat :: Confirmed(l, s, k, false) then exists e :: e in o.events && e.Packet?
             else
               && o.state == State(false, kept, st.offset + |s| - |kept|)
               && o.events == if |s| > l.maxResyncBuffer then [Error(ResourceLimit, st.offset)] else [])
  {
    hide Confirmed;
    hide Boundary;
    hide Settle;
    var s := st.buffer + data;
    SearchExactly(l, s, false);
    var found := FirstBoundary(l, s, 0, false);
    SettleSearch(l, s, st.offset);
    if found.Some? {
      BoundaryIsWhole(l, s, found.value);
      SettleWhole(l, s[found.value..], st.offset + found.value, false);
      var o := Push(l, st, data);
      var first := First(s[found.value..], st.offset + found.value);
      assert first in o.events;
    } else {
      assert s[|s| - |s|..] == s;
    }
  }

  lemma SettleSearch(l: Limits, s: seq<byte>, offset: nat)
    ensures Settle(l, State(false, s, offset), false)
         == match FirstBoundary(l, s, 0, false)
            case None => GiveUp(l, s, offset, false)
            case Some(i) => Then(if i == 0 then [] else [Error(MalformedInput, offset)],
                                 Settle(l, State(true, s[i..], offset + i), false))
  {
    hide FirstBoundary;
    hide GiveUp;
  }

  lemma BoundaryIsWhole(l: Limits, s: seq<byte>, i: nat)
    requires Boundary(l, s, i, false)
    ensures i <= |s| && Whole(l, s[i..])
  {
    var t := s[i..];
    assert t[0] == s[i] && t[2] == s[i + 2] && t[3] == s[i + 3];
  }

  // ----- from the first push on

  /** Packets behind bytes among which no header can begin: whatever the sizes of the pushes, once the first one reaches
      over the first packet and the next header, exactly those packets are delivered, each at its place. */
  lemma LocksOn(l: Limits, offset: nat, garbage: seq<byte>, ps: seq<Tlv>, first: seq<byte>, chunks: seq<seq<byte>>)
    requires 0x7f !in garbage && |ps| >= 2 && AllKnown(ps) && Fits(l, ps)
    requires first + Flatten(chunks) == garbage + Encode(ps) && |first| >= |garbage| + 8 + |ps[0].payload|
    ensures (var at := offset + |garbage|;
             PushAll(l, State(false, [], offset), [first] + chunks)
             == Outcome(State(true, [], at + |Encode(ps)|),
                        (if garbage == [] then [] else [Error(MalformedInput, offset)]) + Placed(ps, at)))
  {
    hide Push;
    hide PushAll;
    hide Encode;
    hide Placed;
    hide Flatten;
    var at := offset + |garbage|;
    var tail := first[|garbage|..];
    FirstInStep(l, offset, garbage, ps, first, Flatten(chunks));
    FlattenCons(tail, chunks);
    assert tail + Flatten(chunks) == (first + Flatten(chunks))[|garbage|..] == Encode(ps);
    RoundTrip(l, ps, [tail] + chunks, at);
    PushAllCons(l, State(false, [], offset), first, chunks);
    PushAllCons(l, State(true, [], at), tail, chunks);
    var err := if garbage == [] then [] else [Error(MalformedInput, offset)];
    var o := Push(l, State(true, [], at), tail);
    var later := PushAll(l, o.state, chunks);
    assert (err + o.events) + later.events == err + (o.events + later.events);
  }

  lemma FirstInStep(l: Limits, offset: nat, garbage: seq<byte>, ps: seq<Tlv>, first: seq<byte>, later: seq<byte>)
    requires 0x7f !in garbage && |ps| >= 2 && AllKnown(ps) && Fits(l, ps)
    requires first + later == garbage + Encode(ps) && |first| >= |garbage| + 8 + |ps[0].payload|
    ensures Push(l, State(false, [], offset), first)
         == Then(if garbage == [] then [] else [Error(MalformedInput, offset)],
                 Push(l, State(true, [], offset + |garbage|), first[|garbage|..]))
  {
    hide Settle;
    hide Encode;
    hide FirstBoundary;
    hide Boundary;
    hide AllKnown;
    hide Fits;
    FirstConfirmed(l, garbage, ps, first, later);
    SettleSearch(l, first, offset);
    assert first == first[0..];
    PushIsSettle(l, State(false, [], offset), first);
    PushIsSettle(l, State(true, [], offset + |garbage|), first[|garbage|..]);
  }

  lemma PushIsSettle(l: Limits, st: State, data: seq<byte>)
    requires st.buffer == [] && data != []
    ensures Push(l, st, data) == Settle(l, st.(buffer := data), false)
  {
    hide Settle;
    assert [] + data == data;
  }

  lemma FlattenCons(a: seq<byte>, chunks: seq<seq<byte>>)
    ensures Flatten([a] + chunks) == a + Flatten(chunks)
  {
    assert ([a] + chunks)[1..] == chunks;
  }

  lemma PushAllCons(l: Limits, st: State, data: seq<byte>, chunks: seq<seq<byte>>)
    ensures PushAll(l, st, [data] + chunks) == (var o := Push(l, st, data); Then(o.events, PushAll(l, o.state, chunks)))
  {
    hide Push;
    assert ([data] + chunks)[1..] == chunks;
  }

  /** The first packet is confirmed by the header behind it, and nothing before it is. */
  lemma FirstConfirmed(l: Limits, garbage: seq<byte>, ps: seq<Tlv>, first: seq<byte>, later: seq<byte>)
    requires 0x7f !in garbage && |ps| >= 2 && AllKnown(ps) && Fits(l, ps)
    requires first + later == garbage + Encode(ps) && |first| >= |garbage| + 8 + |ps[0].payload|
    ensures FirstBoundary(l, first, 0, false) == Some(|garbage|)
  {
    hide EncodeOne;
    var g, n := |garbage|, 4 + |ps[0].payload|;
    assert ps[0] in ps && ps[1] in ps;
    EncodedTwo(ps);
    var rest := first[g + n..];
    assert first[g..] == (first + later)[g..|first|];
    assert first[g..g + n] == (garbage + Encode(ps))[g..g + n] == Encode(ps)[..n];
    assert first[g..] == EncodeOne(ps[0]) + rest;
    assert rest[0] == (first + later)[g + n] == Encode(ps)[n];
    assert rest[1] == (first + later)[g + n + 1] == Encode(ps)[n + 1];
    assert Confirms(l, first, g, false, ps[0], rest);
    ConfirmedExactly(l, first, g, false);
    forall k | 0 <= k < g
      ensures !Boundary(l, first, k, false)
    {
      assert first[k] == (garbage + Encode(ps))[k] == garbage[k];
    }
    hide Boundary;
  }

  lemma EncodedTwo(ps: seq<Tlv>)
    requires |ps| >= 2
    ensures (var n := 4 + |ps[0].payload|; var s := Encode(ps);
             && |s| >= n + 4 && s[..n] == EncodeOne(ps[0]) && s[n] == 0x7f && s[n + 1] == ps[1].kind)
  {
    var a, b := EncodeOne(ps[0]), EncodeOne(ps[1]);
    assert Encode(ps) == a + (b + Encode(ps[2..])) by { assert ps[1..][1..] == ps[2..]; }
  }
}
