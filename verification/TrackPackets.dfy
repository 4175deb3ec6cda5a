/** The packets of an MPU, however its NAL units are cut, do in a track what the NAL units themselves do. */
module TrackPackets {
  import opened Bytes
  import Fragments
  import Hevc
  import Timing
  import opened TrackModel

  // ----- results up to what fragments and discontinuities leave behind

  function Plain(us: seq<AccessUnit>): seq<AccessUnit> {
    seq(|us|, i requires 0 <= i < |us| => us[i].(discontinuity := false))
  }

  /** Without the fragments being collected and the discontinuity flag. */
  function Bare(t: Track): Track { t.(media := NEW_ASSEMBLY, discontinuity := false) }

  predicate Alike(r: Result, s: Result) { Bare(r.track) == Bare(s.track) && Plain(r.units) == Plain(s.units) }

  lemma AppendAlike(r: Result, later: Result, s: Result, last: Result)
    requires Plain(r.units) == Plain(s.units) && Alike(later, last)
    ensures Alike(Append(r, later), Append(s, last))
  {
    assert Plain(r.units + later.units) == Plain(r.units) + Plain(later.units);
    assert Plain(s.units + last.units) == Plain(s.units) + Plain(last.units);
  }

  lemma HandOnAlike(t: Track, u: Track, items: seq<Hevc.Item>)
    requires Bare(t) == Bare(u) && items != []
    ensures Alike(HandOn(t, items), HandOn(u, items))
  {
    hide Timing.Emit;
  }

  lemma AbsorbAlike(t: Track, u: Track, o: Hevc.Outcome)
    requires Bare(t) == Bare(u)
    ensures Alike(Absorb(t, o), Absorb(u, o)) && Absorb(t, o).track.media == t.media
  {
    hide Timing.Emit;
    if o.unit.Some? && o.unit.value != [] { HandOnAlike(t, u, o.unit.value); }
  }

  lemma ConsumeUnitAlike(limit: nat, t: Track, u: Track, unit: Fragments.Unit, timed: bool)
    requires Bare(t) == Bare(u)
    ensures Alike(ConsumeUnit(limit, t, unit, timed), ConsumeUnit(limit, u, unit, timed))
    ensures ConsumeUnit(limit, t, unit, timed).track.media == t.media
  {
    hide Absorb;
    hide Hevc.Feed;
    assert t.hevc == Bare(t).hevc == u.hevc;
    var d := unit.payload;
    if |d| >= 4 && Be32(d[..4]) == |d| - 4 && |d| - 4 >= 2 {
      AbsorbAlike(t, u, Hevc.Feed(limit, t.hevc, ItemOf(unit, timed)));
      AbsorbAlike(u, t, Hevc.Feed(limit, t.hevc, ItemOf(unit, timed)));
    }
  }

  // ----- packets of one MPU, as pieces

  /** The header of the packet's MFU can be read, and the packet holds one piece. */
  predicate Readable(p: Packet, mpu: nat, timed: bool) {
    p.mpu == mpu && p.timed == timed && !p.aggregated && Fragments.ParseHeader(p.timed, p.body).Some?
  }

  predicate AllReadable(ps: seq<Packet>, mpu: nat, timed: bool) {
    forall i :: 0 <= i < |ps| ==> Readable(ps[i], mpu, timed)
  }

  function PieceFor(restart: nat, p: Packet): Fragments.Piece
    requires Fragments.ParseHeader(p.timed, p.body).Some?
  {
    var (key, payload) := Fragments.ParseHeader(p.timed, p.body).value;
    Fragments.Piece(p.sequence, p.mpu, key, p.fragmentation, p.aggregated, payload,
                    Fragments.Head(p.inputOffset, restart, p.randomAccess, NO_EXTENSIONS))
  }

  function Pieces(restart: nat, ps: seq<Packet>, mpu: nat, timed: bool): seq<Fragments.Piece>
    requires AllReadable(ps, mpu, timed)
  {
    seq(|ps|, i requires 0 <= i < |ps| => PieceFor(restart, ps[i]))
  }

  function Deliveries(ps: seq<Packet>): seq<Op> { seq(|ps|, i requires 0 <= i < |ps| => Deliver(ps[i])) }

  /** The units of the fragments, one after another. */
  function ConsumeUnits(limit: nat, t: Track, us: seq<Fragments.Unit>, timed: bool): Result
    decreases |us|
  {
    if us == [] then Result(t, [])
    else
      var r := ConsumeUnit(limit, t, us[0], timed);
      Append(r, ConsumeUnits(limit, r.track, us[1..], timed))
  }

  lemma {:induction false} ConsumeUnitsAlike(limit: nat, t: Track, u: Track, us: seq<Fragments.Unit>, timed: bool)
    requires Bare(t) == Bare(u)
    ensures Alike(ConsumeUnits(limit, t, us, timed), ConsumeUnits(limit, u, us, timed))
    decreases |us|
  {
    hide ConsumeUnit;
    if us != [] {
      ConsumeUnitAlike(limit, t, u, us[0], timed);
      var r, s := ConsumeUnit(limit, t, us[0], timed), ConsumeUnit(limit, u, us[0], timed);
      ConsumeUnitsAlike(limit, r.track, s.track, us[1..], timed);
      AppendAlike(r, ConsumeUnits(limit, r.track, us[1..], timed), s, ConsumeUnits(limit, s.track, us[1..], timed));
    }
  }

  lemma ConsumeOne(limit: nat, t: Track, u: Fragments.Unit, timed: bool)
    ensures ConsumeUnits(limit, t, [u], timed) == ConsumeUnit(limit, t, u, timed)
  {
    hide ConsumeUnit;
    var r := ConsumeUnit(limit, t, u, timed);
    assert [u][1..] == [] && r.units + [] == r.units;
  }

  /** One packet of the current MPU: its piece is taken in, and the unit it completes. */
  lemma PacketTaken(limit: nat, t: Track, p: Packet, timed: bool)
    requires t.current == Some(p.mpu) && Readable(p, p.mpu, timed)
    ensures (var o := Fragments.Accept(limit, t.media, PieceFor(t.restart, p)); var r := Step(limit, t, Deliver(p));
             && r.track.media == o.next && r.track.current == t.current && r.track.restart == t.restart
             && Alike(r, ConsumeUnits(limit, t, Fragments.Emitted(o), timed)))
  {
    hide Fragments.Accept;
    hide ConsumeUnit;
    var piece := PieceFor(t.restart, p);
    var o := Fragments.Accept(limit, t.media, piece);
    var next := Damage(t.(media := o.next), o.damaged);
    var r := ConsumePiece(limit, t, p);
    assert Step(limit, t, Deliver(p)) == r by { assert [] + r.units == r.units; }
    if o.unit.Some? {
      ConsumeUnitAlike(limit, next, t, o.unit.value, timed);
      ConsumeOne(limit, t, o.unit.value, timed);
      ConsumeUnitKeeps(limit, next, o.unit.value, timed);
    }
  }

  lemma ConsumeUnitKeeps(limit: nat, t: Track, u: Fragments.Unit, timed: bool)
    ensures (var r := ConsumeUnit(limit, t, u, timed);
             && r.track.current == t.current && r.track.restart == t.restart
             && r.track.mappings == t.mappings && r.track.extended == t.extended)
  {
    hide Hevc.Feed;
    hide Timing.Emit;
  }

  lemma {:induction false} ConsumeUnitsAppend(limit: nat, t: Track, us: seq<Fragments.Unit>, vs: seq<Fragments.Unit>,
                                              timed: bool)
    ensures (var r := ConsumeUnits(limit, t, us, timed);
             ConsumeUnits(limit, t, us + vs, timed) == Append(r, ConsumeUnits(limit, r.track, vs, timed)))
    decreases |us|
  {
    hide ConsumeUnit;
    if us == [] {
      assert us + vs == vs;
      var r := ConsumeUnits(limit, t, vs, timed);
      assert [] + r.units == r.units;
    } else {
      var r := ConsumeUnit(limit, t, us[0], timed);
      assert (us + vs)[1..] == us[1..] + vs;
      ConsumeUnitsAppend(limit, r.track, us[1..], vs, timed);
      var s := ConsumeUnits(limit, r.track, us[1..], timed);
      assert r.units + (s.units + ConsumeUnits(limit, s.track, vs, timed).units)
          == (r.units + s.units) + ConsumeUnits(limit, s.track, vs, timed).units;
    }
  }

  lemma PiecesTail(restart: nat, ps: seq<Packet>, mpu: nat, timed: bool)
    requires ps != [] && AllReadable(ps, mpu, timed)
    ensures AllReadable(ps[1..], mpu, timed) && Readable(ps[0], mpu, timed)
    ensures (var fs := Pieces(restart, ps, mpu, timed);
             fs[0] == PieceFor(restart, ps[0]) && fs[1..] == Pieces(restart, ps[1..], mpu, timed))
    ensures Deliveries(ps)[1..] == Deliveries(ps[1..]) && Deliveries(ps)[0] == Deliver(ps[0])
  {
    forall i | 0 <= i < |ps| - 1
      ensures Readable(ps[1..][i], mpu, timed)
    {
      assert Readable(ps[i + 1], mpu, timed);
    }
    assert Readable(ps[0], mpu, timed);
    hide PieceFor;
    hide Readable;
  }

  /** Packets of the current MPU do what the units that their pieces make up do. */
  lemma {:induction false} PacketsTaken(limit: nat, t: Track, ps: seq<Packet>, mpu: nat, timed: bool)
    requires t.current == Some(mpu) && AllReadable(ps, mpu, timed)
    ensures (var a := Fragments.Run(limit, t.media, Pieces(t.restart, ps, mpu, timed));
             var r := Run(limit, t, Deliveries(ps));
             && r.track.media == a.last && r.track.current == t.current && r.track.restart == t.restart
             && Alike(r, ConsumeUnits(limit, t, a.units, timed)))
    decreases |ps|
  {
    hide Step;
    hide Readable;
    hide AllReadable;
    hide Fragments.Accept;
    hide ConsumeUnits;
    hide Alike;
    if ps == [] {
      NothingTaken(limit, t, timed);
    } else {
      PiecesTail(t.restart, ps, mpu, timed);
      ReadableMpu(ps[0], mpu, timed);
      var o, r := Fragments.Accept(limit, t.media, PieceFor(t.restart, ps[0])), Step(limit, t, Deliver(ps[0]));
      PacketTaken(limit, t, ps[0], timed);
      PacketsTaken(limit, r.track, ps[1..], mpu, timed);
      var later := Fragments.Run(limit, o.next, Pieces(t.restart, ps[1..], mpu, timed)).units;
      var s := ConsumeUnits(limit, t, Fragments.Emitted(o), timed);
      ConsumeUnitsAppend(limit, t, Fragments.Emitted(o), later, timed);
      TakenBoth(limit, r, Run(limit, r.track, Deliveries(ps[1..])), s, later, timed);
    }
  }

  lemma NothingTaken(limit: nat, t: Track, timed: bool)
    ensures Alike(Result(t, []), ConsumeUnits(limit, t, [], timed))
  {
  }

  lemma ReadableMpu(p: Packet, mpu: nat, timed: bool)
    requires Readable(p, mpu, timed)
    ensures p.mpu == mpu && Fragments.ParseHeader(p.timed, p.body).Some?
  {
  }

  lemma TakenBoth(limit: nat, r: Result, later: Result, s: Result, us: seq<Fragments.Unit>, timed: bool)
    requires Alike(r, s) && Alike(later, ConsumeUnits(limit, r.track, us, timed))
    ensures Alike(Append(r, later), Append(s, ConsumeUnits(limit, s.track, us, timed)))
  {
    hide ConsumeUnits;
    ConsumeUnitsAlike(limit, r.track, s.track, us, timed);
    AppendAlike(r, later, s, ConsumeUnits(limit, s.track, us, timed));
  }

  // ----- one NAL unit in packets

  /** The packets of one NAL unit, and how often each is sent again. */
  datatype Sending = Sending(packets: seq<Packet>, repeats: seq<nat>)

  /** The packets are one unfragmented MFU or consecutive fragments of one, which is a length and a NAL unit. */
  predicate SendsNal(limit: nat, restart: nat, mpu: nat, timed: bool, s: Sending) {
    && |s.repeats| == |s.packets| && AllReadable(s.packets, mpu, timed)
    && (var fs := Pieces(restart, s.packets, mpu, timed);
        var d := Fragments.Payloads(fs);
        Fragments.Carries(limit, fs) && |d| >= 6 && Be32(d[..4]) == |d| - 4)
  }

  function NalOf(limit: nat, restart: nat, mpu: nat, timed: bool, s: Sending): Hevc.Item
    requires SendsNal(limit, restart, mpu, timed, s)
  {
    ItemOf(Fragments.UnitOf(Pieces(restart, s.packets, mpu, timed)), timed)
  }

  lemma {:induction false} PiecesCopies(restart: nat, p: Packet, n: nat, mpu: nat, timed: bool)
    requires Readable(p, mpu, timed)
    ensures AllReadable(Fragments.Copies(p, n), mpu, timed)
    ensures Pieces(restart, Fragments.Copies(p, n), mpu, timed) == Fragments.Copies(PieceFor(restart, p), n)
    decreases n
  {
    hide PieceFor;
    hide Readable;
    ReadableMpu(p, mpu, timed);
    if n > 0 {
      PiecesCopies(restart, p, n - 1, mpu, timed);
      PiecesJoin(restart, [p], Fragments.Copies(p, n - 1), mpu, timed);
      assert Pieces(restart, [p], mpu, timed) == [PieceFor(restart, p)];
    }
  }

  lemma PiecesJoin(restart: nat, ps: seq<Packet>, qs: seq<Packet>, mpu: nat, timed: bool)
    requires AllReadable(ps, mpu, timed) && AllReadable(qs, mpu, timed)
    ensures AllReadable(ps + qs, mpu, timed)
    ensures Pieces(restart, ps + qs, mpu, timed) == Pieces(restart, ps, mpu, timed) + Pieces(restart, qs, mpu, timed)
    ensures Deliveries(ps + qs) == Deliveries(ps) + Deliveries(qs)
  {
    hide PieceFor;
    hide Readable;
    forall i | 0 <= i < |ps + qs|
      ensures Readable((ps + qs)[i], mpu, timed)
    {
      if i >= |ps| { assert Readable(qs[i - |ps|], mpu, timed); } else { assert Readable(ps[i], mpu, timed); }
    }
    forall i | 0 <= i < |ps + qs|
      ensures Fragments.ParseHeader((ps + qs)[i].timed, (ps + qs)[i].body).Some?
    {
      ReadableMpu((ps + qs)[i], mpu, timed);
    }
  }

  lemma {:induction false} PiecesSpread(restart: nat, ps: seq<Packet>, ns: seq<nat>, mpu: nat, timed: bool)
    requires |ns| == |ps| && AllReadable(ps, mpu, timed)
    ensures AllReadable(Fragments.Spread(ps, ns), mpu, timed)
    ensures Pieces(restart, Fragments.Spread(ps, ns), mpu, timed)
         == Fragments.Spread(Pieces(restart, ps, mpu, timed), ns)
    decreases |ps|
  {
    hide PieceFor;
    hide Readable;
    hide AllReadable;
    hide Fragments.Copies;
    if ps == [] {
      NoneReadable(mpu, timed);
    } else {
      PiecesTail(restart, ps, mpu, timed);
      PiecesSpread(restart, ps[1..], ns[1..], mpu, timed);
      PiecesCopies(restart, ps[0], 1, mpu, timed);
      PiecesCopies(restart, ps[0], ns[0], mpu, timed);
      ReadableMpu(ps[0], mpu, timed);
      OneCopy(ps[0]);
      OneCopy(PieceFor(restart, ps[0]));
      var copies, more := Fragments.Copies(ps[0], ns[0]), Fragments.Spread(ps[1..], ns[1..]);
      PiecesJoin(restart, copies, more, mpu, timed);
      PiecesJoin(restart, [ps[0]], copies + more, mpu, timed);
    }
  }

  lemma NoneReadable(mpu: nat, timed: bool)
    ensures AllReadable([], mpu, timed)
  {
  }

  lemma OneCopy<T>(x: T)
    ensures Fragments.Copies(x, 1) == [x]
  {
    var none: seq<T> := [];
    assert [x] + none == [x];
  }

  /** However one NAL unit is cut into packets, and however often each comes, it does what the NAL itself does. */
  lemma SendingTaken(limit: nat, t: Track, mpu: nat, timed: bool, s: Sending)
    requires t.current == Some(mpu) && SendsNal(limit, t.restart, mpu, timed, s)
    requires s.packets != [] ==> Fragments.Expects(t.media, s.packets[0].sequence)
    ensures s.packets != []
    ensures (var r := Run(limit, t, Deliveries(Fragments.Spread(s.packets, s.repeats)));
             && r.track.current == t.current && r.track.restart == t.restart
             && r.track.media.phase == Fragments.Idle
             && r.track.media.last == s.packets[|s.packets| - 1].sequence
             && Alike(r, Absorb(t, Hevc.Feed(limit, t.hevc, NalOf(limit, t.restart, mpu, timed, s)))))
  {
    hide Alike;
    hide Absorb;
    hide Hevc.Feed;
    hide ConsumeUnits;
    hide Run;
    hide Fragments.Run;
    hide Fragments.Carries;
    hide Fragments.Spread;
    hide AllReadable;
    var fs := Pieces(t.restart, s.packets, mpu, timed);
    Fragments.CarriesConsecutive(limit, fs);
    Fragments.AnyUnitComesThrough(limit, t.media, fs, s.repeats);
    PiecesSpread(t.restart, s.packets, s.repeats, mpu, timed);
    PacketsTaken(limit, t, Fragments.Spread(s.packets, s.repeats), mpu, timed);
    ConsumeOne(limit, t, Fragments.UnitOf(fs), timed);
  }

  // ----- NAL units one after another

  function Last(s: Sending): Fragments.Sequence
    requires s.packets != []
  {
    s.packets[|s.packets| - 1].sequence
  }

  /** Each sending is good, and none begins with the number that the one before it ends with. */
  predicate Sends(limit: nat, restart: nat, mpu: nat, timed: bool, ss: seq<Sending>) {
    && (forall i :: 0 <= i < |ss| ==> ss[i].packets != [] && SendsNal(limit, restart, mpu, timed, ss[i]))
    && (forall i :: 0 < i < |ss| ==> ss[i].packets[0].sequence != Last(ss[i - 1]))
  }

  function Nals(limit: nat, restart: nat, mpu: nat, timed: bool, ss: seq<Sending>): seq<Hevc.Item>
    requires Sends(limit, restart, mpu, timed, ss)
  {
    seq(|ss|, i requires 0 <= i < |ss| => NalOf(limit, restart, mpu, timed, ss[i]))
  }

  /** All packets, in the order of transmission. */
  function Transmission(ss: seq<Sending>): seq<Packet>
    requires forall i :: 0 <= i < |ss| ==> |ss[i].repeats| == |ss[i].packets|
  {
    if ss == [] then [] else Fragments.Spread(ss[0].packets, ss[0].repeats) + Transmission(ss[1..])
  }

  function FeedAll(limit: nat, t: Track, items: seq<Hevc.Item>): Result
    decreases |items|
  {
    if items == [] then Result(t, [])
    else
      var r := Absorb(t, Hevc.Feed(limit, t.hevc, items[0]));
      Append(r, FeedAll(limit, r.track, items[1..]))
  }

  lemma {:induction false} FeedAllAlike(limit: nat, t: Track, u: Track, items: seq<Hevc.Item>)
    requires Bare(t) == Bare(u)
    ensures Alike(FeedAll(limit, t, items), FeedAll(limit, u, items))
    decreases |items|
  {
    hide Absorb;
    hide Hevc.Feed;
    if items != [] {
      assert t.hevc == Bare(t).hevc == u.hevc;
      AbsorbAlike(t, u, Hevc.Feed(limit, t.hevc, items[0]));
      var r, s := Absorb(t, Hevc.Feed(limit, t.hevc, items[0])), Absorb(u, Hevc.Feed(limit, u.hevc, items[0]));
      FeedAllAlike(limit, r.track, s.track, items[1..]);
      AppendAlike(r, FeedAll(limit, r.track, items[1..]), s, FeedAll(limit, s.track, items[1..]));
    }
  }

  lemma SendsTail(limit: nat, restart: nat, mpu: nat, timed: bool, ss: seq<Sending>)
    requires Sends(limit, restart, mpu, timed, ss) && ss != []
    ensures ss[0].packets != [] && SendsNal(limit, restart, mpu, timed, ss[0])
    ensures Sends(limit, restart, mpu, timed, ss[1..])
    ensures |ss| > 1 ==> ss[1].packets != [] && ss[1].packets[0].sequence != Last(ss[0])
    ensures (var items := Nals(limit, restart, mpu, timed, ss);
             && items[0] == NalOf(limit, restart, mpu, timed, ss[0])
             && items[1..] == Nals(limit, restart, mpu, timed, ss[1..]))
  {
    hide SendsNal;
    var rest := ss[1..];
    assert forall i :: 0 <= i < |rest| ==> rest[i] == ss[i + 1];
  }

  lemma SendsWhole(limit: nat, restart: nat, mpu: nat, timed: bool, ss: seq<Sending>)
    requires Sends(limit, restart, mpu, timed, ss)
    ensures forall i :: 0 <= i < |ss| ==> ss[i].packets != [] && |ss[i].repeats| == |ss[i].packets|
  {
  }

  lemma {:induction false} RunAppend(limit: nat, t: Track, ops: seq<Op>, more: seq<Op>)
    ensures (var r := Run(limit, t, ops); Run(limit, t, ops + more) == Append(r, Run(limit, r.track, more)))
    decreases |ops|
  {
    hide Step;
    if ops == [] {
      assert ops + more == more;
      var r := Run(limit, t, more);
      assert [] + r.units == r.units;
    } else {
      var r := Step(limit, t, ops[0]);
      assert (ops + more)[1..] == ops[1..] + more;
      RunAppend(limit, r.track, ops[1..], more);
      var s := Run(limit, r.track, ops[1..]);
      assert r.units + (s.units + Run(limit, s.track, more).units)
          == (r.units + s.units) + Run(limit, s.track, more).units;
    }
  }

  lemma DeliveriesJoin(ps: seq<Packet>, qs: seq<Packet>)
    ensures Deliveries(ps + qs) == Deliveries(ps) + Deliveries(qs)
  {
  }

  lemma {:induction false} TransmissionTaken(limit: nat, t: Track, mpu: nat, timed: bool, ss: seq<Sending>)
    requires t.current == Some(mpu) && Sends(limit, t.restart, mpu, timed, ss)
    requires ss != [] ==> ss[0].packets != [] && Fragments.Expects(t.media, ss[0].packets[0].sequence)
    requires forall i :: 0 <= i < |ss| ==> |ss[i].repeats| == |ss[i].packets|
    ensures Alike(Run(limit, t, Deliveries(Transmission(ss))),
                  FeedAll(limit, t, Nals(limit, t.restart, mpu, timed, ss)))
    decreases |ss|
  {
    hide Step;
    hide Absorb;
    hide Hevc.Feed;
    hide SendsNal;
    hide Sends;
    hide Fragments.Spread;
    hide Alike;
    hide Bare;
    hide Deliveries;
    if ss == [] {
      NoTransmission(limit, t, mpu, timed);
    } else {
      SendsTail(limit, t.restart, mpu, timed, ss);
      SendingTaken(limit, t, mpu, timed, ss[0]);
      var first := Fragments.Spread(ss[0].packets, ss[0].repeats);
      var r := Run(limit, t, Deliveries(first));
      DeliveriesJoin(first, Transmission(ss[1..]));
      RunAppend(limit, t, Deliveries(first), Deliveries(Transmission(ss[1..])));
      TransmissionTaken(limit, r.track, mpu, timed, ss[1..]);
      var items := Nals(limit, t.restart, mpu, timed, ss);
      FedBoth(limit, r, Run(limit, r.track, Deliveries(Transmission(ss[1..]))),
              Absorb(t, Hevc.Feed(limit, t.hevc, items[0])), items[1..]);
    }
  }

  lemma NoTransmission(limit: nat, t: Track, mpu: nat, timed: bool)
    ensures Deliveries([]) == [] && Alike(Run(limit, t, []), FeedAll(limit, t, []))
    ensures Sends(limit, t.restart, mpu, timed, []) && Nals(limit, t.restart, mpu, timed, []) == []
  {
  }

  lemma FedBoth(limit: nat, r: Result, later: Result, s: Result, items: seq<Hevc.Item>)
    requires Alike(r, s) && Alike(later, FeedAll(limit, r.track, items))
    ensures Alike(Append(r, later), Append(s, FeedAll(limit, s.track, items)))
  {
    hide FeedAll;
    FeedAllAlike(limit, r.track, s.track, items);
    AppendAlike(r, later, s, FeedAll(limit, s.track, items));
  }

  // ----- what the access-unit assembler hands on is stamped

  /** Up to what waits to be assembled, too. */
  function Stamper(t: Track): Track { Bare(t).(hevc := Hevc.State([], false, true)) }

  /** Hand on the units of a run of the assembler. */
  function HandOnAll(t: Track, es: seq<Hevc.Event>): Result
    decreases |es|
  {
    if es == [] then Result(t, [])
    else
      var r := match es[0]
               case Await => Result(t, [])
               case Unit(items) => if items == [] then Result(t, []) else HandOn(t, items);
      Append(r, HandOnAll(r.track, es[1..]))
  }

  predicate StampsAlike(r: Result, s: Result) {
    Stamper(r.track) == Stamper(s.track) && Plain(r.units) == Plain(s.units)
  }

  lemma {:induction false} HandOnAllAlike(t: Track, u: Track, es: seq<Hevc.Event>)
    requires Stamper(t) == Stamper(u)
    ensures StampsAlike(HandOnAll(t, es), HandOnAll(u, es))
    decreases |es|
  {
    hide Timing.Emit;
    if es != [] {
      var one := [es[0]];
      var r := match es[0]
               case Await => Result(t, [])
               case Unit(items) => if items == [] then Result(t, []) else HandOn(t, items);
      var s := match es[0]
               case Await => Result(u, [])
               case Unit(items) => if items == [] then Result(u, []) else HandOn(u, items);
      HandOnAllAlike(r.track, s.track, es[1..]);
      PlainJoin(r, HandOnAll(r.track, es[1..]), s, HandOnAll(s.track, es[1..]));
    }
  }

  lemma PlainJoin(r: Result, later: Result, s: Result, last: Result)
    requires Plain(r.units) == Plain(s.units) && StampsAlike(later, last)
    ensures StampsAlike(Append(r, later), Append(s, last))
  {
    assert Plain(r.units + later.units) == Plain(r.units) + Plain(later.units);
    assert Plain(s.units + last.units) == Plain(s.units) + Plain(last.units);
  }

  lemma {:induction false} HandOnAllAppend(t: Track, es: seq<Hevc.Event>, fs: seq<Hevc.Event>)
    ensures (var r := HandOnAll(t, es); HandOnAll(t, es + fs) == Append(r, HandOnAll(r.track, fs)))
    decreases |es|
  {
    hide HandOn;
    if es == [] {
      assert es + fs == fs;
      var r := HandOnAll(t, fs);
      assert [] + r.units == r.units;
    } else {
      assert (es + fs)[1..] == es[1..] + fs;
      var one := match es[0]
                 case Await => Result(t, [])
                 case Unit(items) => if items == [] then Result(t, []) else HandOn(t, items);
      HandOnAllAppend(one.track, es[1..], fs);
      var s := HandOnAll(one.track, es[1..]);
      assert one.units + (s.units + HandOnAll(s.track, fs).units)
          == (one.units + s.units) + HandOnAll(s.track, fs).units;
    }
  }

  /** What the assembler decides for one NAL, or at the end, is handed on. */
  lemma AbsorbHandsOn(t: Track, o: Hevc.Outcome)
    ensures Absorb(t, o).track.hevc == o.next
    ensures StampsAlike(Absorb(t, o), HandOnAll(t, Hevc.Handed(o)))
  {
    hide Timing.Emit;
    if o.unit.Some? {
      var es := [Hevc.Unit(o.unit.value)];
      assert es[1..] == [];
      var r := if o.unit.value == [] then Result(t, []) else HandOn(t, o.unit.value);
      assert HandOnAll(r.track, []) == Result(r.track, []) && r.units + [] == r.units;
    }
  }

  lemma {:induction false} FeedAllHandsOn(limit: nat, t: Track, items: seq<Hevc.Item>)
    ensures (var (st, es) := Hevc.Run(limit, t.hevc, Hevc.Arrivals(items)); var r := FeedAll(limit, t, items);
             r.track.hevc == st && StampsAlike(r, HandOnAll(t, es)))
    decreases |items|
  {
    hide Absorb;
    hide Hevc.Feed;
    hide HandOnAll;
    hide StampsAlike;
    if items == [] {
      NothingHandedOn(t);
    } else {
      var o := Hevc.Feed(limit, t.hevc, items[0]);
      var r := Absorb(t, o);
      assert Hevc.Arrivals(items)[1..] == Hevc.Arrivals(items[1..]);
      AbsorbHandsOn(t, o);
      FeedAllHandsOn(limit, r.track, items[1..]);
      var es := Hevc.Run(limit, o.next, Hevc.Arrivals(items[1..])).1;
      HandOnAllAppend(t, Hevc.Handed(o), es);
      HandedBoth(r, FeedAll(limit, r.track, items[1..]), HandOnAll(t, Hevc.Handed(o)), es);
    }
  }

  lemma NothingHandedOn(t: Track)
    ensures StampsAlike(Result(t, []), HandOnAll(t, []))
  {
  }

  lemma HandedBoth(r: Result, later: Result, s: Result, es: seq<Hevc.Event>)
    requires StampsAlike(r, s) && StampsAlike(later, HandOnAll(r.track, es))
    ensures StampsAlike(Append(r, later), Append(s, HandOnAll(s.track, es)))
  {
    hide HandOnAll;
    HandOnAllAlike(r.track, s.track, es);
    PlainJoin(r, later, s, HandOnAll(s.track, es));
  }

  lemma AlikeStamps(r: Result, s: Result)
    requires Alike(r, s)
    ensures StampsAlike(r, s) && r.track.hevc == s.track.hevc
  {
    assert r.track.hevc == Bare(r.track).hevc && s.track.hevc == Bare(s.track).hevc;
  }

  lemma StampsTransitive(a: Result, b: Result, c: Result)
    requires StampsAlike(a, b) && StampsAlike(b, c)
    ensures StampsAlike(a, c)
  {
  }

  lemma FlushUnits(limit: nat, t: Track)
    ensures Run(limit, t, [EndOfStream]).units == FinalizeHevc(t).units
  {
    hide FinalizeHevc;
    var r := Step(limit, t, EndOfStream);
    assert [EndOfStream][1..] == [] && r.units + [] == r.units;
  }

  /** Packets of one MPU and then the end of the stream hand on what the assembler makes of their NAL units. */
  lemma MpuHandsOn(limit: nat, t: Track, mpu: nat, timed: bool, ss: seq<Sending>)
    requires t.current == Some(mpu) && ss != [] && Sends(limit, t.restart, mpu, timed, ss)
    requires ss[0].packets != [] && Fragments.Expects(t.media, ss[0].packets[0].sequence)
    requires forall i :: 0 <= i < |ss| ==> |ss[i].repeats| == |ss[i].packets|
    ensures (var es := Hevc.Run(limit, t.hevc,
                                Hevc.Arrivals(Nals(limit, t.restart, mpu, timed, ss)) + [Hevc.MpuChange]).1;
             Plain(Run(limit, t, Deliveries(Transmission(ss)) + [EndOfStream]).units) == Plain(HandOnAll(t, es).units))
  {
    hide Sends;
    hide SendsNal;
    hide Nals;
    hide Absorb;
    hide FeedAll;
    hide HandOnAll;
    hide StampsAlike;
    hide Alike;
    hide Run;
    hide Hevc.Run;
    hide Hevc.Finalize;
    var items, ops := Nals(limit, t.restart, mpu, timed, ss), Deliveries(Transmission(ss));
    var (st, es) := Hevc.Run(limit, t.hevc, Hevc.Arrivals(items));
    var r, s := Run(limit, t, ops), FeedAll(limit, t, items);
    TransmissionTaken(limit, t, mpu, timed, ss);
    AlikeStamps(r, s);
    FeedAllHandsOn(limit, t, items);
    StampsTransitive(r, s, HandOnAll(t, es));
    RunAppend(limit, t, ops, [EndOfStream]);
    FlushUnits(limit, r.track);
    Hevc.RunAppend(limit, t.hevc, Hevc.Arrivals(items), [Hevc.MpuChange]);
    Hevc.RunOne(limit, st, Hevc.MpuChange);
    var closed := Hevc.Handed(Hevc.Finalize(st));
    AbsorbHandsOn(r.track, Hevc.Finalize(st));
    HandOnAllAppend(t, es, closed);
    HandedBoth(r, FinalizeHevc(r.track), HandOnAll(t, es), closed);
    EndedUnits(r, Run(limit, r.track, [EndOfStream]), FinalizeHevc(r.track),
               Append(HandOnAll(t, es), HandOnAll(HandOnAll(t, es).track, closed)));
  }

  lemma EndedUnits(r: Result, ended: Result, last: Result, s: Result)
    requires ended.units == last.units && StampsAlike(Append(r, last), s)
    ensures Plain(Append(r, ended).units) == Plain(s.units)
  {
  }

  /** The first packet of a new MPU, when nothing waits, only starts the clock over. */
  lemma MpuEntered(limit: nat, t: Track, p: Packet, later: seq<Op>)
    requires t.current != Some(p.mpu) && t.hevc.items == []
    ensures (var u := EnterMpu(t, p.mpu).track;
             && u.current == Some(p.mpu) && u.hevc == t.hevc && u.clock == Timing.StartMpu(t.clock)
             && u.media == t.media
             && u.restart == t.restart && u.mappings == t.mappings && u.extended == t.extended
             && (!p.aggregated ==> Run(limit, t, [Deliver(p)] + later) == Run(limit, u, [Deliver(p)] + later)))
  {
    hide ConsumePiece;
    hide ConsumeAll;
    var ops := [Deliver(p)] + later;
    assert ops[1..] == later;
  }
}
