/** What a sender of pictures gets back: each one whole, from its fragments through the track to its time stamps. */
module TrackRoundTrip {
  import opened Bytes
  import Fragments
  import Hevc
  import Timing
  import opened TrackModel
  import opened TrackPackets

  // ----- the stamps of the pictures

  /** The pictures from the first one that offers random access, or all of them when none is awaited. */
  function Shown(aus: seq<seq<Hevc.Item>>, waiting: bool): seq<seq<Hevc.Item>> {
    if aus == [] then []
    else if aus[0] == [] || (waiting && !Hevc.HasRap(aus[0])) then Shown(aus[1..], waiting && !Hevc.HasRap(aus[0]))
    else [aus[0]] + Shown(aus[1..], false)
  }

  function Units(shown: seq<seq<Hevc.Item>>): seq<Hevc.Event> {
    seq(|shown|, i requires 0 <= i < |shown| => Hevc.Unit(shown[i]))
  }

  lemma {:induction false} PassingShown(aus: seq<seq<Hevc.Item>>, waiting: bool)
    ensures Hevc.Passing(aus, waiting) == Units(Shown(aus, waiting))
    decreases |aus|
  {
    if aus != [] {
      hide Hevc.HasRap;
      PassingShown(aus[1..], waiting && !Hevc.HasRap(aus[0]));
    }
  }

  /** They are a final stretch of the pictures: all of them when random access is not awaited, or else what begins
      with the first one that offers it. */
  lemma {:induction false} ShownFrom(aus: seq<seq<Hevc.Item>>, waiting: bool) returns (n: nat)
    requires forall k :: 0 <= k < |aus| ==> aus[k] != []
    ensures n <= |aus| && Shown(aus, waiting) == aus[n..]
    ensures !waiting ==> n == 0
    ensures waiting && n < |aus| ==> Hevc.HasRap(aus[n])
    ensures forall k :: 0 <= k < n ==> !Hevc.HasRap(aus[k])
    decreases |aus|
  {
    hide Hevc.HasRap;
    if aus == [] {
      n := 0;
    } else if waiting && !Hevc.HasRap(aus[0]) {
      var m := ShownFrom(aus[1..], true);
      n := m + 1;
      assert aus[1..][m..] == aus[n..];
      forall k | 0 <= k < n
        ensures !Hevc.HasRap(aus[k])
      {
        if k > 0 { assert aus[1..][k - 1] == aus[k]; }
      }
    } else {
      var m := ShownFrom(aus[1..], false);
      n := 0;
      assert [aus[0]] + aus[1..] == aus;
    }
  }

  /** The place of the picture in its MPU: as its sample is numbered, or else as it is counted. */
  function Place(au: seq<Hevc.Item>, count: nat): int
    requires au != []
  {
    if au[0].sample != 0 then au[0].sample - 1 else count
  }

  /** The pictures are of the MPU; they are all numbered or all counted; the descriptor reaches their places, and of
      type 1 they come in the order of their places. */
  predicate Describes(e: Timing.Extended, mpu: nat, timed: bool, restart: nat, shown: seq<seq<Hevc.Item>>, from: nat) {
    && (forall i :: 0 <= i < |shown| ==>
          && shown[i] != [] && shown[i][0].mpu == mpu && shown[i][0].restartOffset == restart
          && (shown[i][0].sample != 0 <==> timed) && Timing.Covers(e, Place(shown[i], from + i)))
    && (e.offsetType != 2 ==>
          forall i, j :: 0 <= i < j < |shown| ==> Place(shown[i], from + i) <= Place(shown[j], from + j))
  }

  /** The NAL units in order, each behind a start code. */
  function ByteStream(au: seq<Hevc.Item>): seq<byte> {
    Flatten(seq(|au|, i requires 0 <= i < |au| => [0x00, 0x00, 0x01] + au[i].nal))
  }

  /** The picture as a unit, with the times of its own place. */
  function PictureAt(au: seq<Hevc.Item>, mpu: nat, place: nat, mapping: Timing.Mapping, e: Timing.Extended, leap: int,
                     restart: nat): AccessUnit
    requires au != [] && Timing.Covers(e, place)
  {
    var gaps := Timing.Sum(e.ptsGaps[..place]);
    var dts := if e.offsetType != 2 then place * e.ptsGaps[0] - e.decodingTimeOffset
               else if place == 0 then 0 - e.decodingTimeOffset else gaps - e.dtsPts[place];
    var pts := if e.offsetType != 2 then dts + e.dtsPts[place] else gaps;
    AccessUnit(mpu, ByteStream(au), Hevc.HasRap(au), au[0].inputOffset,
               Timing.Stamp(pts, dts, (mapping.ntp + leap) % UINT64, Min(restart, Min(mapping.restart, e.restart))),
               false)
  }

  function Pictures(shown: seq<seq<Hevc.Item>>, mpu: nat, timed: bool, mapping: Timing.Mapping, e: Timing.Extended,
                    leap: int, restart: nat, from: nat): seq<AccessUnit>
    requires Describes(e, mpu, timed, restart, shown, from)
  {
    seq(|shown|, i requires 0 <= i < |shown| =>
      PictureAt(shown[i], mpu, Place(shown[i], from + i), mapping, e, leap, restart))
  }

  /** The clock before the picture at `from`, with `leap` as the correction that its stamps take. */
  predicate Ready(c: Timing.Clock, mpu: nat, timed: bool, e: Timing.Extended, leap: int, shown: seq<seq<Hevc.Item>>,
                  from: nat)
    requires shown != [] ==> shown[0] != [] && Timing.Covers(e, Place(shown[0], from))
  {
    && (!timed ==> c.auIndex == from)
    && Timing.Examine(c, mpu, e).leapOffset == leap
    && (shown != [] && e.offsetType != 2 && c.lastDts.Some? ==>
        c.lastDts.value <= Timing.FixedDts(e, Place(shown[0], from)))
  }

  lemma DescribesTail(e: Timing.Extended, mpu: nat, timed: bool, restart: nat, shown: seq<seq<Hevc.Item>>, from: nat)
    requires Describes(e, mpu, timed, restart, shown, from) && shown != []
    ensures Describes(e, mpu, timed, restart, shown[1..], from + 1)
    ensures shown[0] != [] && Timing.Covers(e, Place(shown[0], from))
    ensures |shown| > 1 ==>
              && shown[1] != [] && Timing.Covers(e, Place(shown[1], from + 1))
              && (e.offsetType != 2 ==> Place(shown[0], from) <= Place(shown[1], from + 1))
  {
    hide Timing.Covers;
    hide Place;
    var rest := shown[1..];
    assert forall i :: 0 <= i < |rest| ==> rest[i] == shown[i + 1] && from + 1 + i == from + (i + 1);
    if |shown| > 1 { assert from + 1 == from + (0 + 1); }
  }

  /** One picture is stamped with the times of its place, and the clock is ready for the next. */
  lemma PictureStamped(t: Track, mpu: nat, timed: bool, leap: int, shown: seq<seq<Hevc.Item>>, from: nat)
    requires mpu in t.mappings && mpu in t.extended && shown != []
    requires Describes(t.extended[mpu], mpu, timed, t.restart, shown, from)
    requires shown[0] != [] && Timing.Covers(t.extended[mpu], Place(shown[0], from))
    requires Ready(t.clock, mpu, timed, t.extended[mpu], leap, shown, from)
    requires |shown| > 1 ==> shown[1] != [] && Timing.Covers(t.extended[mpu], Place(shown[1], from + 1))
    ensures (var r := HandOn(t, shown[0]); var e := t.extended[mpu];
             && Plain(r.units) == [PictureAt(shown[0], mpu, Place(shown[0], from), t.mappings[mpu], e, leap, t.restart)]
             && Ready(r.track.clock, mpu, timed, e, leap, shown[1..], from + 1)
             && r.track.mappings == t.mappings && r.track.extended == t.extended && r.track.restart == t.restart)
  {
    var e, place := t.extended[mpu], Place(shown[0], from);
    hide Timing.Times;
    hide Hevc.AnnexB;
    hide Hevc.HasRap;
    DescribesTail(e, mpu, timed, t.restart, shown, from);
    TimesAre(e, place);
    Hevc.AnnexBInOrder(shown[0]);
    hide ByteStream;
    if |shown| > 1 && e.offsetType != 2 { Timing.FixedDtsRises(e, place, Place(shown[1], from + 1)); }
  }

  lemma TimesAre(e: Timing.Extended, place: nat)
    requires Timing.Covers(e, place)
    ensures Timing.AreTimes(e, place, Timing.Times(e, place).0, Timing.Times(e, place).1)
    ensures e.offsetType != 2 ==> Timing.Times(e, place).0 == Timing.FixedDts(e, place)
  {
  }

  lemma {:induction false} PicturesStamped(t: Track, mpu: nat, timed: bool, leap: int, shown: seq<seq<Hevc.Item>>,
                                           from: nat)
    requires mpu in t.mappings && mpu in t.extended
    requires Describes(t.extended[mpu], mpu, timed, t.restart, shown, from)
    requires shown != [] ==> shown[0] != [] && Timing.Covers(t.extended[mpu], Place(shown[0], from))
    requires Ready(t.clock, mpu, timed, t.extended[mpu], leap, shown, from)
    ensures Plain(HandOnAll(t, Units(shown)).units)
         == Pictures(shown, mpu, timed, t.mappings[mpu], t.extended[mpu], leap, t.restart, from)
    decreases |shown|
  {
    hide HandOn;
    hide Describes;
    hide Ready;
    hide PictureAt;
    hide Timing.Covers;
    if shown != [] {
      var e := t.extended[mpu];
      DescribesTail(e, mpu, timed, t.restart, shown, from);
      PictureStamped(t, mpu, timed, leap, shown, from);
      var r := HandOn(t, shown[0]);
      PicturesStamped(r.track, mpu, timed, leap, shown[1..], from + 1);
      assert Units(shown)[1..] == Units(shown[1..]) && Units(shown)[0] == Hevc.Unit(shown[0]);
      var later := HandOnAll(r.track, Units(shown[1..]));
      assert Plain(r.units + later.units) == Plain(r.units) + Plain(later.units);
      PicturesCons(shown, mpu, timed, t.mappings[mpu], e, leap, t.restart, from);
    }
  }

  lemma PicturesCons(shown: seq<seq<Hevc.Item>>, mpu: nat, timed: bool, mapping: Timing.Mapping, e: Timing.Extended,
                     leap: int, restart: nat, from: nat)
    requires shown != [] && Describes(e, mpu, timed, restart, shown, from)
    requires shown[0] != [] && Timing.Covers(e, Place(shown[0], from))
    requires Describes(e, mpu, timed, restart, shown[1..], from + 1)
    ensures Pictures(shown, mpu, timed, mapping, e, leap, restart, from)
         == [PictureAt(shown[0], mpu, Place(shown[0], from), mapping, e, leap, restart)]
            + Pictures(shown[1..], mpu, timed, mapping, e, leap, restart, from + 1)
  {
    hide PictureAt;
  }

  // ----- the whole way

  function Flat(aus: seq<seq<Hevc.Item>>): seq<Hevc.Item> { if aus == [] then [] else aus[0] + Flat(aus[1..]) }

  lemma {:induction false} FlatArrivals(aus: seq<seq<Hevc.Item>>)
    ensures Hevc.AllArrivals(aus) == Hevc.Arrivals(Flat(aus))
    decreases |aus|
  {
    if aus != [] { FlatArrivals(aus[1..]); }
  }

  /** Whatever well-formed pictures are sent in a new MPU, their NAL units cut into packets in any way and each
      packet sent any number of times, a track that has the descriptors of the MPU hands on exactly those pictures,
      byte for byte, from the first that offers random access on (or all, when that is not awaited), each with the
      times of its own place, with the leap correction of the MPU, and with the earliest restart offset. */
  lemma PicturesComeThrough(limit: nat, t: Track, mpu: nat, timed: bool, ss: seq<Sending>, aus: seq<seq<Hevc.Item>>)
    requires t.current != Some(mpu) && t.hevc.items == [] && !t.hevc.skipping
    requires mpu in t.mappings && mpu in t.extended
    requires ss != [] && Sends(limit, t.restart, mpu, timed, ss)
    requires Fragments.Expects(t.media, ss[0].packets[0].sequence)
    requires aus != [] && Hevc.Stream(limit, aus) && Nals(limit, t.restart, mpu, timed, ss) == Flat(aus)
    requires Describes(t.extended[mpu], mpu, timed, t.restart, Shown(aus, t.hevc.waitForRap), 0)
    ensures (var leap := Timing.Examine(Timing.StartMpu(t.clock), mpu, t.extended[mpu]).leapOffset;
             Plain(Run(limit, t, Deliveries(Transmission(ss)) + [EndOfStream]).units)
             == Pictures(Shown(aus, t.hevc.waitForRap), mpu, timed, t.mappings[mpu], t.extended[mpu], leap, t.restart,
                         0))
  {
    hide Sends;
    hide SendsNal;
    hide Nals;
    hide Run;
    hide HandOnAll;
    hide Hevc.Run;
    hide Hevc.Stream;
    hide Describes;
    hide Pictures;
    hide Timing.Examine;
    hide EnterMpu;
    hide Ready;
    SendsWhole(limit, t.restart, mpu, timed, ss);
    var waiting := t.hevc.waitForRap;
    var u := EnterMpu(t, mpu).track;
    NewMpuRuns(limit, t, mpu, timed, ss);
    assert u.hevc == Hevc.State([], false, waiting);
    MpuHandsOn(limit, u, mpu, timed, ss);
    FlatArrivals(aus);
    Hevc.RoundTrip(limit, aus, waiting);
    PassingShown(aus, waiting);
    var shown, leap := Shown(aus, waiting), Timing.Examine(u.clock, mpu, u.extended[mpu]).leapOffset;
    NewMpuReady(t.clock, mpu, timed, u.extended[mpu], shown, t.restart);
    PicturesStamped(u, mpu, timed, leap, shown, 0);
  }

  lemma NewMpuRuns(limit: nat, t: Track, mpu: nat, timed: bool, ss: seq<Sending>)
    requires t.current != Some(mpu) && t.hevc.items == []
    requires ss != [] && Sends(limit, t.restart, mpu, timed, ss)
    requires forall i :: 0 <= i < |ss| ==> |ss[i].repeats| == |ss[i].packets|
    ensures (var u := EnterMpu(t, mpu).track; var ops := Deliveries(Transmission(ss)) + [EndOfStream];
             && u.current == Some(mpu) && u.hevc == t.hevc && u.clock == Timing.StartMpu(t.clock) && u.media == t.media
             && u.restart == t.restart && u.mappings == t.mappings && u.extended == t.extended
             && Run(limit, t, ops) == Run(limit, u, ops))
  {
    hide Run;
    hide EnterMpu;
    hide SendsNal;
    SendsTail(limit, t.restart, mpu, timed, ss);
    var p := ss[0].packets[0];
    FirstPacket(limit, t.restart, mpu, timed, ss[0]);
    var ps := Transmission(ss);
    assert ps[0] == p;
    var ops := Deliveries(ps) + [EndOfStream];
    assert ops == [Deliver(p)] + ops[1..];
    MpuEntered(limit, t, p, ops[1..]);
  }

  lemma FirstPacket(limit: nat, restart: nat, mpu: nat, timed: bool, s: Sending)
    requires s.packets != [] && SendsNal(limit, restart, mpu, timed, s)
    ensures s.packets[0].mpu == mpu && !s.packets[0].aggregated && |s.repeats| == |s.packets|
    ensures Fragments.Spread(s.packets, s.repeats) != []
         && Fragments.Spread(s.packets, s.repeats)[0] == s.packets[0]
  {
    assert Readable(s.packets[0], mpu, timed);
  }

  lemma NewMpuReady(c: Timing.Clock, mpu: nat, timed: bool, e: Timing.Extended, shown: seq<seq<Hevc.Item>>,
                    restart: nat)
    requires Describes(e, mpu, timed, restart, shown, 0)
    ensures shown != [] ==> shown[0] != [] && Timing.Covers(e, Place(shown[0], 0))
    ensures (var u := Timing.StartMpu(c); Ready(u, mpu, timed, e, Timing.Examine(u, mpu, e).leapOffset, shown, 0))
  {
    if shown != [] { DescribesTail(e, mpu, timed, restart, shown, 0); }
  }

  // ----- and every NAL unit can be sent, cut in any way

  /** What one packet carries of a NAL unit, and the packet's offset. */
  datatype Part = Part(bytes: seq<byte>, offset: nat)

  function Joined(parts: seq<Part>): seq<byte> {
    Flatten(seq(|parts|, i requires 0 <= i < |parts| => parts[i].bytes))
  }

  /** A timed MFU: its header with the sample number, and the part. */
  function Body(sample: nat, part: seq<byte>): seq<byte>
    requires sample < UINT32
  {
    [0, 0, 0, 0] + Wire32(sample) + [0, 0, 0, 0, 0, 0] + part
  }

  function Indicator(i: nat, n: nat): Fragments.Fragmentation {
    if n == 1 then 0 else if i == 0 then 1 else if i == n - 1 then 3 else 2
  }

  function Cut(mpu: nat, sample: nat, sequence: Fragments.Sequence, randomAccess: bool, parts: seq<Part>): seq<Packet>
    requires sample < UINT32
  {
    seq(|parts|, i requires 0 <= i < |parts| =>
      Packet((sequence + i) % UINT32, mpu, true, Indicator(i, |parts|), false, randomAccess, parts[i].offset,
             Body(sample, parts[i].bytes)))
  }

  lemma BodyReads(sample: nat, part: seq<byte>)
    requires sample < UINT32
    ensures Fragments.ParseHeader(true, Body(sample, part)) == Some((sample, part))
  {
    var body := Body(sample, part);
    assert body[4..8] == Wire32(sample) && body[14..] == part;
  }

  predicate ArePieces(fs: seq<Fragments.Piece>, mpu: nat, sample: nat, sequence: Fragments.Sequence, randomAccess: bool,
                      parts: seq<Part>, restart: nat)
  {
    && |fs| == |parts|
    && forall i :: 0 <= i < |fs| ==>
         fs[i] == Fragments.Piece((sequence + i) % UINT32, mpu, sample, Indicator(i, |parts|), false, parts[i].bytes,
                                  Fragments.Head(parts[i].offset, restart, randomAccess, NO_EXTENSIONS))
  }

  lemma CutReadable(mpu: nat, sample: nat, sequence: Fragments.Sequence, randomAccess: bool, parts: seq<Part>,
                    restart: nat)
    requires sample < UINT32
    ensures (var ps := Cut(mpu, sample, sequence, randomAccess, parts);
             && AllReadable(ps, mpu, true)
             && ArePieces(Pieces(restart, ps, mpu, true), mpu, sample, sequence, randomAccess, parts, restart))
  {
    hide Body;
    forall i | 0 <= i < |parts|
      ensures Fragments.ParseHeader(true, Body(sample, parts[i].bytes)) == Some((sample, parts[i].bytes))
    {
      BodyReads(sample, parts[i].bytes);
    }
    hide Fragments.ParseHeader;
  }

  lemma JoinedPayloads(fs: seq<Fragments.Piece>, parts: seq<Part>)
    requires |fs| == |parts| && forall i :: 0 <= i < |fs| ==> fs[i].payload == parts[i].bytes
    ensures Fragments.Payloads(fs) == Joined(parts)
  {
    Fragments.PayloadsInOrder(fs);
    assert seq(|fs|, i requires 0 <= i < |fs| => fs[i].payload)
        == seq(|parts|, i requires 0 <= i < |parts| => parts[i].bytes);
  }

  /** Any cut of a NAL unit behind its length into packets, within the limit unless it is one packet, sends that
      unit. */
  lemma AnyCutSends(limit: nat, restart: nat, mpu: nat, sample: nat, sequence: Fragments.Sequence, randomAccess: bool,
                    parts: seq<Part>, repeats: seq<nat>, nal: Hevc.Nal)
    requires sample < UINT32 && |nal| < UINT32 && parts != [] && |repeats| == |parts|
    requires Joined(parts) == Wire32(|nal|) + nal && (|parts| > 1 ==> |nal| + 4 <= limit)
    ensures (var s := Sending(Cut(mpu, sample, sequence, randomAccess, parts), repeats);
             && SendsNal(limit, restart, mpu, true, s)
             && NalOf(limit, restart, mpu, true, s)
                == Hevc.Item(nal, mpu, sample, randomAccess, parts[0].offset, restart))
  {
    hide Wire32;
    hide Cut;
    hide Pieces;
    hide AllReadable;
    hide Fragments.Payloads;
    hide Fragments.Carries;
    var ps := Cut(mpu, sample, sequence, randomAccess, parts);
    CutReadable(mpu, sample, sequence, randomAccess, parts, restart);
    CutCount(mpu, sample, sequence, randomAccess, parts);
    var fs := Pieces(restart, ps, mpu, true);
    JoinedPayloads(fs, parts);
    var d := Fragments.Payloads(fs);
    assert d[..4] == Wire32(|nal|) && d[4..] == nal;
    CutCarries(limit, fs, sequence, mpu, sample);
    assert fs[0] in fs;
  }

  lemma CutCount(mpu: nat, sample: nat, sequence: Fragments.Sequence, randomAccess: bool, parts: seq<Part>)
    requires sample < UINT32
    ensures |Cut(mpu, sample, sequence, randomAccess, parts)| == |parts|
  {
  }

  lemma CutCarries(limit: nat, fs: seq<Fragments.Piece>, sequence: Fragments.Sequence, mpu: nat, sample: nat)
    requires fs != [] && (|fs| > 1 ==> |Fragments.Payloads(fs)| <= limit)
    requires forall i :: 0 <= i < |fs| ==>
               && fs[i].sequence == (sequence + i) % UINT32 && fs[i].mpu == mpu && fs[i].key == sample
               && fs[i].fragmentation == Indicator(i, |fs|) && !fs[i].aggregated
    ensures Fragments.Carries(limit, fs)
  {
    hide Fragments.Payloads;
    forall i | 1 <= i < |fs|
      ensures fs[i].sequence == Fragments.NextSequence(fs[i - 1].sequence)
    {
      Next(sequence + i - 1);
    }
  }

  lemma Next(n: nat)
    ensures (n + 1) % UINT32 == (n % UINT32 + 1) % UINT32
  {
  }
}
