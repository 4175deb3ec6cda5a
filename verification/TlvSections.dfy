/** Cutting TLV-SI sections out of the payloads that carry them, with resynchronization on the CRC. */
module TlvSections {
  import opened Bytes
  import opened Crc

  // ----- sections

  /** The twelve-bit length after the first byte. */
  function SectionLength(s: seq<Octet>): (n: nat)
    requires |s| >= 3
    ensures n < 4096
  {
    (s[1] & 0x0f) as nat * 256 + s[2] as nat
  }

  predicate GoodHeader(s: seq<Octet>)
    requires |s| >= 3
  {
    s[1] & 0x80 != 0 && 9 <= SectionLength(s) <= 1021
  }

  /** A complete section begins here: well-formed header, number not past the last, CRC residue zero. */
  predicate StartsValid(s: seq<Octet>) {
    && |s| >= 3 && GoodHeader(s)
    && 3 + SectionLength(s) <= |s|
    && s[6] as nat <= s[7] as nat
    && Crc32(s[..3 + SectionLength(s)]) == 0
  }

  predicate Valid(section: seq<Octet>) { StartsValid(section) && |section| == 3 + SectionLength(section) }

  /** A section field by field: its table, the flags in front of its length, the length in two parts, the three bytes
      of extension and version, its number and that of the last one, what it carries, and the CRC. */
  datatype Fields = Fields(table: Octet, flags: Octet, high: Octet, low: Octet, middle: seq<Octet>, number: Octet,
                           last: Octet, payload: seq<Octet>, crc: seq<Octet>)

  function Protected(f: Fields): seq<Octet> {
    [f.table, f.flags | f.high, f.low] + f.middle + [f.number, f.last] + f.payload
  }

  predicate WellFormed(f: Fields) {
    && f.flags & 0x8f == 0x80 && |f.middle| == 3 && |f.payload| <= 1012 && |f.crc| == 4
    && f.high as nat * 256 + f.low as nat == 9 + |f.payload|
    && f.number as nat <= f.last as nat && Word(f.crc) == Crc32(Protected(f))
  }

  /** The valid sections are exactly the encodings of well-formed fields. */
  lemma ValidExactly(s: seq<Octet>)
    ensures Valid(s) <==> exists f :: WellFormed(f) && s == Protected(f) + f.crc
  {
    hide WellFormed;
    hide Valid;
    if Valid(s) {
      var f := FieldsOf(s);
    }
    forall f | WellFormed(f)
      ensures Valid(Protected(f) + f.crc)
    {
      EncodingIsValid(f);
    }
  }

  lemma FieldsOf(s: seq<Octet>) returns (f: Fields)
    requires Valid(s)
    ensures WellFormed(f) && s == Protected(f) + f.crc
  {
    hide Crc32;
    hide Word;
    var n := |s| - 4;
    SplitOctet(s[1]);
    f := Fields(s[0], s[1] & 0xf0, s[1] & 0x0f, s[2], s[3..6], s[6], s[7], s[8..n], s[n..]);
    assert s == s[..n] + s[n..] && s[..3 + SectionLength(s)] == s;
    assert Protected(f) == s[..n];
    ResidueZero(s[..n], s[n..]);
  }

  lemma SplitOctet(b: Octet)
    ensures (b & 0xf0) | (b & 0x0f) == b && (b & 0xf0) & 0x8f == b & 0x80
    ensures b & 0x80 != 0 ==> b & 0x80 == 0x80
  {}

  lemma JoinOctet(flags: Octet, high: Octet)
    requires flags & 0x8f == 0x80 && high <= 0x0f
    ensures (flags | high) & 0x0f == high && (flags | high) & 0x80 != 0
  {}

  lemma EncodingIsValid(f: Fields)
    requires WellFormed(f)
    ensures Valid(Protected(f) + f.crc)
  {
    hide Crc32;
    hide Word;
    ResidueZero(Protected(f), f.crc);
    LengthOnWire(f);
    PlacesOnWire(f);
    hide Protected;
    hide SectionLength;
  }

  lemma LengthOnWire(f: Fields)
    requires WellFormed(f)
    ensures (var s := Protected(f) + f.crc; |s| >= 12 && s[1] & 0x80 != 0 && SectionLength(s) == |s| - 3)
  {
    hide Crc32;
    hide Word;
    var s := Protected(f) + f.crc;
    assert f.high as nat <= 3;
    HighIsSmall(f.high);
    JoinOctet(f.flags, f.high);
    assert s[1] == f.flags | f.high && s[2] == f.low;
  }

  lemma HighIsSmall(high: Octet)
    requires high as nat <= 3
    ensures high <= 0x0f
  {}

  lemma PlacesOnWire(f: Fields)
    requires |f.middle| == 3 && |f.crc| == 4
    ensures (var s := Protected(f) + f.crc;
             |s| == 12 + |f.payload| && s[6] == f.number && s[7] == f.last && s[..|s|] == s)
  {}

  /** The first place from `begin` on where a complete section begins. */
  function FirstValid(s: seq<Octet>, begin: nat): (r: Option<nat>)
    requires begin <= |s|
    ensures r.Some? ==> begin <= r.value < |s| && StartsValid(s[r.value..])
    ensures forall o :: begin <= o < (if r.Some? then r.value else |s|) ==> !StartsValid(s[o..])
    decreases |s| - begin
  {
    if begin == |s| then None
    else if StartsValid(s[begin..]) then Some(begin)
    else FirstValid(s, begin + 1)
  }

  // ----- one decision

  datatype Move = Wait | Skip(count: nat) | Publish(count: nat)

  function Resync(s: seq<Octet>, otherwise: Move): Move
    requires |s| >= 1
  {
    match FirstValid(s, 1)
    case None => otherwise
    case Some(o) => Skip(o)
  }

  function Decide(s: seq<Octet>): (m: Move)
    ensures m.Skip? ==> 1 <= m.count <= |s|
    ensures m.Publish? ==> 12 <= m.count <= |s|
  {
    if |s| < 3 then Wait
    else if !GoodHeader(s) then Resync(s, Skip(1))
    else if |s| < 3 + SectionLength(s) then Resync(s, Wait)
    else if !StartsValid(s) then Resync(s, Skip(3 + SectionLength(s)))
    else Publish(3 + SectionLength(s))
  }

  lemma WaitLeavesLittle(s: seq<Octet>)
    requires Decide(s).Wait?
    ensures |s| < 1024 && forall o :: 0 <= o <= |s| ==> !StartsValid(s[o..])
  {
    if |s| >= 3 {
      assert s[0..] == s;
      assert !StartsValid(s);
    }
    forall o | 0 <= o <= |s| ensures !StartsValid(s[o..]) {
      if |s| >= 3 && o > 0 && o < |s| { assert FirstValid(s, 1).None?; }
      if o == 0 { assert s[o..] == s; }
    }
  }

  /** Nothing skipped began a complete section. */
  lemma SkipLosesNothing(s: seq<Octet>)
    requires Decide(s).Skip?
    ensures forall o :: 0 <= o < Decide(s).count ==> !StartsValid(s[o..])
  {
    assert s[0..] == s;
    assert !StartsValid(s);
    var r := FirstValid(s, 1);
  }

  /** For a section in front: its first bytes wait for the rest exactly when no complete section begins among them. */
  lemma SplitWaitsExactly(outer: seq<Octet>, cut: nat)
    requires Valid(outer) && cut < |outer|
    ensures Decide(outer[..cut]) == Wait <==> forall o :: 1 <= o < cut ==> !StartsValid(outer[..cut][o..])
  {
    hide Crc32;
    var s := outer[..cut];
    if cut >= 3 {
      assert SectionLength(s) == SectionLength(outer);
      var r := FirstValid(s, 1);
    } else {
      forall o | 1 <= o < cut ensures !StartsValid(s[o..]) {}
    }
  }

  // ----- all decisions that what is there allows

  /** A published section: where it begins in the stream, and its size. */
  datatype Slice = Slice(begin: nat, count: nat)

  function Drain(stream: seq<Octet>, at: nat): (r: (seq<Slice>, nat))
    requires at <= |stream|
    ensures at <= r.1 <= |stream|
    decreases |stream| - at
  {
    match Decide(stream[at..])
    case Wait => ([], at)
    case Skip(n) => Drain(stream, at + n)
    case Publish(n) =>
      var rest := Drain(stream, at + n);
      ([Slice(at, n)] + rest.0, rest.1)
  }

  /** Valid sections of the stream, in order and without overlap, between two positions. */
  ghost predicate InOrder(stream: seq<Octet>, slices: seq<Slice>, from: nat, to: nat)
    decreases |slices|
  {
    if slices == [] then from <= to
    else
      var s := slices[0];
      && from <= s.begin && s.begin + s.count <= |stream|
      && Valid(stream[s.begin..s.begin + s.count])
      && InOrder(stream, slices[1..], s.begin + s.count, to)
  }

  lemma {:induction false} InOrderFrom(stream: seq<Octet>, slices: seq<Slice>, low: nat, from: nat, to: nat)
    requires InOrder(stream, slices, from, to) && low <= from
    ensures InOrder(stream, slices, low, to)
  {}

  lemma PublishedIsValid(s: seq<Octet>)
    requires Decide(s).Publish?
    ensures Valid(s[..Decide(s).count])
  {
    hide Crc32;
    hide FirstValid;
    var n := Decide(s).count;
    assert s[..n][..n] == s[..n];
  }

  lemma {:induction false} DrainInOrder(stream: seq<Octet>, at: nat)
    requires at <= |stream|
    ensures InOrder(stream, Drain(stream, at).0, at, Drain(stream, at).1)
    decreases |stream| - at
  {
    hide Decide;
    hide Valid;
    var s := stream[at..];
    match Decide(s)
    case Wait =>
    case Skip(n) =>
      DrainInOrder(stream, at + n);
      InOrderFrom(stream, Drain(stream, at + n).0, at, at + n, Drain(stream, at + n).1);
    case Publish(n) =>
      DrainInOrder(stream, at + n);
      PublishedIsValid(s);
      assert s[..n] == stream[at..at + n];
      assert Drain(stream, at).0[1..] == Drain(stream, at + n).0;
  }

  /** What is left is short, and no complete section begins in it. */
  lemma {:induction false} DrainLeavesLittle(stream: seq<Octet>, at: nat)
    requires at <= |stream|
    ensures (var end := Drain(stream, at).1;
             |stream| - end < 1024 && forall o :: end <= o <= |stream| ==> !StartsValid(stream[o..]))
    decreases |stream| - at
  {
    hide Decide;
    hide StartsValid;
    var s := stream[at..];
    match Decide(s)
    case Wait =>
      WaitLeavesLittle(s);
      forall o | at <= o <= |stream| ensures !StartsValid(stream[o..]) { assert s[o - at..] == stream[o..]; }
    case Skip(n) => DrainLeavesLittle(stream, at + n);
    case Publish(n) => DrainLeavesLittle(stream, at + n);
  }

  predicate Covered(slices: seq<Slice>, o: nat) {
    exists i :: 0 <= i < |slices| && slices[i].begin <= o < slices[i].begin + slices[i].count
  }

  /** A complete section in the stream is published, or begins inside one that is. */
  lemma {:induction false} NoSectionLost(stream: seq<Octet>, at: nat, o: nat)
    requires at <= o <= |stream| && StartsValid(stream[o..])
    ensures Covered(Drain(stream, at).0, o)
    decreases |stream| - at
  {
    hide Decide;
    hide StartsValid;
    var s := stream[at..];
    assert s[o - at..] == stream[o..];
    match Decide(s)
    case Wait => WaitLeavesLittle(s);
    case Skip(n) =>
      SkipLosesNothing(s);
      assert o >= at + n;
      NoSectionLost(stream, at + n, o);
    case Publish(n) =>
      var slices := Drain(stream, at).0;
      if o < at + n {
        assert slices[0] == Slice(at, n);
      } else {
        NoSectionLost(stream, at + n, o);
        var rest := Drain(stream, at + n).0;
        var i :| 0 <= i < |rest| && rest[i].begin <= o < rest[i].begin + rest[i].count;
        assert slices[i + 1] == rest[i];
      }
  }

  // ----- packets

  datatype Packet = Packet(payload: seq<Octet>, offset: nat)

  function Stream(packets: seq<Packet>): seq<Octet> {
    if packets == [] then [] else Stream(packets[..|packets| - 1]) + packets[|packets| - 1].payload
  }

  /** For every byte of the stream, the offset of the packet that carried it. */
  function Origins(packets: seq<Packet>): (r: seq<nat>)
    ensures |r| == |Stream(packets)|
  {
    if packets == [] then []
    else
      var p := packets[|packets| - 1];
      Origins(packets[..|packets| - 1]) + seq(|p.payload|, i => p.offset)
  }

  /** Each byte of each packet is in the stream behind those of the packets before it, and its origin is the offset of
      that packet. */
  lemma {:induction false} OriginsByPacket(packets: seq<Packet>, i: nat, j: nat)
    requires i < |packets| && j < |packets[i].payload|
    ensures (var at := |Stream(packets[..i])| + j;
             && at < |Stream(packets)| && Stream(packets)[at] == packets[i].payload[j]
             && Origins(packets)[at] == packets[i].offset)
    decreases |packets|
  {
    var before := packets[..|packets| - 1];
    if i < |before| {
      assert before[..i] == packets[..i];
      OriginsByPacket(before, i, j);
    } else {
      assert packets[..i] == before;
    }
  }

  datatype Progress = Progress(slices: seq<Slice>, end: nat)

  function Run(packets: seq<Packet>): (r: Progress)
    ensures r.end <= |Stream(packets)|
  {
    if packets == [] then Progress([], 0)
    else
      var before := Run(packets[..|packets| - 1]);
      var (slices, end) := Drain(Stream(packets), before.end);
      Progress(before.slices + slices, end)
  }

  /** What a subscriber is told: the section and the offset of the packet its first byte came in. */
  datatype Published = Published(section: seq<Octet>, offset: nat)

  ghost function Told(packets: seq<Packet>, slices: seq<Slice>): seq<Published>
    requires forall s :: s in slices ==> s.begin + s.count <= |Stream(packets)| && s.count > 0
  {
    seq(|slices|, i requires 0 <= i < |slices| =>
      (assert slices[i] in slices;
       Published(Stream(packets)[slices[i].begin..slices[i].begin + slices[i].count],
                 Origins(packets)[slices[i].begin])))
  }

  lemma ValidMeans(section: seq<Octet>)
    requires Valid(section)
    ensures Crc32(section) == 0 && |section| >= 12 && section[6] as nat <= section[7] as nat
  {
    assert section[..|section|] == section;
    hide Crc32;
  }

  lemma {:induction false} InOrderMembers(stream: seq<Octet>, slices: seq<Slice>, from: nat, to: nat)
    requires InOrder(stream, slices, from, to)
    ensures forall s :: s in slices ==>
              s.begin + s.count <= |stream| && s.count >= 12 && Valid(stream[s.begin..s.begin + s.count])
    decreases |slices|
  {
    hide Valid;
    if slices != [] {
      ValidMeans(stream[slices[0].begin..slices[0].begin + slices[0].count]);
      InOrderMembers(stream, slices[1..], slices[0].begin + slices[0].count, to);
    }
  }

  lemma {:induction false} InOrderAppend(stream: seq<Octet>, a: seq<Slice>, b: seq<Slice>, from: nat, middle: nat,
                                         to: nat)
    requires InOrder(stream, a, from, middle) && InOrder(stream, b, middle, to)
    ensures InOrder(stream, a + b, from, to)
    decreases |a|
  {
    hide Valid;
    if a == [] {
      assert a + b == b;
      InOrderFrom(stream, b, from, middle, to);
    } else {
      assert (a + b)[1..] == a[1..] + b;
      InOrderAppend(stream, a[1..], b, a[0].begin + a[0].count, middle, to);
    }
  }

  lemma {:induction false} InOrderExtends(stream: seq<Octet>, more: seq<Octet>, slices: seq<Slice>, from: nat, to: nat)
    requires InOrder(stream, slices, from, to)
    ensures InOrder(stream + more, slices, from, to)
    decreases |slices|
  {
    hide Valid;
    if slices != [] {
      var s := slices[0];
      assert (stream + more)[s.begin..s.begin + s.count] == stream[s.begin..s.begin + s.count];
      InOrderExtends(stream, more, slices[1..], s.begin + s.count, to);
    }
  }

  /** After any packets: everything published is a valid section cut from the stream, in order and without
      overlap; less than 1024 bytes wait, and no complete section begins in them. */
  lemma {:induction false} RunSound(packets: seq<Packet>)
    ensures (var r := Run(packets); var stream := Stream(packets);
             && InOrder(stream, r.slices, 0, r.end)
             && |stream| - r.end < 1024
             && forall o :: r.end <= o <= |stream| ==> !StartsValid(stream[o..]))
    decreases |packets|
  {
    hide InOrder;
    hide StartsValid;
    hide Drain;
    if packets == [] {
      NothingPublished();
    } else {
      var before, p := packets[..|packets| - 1], packets[|packets| - 1];
      var r0 := Run(before);
      RunSound(before);
      InOrderExtends(Stream(before), p.payload, r0.slices, 0, r0.end);
      DrainInOrder(Stream(packets), r0.end);
      DrainLeavesLittle(Stream(packets), r0.end);
      InOrderAppend(Stream(packets), r0.slices, Drain(Stream(packets), r0.end).0, 0, r0.end, Run(packets).end);
    }
  }

  lemma NothingPublished()
    ensures InOrder(Stream([]), Run([]).slices, 0, Run([]).end)
    ensures forall o :: 0 <= o <= |Stream([])| ==> !StartsValid(Stream([])[o..])
  {}

  lemma SlicesInside(packets: seq<Packet>)
    ensures forall s :: s in Run(packets).slices ==>
              s.begin + s.count <= |Stream(packets)| && s.count > 0
                  && Valid(Stream(packets)[s.begin..s.begin + s.count])
  {
    RunSound(packets);
    InOrderMembers(Stream(packets), Run(packets).slices, 0, Run(packets).end);
  }

  ghost function Output(packets: seq<Packet>): seq<Published> {
    SlicesInside(packets);
    Told(packets, Run(packets).slices)
  }

  /** A subscriber only ever gets sections whose CRC residue is zero and whose number does not pass the last. */
  lemma OutputValid(packets: seq<Packet>, i: nat)
    requires i < |Output(packets)|
    ensures (var section := Output(packets)[i].section;
             Crc32(section) == 0 && |section| >= 12 && section[6] as nat <= section[7] as nat)
  {
    SlicesInside(packets);
    assert Run(packets).slices[i] in Run(packets).slices;
    ValidMeans(Output(packets)[i].section);
    hide Crc32;
    hide Valid;
    hide Run;
  }

  // ----- whole sections come through exactly

  function Concat(parts: seq<seq<Octet>>): seq<Octet> { if parts == [] then [] else parts[0] + Concat(parts[1..]) }

  predicate AllValid(parts: seq<seq<Octet>>) { forall p :: p in parts ==> Valid(p) }

  function Tiles(at: nat, parts: seq<seq<Octet>>): seq<Slice>
    decreases |parts|
  {
    if parts == [] then [] else [Slice(at, |parts[0]|)] + Tiles(at + |parts[0]|, parts[1..])
  }

  lemma ValidPublishes(section: seq<Octet>, rest: seq<Octet>)
    requires Valid(section)
    ensures Decide(section + rest) == Publish(|section|)
  {
    var s := section + rest;
    var n := |section|;
    assert s[1] == section[1] && s[2] == section[2] && s[6] == section[6] && s[7] == section[7];
    assert s[..n] == section == section[..n];
    hide Crc32;
  }

  lemma {:induction false} DrainWhole(stream: seq<Octet>, at: nat, parts: seq<seq<Octet>>)
    requires at <= |stream| && stream[at..] == Concat(parts) && AllValid(parts)
    ensures Drain(stream, at) == (Tiles(at, parts), |stream|)
    decreases |parts|
  {
    hide Decide;
    hide Valid;
    if parts == [] {
      NothingToDo();
    } else {
      var first := parts[0];
      assert first in parts;
      ValidPublishes(first, Concat(parts[1..]));
      assert stream[at + |first|..] == stream[at..][|first|..];
      DrainWhole(stream, at + |first|, parts[1..]);
    }
  }

  lemma NothingToDo()
    ensures Decide([]) == Wait
  {}

  function Repeat(offset: nat, parts: seq<seq<Octet>>): seq<Published> {
    seq(|parts|, i requires 0 <= i < |parts| => Published(parts[i], offset))
  }

  lemma {:induction false} TilesAre(parts: seq<seq<Octet>>, at: nat, i: nat)
    requires i < |parts|
    ensures |Tiles(at, parts)| == |parts| && TileIs(Tiles(at, parts)[i], at, Concat(parts), parts[i])
    decreases |parts|
  {
    TilesCount(at, parts);
    FirstTile(at, parts);
    if i > 0 {
      hide TileIs;
      TilesAre(parts[1..], at + |parts[0]|, i - 1);
      TileMoves(Tiles(at, parts)[i], at, parts[0], Concat(parts[1..]), parts[i]);
    }
  }

  ghost predicate TileIs(s: Slice, at: nat, all: seq<Octet>, part: seq<Octet>) {
    && s.count == |part| && at <= s.begin && s.begin + s.count <= at + |all|
    && all[s.begin - at..s.begin - at + s.count] == part
  }

  lemma FirstTile(at: nat, parts: seq<seq<Octet>>)
    requires parts != []
    ensures |Tiles(at, parts)| > 0 && TileIs(Tiles(at, parts)[0], at, Concat(parts), parts[0])
    ensures Tiles(at, parts)[1..] == Tiles(at + |parts[0]|, parts[1..])
        && Concat(parts) == parts[0] + Concat(parts[1..])
  {}

  lemma TileMoves(s: Slice, at: nat, first: seq<Octet>, rest: seq<Octet>, part: seq<Octet>)
    requires TileIs(s, at + |first|, rest, part)
    ensures TileIs(s, at, first + rest, part)
  {
    SliceOfSecond(first, rest, s.begin - at, s.begin - at + s.count);
  }

  lemma SliceOfSecond(a: seq<Octet>, b: seq<Octet>, from: nat, to: nat)
    requires |a| <= from <= to <= |a| + |b|
    ensures (a + b)[from..to] == b[from - |a|..to - |a|]
  {}

  /** A packet of whole valid sections, when nothing is waiting, publishes exactly those, at its own
      offset, and leaves nothing waiting. */
  lemma WholeSectionsComeThrough(before: seq<Packet>, offset: nat, parts: seq<seq<Octet>>)
    requires Run(before).end == |Stream(before)| && AllValid(parts)
    ensures (var packets := before + [Packet(Concat(parts), offset)];
             && Run(packets).end == |Stream(packets)|
             && Output(packets) == Output(before) + Repeat(offset, parts))
  {
    var p := Packet(Concat(parts), offset);
    var packets := before + [p];
    var at := |Stream(before)|;
    assert packets[..|before|] == before;
    assert Stream(packets)[at..] == Concat(parts);
    DrainWhole(Stream(packets), at, parts);
    var old0 := Run(before).slices;
    assert Run(packets).slices == old0 + Tiles(at, parts);
    SlicesInside(before);
    SlicesInside(packets);
    OutputGrows(before, p, old0, Tiles(at, parts));
    TilesTold(before, offset, parts);
    hide Run;
    hide Stream;
    hide Origins;
    hide Concat;
  }

  ghost predicate Inside(packets: seq<Packet>, slices: seq<Slice>) {
    forall s :: s in slices ==> s.begin + s.count <= |Stream(packets)| && s.count > 0
  }

  /** Later packets do not change what was told. */
  lemma OutputGrows(before: seq<Packet>, p: Packet, a: seq<Slice>, b: seq<Slice>)
    requires Inside(before, a) && Inside(before + [p], a + b)
    ensures Inside(before + [p], b)
    ensures Told(before + [p], a + b) == Told(before, a) + Told(before + [p], b)
  {
    var packets := before + [p];
    assert packets[..|before|] == before;
    var s0, s1 := Stream(before), Stream(packets);
    var o0, o1 := Origins(before), Origins(packets);
    forall s | s in b ensures s.begin + s.count <= |s1| && s.count > 0 { assert s in a + b; }
    forall i | 0 <= i < |a| ensures Told(packets, a + b)[i] == Told(before, a)[i] {
      var s := a[i];
      assert s in a && (a + b)[i] == s;
      assert s1[s.begin..s.begin + s.count] == s0[s.begin..s.begin + s.count];
      assert o1[s.begin] == o0[s.begin];
    }
    forall i | 0 <= i < |b| ensures Told(packets, a + b)[|a| + i] == Told(packets, b)[i] {
      assert (a + b)[|a| + i] == b[i];
    }
  }

  ghost predicate TellsOne(packets: seq<Packet>, s: Slice, section: seq<Octet>, offset: nat) {
    && s.begin + s.count <= |Stream(packets)| && s.count > 0
    && Stream(packets)[s.begin..s.begin + s.count] == section
    && Origins(packets)[s.begin] == offset
  }

  lemma LastPacket(before: seq<Packet>, p: Packet)
    ensures Stream(before + [p]) == Stream(before) + p.payload
    ensures forall j :: |Stream(before)| <= j < |Stream(before)| + |p.payload| ==> Origins(before + [p])[j] == p.offset
  {
    assert (before + [p])[..|before|] == before;
  }

  lemma TileTells(before: seq<Packet>, p: Packet, s: Slice, part: seq<Octet>)
    requires TileIs(s, |Stream(before)|, p.payload, part) && part != []
    ensures TellsOne(before + [p], s, part, p.offset)
  {
    LastPacket(before, p);
    hide Stream;
    hide Origins;
    SliceOfSecond(Stream(before), p.payload, s.begin, s.begin + s.count);
  }

  lemma OneTileTold(before: seq<Packet>, offset: nat, parts: seq<seq<Octet>>, i: nat)
    requires i < |parts| && parts[i] != []
    ensures |Tiles(|Stream(before)|, parts)| == |parts|
    ensures TellsOne(before + [Packet(Concat(parts), offset)], Tiles(|Stream(before)|, parts)[i], parts[i], offset)
  {
    hide *;
    TilesAre(parts, |Stream(before)|, i);
    TileTells(before, Packet(Concat(parts), offset), Tiles(|Stream(before)|, parts)[i], parts[i]);
  }

  lemma TilesTold(before: seq<Packet>, offset: nat, parts: seq<seq<Octet>>)
    requires AllValid(parts)
    ensures (var packets := before + [Packet(Concat(parts), offset)]; var tiles := Tiles(|Stream(before)|, parts);
             Inside(packets, tiles) && Told(packets, tiles) == Repeat(offset, parts))
  {
    hide Tiles;
    hide Concat;
    hide Valid;
    hide TellsOne;
    var packets := before + [Packet(Concat(parts), offset)];
    var tiles := Tiles(|Stream(before)|, parts);
    TilesCount(|Stream(before)|, parts);
    forall i | 0 <= i < |tiles| ensures TellsOne(packets, tiles[i], parts[i], offset) {
      assert parts[i] in parts;
      NotEmpty(parts[i]);
      OneTileTold(before, offset, parts, i);
    }
    ToldOneByOne(packets, tiles, parts, offset);
  }

  lemma NotEmpty(section: seq<Octet>)
    requires Valid(section)
    ensures section != []
  {}

  lemma ToldOneByOne(packets: seq<Packet>, tiles: seq<Slice>, parts: seq<seq<Octet>>, offset: nat)
    requires |tiles| == |parts| && forall i :: 0 <= i < |tiles| ==> TellsOne(packets, tiles[i], parts[i], offset)
    ensures Inside(packets, tiles) && Told(packets, tiles) == Repeat(offset, parts)
  {
    hide Stream;
    hide Origins;
    forall s | s in tiles ensures s.begin + s.count <= |Stream(packets)| && s.count > 0 {
      var i :| 0 <= i < |tiles| && tiles[i] == s;
      assert TellsOne(packets, tiles[i], parts[i], offset);
    }
    forall i | 0 <= i < |tiles| ensures Told(packets, tiles)[i] == Repeat(offset, parts)[i] {
      assert TellsOne(packets, tiles[i], parts[i], offset);
    }
  }

  lemma {:induction false} TilesCount(at: nat, parts: seq<seq<Octet>>)
    ensures |Tiles(at, parts)| == |parts|
    decreases |parts|
  {
    if parts != [] { TilesCount(at + |parts[0]|, parts[1..]); }
  }
}
