/** Which TLV-SI sections are lost, over any packets and any bytes, and the three ways it happens. */
module SectionLosses {
  import opened Bytes
  import opened Crc
  import opened TlvSections

  // ----- one turn of the loop

  /** A complete section in front is published over byte d. */
  predicate Covers(s: seq<Octet>, d: nat) { StartsValid(s) && 0 < d < 3 + SectionLength(s) }

  /** The first complete section begins past byte d, and all before it is discarded. */
  predicate Overtakes(s: seq<Octet>, d: nat) {
    var first := FirstValid(s, 0);
    first.Some? && d < first.value
  }

  /** No section is complete; an invalid one in front is discarded by its length, which reaches past byte d. */
  predicate Swallows(s: seq<Octet>, d: nat) {
    FirstValid(s, 0).None? && |s| >= 3 && GoodHeader(s) && 0 < d < 3 + SectionLength(s) <= |s|
  }

  predicate PassesOver(s: seq<Octet>, d: nat) { Covers(s, d) || Overtakes(s, d) || Swallows(s, d) }

  /** What `s` holds from byte d on is the section, or as much of it as there is. */
  predicate BeginsAt(s: seq<Octet>, d: nat, section: seq<Octet>) {
    forall i :: 0 <= i < |section| && d + i < |s| ==> s[d + i] == section[i]
  }

  lemma FirstFromFront(s: seq<Octet>)
    requires s != []
    ensures FirstValid(s, 0) == if StartsValid(s) then Some(0) else FirstValid(s, 1)
  {
    assert s[0..] == s;
    hide StartsValid;
  }

  lemma FrontOfSection(s: seq<Octet>, section: seq<Octet>)
    requires Valid(section) && BeginsAt(s, 0, section) && |s| >= 3
    ensures GoodHeader(s) && 3 + SectionLength(s) == |section|
    ensures if |section| <= |s| then Decide(s) == Publish(|section|) && StartsValid(s)
            else !Decide(s).Publish? && !StartsValid(s)
  {
    hide FirstValid;
    hide Crc32;
    if |section| <= |s| {
      assert s[..|section|] == section;
      assert s == section + s[|section|..];
      ValidPublishes(section, s[|section|..]);
    }
  }

  /** A section that waits at byte d is passed over by exactly the moves that go past its first byte. */
  lemma MoveExactly(s: seq<Octet>, d: nat, section: seq<Octet>)
    requires Valid(section) && BeginsAt(s, d, section)
    ensures PassesOver(s, d) <==> (match Decide(s)
                                   case Wait => false
                                   case Skip(n) => d < n
                                   case Publish(n) => 0 < d < n)
  {
    hide StartsValid;
    hide FirstValid;
    hide GoodHeader;
    hide SectionLength;
    hide Valid;
    if |s| >= 3 {
      FirstFromFront(s);
      if d == 0 { FrontOfSection(s, section); }
      HeaderOfValid(s);
    } else {
      TooShort(s);
    }
  }

  lemma HeaderOfValid(s: seq<Octet>)
    requires |s| >= 3
    ensures StartsValid(s) ==> GoodHeader(s) && 3 + SectionLength(s) <= |s|
  {}

  lemma TooShort(s: seq<Octet>)
    requires |s| < 3
    ensures FirstValid(s, 0).None? && !StartsValid(s)
  {}

  // ----- all turns that one packet allows

  /** The loop, standing at `at`, passes over byte o at some turn. */
  predicate Passed(stream: seq<Octet>, at: nat, o: nat)
    requires at <= |stream|
    decreases |stream| - at
  {
    at <= o && (PassesOver(stream[at..], o - at) ||
      match Decide(stream[at..])
      case Wait => false
      case Skip(n) => Passed(stream, at + n, o)
      case Publish(n) => Passed(stream, at + n, o))
  }

  /** From `at` on the loop passes over the section at o, or publishes it as soon as it is complete, or stops short. */
  ghost predicate Verdict(stream: seq<Octet>, at: nat, o: nat, section: seq<Octet>)
    requires at <= |stream|
  {
    var (slices, end) := Drain(stream, at);
    if Passed(stream, at, o) then o < end && Slice(o, |section|) !in slices
    else if o + |section| <= |stream| then o < end && Slice(o, |section|) in slices
    else end <= o && Slice(o, |section|) !in slices
  }

  lemma {:induction false} SlicesFrom(stream: seq<Octet>, at: nat)
    requires at <= |stream|
    ensures forall s :: s in Drain(stream, at).0 ==> at <= s.begin
    decreases |stream| - at
  {
    hide Decide;
    match Decide(stream[at..])
    case Wait =>
    case Skip(n) => SlicesFrom(stream, at + n);
    case Publish(n) => SlicesFrom(stream, at + n);
  }

  lemma {:induction false} DrainVerdict(stream: seq<Octet>, at: nat, o: nat, section: seq<Octet>)
    requires at <= o && at <= |stream| && Valid(section) && BeginsAt(stream, o, section)
    ensures Verdict(stream, at, o, section)
    decreases |stream| - at
  {
    hide Decide;
    hide PassesOver;
    hide Valid;
    var s := stream[at..];
    MoveExactly(s, o - at, section);
    if o == at && |s| >= 3 { FrontOfSection(s, section); }
    NotEmpty(section);
    match Decide(s)
    case Wait => WaitsFor(s, o - at, section);
    case Skip(n) =>
      SlicesFrom(stream, at + n);
      if at + n <= o { DrainVerdict(stream, at + n, o, section); }
    case Publish(n) =>
      SlicesFrom(stream, at + n);
      var first, rest := Slice(at, n), Drain(stream, at + n).0;
      assert ([first] + rest)[0] == first;
      assert forall x :: x in [first] + rest <==> x == first || x in rest;
      assert Drain(stream, at) == ([first] + rest, Drain(stream, at + n).1);
      if at + n <= o {
        DrainVerdict(stream, at + n, o, section);
        assert Passed(stream, at, o) == Passed(stream, at + n, o);
      } else if at < o {
        assert Passed(stream, at, o);
        assert Slice(o, |section|) !in [first] + rest;
      } else {
        assert |s| >= 3;
        assert n == |section|;
        assert !Passed(stream, at + n, o);
        assert !Passed(stream, at, o);
      }
  }

  /** While the loop waits the section is not complete. */
  lemma WaitsFor(s: seq<Octet>, d: nat, section: seq<Octet>)
    requires Decide(s).Wait? && Valid(section) && BeginsAt(s, d, section)
    ensures |s| < d + |section|
  {
    hide Decide;
    hide StartsValid;
    if d + |section| <= |s| {
      WaitLeavesLittle(s);
      var t := s[d..];
      assert BeginsAt(t, 0, section);
      LongEnough(section);
      FrontOfSection(t, section);
    }
  }

  lemma LongEnough(section: seq<Octet>)
    requires Valid(section)
    ensures |section| >= 12
  {}

  // ----- whole runs

  /** At some packet the loop passed over byte o. */
  predicate LostAt(packets: seq<Packet>, o: nat) {
    packets != [] &&
    (var before := packets[..|packets| - 1];
     || LostAt(before, o)
     || (Run(before).end <= |Stream(packets)| && Passed(Stream(packets), Run(before).end, o)))
  }

  ghost predicate RunVerdict(packets: seq<Packet>, o: nat, section: seq<Octet>) {
    var r := Run(packets);
    if LostAt(packets, o) then o < r.end && Slice(o, |section|) !in r.slices
    else if o + |section| <= |Stream(packets)| then o < r.end && Slice(o, |section|) in r.slices
    else r.end <= o && Slice(o, |section|) !in r.slices
  }

  lemma {:induction false} VerdictOfRun(packets: seq<Packet>, o: nat, section: seq<Octet>)
    requires Valid(section) && BeginsAt(Stream(packets), o, section)
    ensures RunVerdict(packets, o, section)
    decreases |packets|
  {
    hide Valid;
    hide Drain;
    hide Passed;
    LongEnough(section);
    if packets == [] {
      assert Run(packets).end <= o;
    } else {
      var before, p := packets[..|packets| - 1], packets[|packets| - 1];
      var stream, from := Stream(packets), Run(before).end;
      assert stream == Stream(before) + p.payload;
      forall i | 0 <= i < |section| && o + i < |Stream(before)| ensures Stream(before)[o + i] == section[i] {
        assert stream[o + i] == section[i];
      }
      VerdictOfRun(before, o, section);
      SlicesFrom(stream, from);
      PassedFrom(stream, from, o);
      var drained := Drain(stream, from);
      assert Run(packets) == Progress(Run(before).slices + drained.0, drained.1);
      var want := Slice(o, |section|);
      assert want in Run(packets).slices <==> want in Run(before).slices || want in drained.0;
      assert LostAt(packets, o) <==> LostAt(before, o) || Passed(stream, from, o);
      if from <= o {
        DrainVerdict(stream, from, o, section);
      }
    }
  }

  lemma PassedFrom(stream: seq<Octet>, from: nat, o: nat)
    requires from <= |stream|
    ensures Passed(stream, from, o) ==> from <= o
    ensures from <= Drain(stream, from).1
  {}

  /** Over any packets, a section anywhere in the stream is published, in its place and whole, unless at some turn the
      loop passed over its first byte. */
  lemma LostExactly(packets: seq<Packet>, o: nat, section: seq<Octet>)
    requires o + |section| <= |Stream(packets)| && Stream(packets)[o..o + |section|] == section && Valid(section)
    ensures Slice(o, |section|) !in Run(packets).slices <==> LostAt(packets, o)
  {
    hide Valid;
    hide Run;
    hide LostAt;
    forall i | 0 <= i < |section| && o + i < |Stream(packets)| ensures Stream(packets)[o + i] == section[i] {
      assert Stream(packets)[o..o + |section|][i] == section[i];
    }
    VerdictOfRun(packets, o, section);
  }

  // ----- each of the three ways occurs

  function Trailer(c: bv32): (t: seq<Octet>)
    ensures |t| == 4
  {
    [(c >> 24) as Octet, ((c >> 16) & 0xff) as Octet, ((c >> 8) & 0xff) as Octet, (c & 0xff) as Octet]
  }

  lemma TrailerSpells(c: bv32)
    ensures Word(Trailer(c)) == c
  {}

  /** A section around a body, closed by its CRC. */
  function Section(size: Octet, body: seq<Octet>): (s: seq<Octet>)
    requires size as nat == 9 + |body|
    ensures |s| == 12 + |body|
  {
    var front := Front(size, body);
    front + Trailer(Crc32(front))
  }

  function Front(size: Octet, body: seq<Octet>): seq<Octet>
    requires size as nat == 9 + |body|
  {
    [0x40, 0x80, size, 0, 0, 0, 0, 0] + body
  }

  lemma SectionValid(size: Octet, body: seq<Octet>)
    requires size as nat == 9 + |body|
    ensures Valid(Section(size, body))
  {
    hide Crc32;
    hide SectionLength;
    hide Section;
    var s := Section(size, body);
    SectionBytes(size, body);
    SectionResidue(size, body);
    LengthOf(s);
    assert s[..|s|] == s;
  }

  lemma SectionBytes(size: Octet, body: seq<Octet>)
    requires size as nat == 9 + |body|
    ensures (var s := Section(size, body); s[1] == 0x80 && s[2] == size && s[6] == 0 && s[7] == 0)
  {
    hide Trailer;
    hide Crc32;
  }

  lemma SectionResidue(size: Octet, body: seq<Octet>)
    requires size as nat == 9 + |body|
    ensures Crc32(Section(size, body)) == 0
  {
    hide Crc32;
    hide Word;
    hide Front;
    hide Trailer;
    var front := Front(size, body);
    ResidueZero(front, Trailer(Crc32(front)));
    TrailerSpells(Crc32(front));
  }

  lemma LengthOf(s: seq<Octet>)
    requires |s| >= 3 && s[1] == 0x80
    ensures SectionLength(s) == s[2] as nat && s[1] & 0x80 != 0
  {
    LowNibble(s[1]);
  }

  lemma LowNibble(b: Octet)
    requires b == 0x80
    ensures b & 0x0f == 0 && b & 0x80 != 0
  {}

  lemma {:induction false} PassedAtOnce(first: Packet, rest: seq<Packet>, o: nat)
    requires PassesOver(first.payload, o)
    ensures LostAt([first] + rest, o)
    decreases |rest|
  {
    hide PassesOver;
    if rest == [] {
      var packets := [first] + rest;
      assert packets[..0] == [] && packets[0] == first;
      assert Stream(packets) == first.payload && first.payload[0..] == first.payload;
    } else {
      PassedAtOnce(first, rest[..|rest| - 1], o);
      assert ([first] + rest)[..|rest|] == [first] + rest[..|rest| - 1];
    }
  }

  lemma LostInTwo(first: seq<Octet>, second: seq<Octet>, o: nat, section: seq<Octet>)
    requires PassesOver(first, o) && Valid(section)
    requires o + |section| <= |first + second| && (first + second)[o..o + |section|] == section
    ensures Slice(o, |section|) !in Run([Packet(first, 0), Packet(second, 0)]).slices
  {
    hide *;
    var packets := [Packet(first, 0)] + [Packet(second, 0)];
    assert packets == [Packet(first, 0), Packet(second, 0)];
    PassedAtOnce(Packet(first, 0), [Packet(second, 0)], o);
    TwoPayloads(first, second);
    LostExactly(packets, o, section);
  }

  lemma TwoPayloads(first: seq<Octet>, second: seq<Octet>)
    ensures Stream([Packet(first, 0)] + [Packet(second, 0)]) == first + second
  {
    LastPacket([Packet(first, 0)], Packet(second, 0));
    LastPacket([], Packet(first, 0));
    var none: seq<Packet> := [];
    assert none + [Packet(first, 0)] == [Packet(first, 0)];
  }

  /** A complete section inside the part that came first is published instead of the split one around it. */
  lemma OvertakenWitness()
    ensures (var outer := Section(21, Section(9, []));
             && Valid(outer) && Overtakes(outer[..20], 0)
             && Slice(0, 24) !in Run([Packet(outer[..20], 0), Packet(outer[20..], 0)]).slices)
  {
    hide Run;
    hide Crc32;
    hide Section;
    var inner, outer := Section(9, []), Section(21, Section(9, []));
    SectionValid(9, []);
    SectionValid(21, inner);
    var s := outer[..20];
    assert s + outer[20..] == outer;
    FrontOfSection(s, outer);
    InnerAt(21, inner);
    assert StartsValid(s[8..]);
    FirstFromFront(s);
    assert FirstValid(s, 0).Some?;
    LostInTwo(s, outer[20..], 0, outer);
  }

  lemma InnerAt(size: Octet, body: seq<Octet>)
    requires size as nat == 9 + |body|
    ensures Section(size, body)[8..8 + |body|] == body && Section(size, body)[..8 + |body|][8..] == body
  {}

  /** The length of an invalid section reaches into the one behind it, which is split. */
  lemma SwallowedWitness(section: seq<Octet>)
    requires Valid(section)
    ensures (var first := [0x40, 0x80, 9, 0, 0, 0, 1, 0, 0, 0] + section[..5];
             && Swallows(first, 10)
             && Slice(10, |section|) !in Run([Packet(first, 0), Packet(section[5..], 0)]).slices)
  {
    hide Run;
    hide Crc32;
    var first := [0x40, 0x80, 9, 0, 0, 0, 1, 0, 0, 0] + section[..5];
    LengthOf(first);
    forall i | 0 <= i <= |first| ensures !StartsValid(first[i..]) {}
    assert (first + section[5..])[10..10 + |section|] == section;
    LostInTwo(first, section[5..], 10, section);
  }

  /** A section inside another one is published only as part of it. */
  lemma CoveredWitness()
    ensures (var inner, outer := Section(9, []), Section(21, Section(9, []));
             && Valid(inner) && outer[8..20] == inner && Covers(outer, 8)
             && Slice(8, 12) !in Run([Packet(outer, 0), Packet([], 0)]).slices)
  {
    hide Run;
    hide Crc32;
    hide Section;
    var inner, outer := Section(9, []), Section(21, Section(9, []));
    SectionValid(9, []);
    SectionValid(21, inner);
    InnerAt(21, inner);
    assert outer + [] == outer;
    LostInTwo(outer, [], 8, inner);
  }
}
