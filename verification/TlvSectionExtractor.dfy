/** The TLV-SI part of the transport parser: its two buffers and the loop over them. */
module TlvSectionExtraction {
  import opened Bytes
  import opened Crc
  import opened TlvSections

  class TlvSectionExtractor {
    var sectionBuffer: seq<Octet>
    var sectionOrigins: seq<nat>
    /** What the subscriber has been told since the last reset. */
    var published: seq<Published>
    /** The packets taken in since the last reset. */
    ghost var packets: seq<Packet>

    ghost predicate Aligned()
      reads this
    {
      && sectionBuffer == Stream(packets)[Run(packets).end..]
      && sectionOrigins == Origins(packets)[Run(packets).end..]
      && published == Output(packets)
    }

    constructor ()
      ensures Aligned() && packets == []
    {
      sectionBuffer := [];
      sectionOrigins := [];
      published := [];
      packets := [];
    }

    method Reset()
      modifies this
      ensures Aligned() && packets == []
    {
      sectionBuffer := [];
      sectionOrigins := [];
      published := [];
      packets := [];
    }

    method FindCompleteBoundary(begin: nat) returns (r: Option<nat>)
      requires begin <= |sectionBuffer|
      ensures r == FirstValid(sectionBuffer, begin)
    {
      hide *;
      var buffer := sectionBuffer;
      var offset := begin;
      while offset + 3 <= |buffer|
        invariant begin <= offset <= |buffer|
        invariant FirstValid(buffer, begin) == FirstValid(buffer, offset)
      {
        FirstValidStep(buffer, offset);
        var valid := CompleteAt(buffer, offset);
        if valid { return Some(offset); }
        offset := offset + 1;
      }
      RestTooShort(buffer, offset);
      r := None;
    }

    static method CompleteAt(buffer: seq<Octet>, offset: nat) returns (valid: bool)
      requires offset + 3 <= |buffer|
      ensures valid <==> StartsValid(buffer[offset..])
    {
      hide StartsValid;
      hide GoodHeader;
      hide SectionLength;
      hide Crc32;
      StartsAt(buffer, offset);
      var good, length := HeaderIsGood(buffer, offset);
      if !good { return false; }
      var total := 3 + length;
      if total > |buffer| - offset { return false; }
      if buffer[offset + 6] as nat > buffer[offset + 7] as nat { return false; }
      var crc := Crc32Mpeg(buffer[offset..offset + total]);
      valid := crc == 0;
    }

    /** Go on at the next complete section, if there is one. */
    method ResyncMove(otherwise: Move) returns (m: Move)
      requires |sectionBuffer| >= 1
      ensures m == Resync(sectionBuffer, otherwise)
    {
      hide FirstValid;
      var boundary := FindCompleteBoundary(1);
      m := if boundary.Some? then Skip(boundary.value) else otherwise;
    }

    static method HeaderIsGood(buffer: seq<Octet>, offset: nat) returns (good: bool, length: nat)
      requires offset + 3 <= |buffer|
      ensures good <==> GoodHeader(buffer[offset..])
      ensures length == SectionLength(buffer[offset..])
      ensures good ==> length >= 9
    {
      length := (buffer[offset + 1] & 0x0f) as nat * 256 + buffer[offset + 2] as nat;
      good := buffer[offset + 1] & 0x80 != 0 && length >= 9 && length <= 1021;
    }

    /** What the next turn of the loop is to do. */
    method NextMove() returns (m: Move)
      ensures m == Decide(sectionBuffer)
    {
      hide Resync;
      hide StartsValid;
      hide GoodHeader;
      hide SectionLength;
      if |sectionBuffer| < 3 { return Wait; }
      assert sectionBuffer[0..] == sectionBuffer;
      var good, length := HeaderIsGood(sectionBuffer, 0);
      if !good {
        m := ResyncMove(Skip(1));
        return;
      }
      var total := 3 + length;
      if |sectionBuffer| < total {
        m := ResyncMove(Wait);
        return;
      }
      var valid := CompleteAt(sectionBuffer, 0);
      if !valid {
        m := ResyncMove(Skip(total));
        return;
      }
      m := Publish(total);
    }

    method DropFront(count: nat)
      requires count <= |sectionBuffer| == |sectionOrigins|
      modifies `sectionBuffer, `sectionOrigins
      ensures sectionBuffer == old(sectionBuffer)[count..] && sectionOrigins == old(sectionOrigins)[count..]
    {
      sectionBuffer := sectionBuffer[count..];
      sectionOrigins := sectionOrigins[count..];
    }

    /** Every turn skips or publishes, until what is left has to wait. */
    method ProcessSections(ghost at: nat)
      requires at <= |Stream(packets)|
      requires sectionBuffer == Stream(packets)[at..] && sectionOrigins == Origins(packets)[at..]
      modifies `sectionBuffer, `sectionOrigins, `published
      ensures (var r := Drain(Stream(packets), at);
               && sectionBuffer == Stream(packets)[r.1..] && sectionOrigins == Origins(packets)[r.1..]
               && Inside(packets, r.0) && published == old(published) + Told(packets, r.0))
    {
      hide Decide;
      hide Stream;
      hide Origins;
      hide Drain;
      hide Told;
      ghost var stream, origins := Stream(packets), Origins(packets);
      ghost var here := at;
      ghost var done: seq<Slice> := [];
      ghost var before := published;
      NothingTold(packets, at);
      while true
        invariant at <= here <= |stream| && packets == old(packets)
        invariant sectionBuffer == stream[here..] && sectionOrigins == origins[here..]
        invariant DrainedSoFar(stream, at, done, here)
        invariant Inside(packets, done) && published == before + Told(packets, done)
        decreases |stream| - here
      {
        var move := NextMove();
        DrainTurn(stream, at, done, here);
        match move
        case Wait =>
          return;
        case Skip(count) =>
          DropFront(count);
          here := here + count;
        case Publish(count) =>
          var section := sectionBuffer[..count];
          var offset := sectionOrigins[0];
          DropFront(count);
          assert section == stream[here..here + count];
          ToldOneMore(packets, done, Slice(here, count), section, offset);
          published := published + [Published(section, offset)];
          done := done + [Slice(here, count)];
          here := here + count;
      }
    }

    method ConsumeTlvSi(payload: seq<Octet>, inputOffset: nat)
      requires Aligned()
      modifies this
      ensures Aligned() && packets == old(packets) + [Packet(payload, inputOffset)]
    {
      hide Run;
      hide Stream;
      hide Origins;
      hide Output;
      hide Drain;
      hide Told;
      ghost var at := Run(packets).end;
      OneMorePacket(packets, Packet(payload, inputOffset));
      sectionBuffer := sectionBuffer + payload;
      sectionOrigins := sectionOrigins + seq(|payload|, i => inputOffset);
      packets := packets + [Packet(payload, inputOffset)];
      ProcessSections(at);
    }
  }

  /** A complete section, told by the bytes of the buffer it lies in. */
  lemma StartsAt(buffer: seq<Octet>, offset: nat)
    requires offset + 3 <= |buffer|
    ensures (var s := buffer[offset..]; var total := 3 + SectionLength(s);
             StartsValid(s) <==>
               && GoodHeader(s) && total >= 12 && offset + total <= |buffer|
               && buffer[offset + 6] as nat <= buffer[offset + 7] as nat
               && Crc32(buffer[offset..offset + total]) == 0)
  {
    hide Crc32;
    hide SectionLength;
    var s := buffer[offset..];
    var total := 3 + SectionLength(s);
    if total >= 12 && total <= |s| { SectionAt(buffer, offset, total); }
  }

  lemma SectionAt(buffer: seq<Octet>, offset: nat, total: nat)
    requires 12 <= total && offset + total <= |buffer|
    ensures buffer[offset..][6] == buffer[offset + 6] && buffer[offset..][7] == buffer[offset + 7]
    ensures buffer[offset..][..total] == buffer[offset..offset + total]
  {}

  lemma FirstValidStep(s: seq<Octet>, at: nat)
    requires at < |s|
    ensures FirstValid(s, at) == if StartsValid(s[at..]) then Some(at) else FirstValid(s, at + 1)
  {}

  /** What the loop still has to do after it published `done` and stands at `here`. */
  ghost predicate DrainedSoFar(stream: seq<Octet>, at: nat, done: seq<Slice>, here: nat)
    requires at <= |stream| && here <= |stream|
  {
    Drain(stream, at).0 == done + Drain(stream, here).0 && Drain(stream, at).1 == Drain(stream, here).1
  }

  lemma DrainTurn(stream: seq<Octet>, at: nat, done: seq<Slice>, here: nat)
    requires at <= here <= |stream| && DrainedSoFar(stream, at, done, here)
    ensures (match Decide(stream[here..])
             case Wait => Drain(stream, at) == (done, here)
             case Skip(n) => DrainedSoFar(stream, at, done, here + n)
             case Publish(n) => DrainedSoFar(stream, at, done + [Slice(here, n)], here + n))
  {
    hide Decide;
    var none: seq<Slice> := [];
    assert done + none == done;
    match Decide(stream[here..])
    case Wait =>
    case Skip(n) =>
    case Publish(n) =>
      var rest := Drain(stream, here + n).0;
      assert done + ([Slice(here, n)] + rest) == (done + [Slice(here, n)]) + rest;
  }

  lemma NothingTold(packets: seq<Packet>, at: nat)
    requires at <= |Stream(packets)|
    ensures Inside(packets, []) && Told(packets, []) == [] && DrainedSoFar(Stream(packets), at, [], at)
  {}

  lemma RestTooShort(s: seq<Octet>, offset: nat)
    requires offset <= |s| < offset + 3
    ensures FirstValid(s, offset) == None
  {}

  /** One more packet joins what waits, and what is published after it. */
  lemma OneMorePacket(before: seq<Packet>, p: Packet)
    ensures (var packets := before + [p]; var at := Run(before).end; var stream := Stream(packets);
             && at <= |stream| && stream[at..] == Stream(before)[at..] + p.payload
             && Origins(packets)[at..] == Origins(before)[at..] + seq(|p.payload|, i => p.offset)
             && Run(packets).end == Drain(stream, at).1
             && Inside(packets, Drain(stream, at).0)
             && Output(packets) == Output(before) + Told(packets, Drain(stream, at).0))
  {
    var packets := before + [p];
    assert packets[..|before|] == before;
    SlicesInside(before);
    SlicesInside(packets);
    hide Drain;
    OutputGrows(before, p, Run(before).slices, Drain(Stream(packets), Run(before).end).0);
  }

  lemma ToldOneMore(packets: seq<Packet>, done: seq<Slice>, s: Slice, section: seq<Octet>, offset: nat)
    requires Inside(packets, done) && s.begin + s.count <= |Stream(packets)| && s.count > 0
    requires section == Stream(packets)[s.begin..s.begin + s.count] && offset == Origins(packets)[s.begin]
    ensures Inside(packets, done + [s])
    ensures Told(packets, done + [s]) == Told(packets, done) + [Published(section, offset)]
  {
    hide Stream;
    hide Origins;
    forall i | 0 <= i < |done| ensures Told(packets, done + [s])[i] == Told(packets, done)[i] {
      assert (done + [s])[i] == done[i] && done[i] in done;
    }
  }
}
