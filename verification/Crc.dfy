/** The CRC of MPEG-2 sections (Annex A of ISO/IEC 13818-1) and what it detects. */
module Crc {
  type Octet = bv8

  const START: bv32 := 0xffff_ffff

  function Xor(a: bv32, b: bv32): bv32 { a ^ b }

  function Up(c: bv32): bv32 { c << 1 }

  const POLYNOMIAL: bv32 := 0x04c1_1db7

  predicate TopSet(c: bv32) { c & 0x8000_0000 != 0 }

  /** One turn of the shift register. */
  function Turn(c: bv32): bv32 { if TopSet(c) then Xor(Up(c), POLYNOMIAL) else Up(c) }

  function Turns(n: nat, c: bv32): bv32 { if n == 0 then c else Turn(Turns(n - 1, c)) }

  /** A byte in each of the four places of the register; it is taken in at the top. */
  function High(b: Octet): bv32 { (b as bv32) << 24 }

  function Middle(b: Octet): bv32 { (b as bv32) << 16 }

  function Low(b: Octet): bv32 { (b as bv32) << 8 }

  function Last(b: Octet): bv32 { b as bv32 }

  function Take(c: bv32, b: Octet): bv32 { Turns(8, Xor(c, High(b))) }

  function From(c: bv32, data: seq<Octet>): bv32
    decreases |data|
  {
    if data == [] then c else Take(From(c, data[..|data| - 1]), data[|data| - 1])
  }

  function Crc32(data: seq<Octet>): bv32 { From(START, data) }

  /** The word that four bytes spell, most significant first. */
  function Word(t: seq<Octet>): bv32
    requires |t| == 4
  {
    Xor(Xor(Xor(High(t[0]), Middle(t[1])), Low(t[2])), Last(t[3]))
  }

  // ----- the register is linear and loses nothing

  function Carry(c: bv32): bv32 { if TopSet(c) then POLYNOMIAL else 0 }

  lemma XorNothing(c: bv32)
    ensures Xor(c, 0) == c
  {}

  lemma TurnSplit(c: bv32)
    ensures Turn(c) == Xor(Up(c), Carry(c))
  {
    hide Up;
    hide Xor;
    hide TopSet;
    XorNothing(Up(c));
  }

  lemma TopLinear(a: bv32, b: bv32)
    ensures TopSet(Xor(a, b)) <==> TopSet(a) != TopSet(b)
  {}

  lemma CarryLinear(a: bv32, b: bv32)
    ensures Carry(Xor(a, b)) == Xor(Carry(a), Carry(b))
  {
    hide TopSet;
    hide Xor;
    TopLinear(a, b);
    XorNothing(POLYNOMIAL);
    XorNothing(0);
    XorCommutes(0, POLYNOMIAL);
    XorZero(POLYNOMIAL, POLYNOMIAL);
  }

  lemma UpLinear(a: bv32, b: bv32)
    ensures Up(Xor(a, b)) == Xor(Up(a), Up(b))
  {}

  lemma XorCommutes(a: bv32, b: bv32)
    ensures Xor(a, b) == Xor(b, a)
  {}

  lemma XorRegroup(a: bv32, b: bv32, c: bv32, d: bv32)
    ensures Xor(Xor(a, b), Xor(c, d)) == Xor(Xor(a, c), Xor(b, d))
  {
    hide *;
    XorAssociates(a, b, Xor(c, d));
    XorAssociates(b, c, d);
    XorCommutes(b, c);
    XorAssociates(c, b, d);
    XorAssociates(a, c, Xor(b, d));
  }

  lemma XorAssociates(a: bv32, b: bv32, c: bv32)
    ensures Xor(Xor(a, b), c) == Xor(a, Xor(b, c))
  {}

  lemma XorZero(a: bv32, b: bv32)
    ensures Xor(a, b) == 0 <==> a == b
  {}

  lemma XorCancels(c: bv32, a: bv32, b: bv32)
    requires Xor(c, a) == Xor(c, b)
    ensures a == b
  {}

  lemma XorCancelsRight(c: bv32, a: bv32, b: bv32)
    requires Xor(a, c) == Xor(b, c)
    ensures a == b
  {}

  lemma TurnLinear(a: bv32, b: bv32)
    ensures Turn(Xor(a, b)) == Xor(Turn(a), Turn(b))
  {
    hide *;
    TurnSplit(a);
    TurnSplit(b);
    TurnSplit(Xor(a, b));
    CarryLinear(a, b);
    UpLinear(a, b);
    XorRegroup(Up(a), Carry(a), Up(b), Carry(b));
  }

  lemma TurnOfNothing(c: bv32)
    ensures Turn(c) == 0 <==> c == 0
  {}

  lemma {:induction false} TurnsLinear(n: nat, a: bv32, b: bv32)
    ensures Turns(n, Xor(a, b)) == Xor(Turns(n, a), Turns(n, b))
  {
    hide Turn;
    hide Xor;
    if n > 0 {
      TurnsLinear(n - 1, a, b);
      TurnLinear(Turns(n - 1, a), Turns(n - 1, b));
    }
  }

  lemma {:induction false} TurnsOfNothing(n: nat, c: bv32)
    ensures Turns(n, c) == 0 <==> c == 0
  {
    hide Turn;
    if n > 0 {
      TurnsOfNothing(n - 1, c);
      TurnOfNothing(Turns(n - 1, c));
    }
  }

  lemma TurnsInjective(n: nat, a: bv32, b: bv32)
    requires Turns(n, a) == Turns(n, b)
    ensures a == b
  {
    hide *;
    TurnsLinear(n, a, b);
    XorZero(Turns(n, a), Turns(n, b));
    TurnsOfNothing(n, Xor(a, b));
    XorZero(a, b);
  }

  lemma {:induction false} TurnsAdd(m: nat, n: nat, c: bv32)
    ensures Turns(m, Turns(n, c)) == Turns(m + n, c)
  {
    hide Turn;
    if m > 0 { TurnsAdd(m - 1, n, c); }
  }

  // ----- four bytes are taken in as one word

  /** Eight turns of a byte that is not on top yet move it up one place. */
  lemma EightTurns(b: Octet)
    ensures Turns(8, Middle(b)) == High(b) && Turns(8, Low(b)) == Middle(b) && Turns(8, Last(b)) == Low(b)
  {
    UpEight(Middle(b));
    UpEight(Low(b));
    UpEight(Last(b));
    hide Turns;
  }

  lemma UpEight(c: bv32)
    requires c & 0xff00_0000 == 0
    ensures Turns(8, c) == c << 8
  {
    assert Turns(0, c) == c;
    assert Turns(1, c) == c << 1;
    assert Turns(2, c) == c << 2;
    assert Turns(3, c) == c << 3;
    assert Turns(4, c) == c << 4;
    assert Turns(5, c) == c << 5;
    assert Turns(6, c) == c << 6;
    assert Turns(7, c) == c << 7;
  }

  lemma Absorb(n: nat, y: bv32, b: Octet, low: bv32)
    requires Turns(n, low) == High(b)
    ensures Take(Turns(n, y), b) == Turns(n + 8, Xor(y, low))
  {
    TurnsLinear(n, y, low);
    TurnsAdd(8, n, Xor(y, low));
    hide Turns;
    hide Xor;
    hide High;
  }

  lemma {:induction false} FromAppend(c: bv32, a: seq<Octet>, b: seq<Octet>)
    ensures From(c, a + b) == From(From(c, a), b)
    decreases |b|
  {
    hide Take;
    if b == [] {
      assert a + b == a;
    } else {
      assert (a + b)[..|a + b| - 1] == a + b[..|b| - 1];
      FromAppend(c, a, b[..|b| - 1]);
    }
  }

  lemma FromFour(c: bv32, t: seq<Octet>)
    requires |t| == 4
    ensures From(c, t) == Take(Take(Take(Take(c, t[0]), t[1]), t[2]), t[3])
  {
    hide Take;
    assert t[..3][..2] == t[..2] && t[..2][..1] == t[..1] && t[..1][..0] == [];
    assert From(c, t[..1]) == Take(c, t[0]);
    assert From(c, t[..2]) == Take(From(c, t[..1]), t[1]);
    assert From(c, t[..3]) == Take(From(c, t[..2]), t[2]);
  }

  lemma FourAsWord(c: bv32, t: seq<Octet>)
    requires |t| == 4
    ensures From(c, t) == Turns(32, Xor(c, Word(t)))
  {
    var a, b, d := Middle(t[1]), Low(t[2]), Last(t[3]);
    hide Turns;
    hide Xor;
    hide High;
    hide Middle;
    hide Low;
    hide Last;
    FromFour(c, t);
    EightTurns(t[1]);
    EightTurns(t[2]);
    EightTurns(t[3]);
    TurnsAdd(8, 8, b);
    TurnsAdd(8, 8, d);
    TurnsAdd(8, 16, d);
    var y0 := Xor(c, High(t[0]));
    var y1 := Xor(y0, a);
    var y2 := Xor(y1, b);
    WordRegroup(c, High(t[0]), a, b, d);
    assert Word(t) == Xor(Xor(Xor(High(t[0]), a), b), d);
    hide *;
    Absorb(8, y0, t[1], a);
    Absorb(16, y1, t[2], b);
    Absorb(24, y2, t[3], d);
  }

  lemma WordRegroup(c: bv32, w: bv32, x: bv32, y: bv32, z: bv32)
    ensures Xor(Xor(Xor(Xor(c, w), x), y), z) == Xor(c, Xor(Xor(Xor(w, x), y), z))
  {
    XorAssociates(c, w, x);
    XorAssociates(c, Xor(w, x), y);
    XorAssociates(c, Xor(Xor(w, x), y), z);
    hide Xor;
  }

  // ----- what the residue tells

  /** The CRC over a section is zero exactly when its last four bytes are the CRC of what comes before. */
  lemma ResidueZero(data: seq<Octet>, trailer: seq<Octet>)
    requires |trailer| == 4
    ensures Crc32(data + trailer) == 0 <==> Word(trailer) == Crc32(data)
  {
    hide *;
    var c := Crc32(data);
    CrcOfBoth(data, trailer);
    FourAsWord(c, trailer);
    TurnsOfNothing(32, Xor(c, Word(trailer)));
    XorZero(c, Word(trailer));
  }

  lemma CrcOfBoth(data: seq<Octet>, trailer: seq<Octet>)
    ensures Crc32(data + trailer) == From(Crc32(data), trailer)
  {
    FromAppend(START, data, trailer);
    hide From;
  }

  lemma {:induction false} FromInjective(a: bv32, b: bv32, data: seq<Octet>)
    requires From(a, data) == From(b, data)
    ensures a == b
    decreases |data|
  {
    hide Turns;
    hide Xor;
    hide High;
    if data != [] {
      var x, y := From(a, data[..|data| - 1]), From(b, data[..|data| - 1]);
      var h := High(data[|data| - 1]);
      TurnsInjective(8, Xor(x, h), Xor(y, h));
      XorCancelsRight(h, x, y);
      FromInjective(a, b, data[..|data| - 1]);
    }
  }

  lemma WordInjective(s: seq<Octet>, t: seq<Octet>)
    requires |s| == |t| == 4 && Word(s) == Word(t)
    ensures s == t
  {
    hide Xor;
    hide High;
    hide Middle;
    hide Low;
    hide Last;
    WordBits(s[0], s[1], s[2], s[3], t[0], t[1], t[2], t[3]);
  }

  lemma WordBits(a: Octet, b: Octet, c: Octet, d: Octet, e: Octet, f: Octet, g: Octet, h: Octet)
    requires Xor(Xor(Xor(High(a), Middle(b)), Low(c)), Last(d)) == Xor(Xor(Xor(High(e), Middle(f)), Low(g)), Last(h))
    ensures a == e && b == f && c == g && d == h
  {}

  /** Whatever is changed within four consecutive bytes of a section shows: the two cannot both pass. */
  lemma BurstDetected(before: seq<Octet>, s: seq<Octet>, t: seq<Octet>, after: seq<Octet>)
    requires |s| == |t| == 4 && s != t
    ensures Crc32(before + s + after) != Crc32(before + t + after)
  {
    hide *;
    if Crc32(before + s + after) == Crc32(before + t + after) {
      CrcOfBoth(before + s, after);
      CrcOfBoth(before + t, after);
      FromInjective(Crc32(before + s), Crc32(before + t), after);
      CrcOfBoth(before, s);
      CrcOfBoth(before, t);
      var c := Crc32(before);
      FourAsWord(c, s);
      FourAsWord(c, t);
      TurnsInjective(32, Xor(c, Word(s)), Xor(c, Word(t)));
      XorCancels(c, Word(s), Word(t));
      WordInjective(s, t);
    }
  }

  // ----- the check value of this CRC

  lemma TurnByTurn(c: bv32)
    ensures Turns(8, c) == Turn(Turn(Turn(Turn(Turn(Turn(Turn(Turn(c))))))))
  {
    assert Turns(0, c) == c && Turns(2, c) == Turn(Turn(c)) && Turns(4, c) == Turn(Turn(Turn(Turn(c))));
    assert Turns(6, c) == Turn(Turn(Turns(4, c)));
  }

  lemma OneMore(data: seq<Octet>, b: Octet)
    ensures Crc32(data + [b]) == Take(Crc32(data), b)
  {
    assert (data + [b])[..|data|] == data;
  }

  lemma Digit1()
    ensures Take(0xffff_ffff, 0x31) == 0x9efb_cf93
  {
    TurnByTurn(Xor(0xffff_ffff, High(0x31)));
  }

  lemma Digit2()
    ensures Take(0x9efb_cf93, 0x32) == 0x3fec_5e6a
  {
    TurnByTurn(Xor(0x9efb_cf93, High(0x32)));
  }

  lemma Digit3()
    ensures Take(0x3fec_5e6a, 0x33) == 0xd952_f164
  {
    TurnByTurn(Xor(0x3fec_5e6a, High(0x33)));
  }

  lemma Digit4()
    ensures Take(0xd952_f164, 0x34) == 0xa695_c4aa
  {
    TurnByTurn(Xor(0xd952_f164, High(0x34)));
  }

  lemma Digit5()
    ensures Take(0xa695_c4aa, 0x35) == 0xbd9a_b747
  {
    TurnByTurn(Xor(0xa695_c4aa, High(0x35)));
  }

  lemma Digit6()
    ensures Take(0xbd9a_b747, 0x36) == 0xd8f0_6c8f
  {
    TurnByTurn(Xor(0xbd9a_b747, High(0x36)));
  }

  lemma Digit7()
    ensures Take(0xd8f0_6c8f, 0x37) == 0x0d8a_14c4
  {
    TurnByTurn(Xor(0xd8f0_6c8f, High(0x37)));
  }

  lemma Digit8()
    ensures Take(0x0d8a_14c4, 0x38) == 0x49e3_c2fb
  {
    TurnByTurn(Xor(0x0d8a_14c4, High(0x38)));
  }

  lemma Digit9()
    ensures Take(0x49e3_c2fb, 0x39) == 0x0376_e6e7
  {
    TurnByTurn(Xor(0x49e3_c2fb, High(0x39)));
  }

  /** The CRC of the digits 1 to 9, by which this CRC is known. */
  lemma CheckValue()
    ensures Crc32([0x31, 0x32, 0x33, 0x34, 0x35, 0x36, 0x37, 0x38, 0x39]) == 0x0376_e6e7
  {
    hide Take;
    hide Crc32;
    var d: seq<Octet> := [0x31, 0x32, 0x33, 0x34, 0x35, 0x36, 0x37, 0x38, 0x39];
    NothingTaken();
    forall k | 0 <= k < 9
      ensures Crc32(d[..k + 1]) == Take(Crc32(d[..k]), d[k])
    {
      OneMore(d[..k], d[k]);
      assert d[..k] + [d[k]] == d[..k + 1];
    }
    assert d[..0] == [] && d[..9] == d;
    Digit1();
    Digit2();
    Digit3();
    Digit4();
    Digit5();
    Digit6();
    Digit7();
    Digit8();
    Digit9();
    assert Crc32(d[..0 + 1]) == 0x9efb_cf93 && Crc32(d[..1 + 1]) == 0x3fec_5e6a;
    assert Crc32(d[..2 + 1]) == 0xd952_f164 && Crc32(d[..3 + 1]) == 0xa695_c4aa;
    assert Crc32(d[..4 + 1]) == 0xbd9a_b747 && Crc32(d[..5 + 1]) == 0xd8f0_6c8f;
    assert Crc32(d[..6 + 1]) == 0x0d8a_14c4 && Crc32(d[..7 + 1]) == 0x49e3_c2fb;
    assert Crc32(d[..8 + 1]) == 0x0376_e6e7;
  }

  lemma NothingTaken()
    ensures Crc32([]) == 0xffff_ffff
  {}

  // ----- the loop

  method Crc32Mpeg(data: seq<Octet>) returns (crc: bv32)
    ensures crc == Crc32(data)
  {
    hide TopSet;
    hide Xor;
    hide Up;
    hide High;
    crc := START;
    for index := 0 to |data|
      invariant crc == From(START, data[..index])
    {
      ghost var before := crc;
      crc := Xor(crc, High(data[index]));
      for bit := 0 to 8
        invariant crc == Turns(bit, Xor(before, High(data[index])))
      {
        crc := if TopSet(crc) then Xor(Up(crc), POLYNOMIAL) else Up(crc);
      }
      assert data[..index + 1][..index] == data[..index];
    }
    assert data[..|data|] == data;
  }
}
