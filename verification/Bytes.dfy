/** Bytes and the big-endian readers every parser uses. */
module Bytes {
  type byte = b: int | 0 <= b < 256

  datatype Option<+T> = None | Some(value: T)

  const UINT32 := 0x1_0000_0000
  const UINT64 := 0x1_0000_0000_0000_0000
  const INT64_MAX := 0x7fff_ffff_ffff_ffff
  const INT64_MIN := -0x8000_0000_0000_0000

  function Be16(hi: byte, lo: byte): (r: nat)
    ensures r < 0x1_0000
  {
    hi * 256 + lo
  }

  function Be32(s: seq<byte>): (r: nat)
    requires |s| == 4
    ensures r < UINT32
  {
    Be16(s[0], s[1]) * 0x1_0000 + Be16(s[2], s[3])
  }

  function Min(a: int, b: int): int { if a <= b then a else b }

  function Max(a: int, b: int): int { if a >= b then a else b }

  /** The parts one after another. */
  function Flatten<T>(parts: seq<seq<T>>): seq<T> {
    if parts == [] then [] else parts[0] + Flatten(parts[1..])
  }

  lemma {:induction false} FlattenSnoc<T>(parts: seq<seq<T>>, last: seq<T>)
    ensures Flatten(parts + [last]) == Flatten(parts) + last
    decreases |parts|
  {
    if parts == [] {
      var none: seq<T> := [];
      assert ([last] + [])[1..] == [] && last + none == last && parts + [last] == [last];
    } else {
      assert (parts + [last])[1..] == parts[1..] + [last];
      FlattenSnoc(parts[1..], last);
    }
  }

  /** The big-endian bytes that the readers above read back. */
  function Wire16(v: nat): (r: seq<byte>)
    requires v < 0x1_0000
    ensures |r| == 2 && Be16(r[0], r[1]) == v
  {
    [v / 256, v % 256]
  }

  function Wire32(v: nat): (r: seq<byte>)
    requires v < UINT32
    ensures |r| == 4 && Be32(r) == v
  {
    Wire16(v / 0x1_0000) + Wire16(v % 0x1_0000)
  }

  lemma Wire16Exact(hi: byte, lo: byte)
    ensures Wire16(Be16(hi, lo)) == [hi, lo]
  {}
}
