/** Extremes and gaps of the presentation times observed in a stream. */
module Statistics {
  import opened Bytes
  import opened Timeline

  function Least(s: seq<int>): Option<int> {
    if s == [] then None
    else match Least(s[..|s| - 1]) case None => Some(s[|s| - 1]) case Some(m) => Some(Min(m, s[|s| - 1]))
  }

  function Greatest(s: seq<int>): Option<int> {
    if s == [] then None
    else match Greatest(s[..|s| - 1]) case None => Some(s[|s| - 1]) case Some(m) => Some(Max(m, s[|s| - 1]))
  }

  /** The distance of two times, unless it is zero or exceeds the range. */
  function Distance(a: int, b: int): Option<nat> {
    if a == b || Abs(a - b) > INT64_MAX then None else Some(Abs(a - b))
  }

  /** The smallest distance between neighbours, 0 when there is none: the inferred frame duration. */
  function SmallestGap(s: seq<int>): nat {
    if |s| < 2 then 0 else Shorter(SmallestGap(s[..|s| - 1]), s[|s| - 1], s[|s| - 2])
  }

  function Shorter(gap: nat, a: int, b: int): nat {
    match Distance(a, b)
    case None => gap
    case Some(d) => if gap == 0 || d < gap then d else gap
  }

  /** `m` bounds all the times and is one of them. */
  lemma {:induction false} GreatestIsMaximum(s: seq<int>)
    ensures (match Greatest(s) case None => s == [] case Some(m) => m in s && forall x :: x in s ==> x <= m)
  {
    if s != [] {
      GreatestIsMaximum(s[..|s| - 1]);
      assert forall x :: x in s <==> x in s[..|s| - 1] || x == s[|s| - 1];
    }
  }

  lemma {:induction false} LeastIsMinimum(s: seq<int>)
    ensures (match Least(s) case None => s == [] case Some(m) => m in s && forall x :: x in s ==> m <= x)
  {
    if s != [] {
      LeastIsMinimum(s[..|s| - 1]);
      assert forall x :: x in s <==> x in s[..|s| - 1] || x == s[|s| - 1];
    }
  }

  function Gap(s: seq<int>, i: nat): Option<nat>
    requires 1 <= i < |s|
  {
    Distance(s[i], s[i - 1])
  }

  /** The inferred frame duration is the smallest positive distance between neighbouring times. */
  lemma {:induction false} GapIsSmallest(s: seq<int>)
    ensures (var g := SmallestGap(s);
             && (forall i :: 1 <= i < |s| && Gap(s, i).Some? ==> 0 < g <= Gap(s, i).value)
             && (g > 0 ==> exists i :: 1 <= i < |s| && Gap(s, i) == Some(g)))
  {
    if |s| >= 2 {
      var n := |s| - 1;
      var t := s[..n];
      GapIsSmallest(t);
      forall i | 1 <= i < n
        ensures Gap(s, i) == Gap(t, i)
      {
      }
      var g := SmallestGap(s);
      if Gap(s, n) != Some(g) && g > 0 {
        var i :| 1 <= i < n && Gap(t, i) == Some(g);
        assert Gap(s, i) == Some(g);
      }
    }
  }

  lemma NoneWhenEmpty(s: seq<int>)
    ensures s == [] ==> SmallestGap(s) == 0
  {
  }

  lemma StatisticsSnoc(s: seq<int>, x: int)
    ensures Least(s + [x]) == match Least(s) case None => Some(x) case Some(m) => Some(Min(m, x))
    ensures Greatest(s + [x]) == match Greatest(s) case None => Some(x) case Some(m) => Some(Max(m, x))
    ensures SmallestGap(s + [x]) == if s == [] then 0 else Shorter(SmallestGap(s), x, s[|s| - 1])
  {
    assert (s + [x])[..|s|] == s;
  }
}
