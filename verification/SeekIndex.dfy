/** The seek points of a recording: a list ordered by time and by byte offset at once, its searches and the
    interpolation between its points. */
module SeekIndex {
  import opened Bytes
  import opened Timeline

  const MICROSECONDS: uint32 := 1000000

  datatype SeekPoint = SeekPoint(presentation: Timestamp, signalling: nat, randomAccess: nat, track: nat,
                                 bootstrap: nat)

  function Time(p: SeekPoint): int { p.presentation.value }

  predicate NotAfter(p: SeekPoint, q: SeekPoint) { Time(p) <= Time(q) && p.randomAccess <= q.randomAccess }

  /** Ordered by time and by offset at once. */
  predicate Ordered(s: seq<SeekPoint>) { forall i, j :: 0 <= i <= j < |s| ==> NotAfter(s[i], s[j]) }

  /** The order of insertion: by time and, at the same time, by offset. */
  predicate Less(p: SeekPoint, q: SeekPoint) {
    if Time(p) != Time(q) then Time(p) < Time(q) else p.randomAccess < q.randomAccess
  }

  // ----- binary searches over an ordered list

  /** The first position whose point is not before `p`. */
  function LowerBound(s: seq<SeekPoint>, p: SeekPoint, lo: nat, hi: nat): (r: nat)
    requires Ordered(s) && lo <= hi <= |s|
    requires (forall k :: 0 <= k < lo ==> Less(s[k], p)) && (forall k :: hi <= k < |s| ==> !Less(s[k], p))
    ensures r <= |s| && (forall k :: 0 <= k < r ==> Less(s[k], p)) && (forall k :: r <= k < |s| ==> !Less(s[k], p))
    decreases hi - lo
  {
    if lo == hi then lo
    else
      var mid := (lo + hi) / 2;
      if Less(s[mid], p) then
        assert forall k :: 0 <= k <= mid ==> NotAfter(s[k], s[mid]);
        LowerBound(s, p, mid + 1, hi)
      else
        assert forall k :: mid <= k < |s| ==> NotAfter(s[mid], s[k]);
        LowerBound(s, p, lo, mid)
  }

  /** The first position whose point lies after time `t`. */
  function UpperBound(s: seq<SeekPoint>, t: int, lo: nat, hi: nat): (r: nat)
    requires Ordered(s) && lo <= hi <= |s|
    requires (forall k :: 0 <= k < lo ==> Time(s[k]) <= t) && (forall k :: hi <= k < |s| ==> t < Time(s[k]))
    ensures r <= |s| && (forall k :: 0 <= k < r ==> Time(s[k]) <= t) && (forall k :: r <= k < |s| ==> t < Time(s[k]))
    decreases hi - lo
  {
    if lo == hi then lo
    else
      var mid := (lo + hi) / 2;
      if t < Time(s[mid]) then
        assert forall k :: mid <= k < |s| ==> NotAfter(s[mid], s[k]);
        UpperBound(s, t, lo, mid)
      else
        assert forall k :: 0 <= k <= mid ==> NotAfter(s[k], s[mid]);
        UpperBound(s, t, mid + 1, hi)
  }

  // ----- insertion

  /** Two points that no list ordered by both keys can hold together. */
  predicate Conflict(p: SeekPoint, q: SeekPoint) { !NotAfter(p, q) && !NotAfter(q, p) }

  predicate SamePlace(p: SeekPoint, q: SeekPoint) {
    Time(p) == Time(q) && p.randomAccess == q.randomAccess && p.track == q.track
  }

  /** The first point not before `p` stands where `p` would. */
  predicate Present(s: seq<SeekPoint>, p: SeekPoint)
    requires Ordered(s)
  {
    var found := LowerBound(s, p, 0, |s|);
    found < |s| && SamePlace(s[found], p)
  }

  datatype Insertion = Insertion(points: seq<SeekPoint>, accepted: bool)

  /** Insert behind the points before it, unless it is there already or its neighbours contradict it. */
  function Insert(s: seq<SeekPoint>, p: SeekPoint): Insertion
    requires Ordered(s)
  {
    var found := LowerBound(s, p, 0, |s|);
    if Present(s, p) then Insertion(s, true)
    else if found > 0 && s[found - 1].randomAccess > p.randomAccess then Insertion(s, false)
    else if found < |s| && p.randomAccess > s[found].randomAccess then Insertion(s, false)
    else Insertion(s[..found] + [p] + s[found..], true)
  }

  /** A point is refused exactly when some point of the list conflicts with it; an accepted one leaves the list ordered,
      holding what it held and a point of that track at that time and offset, and nothing else. */
  lemma InsertExact(s: seq<SeekPoint>, p: SeekPoint)
    requires Ordered(s)
    ensures (var r := Insert(s, p);
             && Ordered(r.points)
             && (r.accepted <==> forall q :: q in s ==> !Conflict(p, q))
             && (if r.accepted && !Present(s, p) then multiset(r.points) == multiset(s) + multiset{p}
                 else r.points == s)
             && (Present(s, p) <==> exists k :: 0 <= k < |s| && SamePlace(s[k], p) && forall j :: 0 <= j < k ==>
                   Time(s[j]) < Time(p) || (Time(s[j]) == Time(p) && s[j].randomAccess < p.randomAccess)))
  {
    hide Ordered;
    hide Conflict;
    var found, r := LowerBound(s, p, 0, |s|), Insert(s, p);
    if Present(s, p) {
      assert s[found] in s;
      PresentFits(s, p);
    } else if r.accepted {
      InsertAccepted(s, p, found);
    } else {
      InsertRefused(s, p, found);
    }
  }

  lemma InsertAccepted(s: seq<SeekPoint>, p: SeekPoint, found: nat)
    requires Ordered(s) && found <= |s|
    requires (forall k :: 0 <= k < found ==> Less(s[k], p)) && (forall k :: found <= k < |s| ==> !Less(s[k], p))
    requires found > 0 ==> s[found - 1].randomAccess <= p.randomAccess
    requires found < |s| ==> p.randomAccess <= s[found].randomAccess
    ensures Ordered(s[..found] + [p] + s[found..]) && forall q :: q in s ==> !Conflict(p, q)
    ensures multiset(s[..found] + [p] + s[found..]) == multiset(s) + multiset{p}
  {
    NoConflictAround(s, p, found);
    InsertedOrdered(s, p, found);
    InsertAdds(s, p, found);
    hide *;
  }

  lemma InsertAdds(s: seq<SeekPoint>, p: SeekPoint, found: nat)
    requires found <= |s|
    ensures multiset(s[..found] + [p] + s[found..]) == multiset(s) + multiset{p}
  {
    var a, b := s[..found], s[found..];
    assert s == a + b;
    assert multiset(a + [p] + b) == multiset(a) + multiset{p} + multiset(b);
  }

  lemma InsertRefused(s: seq<SeekPoint>, p: SeekPoint, found: nat)
    requires Ordered(s) && found <= |s|
    requires (forall k :: 0 <= k < found ==> Less(s[k], p)) && (forall k :: found <= k < |s| ==> !Less(s[k], p))
    requires (found > 0 && s[found - 1].randomAccess > p.randomAccess)
             || (found < |s| && p.randomAccess > s[found].randomAccess && !SamePlace(s[found], p))
    ensures exists q :: q in s && Conflict(p, q)
  {
    hide Ordered;
    if found > 0 && s[found - 1].randomAccess > p.randomAccess {
      assert s[found - 1] in s && Conflict(p, s[found - 1]);
    } else {
      assert s[found] in s && Conflict(p, s[found]);
    }
  }

  lemma PresentFits(s: seq<SeekPoint>, p: SeekPoint)
    requires Ordered(s) && Present(s, p)
    ensures forall q :: q in s ==> !Conflict(p, q)
  {
    var found := LowerBound(s, p, 0, |s|);
    forall q | q in s
      ensures !Conflict(p, q)
    {
      var k :| 0 <= k < |s| && s[k] == q;
      assert NotAfter(s[Min(k, found)], s[Max(k, found)]);
    }
  }

  lemma NoConflictAround(s: seq<SeekPoint>, p: SeekPoint, found: nat)
    requires Ordered(s) && found <= |s|
    requires (forall k :: 0 <= k < found ==> Less(s[k], p)) && (forall k :: found <= k < |s| ==> !Less(s[k], p))
    requires found > 0 ==> s[found - 1].randomAccess <= p.randomAccess
    requires found < |s| ==> p.randomAccess <= s[found].randomAccess
    ensures forall k :: 0 <= k < found ==> NotAfter(s[k], p)
    ensures forall k :: found <= k < |s| ==> NotAfter(p, s[k])
    ensures forall q :: q in s ==> !Conflict(p, q)
  {
    forall k | 0 <= k < found
      ensures NotAfter(s[k], p)
    {
      assert NotAfter(s[k], s[found - 1]);
    }
    forall k | found <= k < |s|
      ensures NotAfter(p, s[k])
    {
      assert NotAfter(s[found], s[k]);
    }
  }

  lemma InsertedOrdered(s: seq<SeekPoint>, p: SeekPoint, found: nat)
    requires Ordered(s) && found <= |s|
    requires forall k :: 0 <= k < found ==> NotAfter(s[k], p)
    requires forall k :: found <= k < |s| ==> NotAfter(p, s[k])
    ensures Ordered(s[..found] + [p] + s[found..])
  {
  }

  // ----- lookups

  /** The greatest point not after the target. */
  function PreviousSync(s: seq<SeekPoint>, target: Timestamp): (r: Option<SeekPoint>)
    requires Ordered(s)
    ensures (match Microseconds(target)
             case None => r == None
             case Some(t) =>
               if r.None? then forall q :: q in s ==> t < Time(q)
               else r.value in s && Time(r.value) <= t && forall q :: q in s && Time(q) <= t ==> NotAfter(q, r.value))
  {
    var target_us := Microseconds(target);
    if s == [] || target_us.None? then None
    else
      var found := UpperBound(s, target_us.value, 0, |s|);
      if found == 0 then None else Some(s[found - 1])
  }

  datatype SeekPoints = SeekPoints(first: SeekPoint, second: Option<SeekPoint>)

  /** The points around the target: it lies from `first` on and before `second`; a target before all points gets the
      first of them, and one at a point or after all of them gets no second. */
  function SeekPointsFor(s: seq<SeekPoint>, target: Timestamp): (r: Option<SeekPoints>)
    requires Ordered(s)
    ensures r.Some? <==> s != [] && Microseconds(target).Some?
    ensures r.Some? ==>
              var t := Microseconds(target).value;
              && r.value.first in s
              && (Time(r.value.first) > t ==> r.value.first == s[0] && r.value.second == None)
              && (Time(r.value.first) <= t ==> PreviousSync(s, target) == Some(r.value.first))
              && (r.value.second.Some? ==>
                    && r.value.second.value in s && Time(r.value.first) < t < Time(r.value.second.value)
                    && forall q :: q in s && t < Time(q) ==> NotAfter(r.value.second.value, q))
              && (r.value.second.None? && Time(r.value.first) < t ==> forall q :: q in s ==> Time(q) <= t)
  {
    var target_us := Microseconds(target);
    if s == [] || target_us.None? then None
    else
      var t := target_us.value;
      var upper := UpperBound(s, t, 0, |s|);
      if upper == 0 then Some(SeekPoints(s[0], None))
      else if upper == |s| || Time(s[upper - 1]) == t then Some(SeekPoints(s[upper - 1], None))
      else Some(SeekPoints(s[upper - 1], Some(s[upper])))
  }

  // ----- interpolation

  /** The byte offset at `target` on the line through two (time, offset) pairs, cut off to a whole byte. */
  function Interpolate(firstOffset: nat, secondOffset: nat, firstTime: int, secondTime: int, target: int): nat {
    if secondTime <= firstTime || secondOffset <= firstOffset || target <= firstTime then firstOffset
    else if target >= secondTime then secondOffset
    else firstOffset + MulDiv(secondOffset - firstOffset, target - firstTime, secondTime - firstTime)
  }

  function MulDiv(a: nat, b: nat, c: nat): nat
    requires c > 0
  {
    MulMonotone(0, a, b);
    a * b / c
  }

  lemma InterpolateBetween(o1: nat, o2: nat, t1: int, t2: int, t: int)
    ensures o1 <= Interpolate(o1, o2, t1, t2, t) <= Max(o1, o2)
  {
    if t1 < t < t2 && o1 < o2 {
      RemainderScaled(t - t1, o2 - o1, t2 - t1);
    }
  }

  lemma InterpolateMonotone(o1: nat, o2: nat, t1: int, t2: int, t: int, u: int)
    requires t <= u
    ensures Interpolate(o1, o2, t1, t2, t) <= Interpolate(o1, o2, t1, t2, u)
  {
    InterpolateBetween(o1, o2, t1, t2, t);
    InterpolateBetween(o1, o2, t1, t2, u);
    if t1 < t && u < t2 && o1 < o2 {
      MulMonotone(t - t1, u - t1, o2 - o1);
      assert (o2 - o1) * (t - t1) <= (o2 - o1) * (u - t1);
      DivMonotone((o2 - o1) * (t - t1), (o2 - o1) * (u - t1), t2 - t1);
    }
  }

  lemma DivMonotone(a: nat, b: nat, d: nat)
    requires a <= b && d > 0
    ensures a / d <= b / d
  {
    var p, q := a / d, b / d;
    assert d * p <= a && b < d * (q + 1);
    if p > q { MulMonotone(q + 1, p, d); }
  }

  /** The byte offset to start reading at for a target time in microseconds. */
  function Estimate(s: seq<SeekPoint>, duration: Option<int>, target: int, sourceSize: nat): Option<nat>
    requires Ordered(s)
  {
    if sourceSize == 0 then None
    else if target <= 0 then Some(0)
    else
      var upper := UpperBound(s, target, 0, |s|);
      if 0 < upper < |s| then
        Some(Interpolate(s[upper - 1].randomAccess, s[upper].randomAccess, Time(s[upper - 1]), Time(s[upper]), target))
      else if upper < |s| then
        Some(Interpolate(0, s[upper].randomAccess, 0, Time(s[upper]), target))
      else if s != [] && duration.Some? && target <= duration.value then
        Some(Interpolate(s[|s| - 1].randomAccess, sourceSize, Time(s[|s| - 1]), duration.value, target))
      else if s == [] && duration.Some? && duration.value > 0 then
        Some(Interpolate(0, sourceSize, 0, duration.value, Min(target, duration.value)))
      else None
  }

  /** The estimate lies between the offsets of the points before and after the target. */
  lemma EstimateBetween(s: seq<SeekPoint>, duration: Option<int>, t: int, size: nat, k: nat)
    requires Ordered(s) && k < |s| && t > 0 && Estimate(s, duration, t, size).Some?
    ensures (var e := Estimate(s, duration, t, size).value;
             if Time(s[k]) <= t then s[k].randomAccess <= e else e <= s[k].randomAccess)
  {
    hide Interpolate;
    var upper := UpperBound(s, t, 0, |s|);
    if upper < |s| {
      if k < upper { assert NotAfter(s[k], s[upper - 1]); } else { assert NotAfter(s[upper], s[k]); }
      var o, u := if upper > 0 then s[upper - 1].randomAccess else 0, if upper > 0 then Time(s[upper - 1]) else 0;
      assert upper > 0 ==> NotAfter(s[upper - 1], s[upper]);
      InterpolateBetween(o, s[upper].randomAccess, u, Time(s[upper]), t);
    } else {
      assert NotAfter(s[k], s[|s| - 1]);
      InterpolateBetween(s[|s| - 1].randomAccess, size, Time(s[|s| - 1]), duration.value, t);
    }
  }

  /** The offset is that on the straight line from (t1, o1) to (t2, o2) at time t, cut off to a whole byte. */
  predicate OnLine(o1: nat, o2: nat, t1: int, t2: int, t: int, e: nat) {
    (e - o1) * (t2 - t1) <= (o2 - o1) * (t - t1) < (e - o1 + 1) * (t2 - t1)
  }

  lemma InterpolateOnLine(o1: nat, o2: nat, t1: int, t2: int, t: int)
    requires t1 < t < t2 && o1 < o2
    ensures OnLine(o1, o2, t1, t2, t, Interpolate(o1, o2, t1, t2, t))
  {
    var a, d := (o2 - o1) * (t - t1), t2 - t1;
    MulMonotone(0, o2 - o1, t - t1);
    DivBounds(a, d);
  }

  lemma DivBounds(a: nat, d: nat)
    requires d > 0
    ensures a / d * d <= a < (a / d + 1) * d
  {
  }

  /** Between two neighbouring points, before the first one and behind the last one up to the duration, and when
      there is none, the estimate lies on the line that joins the two ends. */
  lemma EstimateOnLine(s: seq<SeekPoint>, duration: Option<int>, t: int, size: nat)
    requires Ordered(s) && t > 0 && size > 0
    ensures (var e := Estimate(s, duration, t, size);
             && (forall k | 0 < k < |s| ::
                   Time(s[k - 1]) < t < Time(s[k]) && s[k - 1].randomAccess < s[k].randomAccess ==>
                     && e.Some?
                     && OnLine(s[k - 1].randomAccess, s[k].randomAccess, Time(s[k - 1]), Time(s[k]), t, e.value))
             && (s != [] && t < Time(s[0]) && 0 < s[0].randomAccess ==>
                   e.Some? && OnLine(0, s[0].randomAccess, 0, Time(s[0]), t, e.value))
             && (s != [] && duration.Some? && Time(s[|s| - 1]) < t < duration.value
                 && s[|s| - 1].randomAccess < size ==>
                   && e.Some?
                   && OnLine(s[|s| - 1].randomAccess, size, Time(s[|s| - 1]), duration.value, t, e.value))
             && (s == [] && duration.Some? && 0 < duration.value ==>
                   && e.Some?
                   && if t < duration.value then OnLine(0, size, 0, duration.value, t, e.value) else e.value == size))
  {
    hide Interpolate;
    hide OnLine;
    forall k | 0 < k < |s| && Time(s[k - 1]) < t < Time(s[k]) && s[k - 1].randomAccess < s[k].randomAccess
      ensures Estimate(s, duration, t, size).Some?
      ensures OnLine(s[k - 1].randomAccess, s[k].randomAccess, Time(s[k - 1]), Time(s[k]), t,
                     Estimate(s, duration, t, size).value)
    {
      UpperIs(s, t, k);
      InterpolateOnLine(s[k - 1].randomAccess, s[k].randomAccess, Time(s[k - 1]), Time(s[k]), t);
    }
    if s != [] && t < Time(s[0]) && 0 < s[0].randomAccess {
      UpperIs(s, t, 0);
      InterpolateOnLine(0, s[0].randomAccess, 0, Time(s[0]), t);
    }
    if s != [] && duration.Some? && Time(s[|s| - 1]) < t < duration.value && s[|s| - 1].randomAccess < size {
      UpperIs(s, t, |s|);
      InterpolateOnLine(s[|s| - 1].randomAccess, size, Time(s[|s| - 1]), duration.value, t);
    }
    if s == [] && duration.Some? && 0 < duration.value {
      if t < duration.value { InterpolateOnLine(0, size, 0, duration.value, t); }
          else { AtSecond(size, duration.value); }
    }
  }

  lemma AtSecond(size: nat, duration: int)
    requires 0 < duration
    ensures Interpolate(0, size, 0, duration, duration) == size
  {
  }

  lemma UpperIs(s: seq<SeekPoint>, t: int, k: nat)
    requires Ordered(s) && k <= |s| && (k > 0 ==> Time(s[k - 1]) < t) && (k < |s| ==> t < Time(s[k]))
    ensures UpperBound(s, t, 0, |s|) == k
  {
    var u := UpperBound(s, t, 0, |s|);
    assert forall i :: 0 <= i < k ==> NotAfter(s[i], s[k - 1]);
    assert forall i :: k <= i < |s| ==> NotAfter(s[k], s[i]);
  }

  /** At the time of a point the estimate is the offset of the last point of that time. */
  lemma EstimateAtPoint(s: seq<SeekPoint>, duration: Option<int>, t: Timestamp, size: nat)
    requires Ordered(s) && Microseconds(t).Some? && Microseconds(t).value > 0
    requires PreviousSync(s, t).Some? && Time(PreviousSync(s, t).value) == Microseconds(t).value
    ensures (var e := Estimate(s, duration, Microseconds(t).value, size);
             e.Some? ==> e.value == PreviousSync(s, t).value.randomAccess)
  {
  }

  /** The estimate never falls as the target rises, over all segments. */
  lemma EstimateMonotone(s: seq<SeekPoint>, duration: Option<int>, t: int, u: int, size: nat)
    requires Ordered(s) && t <= u
    requires Estimate(s, duration, t, size).Some? && Estimate(s, duration, u, size).Some?
    ensures Estimate(s, duration, t, size).value <= Estimate(s, duration, u, size).value
  {
    hide Interpolate;
    if t > 0 {
      var k, m := UpperBound(s, t, 0, |s|), UpperBound(s, u, 0, |s|);
      if k < |s| && Time(s[k]) <= u {
        EstimateBetween(s, duration, t, size, k);
        EstimateBetween(s, duration, u, size, k);
      } else {
        SameSegment(s, t, u);
        var o1, t1 := if k > 0 then s[k - 1].randomAccess else 0, if k > 0 then Time(s[k - 1]) else 0;
        var o2, t2 := if k < |s| then s[k].randomAccess else size, if k < |s| then Time(s[k]) else duration.value;
        InterpolateMonotone(o1, o2, t1, t2, t, u);
        if s == [] { InterpolateMonotone(0, size, 0, duration.value, Min(t, duration.value), Min(u, duration.value)); }
      }
    }
  }

  lemma SameSegment(s: seq<SeekPoint>, t: int, u: int)
    requires Ordered(s) && t <= u
    requires (var k := UpperBound(s, t, 0, |s|); k < |s| ==> u < Time(s[k]))
    ensures UpperBound(s, u, 0, |s|) == UpperBound(s, t, 0, |s|)
  {
    var k, m := UpperBound(s, t, 0, |s|), UpperBound(s, u, 0, |s|);
    assert (k < |s| ==> u < Time(s[k])) && (m < |s| ==> u < Time(s[m]));
  }

  /** There is an estimate for every target up to the last point or the known duration. */
  lemma EstimateDefined(s: seq<SeekPoint>, duration: Option<int>, t: int, size: nat)
    requires Ordered(s)
    ensures Estimate(s, duration, t, size).Some? <==>
              && size > 0
              && (t <= 0 || (s != [] && t < Time(s[|s| - 1])) || (s != [] && duration.Some? && t <= duration.value) ||
                  (s == [] && duration.Some? && duration.value > 0))
  {
    hide Interpolate;
    var k := UpperBound(s, t, 0, |s|);
    if s != [] && k < |s| { assert NotAfter(s[k], s[|s| - 1]); }
  }
}
