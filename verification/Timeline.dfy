/** Exact 64-bit time arithmetic: every wrap of the machine is written out as `U64`, and the results are shown not to
    depend on it. */
module Timeline {
  import opened Bytes

  type int64 = x: int | INT64_MIN <= x <= INT64_MAX
  type uint32 = x: nat | x < UINT32
  type uint64 = x: nat | x < UINT64

  datatype Timestamp = Timestamp(value: int64, timescale: uint32)

  /** Unsigned 64-bit arithmetic keeps the residue. */
  function U64(x: int): uint64 { if 0 <= x < UINT64 then x else x % UINT64 }

  /** C++ division and remainder: toward zero, the remainder with the sign of the dividend. */
  function Quotient(a: int, b: int): int
    requires b > 0
  {
    if a >= 0 then a / b else -(-a / b)
  }

  function Remainder(a: int, b: int): int
    requires b > 0
  {
    if a >= 0 then a % b else -(-a % b)
  }

  predicate Fits(x: int) { INT64_MIN <= x <= INT64_MAX }

  function Checked(x: int): Option<int> { if Fits(x) then Some(x) else None }

  function AddChecked(left: int, right: int): Option<int> {
    if (right > 0 && left > INT64_MAX - right) || (right < 0 && left < INT64_MIN - right) then None
    else Some(left + right)
  }

  function SubtractChecked(left: int, right: int): Option<int> {
    if (right > 0 && left < INT64_MIN + right) || (right < 0 && left > INT64_MAX + right) then None
    else Some(left - right)
  }

  /** Ticks of `timescale` between two NTP stamps. */
  function NtpDeltaTicks(current: uint64, origin: uint64, timescale: uint32): Option<int> {
    var negative := current < origin;
    var difference := if negative then U64(origin - current) else U64(current - origin);
    var seconds, fraction := difference / UINT32, difference % UINT32;
    if timescale != 0 && seconds > INT64_MAX / timescale then None
    else
      var wholeTicks := U64(seconds * timescale);
      var fractionalTicks := U64(fraction * timescale) / UINT32;
      if wholeTicks > U64(INT64_MAX - fractionalTicks) then None
      else
        var magnitude := U64(wholeTicks + fractionalTicks);
        Some(if negative then 0 - magnitude else magnitude)
  }

  /** A tick count moved to another timescale. */
  function RescaleMagnitude(magnitude: uint64, sourceScale: uint32, targetScale: uint32): Option<nat>
    requires sourceScale != 0
  {
    var whole, remainder := magnitude / sourceScale, magnitude % sourceScale;
    if targetScale != 0 && whole > INT64_MAX / targetScale then None
    else
      var fraction := U64(remainder * targetScale) / sourceScale;
      var scaled := U64(U64(whole * targetScale) + fraction);
      if scaled > INT64_MAX then None else Some(scaled)
  }

  function RescaleOffset(value: int64, sourceScale: uint32, targetScale: uint32): Option<int> {
    if sourceScale == 0 then None
    else
      var negative := value < 0;
      var magnitude := if negative then U64(-(value + 1) + 1) else value;
      match RescaleMagnitude(magnitude, sourceScale, targetScale)
      case None => None
      case Some(scaled) => Some(if negative then 0 - scaled else scaled)
  }

  /** Microseconds of a time stamp. */
  function Microseconds(t: Timestamp): Option<int> {
    if t.timescale == 0 then None
    else
      var whole, remainder := Quotient(t.value, t.timescale), Remainder(t.value, t.timescale);
      if whole > INT64_MAX / 1000000 || whole < Quotient(INT64_MIN, 1000000) then None
      else
        var fractional := Quotient(remainder * 1000000, t.timescale);
        var scaledWhole := whole * 1000000;
        if (fractional > 0 && scaledWhole > INT64_MAX - fractional) ||
           (fractional < 0 && scaledWhole < INT64_MIN - fractional) then None
        else Some(scaledWhole + fractional)
  }

  // ----- helpers on division

  lemma DivUnique(a: int, b: int, q: int)
    requires b > 0 && b * q <= a < b * (q + 1)
    ensures a / b == q
  {
    var k := a / b;
    assert b * k <= a < b * (k + 1);
    if k < q { MulMonotone(k + 1, q, b); }
  }

  /** floor((w*s + r) * t / s) = w*t + floor(r*t / s) */
  lemma SplitDiv(m: nat, s: nat, t: nat)
    requires s > 0
    ensures m * t / s == m / s * t + (m % s) * t / s
  {
    var w, r := m / s, m % s;
    var q := r * t / s;
    assert m == w * s + r;
    assert m * t == (w * s + r) * t == w * s * t + r * t;
    assert s * q <= r * t < s * (q + 1);
    assert w * s * t == s * (w * t);
    assert s * (w * t + q) == s * (w * t) + s * q;
    assert s * (w * t + q + 1) == s * (w * t) + s * (q + 1);
    DivUnique(m * t, s, w * t + q);
  }

  lemma MulMonotone(a: int, b: int, c: nat)
    requires a <= b
    ensures a * c <= b * c
  {
  }

  lemma MulBelow(a: uint32, b: uint32)
    ensures a * b < UINT64 && a * b <= (UINT32 - 1) * (UINT32 - 1)
  {
    MulMonotone(a, UINT32 - 1, b);
    MulMonotone(b, UINT32 - 1, UINT32 - 1);
  }

  /** `whole * t` is within range exactly when `whole` is at most `limit / t`. */
  lemma GuardExact(whole: nat, t: nat, limit: nat)
    requires t > 0
    ensures whole > limit / t <==> whole * t > limit
  {
    var q := limit / t;
    assert t * q <= limit < t * (q + 1);
    if whole > q { MulMonotone(q + 1, whole, t); } else { MulMonotone(whole, q, t); }
  }

  lemma RemainderScaled(r: nat, t: nat, s: nat)
    requires s > 0 && r < s
    ensures 0 <= r * t / s <= t
  {
    MulMonotone(r, s, t);
    var q := r * t / s;
    assert s * q <= r * t <= s * t;
    if q > t { MulMonotone(t + 1, q, s); }
  }

  // ----- the results are exact

  function Signed(negative: bool, magnitude: int): int { if negative then -magnitude else magnitude }

  function Abs(x: int): nat { if x < 0 then -x else x }

  lemma AddSubtractExact(left: int64, right: int64)
    ensures AddChecked(left, right) == Checked(left + right)
    ensures SubtractChecked(left, right) == Checked(left - right)
  {
  }

  lemma U64Small(x: int)
    requires 0 <= x < UINT64
    ensures U64(x) == x
  {
  }

  lemma MagnitudeExact(m: uint64, s: uint32, t: uint32)
    requires s != 0
    ensures RescaleMagnitude(m, s, t) == if m * t / s > INT64_MAX then None else Some(m * t / s)
  {
    hide U64;
    var whole, r := m / s, m % s;
    SplitDiv(m, s, t);
    MulBelow(r, t);
    U64Small(r * t);
    RemainderScaled(r, t, s);
    var head, tail := whole * t, r * t / s;
    assert m * t / s == head + tail;
    if t != 0 { GuardExact(whole, t, INT64_MAX); }
    if head <= INT64_MAX {
      U64Small(head);
      U64Small(head + tail);
    }
  }

  /** value * t / s, toward zero. */
  function Scaled(value: int, s: nat, t: nat): int
    requires s > 0
  {
    Signed(value < 0, Abs(value) * t / s)
  }

  /** The result is the exact quotient toward zero, and fails exactly when that exceeds the largest signed value or
      there is no source scale. */
  lemma RescaleExact(value: int64, s: uint32, t: uint32)
    ensures RescaleOffset(value, s, t) ==
      if s == 0 || Abs(Scaled(value, s, t)) > INT64_MAX then None else Some(Scaled(value, s, t))
  {
    hide RescaleMagnitude;
    if s != 0 {
      MagnitudeExact(Abs(value), s, t);
      QuotientNonNegative(Abs(value) * t, s);
    }
  }

  lemma QuotientNonNegative(a: nat, b: nat)
    requires b > 0
    ensures a / b >= 0
  {
  }

  /** Likewise for the distance between two NTP stamps. */
  lemma NtpDeltaExact(current: uint64, origin: uint64, t: uint32)
    ensures (var ticks := Scaled(current - origin, UINT32, t);
             NtpDeltaTicks(current, origin, t) == if Abs(ticks) > INT64_MAX then None else Some(ticks))
  {
    hide U64;
    var d := Abs(current - origin);
    U64Small(d);
    var seconds, fraction := d / UINT32, d % UINT32;
    SplitDiv(d, UINT32, t);
    MulBelow(fraction, t);
    U64Small(fraction * t);
    RemainderScaled(fraction, t, UINT32);
    var head, tail := seconds * t, fraction * t / UINT32;
    assert d * t / UINT32 == head + tail;
    U64Small(INT64_MAX - tail);
    if t != 0 { GuardExact(seconds, t, INT64_MAX); }
    if head <= INT64_MAX {
      U64Small(head);
      U64Small(head + tail);
    }
  }

  /** Microseconds are exact, toward zero, and fail exactly when they do not fit or there is no scale. */
  lemma MicrosecondsExact(t: Timestamp)
    ensures Microseconds(t) ==
      if t.timescale == 0 then None else Checked(Scaled(t.value, t.timescale, 1000000))
  {
    if t.timescale != 0 {
      var m, s := Abs(t.value), t.timescale;
      SplitDiv(m, s, 1000000);
      RemainderScaled(m % s, 1000000, s);
    }
  }

  // ----- the normalized timeline

  /** The first unit of the timeline: its NTP anchor and its presentation time. */
  datatype Origin = Origin(ntp: uint64, pts: int64, timescale: uint32)

  /** Presentation and decode time relative to the origin. */
  function Normalize(o: Origin, ntp: uint64, pts: int64, dts: int64, timescale: uint32): Option<(int, int)> {
    match (NtpDeltaTicks(ntp, o.ntp, timescale), RescaleOffset(o.pts, o.timescale, timescale))
    case (Some(ticks), Some(originOffset)) =>
      (match SubtractChecked(ticks, originOffset)
       case None => None
       case Some(base) =>
         match (AddChecked(base, pts), AddChecked(base, dts))
         case (Some(p), Some(d)) => Some((p, d))
         case _ => None)
    case _ => None
  }

  /** The unit that sets the origin is presented at zero and keeps the distance to its decode time; the only units
      that cannot are those whose times themselves leave the range. */
  lemma OriginIsZero(ntp: uint64, pts: int64, dts: int64, timescale: uint32)
    requires timescale != 0
    ensures Normalize(Origin(ntp, pts, timescale), ntp, pts, dts, timescale) ==
      if pts == INT64_MIN || !Fits(dts - pts) then None else Some((0, dts - pts))
  {
    hide Normalize;
    hide Scaled;
    var o := Origin(ntp, pts, timescale);
    NormalizeExact(o, ntp, pts, dts, timescale);
    AtOrigin(o);
  }

  lemma AtOrigin(o: Origin)
    requires o.timescale != 0
    ensures Scaled(o.ntp - o.ntp, 0x1_0000_0000, o.timescale) == 0 && Scaled(o.pts, o.timescale, o.timescale) == o.pts
  {
    DivUnique(Abs(o.pts) * o.timescale, o.timescale, Abs(o.pts));
  }

  /** The scaled value is the exact quotient cut off toward zero. */
  lemma ScaledTowardZero(value: int, source: nat, target: nat)
    requires source > 0
    ensures (var q := Scaled(value, source, target);
             && (value >= 0 ==> q >= 0 && q * source <= value * target < (q + 1) * source)
             && (value < 0 ==> q <= 0 && (0 - q) * source <= (0 - value) * target < (1 - q) * source))
  {
    var a := Abs(value) * target;
    QuotientBounds(a, source);
    var p := a / source;
    assert Scaled(value, source, target) == if value < 0 then 0 - p else p;
  }

  lemma QuotientBounds(a: nat, d: nat)
    requires d > 0
    ensures a / d >= 0 && a / d * d <= a < (a / d + 1) * d
  {
    QuotientNonNegative(a, d);
    var q, r := a / d, a % d;
    assert a == d * q + r && 0 <= r < d;
  }

  /** NTP distance from the origin, and the origin's own offset, in ticks of `timescale`. */
  function Ticks(o: Origin, ntp: uint64, timescale: uint32): int {
    Scaled(ntp - o.ntp, UINT32, timescale)
  }

  function OriginTicks(o: Origin, timescale: uint32): int
    requires o.timescale != 0
  {
    Scaled(o.pts, o.timescale, timescale)
  }

  /** Every unit is placed at its NTP distance from the origin plus its own offset less the origin's, and the
      distance of its two times is kept. */
  lemma NormalizeExact(o: Origin, ntp: uint64, pts: int64, dts: int64, timescale: uint32)
    requires o.timescale != 0
    ensures (var ticks := Scaled(ntp - o.ntp, 0x1_0000_0000, timescale);
             var offset := Scaled(o.pts, o.timescale, timescale);
             var base := ticks - offset;
             Normalize(o, ntp, pts, dts, timescale) ==
               if Abs(ticks) > INT64_MAX || Abs(offset) > INT64_MAX || !Fits(base) || !Fits(base + pts)
                   || !Fits(base + dts)
               then None else Some((base + pts, base + dts)))
  {
    hide NtpDeltaTicks;
    hide RescaleOffset;
    hide Scaled;
    NtpDeltaIsTicks(o, ntp, timescale);
    RescaleIsOriginTicks(o, timescale);
  }

  lemma NtpDeltaIsTicks(o: Origin, ntp: uint64, timescale: uint32)
    ensures (var ticks := Ticks(o, ntp, timescale);
             NtpDeltaTicks(ntp, o.ntp, timescale) == if Abs(ticks) > INT64_MAX then None else Some(ticks))
  {
    hide NtpDeltaTicks;
    hide Scaled;
    NtpDeltaExact(ntp, o.ntp, timescale);
  }

  lemma RescaleIsOriginTicks(o: Origin, timescale: uint32)
    requires o.timescale != 0
    ensures (var offset := OriginTicks(o, timescale);
             RescaleOffset(o.pts, o.timescale, timescale) == if Abs(offset) > INT64_MAX then None else Some(offset))
  {
    hide RescaleOffset;
    hide Scaled;
    RescaleExact(o.pts, o.timescale, timescale);
  }

  /** The demuxer's part in it: it remembers the origin. */
  class Normalizer {
    var origin: Option<Origin>

    constructor ()
      ensures origin == None
    {
      origin := None;
    }

    /** The first acceptable unit sets the origin; from then on every unit is placed relative to it. */
    method AccessUnit(ntp: uint64, pts: Timestamp, dts: Timestamp) returns (r: Option<(int, int)>)
      modifies this
      ensures if pts.timescale == 0 || dts.timescale != pts.timescale then r == None && origin == old(origin)
              else
                && origin == (if old(origin).Some? then old(origin) else Some(Origin(ntp, pts.value, pts.timescale)))
                && r == Normalize(origin.value, ntp, pts.value, dts.value, pts.timescale)
    {
      if pts.timescale == 0 || dts.timescale != pts.timescale { return None; }
      if origin.None? { origin := Some(Origin(ntp, pts.value, pts.timescale)); }
      var ticks := NtpDeltaTicks(ntp, origin.value.ntp, pts.timescale);
      var originOffset := RescaleOffset(origin.value.pts, origin.value.timescale, pts.timescale);
      if ticks.None? || originOffset.None? { return None; }
      var base := SubtractChecked(ticks.value, originOffset.value);
      if base.None? { return None; }
      var p, d := AddChecked(base.value, pts.value), AddChecked(base.value, dts.value);
      if p.None? || d.None? { return None; }
      return Some((p.value, d.value));
    }

    method Reposition(preserveTimeline: bool)
      modifies this
      ensures origin == if preserveTimeline then old(origin) else None
    {
      if !preserveTimeline { origin := None; }
    }
  }
}
