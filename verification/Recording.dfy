/** The index of a recording as it is built: seek points, presentation range, duration and its status. */
module Recording {
  import opened Bytes
  import opened Timeline
  import opened SeekIndex
  import opened Statistics
  import Fragments
  import Hevc
  import Timing
  import TrackModel

  datatype IndexState = Absent | Loading | Building | Partial | Following | Complete | Stale | Failed

  datatype DurationStatus = Unknown | Provisional | Final

  datatype Unit = Unit(track: nat, isHevc: bool, pts: Timestamp, restart: nat, inputOffset: nat, randomAccess: bool)

  lemma AlreadyMicroseconds(us: int64)
    ensures Microseconds(Timestamp(us, MICROSECONDS)) == Some(us)
  {
    MicrosecondsExact(Timestamp(us, MICROSECONDS));
    DivUnique(Abs(us) * 1000000, 1000000, Abs(us));
  }

  /** What the status says is decided by the state and by whether a duration is known. */
  function StatusOf(state: IndexState, duration: Option<int>): DurationStatus {
    if duration.None? then Unknown else if state == Complete then Final else Provisional
  }

  /** Stored points are in microseconds, with their checkpoint not after them. */
  predicate WellFormed(s: seq<SeekPoint>) {
    forall p :: p in s ==> p.presentation.timescale == MICROSECONDS && p.signalling <= p.randomAccess
  }

  lemma InsertKeepsForm(s: seq<SeekPoint>, p: SeekPoint)
    requires Ordered(s) && WellFormed(s) && p.presentation.timescale == MICROSECONDS && p.signalling <= p.randomAccess
    ensures Ordered(Insert(s, p).points) && WellFormed(Insert(s, p).points)
  {
    InsertExact(s, p);
    hide Ordered;
    hide Conflict;
    hide Less;
  }

  class RecordingIndex {
    var state: IndexState
    var selectedVideoTrack: Option<nat>
    var seekPoints: seq<SeekPoint>
    var minimumPts: Option<int>
    var maximumPts: Option<int>
    var previousPts: Option<int>
    var inferredFrameDuration: nat
    var duration: Option<int>
    var durationStatus: DurationStatus
    var growing: bool
    /** Times observed since the points were last cleared, and since the track was last switched. */
    ghost var observed: seq<int>
    ghost var recent: seq<int>

    ghost predicate Valid()
      reads this
    {
      && Ordered(seekPoints)
      && WellFormed(seekPoints)
      && minimumPts == Least(observed) && maximumPts == Greatest(observed)
      && previousPts == (if recent == [] then None else Some(recent[|recent| - 1]))
      && inferredFrameDuration == SmallestGap(recent)
      && (maximumPts.Some? ==> duration.Some? && duration.value >= maximumPts.value)
      && (duration.Some? ==> duration.value >= 0)
      && durationStatus == StatusOf(state, duration)
    }

    /** A known duration never shrinks. */
    twostate predicate DurationKept()
      reads this
    {
      old(duration).Some? ==> duration.Some? && duration.value >= old(duration).value
    }

    ghost predicate Cleared()
      reads this
    {
      seekPoints == [] && observed == [] && recent == [] && duration == None
    }

    constructor ()
      ensures Valid() && Cleared() && state == Absent && selectedVideoTrack == None
    {
      state, selectedVideoTrack, seekPoints := Absent, None, [];
      minimumPts, maximumPts, previousPts, inferredFrameDuration := None, None, None, 0;
      duration, durationStatus, growing := None, Unknown, false;
      observed, recent := [], [];
    }

    method Begin(growing: bool)
      modifies this
      ensures Valid() && Cleared() && state == Building && selectedVideoTrack == None && this.growing == growing
    {
      state, selectedVideoTrack := Building, None;
      Clear();
      this.growing := growing;
    }

    method Clear()
      modifies `seekPoints, `minimumPts, `maximumPts, `previousPts, `inferredFrameDuration, `duration, `durationStatus,
               `observed, `recent
      ensures Valid() && Cleared()
    {
      seekPoints, minimumPts, maximumPts, previousPts, inferredFrameDuration := [], None, None, None, 0;
      duration, durationStatus := None, Unknown;
      observed, recent := [], [];
    }

    /** Selecting another track starts the index over; selecting the same one changes nothing. */
    method SelectVideoTrack(track: Option<nat>)
      requires Valid()
      modifies this
      ensures Valid() && selectedVideoTrack == track && state == old(state)
      ensures if old(selectedVideoTrack) == track then unchanged(this) else Cleared()
    {
      if selectedVideoTrack == track { return; }
      selectedVideoTrack := track;
      Clear();
    }

    /** Switching keeps the points and the duration, and only the frame duration is inferred anew. */
    method SwitchVideoTrack(track: nat)
      requires Valid()
      modifies this
      ensures Valid() && selectedVideoTrack == Some(track) && state == old(state)
      ensures seekPoints == old(seekPoints) && duration == old(duration) && observed == old(observed)
      ensures old(selectedVideoTrack) != Some(track) ==> recent == []
    {
      if selectedVideoTrack == Some(track) { return; }
      selectedVideoTrack, previousPts, inferredFrameDuration := Some(track), None, 0;
      recent := [];
    }

    method UpdateDurationStatus()
      modifies `duration, `durationStatus
      ensures durationStatus == StatusOf(state, duration)
      ensures state != Complete || maximumPts.None? ==> duration == old(duration)
      ensures state == Complete && maximumPts.Some? ==>
                var end := Max(0, maximumPts.value);
                var last := if end <= INT64_MAX - inferredFrameDuration then end + inferredFrameDuration else end;
                duration == Some(if old(duration).None? then last else Max(old(duration).value, last))
    {
      if state == Complete && maximumPts.Some? {
        var finalCandidate := Max(0, maximumPts.value);
        if inferredFrameDuration > 0 && finalCandidate <= INT64_MAX - inferredFrameDuration {
          finalCandidate := finalCandidate + inferredFrameDuration;
        }
        if finalCandidate >= 0 && (duration.None? || finalCandidate > duration.value) {
          duration := Some(finalCandidate);
        }
      }
      if duration.None? {
        durationStatus := Unknown;
      } else if state == Complete {
        durationStatus := Final;
      } else {
        durationStatus := Provisional;
      }
    }

    /** A unit of the selected track extends what is observed, and if it offers random access its seek point is
        added. */
    method Observe(unit: Unit) returns (ok: bool)
      requires Valid()
      modifies this
      ensures Valid() && DurationKept() && state == old(state)
      ensures (var us := Microseconds(unit.pts);
               var selected := if old(selectedVideoTrack).Some? then old(selectedVideoTrack) else Some(unit.track);
               if old(state) != Building || !unit.isHevc then !ok && unchanged(this)
               else
                 && selectedVideoTrack == selected
                 && if selected != Some(unit.track) || us.None? then
                      !ok && seekPoints == old(seekPoints) && observed == old(observed) && duration == old(duration)
                    else
                      && observed == old(observed) + [us.value] && recent == old(recent) + [us.value]
                      && duration == Some(Max(Max(0, Greatest(observed).value),
                                              if old(duration).None? then 0 else old(duration).value))
                      && if !unit.randomAccess then ok && seekPoints == old(seekPoints)
                         else if unit.track == 0 || unit.restart > unit.inputOffset
                         then !ok && seekPoints == old(seekPoints)
                         else
                           var r := Insert(old(seekPoints), PointOf(unit, us.value));
                           ok == r.accepted && seekPoints == r.points)
    {
      hide Least;
      hide SmallestGap;
      hide Ordered;
      hide WellFormed;
      hide Insert;
      if state != Building || !unit.isHevc { return false; }
      if selectedVideoTrack.None? { selectedVideoTrack := Some(unit.track); }
      if selectedVideoTrack.value != unit.track { return false; }
      var us := Microseconds(unit.pts);
      if us.None? { return false; }
      Record(us.value);
      if !unit.randomAccess { return true; }
      MicrosecondsExact(unit.pts);
      AlreadyMicroseconds(us.value);
      ok := AddSeekPoint(PointOf(unit, us.value));
    }

    static function PointOf(unit: Unit, us: int): SeekPoint {
      SeekPoint(Timestamp(if Fits(us) then us else 0, MICROSECONDS), unit.restart, unit.inputOffset, unit.track, 0)
    }

    method Record(ptsUs: int)
      requires Valid()
      modifies `previousPts, `inferredFrameDuration, `minimumPts, `maximumPts, `duration, `durationStatus, `observed,
          `recent
      requires state == Building
      ensures Valid() && observed == old(observed) + [ptsUs] && recent == old(recent) + [ptsUs]
      ensures duration
          == Some(Max(Max(0, Greatest(observed).value), if old(duration).None? then 0 else old(duration).value))
    {
      hide Least;
      hide Greatest;
      hide SmallestGap;
      hide Ordered;
      hide Distance;
      hide WellFormed;
      hide Shorter;
      Remember(ptsUs);
      var candidate := Max(0, maximumPts.value);
      if duration.None? || candidate > duration.value { duration := Some(candidate); }
      UpdateDurationStatus();
    }

    method Remember(ptsUs: int)
      requires minimumPts == Least(observed) && maximumPts == Greatest(observed)
      requires previousPts == (if recent == [] then None else Some(recent[|recent| - 1]))
      requires inferredFrameDuration == SmallestGap(recent)
      modifies `previousPts, `inferredFrameDuration, `minimumPts, `maximumPts, `observed, `recent
      ensures observed == old(observed) + [ptsUs] && recent == old(recent) + [ptsUs]
      ensures minimumPts == Least(observed) && maximumPts == Greatest(observed) && maximumPts.Some?
      ensures maximumPts.value >= ptsUs
          && (old(maximumPts).Some? ==> maximumPts.value == Max(old(maximumPts).value, ptsUs))
      ensures old(maximumPts).None? ==> maximumPts.value == ptsUs
      ensures previousPts == Some(recent[|recent| - 1]) && inferredFrameDuration == SmallestGap(recent)
    {
      StatisticsSnoc(recent, ptsUs);
      StatisticsSnoc(observed, ptsUs);
      NoneWhenEmpty(recent);
      hide Least;
      hide Greatest;
      hide SmallestGap;
      hide Distance;
      hide Shorter;
      inferredFrameDuration := FrameGap(previousPts, inferredFrameDuration, ptsUs);
      previousPts := Some(ptsUs);
      minimumPts, maximumPts := Widen(minimumPts, maximumPts, ptsUs);
      observed, recent := observed + [ptsUs], recent + [ptsUs];
      assert recent[|recent| - 1] == ptsUs;
    }

    static method FrameGap(previous: Option<int>, gap: nat, ptsUs: int) returns (shortest: nat)
      ensures shortest == if previous.None? then gap else Shorter(gap, ptsUs, previous.value)
    {
      shortest := gap;
      if previous.Some? {
        var distance := Distance(ptsUs, previous.value);
        if distance.Some? && (gap == 0 || distance.value < gap) { shortest := distance.value; }
      }
    }

    static method Widen(minimum: Option<int>, maximum: Option<int>, ptsUs: int)
        returns (lo: Option<int>, hi: Option<int>)
      ensures lo == match minimum case None => Some(ptsUs) case Some(m) => Some(Min(m, ptsUs))
      ensures hi == match maximum case None => Some(ptsUs) case Some(m) => Some(Max(m, ptsUs))
    {
      lo, hi := minimum, maximum;
      if lo.None? || ptsUs < lo.value { lo := Some(ptsUs); }
      if hi.None? || ptsUs > hi.value { hi := Some(ptsUs); }
    }

    /** A point is taken when building, for the selected track, with its checkpoint not after it, and when the list
        stays ordered by both keys. */
    method AddSeekPoint(point: SeekPoint) returns (ok: bool)
      requires Valid()
      modifies `selectedVideoTrack, `seekPoints
      ensures Valid()
      ensures (var us := Microseconds(point.presentation);
               if state != Building || point.track == 0 || point.signalling > point.randomAccess || us.None? then
                 !ok && unchanged(this)
               else if old(selectedVideoTrack).Some? && old(selectedVideoTrack) != Some(point.track)
               then !ok && unchanged(this)
               else
                 && selectedVideoTrack == Some(point.track)
                 && Fits(us.value)
                 && var r := Insert(old(seekPoints), point.(presentation := Timestamp(us.value, MICROSECONDS)));
                    ok == r.accepted && seekPoints == r.points)
    {
      var us := Microseconds(point.presentation);
      if state != Building || point.track == 0 || point.signalling > point.randomAccess || us.None? { return false; }
      if selectedVideoTrack.None? {
        selectedVideoTrack := Some(point.track);
      } else if selectedVideoTrack.value != point.track {
        return false;
      }
      MicrosecondsExact(point.presentation);
      ok := Place(point.(presentation := Timestamp(us.value, MICROSECONDS)));
    }

    method Place(p: SeekPoint) returns (ok: bool)
      requires Valid() && p.presentation.timescale == MICROSECONDS && p.signalling <= p.randomAccess
      modifies `seekPoints
      ensures Valid()
      ensures (var r := Insert(old(seekPoints), p); ok == r.accepted && seekPoints == r.points)
    {
      hide Least;
      hide Greatest;
      hide SmallestGap;
      hide Ordered;
      hide WellFormed;
      hide StatusOf;
      hide Insert;
      InsertKeepsForm(seekPoints, p);
      ok, seekPoints := Inserted(seekPoints, p);
    }

    static method Inserted(s: seq<SeekPoint>, p: SeekPoint) returns (ok: bool, points: seq<SeekPoint>)
      requires Ordered(s)
      ensures (var r := Insert(s, p); ok == r.accepted && points == r.points)
    {
      hide Ordered;
      hide Less;
      var found := LowerBound(s, p, 0, |s|);
      if found != |s| && SamePlace(s[found], p) { return true, s; }
      if found != 0 && s[found - 1].randomAccess > p.randomAccess { return false, s; }
      if found != |s| && p.randomAccess > s[found].randomAccess { return false, s; }
      return true, s[..found] + [p] + s[found..];
    }

    /** A duration from outside is taken when it agrees with the state and does not shrink or replace a final one. */
    method UpdateDuration(value: Timestamp, status: DurationStatus) returns (ok: bool)
      requires Valid()
      modifies `duration, `durationStatus
      ensures Valid() && DurationKept()
      ensures (var us := Microseconds(value);
               ok == (&& status != Unknown && us.Some? && us.value >= 0
                      && (status == Final) == (state == Complete)
                      && (old(durationStatus) == Final ==> old(duration) == us)
                      && (old(duration).Some? ==> us.value >= old(duration).value)))
      ensures if ok then duration == Microseconds(value) && durationStatus == status else unchanged(this)
    {
      var us := Microseconds(value);
      if status == Unknown || us.None? || us.value < 0 { return false; }
      if (status == Final) != (state == Complete) { return false; }
      if durationStatus == Final && (duration.None? || us.value != duration.value) { return false; }
      if duration.Some? && us.value < duration.value { return false; }
      duration, durationStatus := us, status;
      return true;
    }

    method Pause() returns (ok: bool)
      requires Valid()
      modifies `state, `duration, `durationStatus
      ensures Valid() && ok == (old(state) == Building) && duration == old(duration)
      ensures state == if ok then Partial else old(state)
    {
      if state != Building { return false; }
      state := Partial;
      UpdateDurationStatus();
      return true;
    }

    method Resume() returns (ok: bool)
      requires Valid()
      modifies `state
      ensures Valid() && ok == (old(state) in {Partial, Following, Stale, IndexState.Failed})
      ensures state == if ok then Building else old(state)
    {
      if state != Partial && state != Following && state != Stale && state != IndexState.Failed { return false; }
      state := Building;
      return true;
    }

    /** The end of what can be read: a recording that no longer grows is complete, and its last frame counts in full. */
    method ReachReadableEnd(growing: bool) returns (ok: bool)
      requires Valid()
      modifies `state, `growing, `duration, `durationStatus
      ensures Valid() && DurationKept() && ok == (old(state) == Building)
      ensures ok ==> this.growing == growing && state == if growing then Following else Complete
      ensures !ok ==> unchanged(this)
      ensures ok && !growing && maximumPts.Some? ==> LastFrameCounted()
      ensures ok && growing ==> duration == old(duration)
    {
      if state != Building { return false; }
      this.growing := growing;
      state := if growing then Following else Complete;
      UpdateDurationStatus();
      return true;
    }

    method Finalize() returns (ok: bool)
      requires Valid()
      modifies `state, `growing, `duration, `durationStatus
      ensures Valid() && DurationKept() && ok == (old(state) in {Building, Partial, Following})
      ensures ok ==> state == Complete && !growing && (maximumPts.Some? ==> LastFrameCounted())
      ensures !ok ==> unchanged(this)
    {
      if state != Building && state != Partial && state != Following { return false; }
      state, growing := Complete, false;
      UpdateDurationStatus();
      return true;
    }

    /** The duration reaches past the last picture by the inferred frame duration, where that fits. */
    ghost predicate LastFrameCounted()
      reads this
      requires maximumPts.Some?
    {
      var end := Max(0, maximumPts.value);
      duration.Some?
      && duration.value >= if end <= INT64_MAX - inferredFrameDuration then end + inferredFrameDuration else end
    }

    method MarkStale()
      modifies this
      ensures Valid() && Cleared() && state == Stale && selectedVideoTrack == old(selectedVideoTrack)
    {
      state := Stale;
      Clear();
    }

    method Fail()
      requires Valid()
      modifies `state, `duration, `durationStatus
      ensures Valid() && state == IndexState.Failed && duration == old(duration)
    {
      state := IndexState.Failed;
      UpdateDurationStatus();
    }

    method EstimateOffset(target: Timestamp, sourceSize: nat) returns (offset: Option<nat>)
      requires Valid()
      ensures offset == match Microseconds(target)
                        case None => None
                        case Some(t) => Estimate(seekPoints, duration, t, sourceSize)
    {
      var us := Microseconds(target);
      if sourceSize == 0 || us.None? { return None; }
      var t := us.value;
      if t <= 0 { return Some(0); }
      var upper := UpperBound(seekPoints, t, 0, |seekPoints|);
      if upper != 0 && upper != |seekPoints| {
        var lower, next := seekPoints[upper - 1], seekPoints[upper];
        return Some(Interpolate(lower.randomAccess, next.randomAccess, Time(lower), Time(next), t));
      }
      if upper != |seekPoints| {
        return Some(Interpolate(0, seekPoints[upper].randomAccess, 0, Time(seekPoints[upper]), t));
      }
      if seekPoints != [] && duration.Some? && t <= duration.value {
        var lower := seekPoints[|seekPoints| - 1];
        return Some(Interpolate(lower.randomAccess, sourceSize, Time(lower), duration.value, t));
      }
      if seekPoints == [] && duration.Some? && duration.value > 0 {
        return Some(Interpolate(0, sourceSize, 0, duration.value, Min(t, duration.value)));
      }
      return None;
    }
  }

  // ----- the index and the media parser together

  /** Any unit that a track hands on passes the checkpoint guard of the index: its seek point is refused only for the
      order of the list. */
  lemma ParserUnitsPassGuard(limit: nat, inputOffset: nat, ops: seq<TrackModel.Op>, u: TrackModel.AccessUnit,
                             s: seq<SeekPoint>,
                             track: nat, us: int64)
    requires TrackModel.Forward(ops, inputOffset)
    requires u in TrackModel.Run(limit, TrackModel.NewTrack(inputOffset), ops).units
    requires Ordered(s)
    ensures (var p := SeekPoint(Timestamp(us, MICROSECONDS), u.stamp.restart, u.inputOffset, track, 0);
             p.signalling <= p.randomAccess && (Insert(s, p).accepted <==> forall q :: q in s ==> !Conflict(p, q)))
  {
    TrackModel.RunSound(limit, inputOffset, ops);
    assert TrackModel.Good(limit, u);
    InsertExact(s, SeekPoint(Timestamp(us, MICROSECONDS), u.stamp.restart, u.inputOffset, track, 0));
  }
}
