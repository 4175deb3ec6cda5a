/** The duration probe itself: its protocol fields changed in place, the timestamps it collects for a candidate track,
    and the union of the ranges of its tracks. */
module DurationProbing {
  import opened Bytes
  import opened Timeline
  import opened Statistics
  import P = ProbeProtocol

  class DurationProbe {
    var state: P.State
    var failure: P.Failure
    var phase: P.Phase
    var options: P.Options
    var sourceSize: nat
    var generation: nat
    var nextRequestId: nat
    var request: Option<P.Request>
    var requestReceived: nat
    var transferredBytes: nat
    var headEnd: int
    var tailWindow: int
    var report: Option<P.Report>

    ghost function View(): P.Probe
      reads this
    {
      P.Probe(state, failure, phase, options, sourceSize, generation, nextRequestId, request, requestReceived,
              transferredBytes, headEnd, tailWindow, report)
    }

    constructor ()
      ensures View() == P.NEW_PROBE
    {
      state, failure, phase := P.Idle, P.NoFailure, P.Head;
      options, sourceSize, generation, nextRequestId := P.Options(4 * 1024 * 1024, 64 * 1024 * 1024), 0, 0, 0;
      request, requestReceived, transferredBytes, headEnd, tailWindow, report := None, 0, 0, 0, 0, None;
    }

    method IssueRequest(offset: int, length: int)
      modifies `nextRequestId, `request, `requestReceived, `state
      ensures View() == P.Issue(old(View()), offset, length)
    {
      nextRequestId := (nextRequestId + 1) % UINT64;
      if nextRequestId == 0 { nextRequestId := nextRequestId + 1; }
      request := Some(P.Request(generation, nextRequestId, offset, length));
      requestReceived := 0;
      state := P.NeedRange;
    }

    method Stop(newState: P.State, newFailure: P.Failure)
      modifies `request, `report, `state, `failure
      ensures View() == P.Stop(old(View()), newState, newFailure)
    {
      request, report, state, failure := None, None, newState, newFailure;
    }

    method Begin(size: nat, newOptions: P.Options) returns (ok: bool)
      modifies this
      ensures (View(), ok) == P.Begin(old(View()), size, newOptions)
    {
      StartOver(size, newOptions);
      if sourceSize == 0 || options.initial == 0 || options.max < options.initial {
        Stop(P.Unknown, P.InvalidSource);
        return false;
      }
      phase := P.Head;
      IssueRequest(0, Min(sourceSize, options.initial));
      return true;
    }

    method StartOver(size: nat, newOptions: P.Options)
      modifies this
      ensures View() == P.StartOver(old(View()), size, newOptions)
    {
      generation := (generation + 1) % UINT64;
      if generation == 0 { generation := generation + 1; }
      state, failure, report := P.Idle, P.NoFailure, None;
      sourceSize, options := size, newOptions;
      ClearProgress();
    }

    method ClearProgress()
      modifies `transferredBytes, `request, `requestReceived, `headEnd, `tailWindow
      ensures transferredBytes == 0 && request == None && requestReceived == 0 && headEnd == 0 && tailWindow == 0
    {
      transferredBytes, request, requestReceived, headEnd, tailWindow := 0, None, 0, 0, 0;
    }

    method NextRange() returns (r: Option<P.Request>)
      requires P.Inv(View())
      ensures r == request && (r.Some? <==> state == P.NeedRange)
    {
      if state != P.NeedRange { return None; }
      return request;
    }

    /** `env` is what the demuxer does with these bytes. */
    method PushRange(a: P.Answer, env: P.Env) returns (ok: bool)
      requires P.Inv(View())
      modifies this
      ensures P.Inv(View())
      ensures (View(), ok) == P.PushRange(old(View()), a, env)
    {
      P.PushRangeInv(View(), a, env);
      hide P.Inv;
      hide P.TakeIn;
      if state != P.NeedRange || request.None? || request.value.id != a.id { return false; }
      ok := TakeIn(a, env);
    }

    method TakeIn(a: P.Answer, env: P.Env) returns (ok: bool)
      requires request.Some?
      modifies this
      ensures (View(), ok) == P.TakeIn(old(View()), a, env)
    {
      hide P.FinishRequest;
      hide P.Stop;
      var r := request.value;
      var expectedOffset, remaining := r.offset + requestReceived, r.length - requestReceived;
      if a.offset != expectedOffset || a.size > remaining || (a.isNull && a.size != 0) {
        Stop(P.Failed, P.InvalidResponse);
        return false;
      }
      if a.size != 0 && env.fatalPush {
        Stop(P.Failed, P.ParseError);
        return false;
      }
      requestReceived := requestReceived + a.size;
      transferredBytes := transferredBytes + a.size;
      if !a.endOfRange { return true; }
      if requestReceived != r.length {
        Stop(P.Failed, P.InvalidResponse);
        return false;
      }
      FinishRequest(env);
      return true;
    }

    method FinishRequest(env: P.Env)
      requires request.Some?
      modifies this
      ensures View() == P.FinishRequest(old(View()), env)
    {
      var completed := request.value;
      request := None;
      if phase == P.Head {
        headEnd := completed.offset + completed.length;
        FinishHeadRange(env);
        return;
      }
      if env.fatalFlush {
        Stop(P.Failed, P.ParseError);
        return;
      }
      if phase == P.SequentialTail {
        CompleteFromCandidates(false, env);
      } else if env.complete {
        CompleteFromCandidates(true, env);
      } else {
        WidenTail(env);
      }
    }

    method FinishHeadRange(env: P.Env)
      modifies this
      ensures View() == P.FinishHead(old(View()), env)
    {
      if env.headVideo {
        if headEnd == sourceSize {
          if env.fatalFlush {
            Stop(P.Failed, P.ParseError);
            return;
          }
          CompleteFromCandidates(false, env);
          return;
        }
        var remaining := sourceSize - headEnd;
        if remaining <= options.initial {
          phase := P.SequentialTail;
          IssueRequest(headEnd, remaining);
          return;
        }
        tailWindow := Min(options.initial, sourceSize);
        IssueTailRequest();
        return;
      }
      var doubled := if headEnd > options.max / 2 then options.max else headEnd * 2;
      var target := Min(sourceSize, Min(options.max, doubled));
      if target <= headEnd {
        Stop(P.Unknown, P.NoVideo);
        return;
      }
      IssueRequest(headEnd, target - headEnd);
    }

    method IssueTailRequest()
      modifies this
      ensures View() == P.IssueTail(old(View()))
    {
      var offset := sourceSize - Min(sourceSize, tailWindow);
      phase := P.Tail;
      IssueRequest(offset, sourceSize - offset);
    }

    method WidenTail(env: P.Env)
      modifies this
      ensures View() == P.WidenTail(old(View()), env)
    {
      if tailWindow >= options.max || tailWindow >= sourceSize {
        Stop(P.Unknown, if !env.tailVideo then P.NoTailTimestamp else P.RangeLimit);
        return;
      }
      tailWindow := if tailWindow > options.max / 2 then options.max else Min(options.max, tailWindow * 2);
      IssueTailRequest();
    }

    method CompleteFromCandidates(tail: bool, env: P.Env)
      modifies `request, `report, `state, `failure
      ensures View() == P.CompleteFrom(old(View()), tail, env)
    {
      if !env.complete {
        Stop(P.Unknown, if tail then P.NoTailTimestamp else P.NoVideo);
        return;
      }
      if env.union.None? {
        Stop(P.Unknown, P.NoTailTimestamp);
        return;
      }
      var start, end := env.union.value.0, env.union.value.1;
      report := Some(P.Report(start, end, end - start));
      state, failure := P.Complete, P.NoFailure;
    }

    method FailRange(id: nat) returns (ok: bool)
      requires P.Inv(View())
      modifies this
      ensures P.Inv(View())
      ensures (View(), ok) == P.FailRange(old(View()), id)
    {
      if state != P.NeedRange || request.None? || request.value.id != id { return false; }
      Stop(P.Failed, P.SourceError);
      return true;
    }

    method Cancel()
      requires P.Inv(View())
      modifies this
      ensures P.Inv(View())
      ensures View() == P.Cancel(old(View()))
    {
      if state == P.Complete || state == P.Unknown || state == P.Failed { return; }
      generation := (generation + 1) % UINT64;
      if generation == 0 { generation := generation + 1; }
      request, state, failure := None, P.Cancelled, P.NoFailure;
    }
  }

  /** The times of one candidate track in one phase; `times` are all of them. */
  class PhaseTimes {
    var count: nat
    var previous: Option<int>
    var maximum: Option<int>
    var frameDuration: nat
    ghost var times: seq<int>

    ghost predicate Valid()
      reads this
    {
      && count == |times|
      && previous == (if times == [] then None else Some(times[|times| - 1]))
      && maximum == Greatest(times)
      && frameDuration == SmallestGap(times)
    }

    constructor ()
      ensures Valid() && times == []
    {
      count, previous, maximum, frameDuration, times := 0, None, None, 0, [];
    }

    method Reset()
      modifies this
      ensures Valid() && times == []
    {
      count, previous, maximum, frameDuration, times := 0, None, None, 0, [];
    }

    method ObserveTimestamp(ptsUs: int)
      requires Valid()
      modifies this
      ensures Valid() && times == old(times) + [ptsUs]
    {
      StatisticsSnoc(times, ptsUs);
      NoneWhenEmpty(times);
      hide Greatest;
      hide SmallestGap;
      count := count + 1;
      if previous.Some? {
        var distance := Distance(ptsUs, previous.value);
        if distance.Some? && (frameDuration == 0 || distance.value < frameDuration) { frameDuration := distance.value; }
      }
      previous := Some(ptsUs);
      if maximum.None? || ptsUs > maximum.value { maximum := Some(ptsUs); }
      times := times + [ptsUs];
    }

    /** The end of the last picture: the greatest time plus the smallest gap, once two pictures tell a gap and if the
        sum is in range. */
    method EndUs() returns (end: Option<int>)
      requires Valid()
      ensures end == (if |times| < 2 || SmallestGap(times) == 0
                      || Greatest(times).value + SmallestGap(times) > INT64_MAX then None
                      else Some(Greatest(times).value + SmallestGap(times)))
    {
      GreatestIsMaximum(times);
      if count < 2 || maximum.None? || frameDuration <= 0 || maximum.value > INT64_MAX - frameDuration { return None; }
      return Some(maximum.value + frameDuration);
    }
  }

  // ----- the union of presentation ranges

  datatype Boundary = Boundary(start: Option<int>, end: Option<int>)

  function Starts(tracks: seq<Boundary>): seq<int> {
    if tracks == [] then []
    else
      var t := tracks[|tracks| - 1];
      Starts(tracks[..|tracks| - 1]) + if t.start.Some? then [t.start.value] else []
  }

  function Ends(tracks: seq<Boundary>): seq<int> {
    if tracks == [] then []
    else
      var t := tracks[|tracks| - 1];
      Ends(tracks[..|tracks| - 1]) + if t.end.Some? then [t.end.value] else []
  }

  lemma BoundarySnoc(tracks: seq<Boundary>, i: nat)
    requires i < |tracks|
    ensures Starts(tracks[..i + 1])
         == Starts(tracks[..i]) + if tracks[i].start.Some? then [tracks[i].start.value] else []
    ensures Ends(tracks[..i + 1]) == Ends(tracks[..i]) + if tracks[i].end.Some? then [tracks[i].end.value] else []
  {
    assert tracks[..i + 1][..i] == tracks[..i];
  }

  lemma LeastWith(s: seq<int>, x: Option<int>)
    ensures Least(s + if x.Some? then [x.value] else [])
         == if x.Some? && (Least(s).None? || x.value < Least(s).value) then x else Least(s)
  {
    if x.Some? { StatisticsSnoc(s, x.value); } else { assert s + [] == s; }
  }

  lemma GreatestWith(s: seq<int>, x: Option<int>)
    ensures Greatest(s + if x.Some? then [x.value] else [])
         == if x.Some? && (Greatest(s).None? || x.value > Greatest(s).value) then x else Greatest(s)
  {
    if x.Some? { StatisticsSnoc(s, x.value); } else { assert s + [] == s; }
  }

  /** The union runs from the least start to the greatest end of all tracks, if both exist and are in order. */
  method UnionVideoPresentationRanges(tracks: seq<Boundary>) returns (r: Option<(int, int)>)
    ensures r == match (Least(Starts(tracks)), Greatest(Ends(tracks)))
                 case (Some(s), Some(e)) => if e < s then None else Some((s, e))
                 case _ => None
  {
    var start: Option<int>, end: Option<int> := None, None;
    for i := 0 to |tracks|
      invariant start == Least(Starts(tracks[..i])) && end == Greatest(Ends(tracks[..i]))
    {
      hide Least;
      hide Greatest;
      hide Starts;
      hide Ends;
      var track := tracks[i];
      BoundarySnoc(tracks, i);
      LeastWith(Starts(tracks[..i]), track.start);
      GreatestWith(Ends(tracks[..i]), track.end);
      if track.start.Some? && (start.None? || track.start.value < start.value) { start := track.start; }
      if track.end.Some? && (end.None? || track.end.value > end.value) { end := track.end; }
    }
    assert tracks[..|tracks|] == tracks;
    if start.None? || end.None? || end.value < start.value { return None; }
    return Some((start.value, end.value));
  }
}
