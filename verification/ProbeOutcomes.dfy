/** What a duration probe comes to: when it completes and what it then tells, and how it goes on when it does not. */
module ProbeOutcomes {
  import opened Bytes
  import opened ProbeProtocol

  // ----- when an answer completes the probe

  /** The answer is the expected one, in its place, and brings all that is still owed of the range. */
  predicate EndsRange(p: Probe, a: Answer, env: Env) {
    && Expected(p, a.id) && a.endOfRange
    && (var r := p.request.value;
        a.offset == r.offset + p.received && a.size == r.length - p.received)
    && !(a.isNull && a.size != 0) && !(a.size != 0 && env.fatalPush)
  }

  /** The range is the last one that is needed: the head has reached the end of the source with video seen in it, or the
      range is at the end. */
  predicate IsLast(p: Probe, env: Env)
    requires p.request.Some?
  {
    match p.phase
    case Head => env.headVideo && p.request.value.offset + p.request.value.length == p.size
    case SequentialTail => true
    case Tail => true
  }

  /** The last range ends with a candidate that has both ends, in a union, and no fatal error. */
  predicate Completes(p: Probe, a: Answer, env: Env) {
    EndsRange(p, a, env) && IsLast(p, env) && !env.fatalFlush && env.complete && env.union.Some?
  }

  /** An answer makes the probe complete exactly then, and it tells the start and the end of the union and the time
      between them. */
  lemma CompletesExactly(p: Probe, a: Answer, env: Env)
    requires p.state != Complete
    ensures (var q := PushRange(p, a, env).0;
             && (q.state == Complete <==> Completes(p, a, env))
             && (Completes(p, a, env) ==>
                   q.report == Some(Report(env.union.value.0, env.union.value.1,
                                           env.union.value.1 - env.union.value.0))))
  {
    hide IssueTail;
    hide Doubled;
    hide Issue;
    IssueNeeds();
  }

  lemma IssueNeeds()
    ensures forall p, offset, length :: Issue(p, offset, length).state == NeedRange
    ensures forall p :: IssueTail(p).state == NeedRange
  {
  }

  /** Nothing but a new beginning changes what a completed probe tells. */
  lemma CompleteStays(p: Probe, op: Op)
    requires p.state == Complete && !op.DoBegin?
    ensures Step(p, op) == p
  {
  }

  /** No other call completes a probe. */
  lemma OthersDoNotComplete(p: Probe, op: Op)
    requires p.state != Complete && !op.DoPush?
    ensures Step(p, op).state != Complete
  {
    hide Issue;
    IssueNeeds();
  }

  // ----- over whole runs

  function Before(ops: seq<Op>, i: nat): Probe
    requires i <= |ops|
  {
    Run(NEW_PROBE, ops[..i])
  }

  lemma {:induction false} RunSnoc(p: Probe, ops: seq<Op>, op: Op)
    ensures Run(p, ops + [op]) == Step(Run(p, ops), op)
    decreases |ops|
  {
    hide Step;
    if ops == [] {
      assert ops + [op] == [op] && [op][1..] == [];
    } else {
      assert (ops + [op])[1..] == ops[1..] + [op];
      RunSnoc(Step(p, ops[0]), ops[1..], op);
    }
  }

  lemma BeforeNext(ops: seq<Op>, i: nat)
    requires i < |ops|
    ensures Before(ops, i + 1) == Step(Before(ops, i), ops[i])
  {
    hide Step;
    assert ops[..i + 1] == ops[..i] + [ops[i]];
    RunSnoc(NEW_PROBE, ops[..i], ops[i]);
  }

  /** Operation i completed the probe, and it has not begun anew since. */
  predicate CompletedBy(ops: seq<Op>, n: nat, i: nat)
    requires n <= |ops|
  {
    && i < n && ops[i].DoPush? && Before(ops, i).state != Complete
    && Completes(Before(ops, i), ops[i].answer, ops[i].env)
    && forall j :: i < j < n ==> !ops[j].DoBegin?
  }

  function Told(env: Env): Report
    requires env.union.Some?
  {
    Report(env.union.value.0, env.union.value.1, env.union.value.1 - env.union.value.0)
  }

  /** Over every run, the probe is complete exactly when some answer completed it since it last began, and then it tells
      what that answer's demuxer had found. */
  lemma {:induction false} CompleteExactly(ops: seq<Op>, n: nat)
    requires n <= |ops|
    ensures Before(ops, n).state == Complete <==> exists i: nat :: CompletedBy(ops, n, i)
    ensures forall i: nat :: CompletedBy(ops, n, i) ==> Before(ops, n).report == Some(Told(ops[i].env))
    decreases n
  {
    hide Step;
    hide Completes;
    if n == 0 {
      assert ops[..0] == [];
    } else {
      CompleteExactly(ops, n - 1);
      BeforeNext(ops, n - 1);
      var p, op := Before(ops, n - 1), ops[n - 1];
      StepCompletes(p, op);
      LaterCompletedBy(ops, n);
    }
  }

  /** One step: it keeps a completed probe unless it begins anew, and completes one exactly by such an answer. */
  lemma StepCompletes(p: Probe, op: Op)
    ensures p.state == Complete && !op.DoBegin? ==> Step(p, op) == p
    ensures p.state == Complete && op.DoBegin? ==> Step(p, op).state != Complete
    ensures p.state != Complete ==>
              (Step(p, op).state == Complete <==> op.DoPush? && Completes(p, op.answer, op.env))
    ensures p.state != Complete && op.DoPush? && Completes(p, op.answer, op.env) ==>
              op.env.union.Some? && Step(p, op).report == Some(Told(op.env))
  {
    if p.state == Complete && !op.DoBegin? { CompleteStays(p, op); }
    if p.state != Complete && !op.DoPush? { OthersDoNotComplete(p, op); }
    if p.state != Complete && op.DoPush? { CompletesExactly(p, op.answer, op.env); }
    hide PushRange;
    hide FailRange;
    hide Issue;
    IssueNeeds();
  }

  lemma LaterCompletedBy(ops: seq<Op>, n: nat)
    requires 0 < n <= |ops|
    ensures forall i: nat :: CompletedBy(ops, n, i) <==>
              || (i < n - 1 && CompletedBy(ops, n - 1, i) && !ops[n - 1].DoBegin?)
              || (i == n - 1 && ops[i].DoPush? && Before(ops, i).state != Complete
                  && Completes(Before(ops, i), ops[i].answer, ops[i].env))
  {
    hide Before;
    hide Completes;
  }

  // ----- how it goes on otherwise

  /** The probe asks for that many bytes from there, with nothing received yet and the next identifier. */
  predicate Asks(p: Probe, q: Probe, offset: int, length: int) {
    && q.state == NeedRange && q.received == 0
    && q.request == Some(Request(p.generation, if (p.nextId + 1) % UINT64 == 0 then 1 else (p.nextId + 1) % UINT64,
                                 offset, length))
  }

  /** A beginning asks for the first range, or ends at once when there is no source to speak of. */
  lemma BeginAsks(p: Probe, size: nat, options: Options)
    ensures (var (q, ok) := Begin(p, size, options);
             && q.report == None && q.transferred == 0 && q.size == size && q.options == options
             && if size > 0 && 0 < options.initial <= options.max then
                  ok && q.phase == Head && q.headEnd == 0 && q.failure == NoFailure
                  && Asks(p.(generation := q.generation), q, 0, Min(size, options.initial))
                else !ok && q.state == Unknown && q.failure == InvalidSource && q.request == None)
  {
  }

  /** Answers are taken in order: one that is expected is accepted exactly when it goes on where the last one ended,
      brings no more than is owed, says that it is the last exactly when it may, and does not upset the demuxer; and
      otherwise the probe fails. One that is not expected changes nothing. */
  lemma TakenExactly(p: Probe, a: Answer, env: Env)
    ensures (var (q, ok) := PushRange(p, a, env);
             if p.state != NeedRange || p.request.None? || p.request.value.id != a.id then q == p && !ok
             else
               var r, n := p.request.value, p.received + a.size;
               && (ok <==> a.offset == r.offset + p.received && n <= r.length && !(a.isNull && a.size > 0)
                           && !(a.size > 0 && env.fatalPush) && (a.endOfRange ==> n == r.length))
               && (!ok ==> q.state == Failed && q.request == None && q.report == None
                           && q.failure in {InvalidResponse, ParseError})
               && (!ok && q.failure == ParseError ==> a.size > 0 && env.fatalPush)
               && (ok && !a.endOfRange ==> q == p.(received := n, transferred := p.transferred + a.size)))
  {
    hide FinishRequest;
  }

  /** A tail that lacks a candidate is doubled, up to the largest range, and asked for again at the end of the
      source; once it is the largest range or the whole source the probe ends without an answer. */
  lemma TailWidens(p: Probe, a: Answer, env: Env)
    requires p.phase == Tail && EndsRange(p, a, env) && !env.fatalFlush && !env.complete && p.tailWindow >= 0
    ensures (var q := PushRange(p, a, env).0;
             if p.tailWindow < p.options.max && p.tailWindow < p.size then
               && q.phase == Tail && q.tailWindow == Min(2 * p.tailWindow, p.options.max)
               && Asks(p, q, p.size - Min(p.size, q.tailWindow), Min(p.size, q.tailWindow))
             else
               && q.state == Unknown && q.request == None
               && q.failure == if env.tailVideo then RangeLimit else NoTailTimestamp)
  {
  }

  /** At the end of a head range: with video in it, what is left is asked for in sequence when it is short, and
      otherwise the end of the source; without, the head is doubled up to the largest range, or the probe ends. */
  lemma HeadGoesOn(p: Probe, a: Answer, env: Env)
    requires p.phase == Head && EndsRange(p, a, env) && p.size > 0
    requires (var end := p.request.value.offset + p.request.value.length;
              0 <= end && (end < p.size || !env.headVideo))
    ensures (var q, end := PushRange(p, a, env).0, p.request.value.offset + p.request.value.length;
             && q.headEnd == end
             && if env.headVideo && p.size - end <= p.options.initial then
                  q.phase == SequentialTail && Asks(p, q, end, p.size - end)
                else if env.headVideo then
                  && q.phase == Tail && q.tailWindow == Min(p.options.initial, p.size)
                  && Asks(p, q, p.size - q.tailWindow, q.tailWindow)
                else
                  var target := Min(p.size, Min(p.options.max, 2 * end));
                  if target <= end then q.state == Unknown && q.failure == NoVideo && q.request == None
                  else q.phase == Head && Asks(p, q, end, target - end))
  {
  }

  // ----- a served exchange

  /** What the demuxer finds whenever a range ends: video, a candidate with both ends, no fatal error. */
  predicate Finds(env: Env, union: (int, int)) {
    env.headVideo && env.complete && env.union == Some(union) && !env.fatalPush && !env.fatalFlush
  }

  /** Served faithfully, with a demuxer that finds what it needs, every exchange completes and tells it. */
  lemma {:induction false} DriveCompletes(p: Probe, envs: nat -> Env, n: nat, union: (int, int))
    requires Inv(p) && p.state == NeedRange && forall m :: Finds(envs(m), union)
    ensures (var q := Drive(p, envs, n);
             q.state == Complete && q.report == Some(Report(union.0, union.1, union.1 - union.0)))
    decreases PhaseRank(p), Room(p)
  {
    hide PushRange;
    hide Inv;
    var a, env := FullAnswer(p), envs(n);
    NeedsRoom(p);
    AnswerEnds(p, env, union);
    PushRangeInv(p, a, env);
    FullAnswerGoesOn(p, env);
    CompletesExactly(p, a, env);
    var q := PushRange(p, a, env).0;
    assert Finds(env, union);
    if !Completes(p, a, env) {
      HeadContinues(p, env, union);
      NeedsRoom(q);
      DriveCompletes(q, envs, n + 1, union);
    } else {
      DriveStops(q, envs, n + 1);
    }
  }

  lemma DriveStops(p: Probe, envs: nat -> Env, n: nat)
    requires Inv(p) && p.state != NeedRange
    ensures Drive(p, envs, n) == p
  {
  }

  lemma AnswerEnds(p: Probe, env: Env, union: (int, int))
    requires Inv(p) && p.state == NeedRange && Finds(env, union)
    ensures EndsRange(p, FullAnswer(p), env)
    ensures !Completes(p, FullAnswer(p), env) ==> p.phase == Head
  {
  }

  lemma HeadContinues(p: Probe, env: Env, union: (int, int))
    requires Inv(p) && p.state == NeedRange && Finds(env, union) && !Completes(p, FullAnswer(p), env)
    ensures PushRange(p, FullAnswer(p), env).0.state == NeedRange
  {
    AnswerEnds(p, env, union);
    HeadInside(p);
    HeadGoesOn(p, FullAnswer(p), env);
    hide PushRange;
  }

  lemma HeadInside(p: Probe)
    requires Inv(p) && p.state == NeedRange
    ensures p.size > 0 && 0 <= p.request.value.offset + p.request.value.length <= p.size
  {
  }
}
