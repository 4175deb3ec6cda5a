/** The range protocol of the duration probe: which byte ranges it asks for, when it stops and how much it can cost.
    The demuxer inside is an arbitrary environment. */
module ProbeProtocol {
  import opened Bytes

  datatype State = Idle | NeedRange | Complete | Unknown | Failed | Cancelled

  datatype Failure = NoFailure | InvalidSource | InvalidResponse | SourceError | NoVideo | NoTailTimestamp
      | RangeLimit | ParseError

  datatype Phase = Head | SequentialTail | Tail

  datatype Request = Request(generation: nat, id: nat, offset: int, length: int)

  datatype Options = Options(initial: nat, max: nat)

  /** What a completed probe tells: where the presentation starts and ends, and how long it is, in microseconds. */
  datatype Report = Report(start: int, end: int, duration: int)

  datatype Probe = Probe(
    state: State, failure: Failure, phase: Phase, options: Options, size: nat, generation: nat, nextId: nat,
    request: Option<Request>, received: nat, transferred: nat, headEnd: int, tailWindow: int,
    report: Option<Report>)

  /** What the demuxer did while it was fed and, when the range ended, flushed: a fatal error in either, whether
      video was seen in the head or in the tail, whether a candidate has both ends, and the presentation range of
      them all. */
  datatype Env = Env(fatalPush: bool, fatalFlush: bool, headVideo: bool, tailVideo: bool, complete: bool,
                     union: Option<(int, int)>)

  /** 64-bit counters wrap around past zero. */
  function Successor(n: nat): nat { if (n + 1) % UINT64 == 0 then 1 else (n + 1) % UINT64 }

  function Issue(p: Probe, offset: int, length: int): Probe {
    var id := Successor(p.nextId);
    p.(nextId := id, request := Some(Request(p.generation, id, offset, length)), received := 0, state := NeedRange)
  }

  function Stop(p: Probe, state: State, failure: Failure): Probe {
    p.(request := None, report := None, state := state, failure := failure)
  }

  function StartOver(p: Probe, size: nat, options: Options): Probe {
    p.(generation := Successor(p.generation), state := Idle, failure := NoFailure, report := None, size := size,
       options := options, transferred := 0, request := None, received := 0, headEnd := 0, tailWindow := 0)
  }

  function Begin(p: Probe, size: nat, options: Options): (Probe, bool) {
    var q := StartOver(p, size, options);
    if size == 0 || options.initial == 0 || options.max < options.initial then (Stop(q, Unknown, InvalidSource), false)
    else (Issue(q.(phase := Head), 0, Min(size, options.initial)), true)
  }

  function CompleteFrom(p: Probe, tail: bool, env: Env): Probe {
    if !env.complete then Stop(p, Unknown, if tail then NoTailTimestamp else NoVideo)
    else match env.union
      case None => Stop(p, Unknown, NoTailTimestamp)
      case Some(r) => p.(state := Complete, failure := NoFailure, report := Some(Report(r.0, r.1, r.1 - r.0)))
  }

  /** The end of a flush: a fatal error in it stops the probe. */
  function Flushed(p: Probe, env: Env, next: Probe): Probe {
    if env.fatalFlush then Stop(p, Failed, ParseError) else next
  }

  function IssueTail(p: Probe): Probe {
    var offset := p.size - Min(p.size, p.tailWindow);
    Issue(p.(phase := Tail), offset, p.size - offset)
  }

  /** Twice the window, but never beyond the largest range and without computing more than that. */
  function Doubled(window: int, max: nat): int { if window > max / 2 then max else window * 2 }

  function WidenTail(p: Probe, env: Env): Probe {
    if p.tailWindow >= p.options.max || p.tailWindow >= p.size then
      Stop(p, Unknown, if !env.tailVideo then NoTailTimestamp else RangeLimit)
    else
      IssueTail(p.(tailWindow := Min(p.options.max, Doubled(p.tailWindow, p.options.max))))
  }

  function FinishHead(p: Probe, env: Env): Probe {
    if env.headVideo then
      if p.headEnd == p.size then Flushed(p, env, CompleteFrom(p, false, env))
      else
        var remaining := p.size - p.headEnd;
        if remaining <= p.options.initial then Issue(p.(phase := SequentialTail), p.headEnd, remaining)
        else IssueTail(p.(tailWindow := Min(p.options.initial, p.size)))
    else
      var target := Min(p.size, Min(p.options.max, Doubled(p.headEnd, p.options.max)));
      if target <= p.headEnd then Stop(p, Unknown, NoVideo) else Issue(p, p.headEnd, target - p.headEnd)
  }

  function FinishRequest(p: Probe, env: Env): Probe
    requires p.request.Some?
  {
    var done := p.request.value;
    var q := p.(request := None);
    match p.phase
    case Head => FinishHead(q.(headEnd := done.offset + done.length), env)
    case SequentialTail => Flushed(q, env, CompleteFrom(q, false, env))
    case Tail => Flushed(q, env, if env.complete then CompleteFrom(q, true, env) else WidenTail(q, env))
  }

  /** An answer: some bytes of the range, possibly its last. */
  datatype Answer = Answer(id: nat, offset: nat, size: nat, isNull: bool, endOfRange: bool)

  predicate Expected(p: Probe, id: nat) { p.state == NeedRange && p.request.Some? && p.request.value.id == id }

  function PushRange(p: Probe, a: Answer, env: Env): (Probe, bool) {
    if !Expected(p, a.id) then (p, false) else TakeIn(p, a, env)
  }

  predicate Misplaced(p: Probe, a: Answer)
    requires p.request.Some?
  {
    var r := p.request.value;
    a.offset != r.offset + p.received || a.size > r.length - p.received || (a.isNull && a.size != 0)
  }

  function TakeIn(p: Probe, a: Answer, env: Env): (Probe, bool)
    requires p.request.Some?
  {
    if Misplaced(p, a) then (Stop(p, Failed, InvalidResponse), false)
    else if a.size != 0 && env.fatalPush then (Stop(p, Failed, ParseError), false)
    else
      var q := Received(p, a.size);
      if !a.endOfRange then (q, true)
      else if q.received != p.request.value.length then (Stop(q, Failed, InvalidResponse), false)
      else (FinishRequest(q, env), true)
  }

  function Received(p: Probe, n: nat): Probe { p.(received := p.received + n, transferred := p.transferred + n) }

  function FailRange(p: Probe, id: nat): (Probe, bool) {
    if !Expected(p, id) then (p, false) else (Stop(p, Failed, SourceError), true)
  }

  function Cancel(p: Probe): Probe {
    if p.state == Complete || p.state == Unknown || p.state == Failed then p
    else p.(generation := Successor(p.generation), request := None, state := Cancelled, failure := NoFailure)
  }

  // ----- what every state of an exchange satisfies

  /** Bytes taken in by tail ranges already finished. */
  function Earlier(p: Probe): int { p.transferred - p.headEnd - p.received }

  /** Less than four times the largest range has been transferred, or nothing. */
  predicate Cheap(p: Probe) { p.transferred < 4 * p.options.max || p.transferred == 0 }

  predicate SaneOptions(p: Probe) { 0 < p.options.initial <= p.options.max && p.size > 0 }

  /** A request is held exactly while a range is needed; it is not empty and lies inside the source; head ranges tile a
      prefix; and the bytes taken in so far are accounted for by the prefix and the windows before this one. */
  predicate Inv(p: Probe) {
    && (p.request.Some? <==> p.state == NeedRange)
    && Cheap(p)
    && (p.state == NeedRange ==>
          && SaneOptions(p)
          && var r := p.request.value;
          && r.length > 0 && r.offset + r.length <= p.size && p.received <= r.length
          && r.generation == p.generation && r.id == p.nextId
          && 0 <= p.headEnd <= p.options.max
          && match p.phase
             case Head =>
               && r.offset == p.headEnd && p.headEnd + r.length <= p.options.max
               && p.transferred == p.headEnd + p.received
             case SequentialTail =>
               && r.offset == p.headEnd && p.headEnd + r.length == p.size && r.length <= p.options.initial
               && p.transferred == p.headEnd + p.received
             case Tail =>
               && r.offset + r.length == p.size && r.length == Min(p.size, p.tailWindow)
               && 0 < p.tailWindow <= p.options.max
               && 0 <= Earlier(p) < (if p.tailWindow == p.options.max then 2 * p.options.max else p.tailWindow))
  }

  lemma BeginInv(p: Probe, size: nat, options: Options)
    ensures (var (q, ok) := Begin(p, size, options);
             && Inv(q) && (ok <==> q.state == NeedRange)
             && (ok <==> size > 0 && 0 < options.initial <= options.max)
             && q.transferred == 0)
  {
  }

  lemma FinishHeadInv(p: Probe, env: Env)
    requires SaneOptions(p) && 0 < p.headEnd <= Min(p.size, p.options.max)
    requires p.request == None && p.transferred == p.headEnd && p.phase == Head
    ensures Inv(FinishHead(p, env))
  {
  }

  lemma WidenTailInv(p: Probe, env: Env)
    requires SaneOptions(p) && 0 < p.tailWindow <= p.options.max && 0 <= p.headEnd <= p.options.max && p.request == None
    requires Cheap(p)
    requires (var sofar := p.transferred - p.headEnd;
              0 <= sofar && (p.tailWindow < p.options.max ==> sofar < 2 * p.tailWindow))
    ensures Inv(WidenTail(p, env))
  {
  }

  lemma FinishRequestInv(p: Probe, env: Env)
    requires Inv(p) && p.state == NeedRange && p.received == p.request.value.length
    ensures Inv(FinishRequest(p, env))
  {
    hide FinishHead;
    hide WidenTail;
    var done := p.request.value;
    var q := p.(request := None);
    match p.phase
    case Head => FinishHeadInv(q.(headEnd := done.offset + done.length), env);
    case SequentialTail =>
    case Tail => WidenTailInv(q, env);
  }

  /** Every answer, expected or not, keeps the protocol invariant. */
  lemma PushRangeInv(p: Probe, a: Answer, env: Env)
    requires Inv(p)
    ensures Inv(PushRange(p, a, env).0)
  {
    hide FinishRequest;
    if Expected(p, a.id) {
      var r := p.request.value;
      if a.offset == r.offset + p.received && a.size <= r.length - p.received {
        var q := Received(p, a.size);
        assert Inv(q);
        if a.endOfRange && q.received == r.length { FinishRequestInv(q, env); }
      }
    }
  }

  // ----- runs

  datatype Op =
    | DoBegin(size: nat, options: Options)
    | DoPush(answer: Answer, env: Env)
    | DoFail(id: nat)
    | DoCancel

  function Step(p: Probe, op: Op): Probe {
    match op
    case DoBegin(size, options) => Begin(p, size, options).0
    case DoPush(a, env) => PushRange(p, a, env).0
    case DoFail(id) => FailRange(p, id).0
    case DoCancel => Cancel(p)
  }

  function Run(p: Probe, ops: seq<Op>): Probe
    decreases |ops|
  {
    if ops == [] then p else Run(Step(p, ops[0]), ops[1..])
  }

  const NEW_PROBE := Probe(Idle, NoFailure, Head, Options(4 * 1024 * 1024, 64 * 1024 * 1024), 0, 0, 0, None, 0, 0, 0,
                           0, None)

  /** Over every run of calls and of the demuxer inside, the invariant holds; in particular a request is held exactly
      when a range is needed and less than four times the largest range is ever transferred since `begin`. */
  lemma RunInv(ops: seq<Op>)
    ensures Inv(Run(NEW_PROBE, ops))
  {
    RunInvFrom(NEW_PROBE, ops);
  }

  lemma {:induction false} RunInvFrom(p: Probe, ops: seq<Op>)
    requires Inv(p)
    ensures Inv(Run(p, ops))
    decreases |ops|
  {
    hide PushRange;
    if ops != [] {
      var op := ops[0];
      match op {
        case DoBegin(size, options) =>
          BeginInv(p, size, options);
        case DoPush(a, env) => PushRangeInv(p, a, env);
        case DoFail(id) =>
        case DoCancel =>
      }
      RunInvFrom(Step(p, op), ops[1..]);
    }
  }

  /** The operation answers no request that is waited for. */
  predicate Stale(p: Probe, op: Op) {
    match op
    case DoPush(a, _) => !Expected(p, a.id)
    case DoFail(id) => !Expected(p, id)
    case DoBegin(_, _) => false
    case DoCancel => false
  }

  /** A run without the answers that come too late or to nothing. */
  function Timely(p: Probe, ops: seq<Op>): seq<Op>
    decreases |ops|
  {
    if ops == [] then []
    else (if Stale(p, ops[0]) then [] else [ops[0]]) + Timely(Step(p, ops[0]), ops[1..])
  }

  /** Wherever such answers come in a run, they leave no trace in it. */
  lemma {:induction false} StaleLeavesNoTrace(p: Probe, ops: seq<Op>)
    ensures Run(p, Timely(p, ops)) == Run(p, ops)
    decreases |ops|
  {
    hide TakeIn;
    hide Begin;
    if ops != [] {
      var op, rest := ops[0], Timely(Step(p, ops[0]), ops[1..]);
      StaleLeavesNoTrace(Step(p, op), ops[1..]);
      if Stale(p, op) {
        assert [] + rest == rest && Step(p, op) == p;
      } else {
        assert ([op] + rest)[1..] == rest;
      }
    }
  }

  /** A finished request's id is not the next one's. */
  lemma FreshId(p: Probe, a: Answer, env: Env)
    requires Inv(p) && p.state == NeedRange && 0 < p.nextId < UINT64
    ensures (var q := PushRange(p, a, env).0;
             q.state == NeedRange && q.request != p.request ==> q.request.value.id != p.request.value.id)
  {
  }

  // ----- termination

  /** How far an exchange has come: the phase, what the windows may still grow by, the bytes still owed. */
  function PhaseRank(p: Probe): nat {
    if p.state != NeedRange then 0 else match p.phase case Head => 3 case Tail => 2 case SequentialTail => 1
  }

  function Room(p: Probe): int {
    match p.phase
    case Head => p.options.max - p.headEnd
    case Tail => p.options.max - p.tailWindow
    case SequentialTail => 0
  }

  function Owed(p: Probe): int { if p.request.Some? then p.request.value.length - p.received else 0 }

  /** `q` is further on than `p`. */
  predicate Further(p: Probe, q: Probe) {
    || PhaseRank(q) < PhaseRank(p)
    || (PhaseRank(q) == PhaseRank(p) && 0 <= Room(q) < Room(p))
    || (PhaseRank(q) == PhaseRank(p) && Room(q) == Room(p) && 0 <= Owed(q) < Owed(p))
  }

  /** Every expected answer that brings bytes or ends its range takes the exchange further. */
  lemma PushGoesFurther(p: Probe, a: Answer, env: Env)
    requires Inv(p) && Expected(p, a.id) && (a.size > 0 || a.endOfRange)
    ensures Further(p, PushRange(p, a, env).0)
  {
    hide FinishRequest;
    hide Inv;
    NeedsRoom(p);
    var r := p.request.value;
    if a.offset == r.offset + p.received && a.size <= r.length - p.received && a.endOfRange {
      var q := Received(p, a.size);
      if q.received == r.length {
        ReceivedInv(p, a.size);
        FinishGoesFurther(q, env);
      }
    }
  }

  lemma NeedsRoom(p: Probe)
    requires Inv(p) && p.state == NeedRange
    ensures p.request.Some? && p.received <= p.request.value.length && 0 <= Room(p)
  {
  }

  lemma ReceivedInv(p: Probe, n: nat)
    requires Inv(p) && p.state == NeedRange && p.received + n <= p.request.value.length
    ensures Inv(Received(p, n))
  {
  }

  predicate NextRange(p: Probe, q: Probe) {
    PhaseRank(q) < PhaseRank(p) || (PhaseRank(q) == PhaseRank(p) && 0 <= Room(q) < Room(p))
  }

  lemma FinishGoesFurther(p: Probe, env: Env)
    requires Inv(p) && p.state == NeedRange && p.received == p.request.value.length
    ensures NextRange(p, FinishRequest(p, env))
  {
  }

  /** The whole of what is still owed of the current range. */
  function FullAnswer(p: Probe): Answer
    requires Inv(p) && p.state == NeedRange
  {
    var r := p.request.value;
    Answer(r.id, r.offset + p.received, r.length - p.received, false, true)
  }

  lemma FullAnswerGoesOn(p: Probe, env: Env)
    requires Inv(p) && p.state == NeedRange
    ensures NextRange(p, PushRange(p, FullAnswer(p), env).0)
  {
    hide FinishRequest;
    var a := FullAnswer(p);
    ReceivedInv(p, a.size);
    FinishGoesFurther(Received(p, a.size), env);
  }

  /** Answer each request in full, whatever the demuxer finds, until none is left. */
  function Drive(p: Probe, envs: nat -> Env, n: nat): Probe
    requires Inv(p)
    decreases PhaseRank(p), if p.state == NeedRange then Room(p) else 0
  {
    if p.state != NeedRange then p
    else
      PushRangeInv(p, FullAnswer(p), envs(n));
      FullAnswerGoesOn(p, envs(n));
      Drive(PushRange(p, FullAnswer(p), envs(n)).0, envs, n + 1)
  }

  /** Served faithfully, every exchange ends, whatever the demuxer does. */
  lemma {:induction false} DriveEnds(p: Probe, envs: nat -> Env, n: nat)
    requires Inv(p)
    ensures Inv(Drive(p, envs, n)) && Drive(p, envs, n).state != NeedRange
    decreases PhaseRank(p), if p.state == NeedRange then Room(p) else 0
  {
    hide PushRange;
    hide FullAnswer;
    hide Inv;
    if p.state == NeedRange {
      PushRangeInv(p, FullAnswer(p), envs(n));
      FullAnswerGoesOn(p, envs(n));
      NeedsRoom(p);
      DriveEnds(PushRange(p, FullAnswer(p), envs(n)).0, envs, n + 1);
    }
  }

  /** The doubling never leaves the range, so no 64-bit product can wrap. */
  lemma DoublingInRange(window: nat, max: nat)
    requires window <= max
    ensures window <= Doubled(window, max) <= max && (window < max && window > 0 ==> window < Doubled(window, max))
    ensures window <= max / 2 ==> window * 2 <= max
  {
  }
}
