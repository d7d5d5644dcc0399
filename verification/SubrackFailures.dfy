/** How callbacks of the subrack driver are let down: by turn-all requests, and by polls that raise. Each failure comes
    with its exact condition and with a run from the start that shows it. */
module SubrackFailures {
  import opened Basics
  import opened OrderedMap
  import opened SubrackCommands
  import opened SubrackPolling
  import opened SubrackRuns
  import opened SubrackDispatch

  // ---------- Runs ----------

  lemma {:induction false} Extend(limits: Limits, s: System, ops: seq<Op>, op: Op)
    requires Runnable(limits, s, ops) && Enabled(Run(limits, s, ops), op)
    ensures Runnable(limits, s, ops + [op])
    ensures Run(limits, s, ops + [op]) == Step(limits, Run(limits, s, ops), op)
    decreases |ops|
  {
    if ops == [] {
      assert [] + [op] == [op] && [op][1..] == [];
    } else {
      Extend(limits, Step(limits, s, ops[0]), ops[1..], op);
      assert (ops + [op])[1..] == ops[1..] + [op];
    }
  }

  lemma ExtendTwice(limits: Limits, s: System, ops: seq<Op>, op: Op, next: Op) returns (more: seq<Op>)
    requires Runnable(limits, s, ops) && Enabled(Run(limits, s, ops), op)
    requires Enabled(Step(limits, Run(limits, s, ops), op), next)
    ensures Runnable(limits, s, more)
    ensures Run(limits, s, more) == Step(limits, Step(limits, Run(limits, s, ops), op), next)
    ensures forall o :: o in more ==> o in ops || o == op || o == next
  {
    Extend(limits, s, ops, op);
    Extend(limits, s, ops + [op], next);
    more := ops + [op] + [next];
  }

  /** A board that answers everything OK, but for the first read. */
  function BoardWith(firstRead: Answer): Board {
    Board(_ => Ok(true), _ => Ok(true), i => if i == 0 then firstRead else Ok(true))
  }

  /** The driver as it is once the board has reported that it is not busy. */
  function Ready(limits: Limits): System {
    var d := Driver(limits.maxTick + 1, limits.commandMaxTick + 1, false, false, false, None, [], []);
    System(d, Idle, [], {}, {}, {})
  }

  lemma FirstAnswer(limits: Limits)
    ensures var s := Step(limits, Start(limits), BuildRequest(None));
      && s.phase == Requested(Request([CommandCompleted], [], 0))
      && Step(limits, s, PollBoard(BoardWith(Ok(true)))) == s.(phase := Replied([Reply(CommandCompleted, true)]))
  {
    var s, board := Step(limits, Start(limits), BuildRequest(None)), BoardWith(Ok(true));
    PolledOne(s.d, s.phase.request, board);
    assert Polled(s.d, s.phase.request, board)
        == Polling(true, None, [], [Reply(CommandCompleted, true)], false);
    assert s.log + [] == s.log;
  }

  lemma WarmUp(limits: Limits) returns (ops: seq<Op>)
    ensures Runnable(limits, Start(limits), ops) && Run(limits, Start(limits), ops) == Ready(limits)
    ensures forall op :: op in ops ==> !op.Register?
  {
    var board := BoardWith(Ok(true));
    FirstAnswer(limits);
    CompletedOne([Reply(CommandCompleted, true)]);
    ops := [];
    Extend(limits, Start(limits), ops, BuildRequest(None));
    ops := ops + [BuildRequest(None)];
    Extend(limits, Start(limits), ops, PollBoard(board));
    ops := ops + [PollBoard(board)];
    Extend(limits, Start(limits), ops, Succeed);
    ops := ops + [Succeed];
  }

  // ---------- Turn-all requests ----------

  /** The run registers no request for all TPMs or all PDU ports. */
  ghost predicate NoTurnAll(ops: seq<Op>) {
    forall op :: op in ops && op.Register? ==> op.c.key != Tpm(0) && op.c.key != PduPort(0)
  }

  lemma {:induction false} NoTurnAllIsSafe(limits: Limits, s: System, ops: seq<Op>)
    requires Runnable(limits, s, ops) && NoTurnAll(ops)
    ensures SafeRun(limits, s, ops)
    decreases |ops|
  {
    if ops != [] {
      assert ops[0] in ops && forall op :: op in ops[1..] ==> op in ops;
      NoTurnAllIsSafe(limits, Step(limits, s, ops[0]), ops[1..]);
    }
  }

  /** Over every run without turn-all requests, and for every board: nothing, or ABORTED only, or IN_PROGRESS and then
      at most one of FAILED and COMPLETED. */
  lemma LifecycleWithoutTurnAll(limits: Limits, ops: seq<Op>, cb: Callback)
    requires Runnable(limits, Start(limits), ops) && NoTurnAll(ops)
    ensures var told := Statuses(Run(limits, Start(limits), ops).log, cb);
      told == [] || told == [Aborted] || told == [InProgress]
      || told == [InProgress, TaskStatus.Failed] || told == [InProgress, Completed]
  {
    NoTurnAllIsSafe(limits, Start(limits), ops);
    CallbackLifecycle(limits, ops, cb);
  }

  /** How far a callback has come, whatever turn-all requests told it while it waited. */
  datatype Stage = Queued | Running | Done | Confused

  function Advance(stage: Stage, status: TaskStatus): Stage {
    match (stage, status)
    case (Queued, Aborted) => Queued
    case (Queued, InProgress) => Running
    case (Running, Failed) => Done
    case (Running, Completed) => Done
    case _ => Confused
  }

  function StageOf(told: seq<TaskStatus>): Stage {
    if told == [] then Queued else Advance(StageOf(told[..|told| - 1]), told[|told| - 1])
  }

  /** ABORTED, `n` times. */
  function AbortedTimes(n: nat): seq<TaskStatus> {
    seq(n, _ => Aborted)
  }

  /** Any number of times ABORTED, and then `tail`. */
  ghost predicate Aborts(told: seq<TaskStatus>, tail: seq<TaskStatus>) {
    exists n: nat :: told == AbortedTimes(n) + tail
  }

  lemma AbortsThen(told: seq<TaskStatus>, tail: seq<TaskStatus>, status: TaskStatus)
    requires Aborts(told, tail)
    ensures Aborts(told + [status], tail + [status])
    ensures tail == [] && status == Aborted ==> Aborts(told + [status], [])
  {
    var n: nat :| told == AbortedTimes(n) + tail;
    ConcatAssociates(AbortedTimes(n), tail, [status]);
    if tail == [] && status == Aborted {
      assert AbortedTimes(n + 1) == AbortedTimes(n) + [Aborted];
      assert told + [status] == AbortedTimes(n + 1) + [];
    }
  }

  ghost predicate Means(told: seq<TaskStatus>, stage: Stage) {
    match stage
    case Queued => Aborts(told, [])
    case Running => Aborts(told, [InProgress])
    case Done => Aborts(told, [InProgress, TaskStatus.Failed]) || Aborts(told, [InProgress, Completed])
    case Confused => true
  }

  lemma MeansNext(told: seq<TaskStatus>, stage: Stage, status: TaskStatus)
    requires Means(told, stage)
    ensures Means(told + [status], Advance(stage, status))
  {
    match stage
    case Queued => AbortsThen(told, [], status);
    case Running =>
      AbortsThen(told, [InProgress], status);
      assert [InProgress] + [status] == [InProgress, status];
    case _ =>
  }

  lemma {:induction false} StageMeans(told: seq<TaskStatus>)
    ensures Means(told, StageOf(told))
  {
    if told == [] {
      assert told == AbortedTimes(0) + [];
    } else {
      var front, last := told[..|told| - 1], told[|told| - 1];
      StageMeans(front);
      MeansNext(front, StageOf(front), last);
      assert told == front + [last];
    }
  }

  lemma StageAfter(log: seq<Event>, callback: Option<Callback>, status: TaskStatus, cb: Callback)
    ensures var before := Statuses(log, cb);
      Statuses(log + StatusOf(callback, status), cb)
      == if callback == Some(cb) then before + [status] else before
    ensures StageOf(Statuses(log + StatusOf(callback, status), cb))
         == if callback == Some(cb) then Advance(StageOf(Statuses(log, cb)), status) else StageOf(Statuses(log, cb))
  {
    var before := Statuses(log, cb);
    StatusesJoin(log, StatusOf(callback, status), cb);
    StatusesOf(callback, status, cb);
    assert (before + [status])[..|before|] == before && before + [] == before;
  }

  /** Where a callback is; `Gone` stands for a registered one that is in none of the other places. */
  datatype Place = Unregistered | Waits | Active | Dropped | Overwritten | Gone

  /** How far a callback has come, given where it is, in a run that may hold turn-all requests; `untold` says that it
      has heard nothing. */
  predicate Loose(stage: Stage, untold: bool, place: Place) {
    match place
    case Unregistered => untold
    case Waits => stage == Queued
    case Active => stage == Running
    case Dropped => stage == Queued
    case Overwritten => stage == Running
    case Gone => stage == Done || (stage == Queued && !untold)
  }

  /** The callback is in one place only, and has been told what belongs there. */
  ghost predicate LooseFate(s: System, cb: Callback) {
    var waiting, active := Waiting(s.d.commands, cb), Is(s.d.active, cb);
    && waiting + active <= 1
    && (waiting + active == 1 || cb in s.dropped || cb in s.overwritten ==> cb in s.registered)
    && (waiting + active == 1 ==> cb !in s.dropped && cb !in s.overwritten)
    && !(cb in s.dropped && cb in s.overwritten)
    && Loose(StageOf(Statuses(s.log, cb)), Statuses(s.log, cb) == [], PlaceOf(s, cb))
  }

  ghost function PlaceOf(s: System, cb: Callback): Place {
    if cb !in s.registered then Unregistered
    else if Waiting(s.d.commands, cb) > 0 then Waits
    else if s.d.active == Some(cb) then Active
    else if cb in s.dropped then Dropped
    else if cb in s.overwritten then Overwritten
    else Gone
  }

  ghost predicate SameStage(log: seq<Event>, later: seq<Event>, waits: bool, cb: Callback) {
    && StageOf(Statuses(later, cb)) == StageOf(Statuses(log, cb))
    && (!waits ==> Statuses(later, cb) == Statuses(log, cb))
  }

  lemma AbortKeepsStage(log: seq<Event>, commands: seq<Command>, key: Key, cb: Callback)
    requires Waiting(commands, cb) > 0 ==> StageOf(Statuses(log, cb)) == Queued
    ensures SameStage(log, log + AbortOf(CallbackAt(commands, key)), Waiting(commands, cb) > 0, cb)
  {
    var prior := CallbackAt(commands, key);
    StageAfter(log, prior, Aborted, cb);
    assert AbortOf(prior) == StatusOf(prior, Aborted);
    if prior == Some(cb) {
      FoundWaits(commands, key, cb);
    }
  }

  lemma {:induction false} AbortsKeepStage(log: seq<Event>, commands: seq<Command>, keys: seq<Key>, cb: Callback)
    requires Waiting(commands, cb) > 0 ==> StageOf(Statuses(log, cb)) == Queued
    ensures SameStage(log, log + AbortsAt(commands, keys), Waiting(commands, cb) > 0, cb)
    decreases |keys|
  {
    if keys == [] {
      assert log + [] == log;
    } else {
      var first := AbortOf(CallbackAt(commands, keys[0]));
      AbortKeepsStage(log, commands, keys[0], cb);
      AbortsKeepStage(log + first, commands, keys[1..], cb);
      ConcatAssociates(log, first, AbortsAt(commands, keys[1..]));
    }
  }

  /** A callback whose command is replaced is told ABORTED, but for a health request. */
  lemma ReplacedIsTold(s: System, c: Command, cb: Callback)
    requires CallbackAt(s.d.commands, c.key) == Some(cb) && c.key != HealthStatus
    ensures Statuses(s.log + RegisterEvents(s.d, c), cb) != []
  {
    assert c.key in Superseded(c.key) by {
      assert Superseded(c.key)[0] == c.key;
    }
    AbortIsTold(s.d.commands, Superseded(c.key), c.key, cb);
    StatusesJoin(s.log, RegisterEvents(s.d, c), cb);
  }

  lemma RegisterKeepsLooseFate(limits: Limits, s: System, op: Op, cb: Callback)
    requires Enabled(s, op) && op.Register? && LooseFate(s, cb)
    ensures LooseFate(Step(limits, s, op), cb)
  {
    var c := op.c;
    AbortsKeepStage(s.log, s.d.commands, Superseded(c.key), cb);
    PutWaits(s.d.commands, c, cb);
    if CallbackAt(s.d.commands, c.key) == Some(cb) {
      FoundWaits(s.d.commands, c.key, cb);
      if c.key != HealthStatus {
        ReplacedIsTold(s, c, cb);
      }
    }
  }

  lemma BuildKeepsLooseFate(limits: Limits, s: System, op: Op, cb: Callback)
    requires Enabled(s, op) && op.BuildRequest? && LooseFate(s, cb)
    ensures LooseFate(Step(limits, s, op), cb)
  {
    if Dispatches(s.d) {
      StageAfter(s.log, s.d.commands[0].value.callback, InProgress, cb);
    } else {
      assert s.log + [] == s.log;
    }
  }

  /** The active callback, whichever it is, hears that its command is over. */
  lemma ActiveHears(s: System, s': System, status: TaskStatus, cb: Callback)
    requires LooseFate(s, cb) && (status == TaskStatus.Failed || status == Completed)
    requires s'.log == s.log + StatusOf(s.d.active, status) && s'.d.active == None && s'.d.commands == s.d.commands
    requires s'.registered == s.registered && s'.dropped == s.dropped && s'.overwritten == s.overwritten
    ensures LooseFate(s', cb)
  {
    StageAfter(s.log, s.d.active, status, cb);
  }

  lemma PollKeepsLooseFate(limits: Limits, s: System, op: Op, cb: Callback)
    requires Enabled(s, op) && op.PollBoard? && Shape(s) && LooseFate(s, cb)
    ensures LooseFate(Step(limits, s, op), cb)
  {
    PollFailsOrKeeps(s.d, s.phase.request, op.board);
    var polled := Polled(s.d, s.phase.request, op.board);
    if polled.events == [] && polled.active == s.d.active {
      assert s.log + [] == s.log;
    } else {
      ActiveHears(s, Step(limits, s, op), TaskStatus.Failed, cb);
    }
  }

  lemma SucceedKeepsLooseFate(limits: Limits, s: System, op: Op, cb: Callback)
    requires Enabled(s, op) && op.Succeed? && LooseFate(s, cb)
    ensures LooseFate(Step(limits, s, op), cb)
  {
    if Finishes(s.d, s.phase.replies) {
      ActiveHears(s, Step(limits, s, op), Completed, cb);
    } else {
      assert s.log + [] == s.log;
    }
  }

  lemma StepKeepsLooseFate(limits: Limits, s: System, op: Op, cb: Callback)
    requires Enabled(s, op) && Shape(s) && LooseFate(s, cb)
    ensures LooseFate(Step(limits, s, op), cb)
  {
    match op
    case Register(_) => RegisterKeepsLooseFate(limits, s, op, cb);
    case BuildRequest(_) => BuildKeepsLooseFate(limits, s, op, cb);
    case PollBoard(_) => PollKeepsLooseFate(limits, s, op, cb);
    case Succeed => SucceedKeepsLooseFate(limits, s, op, cb);
    case _ =>
  }

  lemma {:induction false} RunKeepsLooseFate(limits: Limits, s: System, ops: seq<Op>, cb: Callback)
    requires Runnable(limits, s, ops) && Shape(s) && LooseFate(s, cb)
    ensures LooseFate(Run(limits, s, ops), cb)
    decreases |ops|
  {
    if ops != [] {
      StepKeepsShape(limits, s, ops[0]);
      StepKeepsLooseFate(limits, s, ops[0], cb);
      RunKeepsLooseFate(limits, Step(limits, s, ops[0]), ops[1..], cb);
    }
  }

  lemma StartIsLoose(limits: Limits, ops: seq<Op>, cb: Callback)
    requires Runnable(limits, Start(limits), ops)
    ensures Shape(Run(limits, Start(limits), ops)) && LooseFate(Run(limits, Start(limits), ops), cb)
    ensures StageOf(Statuses(Run(limits, Start(limits), ops).log, cb)) != Confused
  {
    RunKeepsShape(limits, Start(limits), ops);
    RunKeepsLooseFate(limits, Start(limits), ops, cb);
  }

  /** Over every run whatever, turn-all requests or not: a callback hears any number of ABORTED while it waits, and
      then at most IN_PROGRESS and after that one of FAILED and COMPLETED. */
  lemma LifecycleOfAnyRun(limits: Limits, ops: seq<Op>, cb: Callback)
    requires Runnable(limits, Start(limits), ops)
    ensures var told := Statuses(Run(limits, Start(limits), ops).log, cb);
      || Aborts(told, []) || Aborts(told, [InProgress])
      || Aborts(told, [InProgress, TaskStatus.Failed]) || Aborts(told, [InProgress, Completed])
  {
    StartIsLoose(limits, ops, cb);
    StageMeans(Statuses(Run(limits, Start(limits), ops).log, cb));
  }

  ghost predicate IsAccounted(told: seq<TaskStatus>) {
    || Aborts(told, [InProgress, TaskStatus.Failed]) || Aborts(told, [InProgress, Completed])
    || (Aborts(told, []) && told != [])
  }

  lemma GoneIsAccounted(s: System, cb: Callback)
    requires LooseFate(s, cb) && PlaceOf(s, cb) == Gone
    ensures IsAccounted(Statuses(s.log, cb))
  {
    StageMeans(Statuses(s.log, cb));
  }

  /** The accounting over every run whatever: a registered callback waits, is active, was dropped by a later health
      request or was overwritten; or it has heard FAILED or COMPLETED once, or only ABORTED and that at least once. */
  lemma AccountedForInAnyRun(limits: Limits, ops: seq<Op>, cb: Callback)
    requires Runnable(limits, Start(limits), ops)
    ensures var s := Run(limits, Start(limits), ops);
      && cb in s.registered && Waiting(s.d.commands, cb) == 0 && s.d.active != Some(cb)
      && cb !in s.dropped && cb !in s.overwritten
      ==> IsAccounted(Statuses(s.log, cb))
  {
    var s := Run(limits, Start(limits), ops);
    StartIsLoose(limits, ops, cb);
    if PlaceOf(s, cb) == Gone {
      GoneIsAccounted(s, cb);
    }
  }

  // ---------- Silence ----------

  /** The callback has been registered and is neither waiting nor active: nothing refers to it any more. */
  ghost predicate Silent(s: System, cb: Callback) {
    cb in s.registered && Waiting(s.d.commands, cb) == 0 && s.d.active != Some(cb)
  }

  lemma StepKeepsSilence(limits: Limits, s: System, op: Op, cb: Callback)
    requires Enabled(s, op) && Shape(s) && Silent(s, cb)
    ensures Silent(Step(limits, s, op), cb)
  {
    match op
    case Register(c) => PutWaits(s.d.commands, c, cb);
    case PollBoard(board) => PollFailsOrKeeps(s.d, s.phase.request, board);
    case _ =>
  }

  lemma StepTellsNothing(limits: Limits, s: System, op: Op, cb: Callback)
    requires Enabled(s, op) && Shape(s) && Silent(s, cb)
    ensures Statuses(Step(limits, s, op).log, cb) == Statuses(s.log, cb)
  {
    assert s.log + [] == s.log;
    match op
    case Register(c) => AbortsKeepStage(s.log, s.d.commands, Superseded(c.key), cb);
    case BuildRequest(_) =>
      if Dispatches(s.d) {
        StageAfter(s.log, s.d.commands[0].value.callback, InProgress, cb);
      }
    case PollBoard(board) =>
      PollFailsOrKeeps(s.d, s.phase.request, board);
      StageAfter(s.log, s.d.active, TaskStatus.Failed, cb);
    case Succeed => StageAfter(s.log, s.d.active, Completed, cb);
    case _ =>
  }

  /** Over every run whatever, a callback that nothing refers to any more hears nothing more. */
  lemma {:induction false} SilentForEver(limits: Limits, s: System, ops: seq<Op>, cb: Callback)
    requires Runnable(limits, s, ops) && Shape(s) && Silent(s, cb)
    ensures Silent(Run(limits, s, ops), cb)
    ensures Statuses(Run(limits, s, ops).log, cb) == Statuses(s.log, cb)
    decreases |ops|
  {
    if ops != [] {
      StepKeepsShape(limits, s, ops[0]);
      StepKeepsSilence(limits, s, ops[0], cb);
      StepTellsNothing(limits, s, ops[0], cb);
      SilentForEver(limits, Step(limits, s, ops[0]), ops[1..], cb);
    }
  }

  lemma TerminalIsDone(told: seq<TaskStatus>)
    requires StageOf(told) != Confused && (TaskStatus.Failed in told || Completed in told)
    ensures StageOf(told) == Done
  {
    StageMeans(told);
    var i :| 0 <= i < |told| && (told[i] == TaskStatus.Failed || told[i] == Completed);
  }

  lemma DoneIsSilent(s: System, cb: Callback)
    requires LooseFate(s, cb) && StageOf(Statuses(s.log, cb)) == Done
    ensures Silent(s, cb)
  {
  }

  /** Over every run whatever, nothing follows a FAILED or COMPLETED. */
  lemma NothingAfterTerminal(limits: Limits, before: seq<Op>, later: seq<Op>, cb: Callback)
    requires Runnable(limits, Start(limits), before) && Runnable(limits, Run(limits, Start(limits), before), later)
    ensures var s := Run(limits, Start(limits), before);
      var told := Statuses(s.log, cb);
      TaskStatus.Failed in told || Completed in told ==> Statuses(Run(limits, s, later).log, cb) == told
  {
    var s := Run(limits, Start(limits), before);
    StartIsLoose(limits, before, cb);
    if TaskStatus.Failed in Statuses(s.log, cb) || Completed in Statuses(s.log, cb) {
      TerminalIsDone(Statuses(s.log, cb));
      DoneIsSilent(s, cb);
      SilentForEver(limits, s, later, cb);
    }
  }

  lemma {:induction false} RunKeepsShape(limits: Limits, s: System, ops: seq<Op>)
    requires Runnable(limits, s, ops) && Shape(s)
    ensures Shape(Run(limits, s, ops))
    decreases |ops|
  {
    if ops != [] {
      StepKeepsShape(limits, s, ops[0]);
      RunKeepsShape(limits, Step(limits, s, ops[0]), ops[1..]);
    }
  }

  // ---------- What turn-all requests do ----------

  lemma {:induction false} WaitsUnderOneKey(commands: seq<Command>, k: Key, other: Key, cb: Callback)
    requires k != other && CallbackAt(commands, k) == Some(cb) && CallbackAt(commands, other) == Some(cb)
    ensures Waiting(commands, cb) >= 2
  {
    if commands[0].key == k {
      FoundWaits(commands[1..], other, cb);
    } else if commands[0].key == other {
      FoundWaits(commands[1..], k, cb);
    } else {
      WaitsUnderOneKey(commands[1..], k, other, cb);
    }
  }

  lemma {:induction false} AbortsTellNothing(commands: seq<Command>, keys: seq<Key>, cb: Callback)
    requires forall k :: k in keys ==> CallbackAt(commands, k) != Some(cb)
    ensures Statuses(AbortsAt(commands, keys), cb) == []
  {
    if keys != [] {
      var prior := CallbackAt(commands, keys[0]);
      StatusesJoin(AbortOf(prior), AbortsAt(commands, keys[1..]), cb);
      AbortsTellNothing(commands, keys[1..], cb);
      if prior.Some? {
        StatusesOfOne(Event(prior.value, Aborted), cb);
      }
    }
  }

  ghost predicate Distinct(keys: seq<Key>) {
    forall i, j :: 0 <= i < j < |keys| ==> keys[i] != keys[j]
  }

  lemma {:induction false} AbortsTellOnce(commands: seq<Command>, keys: seq<Key>, key: Key, cb: Callback)
    requires Distinct(keys) && key in keys && CallbackAt(commands, key) == Some(cb) && Waiting(commands, cb) == 1
    ensures Statuses(AbortsAt(commands, keys), cb) == [Aborted]
  {
    var prior, others := CallbackAt(commands, keys[0]), AbortsAt(commands, keys[1..]);
    StatusesJoin(AbortOf(prior), others, cb);
    if keys[0] == key {
      StatusesOfOne(Event(cb, Aborted), cb);
      forall k | k in keys[1..]
        ensures CallbackAt(commands, k) != Some(cb)
      {
        if CallbackAt(commands, k) == Some(cb) {
          WaitsUnderOneKey(commands, key, k, cb);
        }
      }
      AbortsTellNothing(commands, keys[1..], cb);
    } else {
      AbortsTellOnce(commands, keys[1..], key, cb);
      if prior.Some? {
        if prior.value == cb {
          WaitsUnderOneKey(commands, key, keys[0], cb);
        }
        StatusesOfOne(Event(prior.value, Aborted), cb);
      }
    }
  }

  /** A request that supersedes the command under `key` without replacing it: one for all TPMs or all PDU ports. */
  predicate IsTurnAllOver(c: Command, key: Key) {
    key in Superseded(c.key) && key != c.key
  }

  lemma TurnAllIsZero(c: Command, key: Key)
    ensures IsTurnAllOver(c, key)
       <==> || (c.key == Tpm(0) && key.Tpm? && 1 <= key.n <= 8)
            || (c.key == PduPort(0) && key.PduPort? && 1 <= key.n <= 24)
  {
    var keys := Superseded(c.key);
    if c.key == Tpm(0) && key.Tpm? && 1 <= key.n <= 8 {
      assert keys[key.n] == key;
    } else if c.key == PduPort(0) && key.PduPort? && 1 <= key.n <= 24 {
      assert keys[key.n] == key;
    }
  }

  /** A turn-all request tells the callback of a waiting individual command ABORTED. */
  lemma TurnAllTells(limits: Limits, s: System, all: Command, key: Key, cb: Callback)
    requires Enabled(s, Register(all)) && IsTurnAllOver(all, key)
    requires CallbackAt(s.d.commands, key) == Some(cb) && Waiting(s.d.commands, cb) == 1
    ensures Statuses(Step(limits, s, Register(all)).log, cb) == Statuses(s.log, cb) + [Aborted]
  {
    SupersededAreDistinct(all.key);
    AbortsTellOnce(s.d.commands, Superseded(all.key), key, cb);
    StatusesJoin(s.log, RegisterEvents(s.d, all), cb);
  }

  lemma SupersededAreDistinct(key: Key)
    ensures Distinct(Superseded(key))
  {
  }

  /** It leaves that command waiting where it was. */
  lemma TurnAllLeaves(limits: Limits, s: System, all: Command, k: nat, cb: Callback)
    requires Enabled(s, Register(all)) && k < |s.d.commands| && IsTurnAllOver(all, s.d.commands[k].key)
    requires CallbackAt(s.d.commands, s.d.commands[k].key) == Some(cb) && Waiting(s.d.commands, cb) == 1
    requires all.value.callback != Some(cb)
    ensures var commands := Step(limits, s, Register(all)).d.commands;
      && k < |commands| && commands[k] == s.d.commands[k]
      && CallbackAt(commands, s.d.commands[k].key) == Some(cb) && Waiting(commands, cb) == 1
  {
    var key := s.d.commands[k].key;
    PutKeepsPlace(s.d.commands, all, k);
    PutKeepsOthers(s.d.commands, all, key);
    PutWaits(s.d.commands, all, cb);
    if CallbackAt(s.d.commands, all.key) == Some(cb) {
      WaitsUnderOneKey(s.d.commands, key, all.key, cb);
    }
  }

  /** Each turn-all request tells it again: two of them tell the callback ABORTED twice. */
  lemma AbortedTwice(limits: Limits, s: System, all: Command, again: Command, k: nat, cb: Callback)
    requires Enabled(s, Register(all)) && Enabled(Step(limits, s, Register(all)), Register(again))
    requires k < |s.d.commands| && IsTurnAllOver(all, s.d.commands[k].key) && IsTurnAllOver(again, s.d.commands[k].key)
    requires CallbackAt(s.d.commands, s.d.commands[k].key) == Some(cb) && Waiting(s.d.commands, cb) == 1
    requires all.value.callback != Some(cb)
    ensures Statuses(Step(limits, Step(limits, s, Register(all)), Register(again)).log, cb)
         == Statuses(s.log, cb) + [Aborted, Aborted]
  {
    TurnAllTells(limits, s, all, s.d.commands[k].key, cb);
    TurnAllLeaves(limits, s, all, k, cb);
    TurnAllTells(limits, Step(limits, s, Register(all)), again, s.d.commands[k].key, cb);
  }

  /** The aborted command keeps its turn (`DispatchedInTurn`): if it is the first, the next idle request dispatches it,
      and its callback hears IN_PROGRESS after ABORTED. */
  lemma AbortedThenDispatched(limits: Limits, s: System, all: Command, cb: Callback)
    requires s.phase.Idle? && !s.d.busy && s.d.commands != [] && s.d.commands[0].value.callback == Some(cb)
    requires Enabled(s, Register(all)) && IsTurnAllOver(all, s.d.commands[0].key)
    requires Waiting(s.d.commands, cb) == 1 && all.value.callback != Some(cb)
    ensures var s' := Step(limits, Step(limits, s, Register(all)), BuildRequest(None));
      && Statuses(s'.log, cb) == Statuses(s.log, cb) + [Aborted, InProgress]
      && s'.d.active == Some(cb) && s'.phase.request.commands == [s.d.commands[0].value.action]
  {
    TurnAllTells(limits, s, all, s.d.commands[0].key, cb);
    TurnAllLeaves(limits, s, all, 0, cb);
    DispatchIsTold(limits, Step(limits, s, Register(all)), cb);
  }

  function TurnOn(n: int, cb: Callback): Command {
    Item(Tpm(n), Task(TurnTpm(n, true), Some(cb)))
  }

  lemma FirstRegistered(limits: Limits, c: Command, cb: Callback)
    requires c.key != HealthStatus && c.value.action != CommandCompleted && c.value.callback == Some(cb)
    ensures var s := Step(limits, Ready(limits), Register(c));
      && s.d.commands == [c] && s.log == [] && Waiting(s.d.commands, cb) == 1 && s.registered == {cb}
      && s.dropped == {} && CallbackAt(s.d.commands, c.key) == Some(cb)
  {
    NoAborts([], Superseded(c.key));
    SingleCommand(c, c, c.key);
    assert [c][1..] == [];
  }

  /** For every TPM a run from the start shows the first failure, and another the second. */
  lemma TurnAllRuns(limits: Limits, n: int) returns (dispatched: seq<Op>, twice: seq<Op>)
    requires 1 <= n <= 8
    ensures Runnable(limits, Start(limits), dispatched)
    ensures Statuses(Run(limits, Start(limits), dispatched).log, 1) == [Aborted, InProgress]
    ensures Runnable(limits, Start(limits), twice)
    ensures Statuses(Run(limits, Start(limits), twice).log, 1) == [Aborted, Aborted]
  {
    var one, all, again := TurnOn(n, 1), TurnOn(0, 2), TurnOn(0, 3);
    TurnAllIsZero(all, one.key);
    TurnAllIsZero(again, one.key);
    FirstRegistered(limits, one, 1);
    var ops := WarmUp(limits);
    Extend(limits, Start(limits), ops, Register(one));
    ops := ops + [Register(one)];
    var s := Run(limits, Start(limits), ops);
    AbortedThenDispatched(limits, s, all, 1);
    dispatched := ExtendTwice(limits, Start(limits), ops, Register(all), BuildRequest(None));
    AbortedTwice(limits, s, all, again, 0, 1);
    twice := ExtendTwice(limits, Start(limits), ops, Register(all), Register(again));
  }

  // ---------- Polls that raise after an OK answer ----------

  /** The callback is still active, on an idle board, and no command is in flight. */
  ghost predicate Lingers(s: System, cb: Callback) {
    && !s.d.busy && s.d.active == Some(cb) && cb !in s.overwritten
    && (s.phase.Requested? ==> s.phase.request.commands == [])
    && (s.phase.Replied? ==> s.phase.replies == [])
  }

  lemma StepLingers(limits: Limits, s: System, op: Op, cb: Callback)
    requires Enabled(s, op) && Lingers(s, cb)
    requires op.BuildRequest? ==> Step(limits, s, op).phase.request.commands == []
    ensures Lingers(Step(limits, s, op), cb)
    ensures Step(limits, s, op).d.commands != [] <==> s.d.commands != [] || op.Register?
  {
    if op.PollBoard? {
      PolledOne(s.d, s.phase.request, op.board);
    } else if op.Succeed? {
      CompletedOne(s.phase.replies);
    }
  }

  lemma {:induction false} LingersOn(limits: Limits, s: System, ops: seq<Op>, cb: Callback)
    requires Runnable(limits, s, ops) && Lingers(s, cb)
    requires forall r :: r in Built(limits, s, ops) ==> r.commands == []
    ensures Lingers(Run(limits, s, ops), cb)
    ensures Run(limits, s, ops).d.commands != [] <==> s.d.commands != [] || exists op :: op in ops && op.Register?
    decreases |ops|
  {
    if ops != [] {
      var s' := Step(limits, s, ops[0]);
      var others := Built(limits, s', ops[1..]);
      assert ops[0].BuildRequest? ==> Built(limits, s, ops) == [s'.phase.request] + others;
      assert !ops[0].BuildRequest? ==> Built(limits, s, ops) == [] + others;
      assert forall r :: r in others ==> r in Built(limits, s, ops);
      assert ops[0].BuildRequest? ==> s'.phase.request in Built(limits, s, ops);
      StepLingers(limits, s, ops[0], cb);
      LingersOn(limits, s', ops[1..], cb);
      assert forall op :: op in ops <==> op == ops[0] || op in ops[1..];
    }
  }

  /** A poll that raises after its command was answered OK, and the hook that follows, leave the callback active on an
      idle board. There it stays over every run whose requests carry no command, however they are answered, until the
      first request that does carry one decides: it overwrites the callback if and only if a command waits by then,
      one that waited already or one registered since. Otherwise it is a health poll (`HealthPollDecides`). */
  lemma OverwrittenExactly(
    limits: Limits, s: System, board: Board, ops: seq<Op>, newBios: Option<bool>, cb: Callback)
    requires s.phase.Requested? && Shape(s) && !s.d.busy && s.d.active == Some(cb) && cb !in s.overwritten
    requires s.phase.request.commands != [] && board.command(0).Ok? && PollRaises(s.d, s.phase.request, board)
    requires var stranded := Step(limits, Step(limits, s, PollBoard(board)), Fail);
      && Runnable(limits, stranded, ops) && Run(limits, stranded, ops).phase.Idle?
      && forall r :: r in Built(limits, stranded, ops) ==> r.commands == []
    ensures var s' := Run(limits, Step(limits, Step(limits, s, PollBoard(board)), Fail), ops);
      && Lingers(s', cb)
      && (cb in Step(limits, s', BuildRequest(newBios)).overwritten <==> s'.d.commands != [])
      && (s'.d.commands != [] <==> s.d.commands != [] || exists op :: op in ops && op.Register?)
  {
    var stranded := Step(limits, Step(limits, s, PollBoard(board)), Fail);
    OkIsRecorded(limits, s, board);
    LingersOn(limits, stranded, ops, cb);
  }

  lemma {:induction false} StaysOverwritten(limits: Limits, s: System, ops: seq<Op>, cb: Callback)
    requires Runnable(limits, s, ops) && cb in s.overwritten
    ensures cb in Run(limits, s, ops).overwritten
    decreases |ops|
  {
    if ops != [] {
      StaysOverwritten(limits, Step(limits, s, ops[0]), ops[1..], cb);
    }
  }

  /** An overwritten callback is lost: over every later run whatever it has heard IN_PROGRESS last and hears nothing
      more. `LooseFate` holds after every run from the start (`StartIsLoose`). */
  lemma OverwrittenIsLost(limits: Limits, s: System, ops: seq<Op>, cb: Callback)
    requires Runnable(limits, s, ops) && Shape(s) && LooseFate(s, cb) && cb in s.overwritten
    ensures Statuses(Run(limits, s, ops).log, cb) == Statuses(s.log, cb)
    ensures Aborts(Statuses(s.log, cb), [InProgress]) && cb in Run(limits, s, ops).overwritten
  {
    SilentForEver(limits, s, ops, cb);
    StageMeans(Statuses(s.log, cb));
    StaysOverwritten(limits, s, ops, cb);
  }

  /** An OK answer is recorded and changes nothing else. */
  lemma OkIsRecorded(limits: Limits, s: System, board: Board)
    requires s.phase.Requested? && |s.phase.request.commands| == 1 && board.command(0).Ok?
    ensures Step(limits, s, PollBoard(board))
         == s.(phase := if PollRaises(s.d, s.phase.request, board) then Broken
                        else Replied([Reply(s.phase.request.commands[0], board.command(0).truthy)]))
  {
    var reply := Reply(s.phase.request.commands[0], board.command(0).truthy);
    PolledOne(s.d, s.phase.request, board);
    assert Polled(s.d, s.phase.request, board) == Polling(s.d.busy, s.d.active, [], [reply], false);
    assert s.log + [] == s.log;
  }

  lemma ReplyIsCompleted(limits: Limits, s: System, reply: Reply, cb: Callback)
    requires s.phase == Replied([reply]) && reply.action != CommandCompleted && !s.d.busy && s.d.active == Some(cb)
    ensures var s' := Step(limits, s, Succeed);
      && Statuses(s'.log, cb) == Statuses(s.log, cb) + [Completed]
      && s'.d.active == None && s'.overwritten == s.overwritten
  {
    CompletedOne([reply]);
    StatusesOfOne(Event(cb, Completed), cb);
    StatusesJoin(s.log, [Event(cb, Completed)], cb);
  }

  lemma NotOkPolled(d: Driver, request: Request, board: Board)
    requires |request.commands| == 1 && !board.command(0).Ok? && !d.busy
    ensures Polled(d, request, board)
         == if board.command(0).Started? then Polling(true, d.active, [], [], false)
            else Polling(false, None, StatusOf(d.active, TaskStatus.Failed), [], Raises(board.command(0)))
  {
    PolledOne(d, request, board);
    assert [] + StatusOf(d.active, TaskStatus.Failed) == StatusOf(d.active, TaskStatus.Failed);
  }

  /** A poll whose one command is not answered OK, on an idle board: the board starts on it, or it has failed. */
  lemma NotOkIsHandled(limits: Limits, s: System, board: Board, cb: Callback)
    requires s.phase.Requested? && |s.phase.request.commands| == 1 && !board.command(0).Ok?
    requires !s.d.busy && s.d.active == Some(cb)
    ensures var s' := Step(limits, s, PollBoard(board));
      && s'.overwritten == s.overwritten && (s'.phase == Replied([]) || s'.phase == Broken)
      && s'.d.busy == board.command(0).Started?
      && s'.d.active == (if board.command(0).Started? then Some(cb) else None)
      && Statuses(s'.log, cb)
         == if board.command(0).Started? then Statuses(s.log, cb) else Statuses(s.log, cb) + [TaskStatus.Failed]
  {
    NotOkPolled(s.d, s.phase.request, board);
    if board.command(0).Started? {
      assert s.log + [] == s.log;
    } else {
      StageAfter(s.log, s.d.active, TaskStatus.Failed, cb);
    }
  }

  lemma EmptyReplyIsIgnored(limits: Limits, s: System)
    requires s.phase == Replied([])
    ensures Step(limits, s, Succeed) == s.(phase := Idle)
  {
    CompletedOne([]);
    assert s.log + [] == s.log;
  }

  /** The hook that follows a poll. */
  function Hook(s: System): Op {
    if s.phase.Broken? then Fail else Succeed
  }

  /** If no command waits, the request that decides a lingering callback is a health poll, made on behalf of nobody, and
      the callback gets what that poll is answered: COMPLETED if OK, FAILED if refused. If the board starts on it, the
      callback waits for that to complete, and if the poll raises after OK it lingers on. */
  lemma HealthPollDecides(limits: Limits, s: System, newBios: Option<bool>, board: Board, cb: Callback)
    requires s.phase.Idle? && Lingers(s, cb) && s.d.commands == []
    requires ConsidersHealth(s.d, limits) && PollsHealth(s.d, newBios)
    ensures var asked := Step(limits, s, BuildRequest(newBios));
      var polled := Step(limits, asked, PollBoard(board));
      var s', told := Step(limits, polled, Hook(polled)), Statuses(s.log, cb);
      && s'.phase.Idle? && s'.overwritten == s.overwritten
      && match board.command(0)
         case Ok(_) =>
           if PollRaises(asked.d, asked.phase.request, board) then Lingers(s', cb) && Statuses(s'.log, cb) == told
           else s'.d.active == None && Statuses(s'.log, cb) == told + [Completed]
         case Started => s'.d.busy && s'.d.active == Some(cb) && Statuses(s'.log, cb) == told
         case _ => s'.d.active == None && Statuses(s'.log, cb) == told + [TaskStatus.Failed]
  {
    var asked := Step(limits, s, BuildRequest(newBios));
    var polled := Step(limits, asked, PollBoard(board));
    HealthIsAsked(limits, s, newBios);
    if board.command(0).Ok? {
      OkIsRecorded(limits, asked, board);
      if polled.phase.Replied? {
        ReplyIsCompleted(limits, polled, Reply(GetHealthStatus(""), board.command(0).truthy), cb);
      }
    } else {
      NotOkIsHandled(limits, asked, board, cb);
      if polled.phase.Replied? {
        EmptyReplyIsIgnored(limits, polled);
      }
    }
  }

  lemma HealthIsAsked(limits: Limits, s: System, newBios: Option<bool>)
    requires s.phase.Idle? && !s.d.busy && s.d.commands == []
    requires ConsidersHealth(s.d, limits) && PollsHealth(s.d, newBios)
    ensures var asked := Step(limits, s, BuildRequest(newBios));
      && asked.phase.Requested? && asked.phase.request.commands == [GetHealthStatus("")]
      && asked.log == s.log && asked.overwritten == s.overwritten
      && asked.d.active == s.d.active && !asked.d.busy
  {
    assert s.log + [] == s.log;
  }

  /** The state in which the command of callback 1 has been dispatched. */
  lemma FirstDispatched(limits: Limits, c: Command, cb: Callback)
    requires c.key != HealthStatus && c.value.action != CommandCompleted && c.value.callback == Some(cb)
    ensures var s := Step(limits, Step(limits, Ready(limits), Register(c)), BuildRequest(None));
      && s.phase == Requested(Request([c.value.action], [], ALL_ATTRIBUTES))
      && s.d.active == Some(cb) && !s.d.busy && s.d.commands == [] && s.overwritten == {}
      && s.registered == {cb} && Statuses(s.log, cb) == [InProgress]
  {
    FirstRegistered(limits, c, cb);
    StatusesOfOne(Event(cb, InProgress), cb);
    assert [] + [Event(cb, InProgress)] == [Event(cb, InProgress)];
  }

  lemma DispatchingRun(limits: Limits, c: Command) returns (ops: seq<Op>)
    requires c.key != HealthStatus && c.value.action != CommandCompleted && c.value.callback.Some?
    ensures Runnable(limits, Start(limits), ops)
    ensures Run(limits, Start(limits), ops)
         == Step(limits, Step(limits, Ready(limits), Register(c)), BuildRequest(None))
    ensures forall op :: op in ops && op.Register? ==> op.c == c
  {
    ops := WarmUp(limits);
    ops := ExtendTwice(limits, Start(limits), ops, Register(c), BuildRequest(None));
  }

  /** Callback 1 is active on an idle board, and nothing waits. */
  ghost predicate Stranded(s: System) {
    && s.phase.Idle? && !s.d.busy && s.d.active == Some(1) && s.d.commands == [] && s.registered == {1}
    && Statuses(s.log, 1) == [InProgress]
  }

  /** The command is answered OK, and then the first read raises. */
  lemma RaisingRun(limits: Limits) returns (ops: seq<Op>)
    ensures Runnable(limits, Start(limits), ops) && Stranded(Run(limits, Start(limits), ops))
    ensures NoTurnAll(ops)
  {
    var c, board := TurnOn(1, 1), BoardWith(HttpError);
    ops := DispatchingRun(limits, c);
    var s := Run(limits, Start(limits), ops);
    FirstDispatched(limits, c, 1);
    OkIsRecorded(limits, s, board);
    assert Raises(board.read(0)) && RaisesWithin(board.read, ALL_ATTRIBUTES);
    ops := ExtendTwice(limits, Start(limits), ops, PollBoard(board), Fail);
  }

  /** A run from the start that loses a callback: its command is answered OK, the first read raises, and the request
      for the next command overwrites it. It has heard IN_PROGRESS only, and by `OverwrittenIsLost` for ever. */
  lemma LosingRun(limits: Limits) returns (ops: seq<Op>)
    ensures Runnable(limits, Start(limits), ops) && NoTurnAll(ops)
    ensures var s := Run(limits, Start(limits), ops);
      1 in s.overwritten && s.d.active == Some(2) && Statuses(s.log, 1) == [InProgress]
  {
    ops := RaisingRun(limits);
    OverwritesIt(limits, Run(limits, Start(limits), ops), TurnOn(2, 2));
    ops := ExtendTwice(limits, Start(limits), ops, Register(TurnOn(2, 2)), BuildRequest(None));
  }

  lemma OverwritesIt(limits: Limits, s: System, c: Command)
    requires Stranded(s) && c == TurnOn(2, 2)
    ensures Enabled(s, Register(c)) && Step(limits, s, Register(c)).phase.Idle?
    ensures var s' := Step(limits, Step(limits, s, Register(c)), BuildRequest(None));
      1 in s'.overwritten && s'.d.active == Some(2) && Statuses(s'.log, 1) == [InProgress]
  {
    NoAborts([], Superseded(c.key));
    assert s.log + [] == s.log;
    StatusesOfOne(Event(2, InProgress), 1);
    StatusesJoin(s.log, [Event(2, InProgress)], 1);
  }
}
