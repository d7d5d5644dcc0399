/** What holds over every run of the subrack driver, whatever the board answers. */
module SubrackRuns {
  import opened Basics
  import opened OrderedMap
  import opened SubrackCommands
  import opened SubrackPolling

  /** Where the poller is between `get_request`, `poll` and the hook it calls afterwards. */
  datatype Phase = Idle | Requested(request: Request) | Replied(replies: seq<Reply>) | Broken

  /** The driver, the poller, and the history: what callbacks were told, which were registered, which were dropped by
      a later health request, and which were active when another command was dispatched. */
  datatype System = System(
    d: Driver,
    phase: Phase,
    log: seq<Event>,
    registered: set<Callback>,
    dropped: set<Callback>,
    overwritten: set<Callback>)

  datatype Op =
    | Register(c: Command)
    | WriteValues(values: seq<Write>)
    | BuildRequest(newBios: Option<bool>)
    | PollBoard(board: Board)
    | Succeed
    | Fail
    | Stop

  function Start(limits: Limits): System {
    System(Initial(limits), Idle, [], {}, {}, {})
  }

  /** Commands and writes come at any time, each command with a callback of its own; the rest follows the poller. */
  ghost predicate Enabled(s: System, op: Op) {
    match op
    case Register(c) =>
      && c.value.action != CommandCompleted
      && (c.value.callback.Some? ==> c.value.callback.value !in s.registered)
    case WriteValues(_) => true
    case BuildRequest(_) => s.phase.Idle?
    case PollBoard(_) => s.phase.Requested?
    case Succeed => s.phase.Replied?
    case Fail => s.phase.Broken?
    case Stop => s.phase.Idle?
  }

  function SetOf(callback: Option<Callback>): set<Callback> {
    if callback.Some? then {callback.value} else {}
  }

  ghost function Step(limits: Limits, s: System, op: Op): System
    requires Enabled(s, op)
  {
    match op
    case Register(c) =>
      s.(d := RegisterNext(s.d, c),
         log := s.log + RegisterEvents(s.d, c),
         registered := s.registered + SetOf(c.value.callback),
         dropped := if c.key == HealthStatus then s.dropped + SetOf(CallbackAt(s.d.commands, c.key)) else s.dropped)
    case WriteValues(values) =>
      s.(d := s.d.(writes := PutAll(s.d.writes, values)))
    case BuildRequest(newBios) =>
      s.(d := RequestNext(s.d, limits, newBios),
         phase := Requested(BuiltRequest(s.d, limits, newBios)),
         log := s.log + RequestEvents(s.d),
         overwritten := if Dispatches(s.d) then s.overwritten + SetOf(s.d.active) else s.overwritten)
    case PollBoard(board) =>
      s.(d := PollNext(s.d, s.phase.request, board),
         phase := if PollRaises(s.d, s.phase.request, board) then Broken
                  else Replied(Polled(s.d, s.phase.request, board).replies),
         log := s.log + Polled(s.d, s.phase.request, board).events)
    case Succeed =>
      s.(d := SucceededNext(s.d, limits, s.phase.replies),
         phase := Idle,
         log := s.log + SucceededEvents(s.d, s.phase.replies))
    case Fail => s.(phase := Idle)
    case Stop => s.(d := StoppedNext(s.d, limits))
  }

  ghost predicate Runnable(limits: Limits, s: System, ops: seq<Op>)
    decreases |ops|
  {
    ops != [] ==> Enabled(s, ops[0]) && Runnable(limits, Step(limits, s, ops[0]), ops[1..])
  }

  ghost function Run(limits: Limits, s: System, ops: seq<Op>): System
    requires Runnable(limits, s, ops)
    decreases |ops|
  {
    if ops == [] then s else Run(limits, Step(limits, s, ops[0]), ops[1..])
  }

  // ---------- The shape of requests and responses ----------

  /** At most one command is in flight, and `command_completed` is asked exactly while the board is busy. */
  ghost predicate Shape(s: System) {
    && (forall i :: 0 <= i < |s.d.commands| ==> s.d.commands[i].value.action != CommandCompleted)
    && (match s.phase
        case Requested(request) =>
          && |request.commands| <= 1
          && (s.d.busy ==> request == Request([CommandCompleted], [], 0))
          && (!s.d.busy ==> CommandCompleted !in request.commands)
        case Replied(replies) =>
          && |replies| <= 1
          && (|replies| == 1 ==> (replies[0].action == CommandCompleted <==> s.d.busy))
        case _ => true)
  }

  lemma PolledOne(d: Driver, request: Request, board: Board)
    requires |request.commands| <= 1
    ensures Polled(d, request, board)
         == if request.commands == [] then Polling(d.busy, d.active, [], [], false)
            else PollCommand(Polling(d.busy, d.active, [], [], false), request.commands[0], board.command(0))
  {
    if request.commands != [] {
      var p := PollCommand(Polling(d.busy, d.active, [], [], false), request.commands[0], board.command(0));
      assert PollCommands(p, request.commands, board.command, 1) == p;
    }
  }

  lemma {:induction false} PutKeepsActions(commands: seq<Command>, c: Command)
    requires c.value.action != CommandCompleted
    requires forall i :: 0 <= i < |commands| ==> commands[i].value.action != CommandCompleted
    ensures forall i :: 0 <= i < |Put(commands, c)| ==> Put(commands, c)[i].value.action != CommandCompleted
  {
    if commands != [] && commands[0].key != c.key {
      PutKeepsActions(commands[1..], c);
    }
  }

  lemma StepKeepsShape(limits: Limits, s: System, op: Op)
    requires Enabled(s, op) && Shape(s)
    ensures Shape(Step(limits, s, op))
  {
    match op
    case Register(c) => PutKeepsActions(s.d.commands, c);
    case PollBoard(board) => PolledOne(s.d, s.phase.request, board);
    case _ =>
  }

  // ---------- The life of a callback ----------

  /** What a callback has been told, given where it is. */
  ghost predicate Fate(s: System, cb: Callback) {
    var told := Statuses(s.log, cb);
    var waiting, active := Waiting(s.d.commands, cb), Is(s.d.active, cb);
    && waiting + active <= 1
    && (waiting + active == 1 ==> cb in s.registered && cb !in s.dropped && cb !in s.overwritten)
    && (cb in s.dropped || cb in s.overwritten ==> cb in s.registered)
    && !(cb in s.dropped && cb in s.overwritten)
    && (if waiting == 1 then told == []
        else if active == 1 then told == [InProgress]
        else if cb !in s.registered || cb in s.dropped then told == []
        else if cb in s.overwritten then told == [InProgress]
        else told == [Aborted] || told == [InProgress, TaskStatus.Failed] || told == [InProgress, Completed])
  }

  lemma StatusesOf(callback: Option<Callback>, status: TaskStatus, cb: Callback)
    ensures Statuses(StatusOf(callback, status), cb) == if callback == Some(cb) then [status] else []
  {
    if callback.Some? {
      StatusesOfOne(Event(callback.value, status), cb);
    }
  }

  lemma RegisterKeepsFate(limits: Limits, s: System, op: Op, cb: Callback)
    requires Enabled(s, op) && op.Register? && Fate(s, cb)
    requires Safe(s.d.commands, op.c.key)
    ensures Fate(Step(limits, s, op), cb)
  {
    var c, prior := op.c, CallbackAt(s.d.commands, op.c.key);
    SafeAborts(s.d.commands, c.key);
    StatusesJoin(s.log, RegisterEvents(s.d, c), cb);
    StatusesOf(prior, Aborted, cb);
    PutWaits(s.d.commands, c, cb);
    if prior == Some(cb) {
      FoundWaits(s.d.commands, c.key, cb);
    }
  }

  lemma BuildKeepsFate(limits: Limits, s: System, op: Op, cb: Callback)
    requires Enabled(s, op) && op.BuildRequest? && Fate(s, cb)
    ensures Fate(Step(limits, s, op), cb)
  {
    StatusesJoin(s.log, RequestEvents(s.d), cb);
    if Dispatches(s.d) {
      StatusesOf(s.d.commands[0].value.callback, InProgress, cb);
    }
  }

  /** A poll fails the active callback, or leaves it as it is. */
  lemma PollFailsOrKeeps(d: Driver, request: Request, board: Board)
    requires |request.commands| <= 1
    ensures var polled := Polled(d, request, board);
      || (polled.events == [] && polled.active == d.active)
      || (polled.events == StatusOf(d.active, TaskStatus.Failed) && polled.active == None)
  {
    PolledOne(d, request, board);
  }

  lemma PollKeepsFate(limits: Limits, s: System, op: Op, cb: Callback)
    requires Enabled(s, op) && op.PollBoard? && Shape(s) && Fate(s, cb)
    ensures Fate(Step(limits, s, op), cb)
  {
    var polled := Polled(s.d, s.phase.request, op.board);
    PollFailsOrKeeps(s.d, s.phase.request, op.board);
    if polled.events == [] && polled.active == s.d.active {
      assert s.log + [] == s.log;
    } else {
      StatusesJoin(s.log, StatusOf(s.d.active, TaskStatus.Failed), cb);
      StatusesOf(s.d.active, TaskStatus.Failed, cb);
    }
  }

  lemma SucceedKeepsFate(limits: Limits, s: System, op: Op, cb: Callback)
    requires Enabled(s, op) && op.Succeed? && Fate(s, cb)
    ensures Fate(Step(limits, s, op), cb)
  {
    if Finishes(s.d, s.phase.replies) {
      StatusesJoin(s.log, StatusOf(s.d.active, Completed), cb);
      StatusesOf(s.d.active, Completed, cb);
    } else {
      assert s.log + [] == s.log;
    }
  }

  /** The only step that can break a callback's life is a turn-all request that finds individual commands waiting. */
  ghost predicate SafeOp(s: System, op: Op) {
    op.Register? ==> Safe(s.d.commands, op.c.key)
  }

  lemma StepKeepsFate(limits: Limits, s: System, op: Op, cb: Callback)
    requires Enabled(s, op) && Shape(s) && Fate(s, cb) && SafeOp(s, op)
    ensures Fate(Step(limits, s, op), cb)
  {
    match op
    case Register(_) => RegisterKeepsFate(limits, s, op, cb);
    case BuildRequest(_) => BuildKeepsFate(limits, s, op, cb);
    case PollBoard(_) => PollKeepsFate(limits, s, op, cb);
    case Succeed => SucceedKeepsFate(limits, s, op, cb);
    case _ =>
  }

  ghost predicate SafeRun(limits: Limits, s: System, ops: seq<Op>)
    requires Runnable(limits, s, ops)
    decreases |ops|
  {
    ops != [] ==> SafeOp(s, ops[0]) && SafeRun(limits, Step(limits, s, ops[0]), ops[1..])
  }

  lemma {:induction false} RunKeepsFate(limits: Limits, s: System, ops: seq<Op>, cb: Callback)
    requires Runnable(limits, s, ops) && SafeRun(limits, s, ops) && Shape(s) && Fate(s, cb)
    ensures Shape(Run(limits, s, ops)) && Fate(Run(limits, s, ops), cb)
    decreases |ops|
  {
    if ops != [] {
      StepKeepsShape(limits, s, ops[0]);
      StepKeepsFate(limits, s, ops[0], cb);
      RunKeepsFate(limits, Step(limits, s, ops[0]), ops[1..], cb);
    }
  }

  /** The life of a callback in every run from the start, for every board: nothing, or ABORTED, or IN_PROGRESS and then
      at most one of FAILED and COMPLETED. Nothing follows a terminal status, and no aborted command is dispatched. */
  lemma CallbackLifecycle(limits: Limits, ops: seq<Op>, cb: Callback)
    requires Runnable(limits, Start(limits), ops) && SafeRun(limits, Start(limits), ops)
    ensures var told := Statuses(Run(limits, Start(limits), ops).log, cb);
      told == [] || told == [Aborted] || told == [InProgress]
      || told == [InProgress, TaskStatus.Failed] || told == [InProgress, Completed]
  {
    RunKeepsFate(limits, Start(limits), ops, cb);
  }

  /** A registration keeps every callback's life in order if and only if it is not a turn-all request (number 0) that
      finds an individual command with a callback waiting. */
  lemma RegistrationIsSafeExactly(limits: Limits, s: System, op: Op)
    requires Enabled(s, op) && op.Register? && Shape(s)
    requires forall cb :: Fate(s, cb)
    ensures (forall cb :: Fate(Step(limits, s, op), cb)) <==> Safe(s.d.commands, op.c.key)
  {
    if Safe(s.d.commands, op.c.key) {
      forall cb ensures Fate(Step(limits, s, op), cb) {
        RegisterKeepsFate(limits, s, op, cb);
      }
    } else {
      var k :| k in Superseded(op.c.key) && k != op.c.key && CallbackAt(s.d.commands, k) != None;
      var cb := CallbackAt(s.d.commands, k).value;
      AbortIsTold(s.d.commands, Superseded(op.c.key), k, cb);
      StatusesJoin(s.log, RegisterEvents(s.d, op.c), cb);
      PutKeepsOthers(s.d.commands, op.c, k);
      FoundWaits(Put(s.d.commands, op.c), k, cb);
      assert !Fate(Step(limits, s, op), cb);
    }
  }

  lemma DispatchIsTold(limits: Limits, s: System, cb: Callback)
    requires s.phase.Idle? && Dispatches(s.d) && s.d.commands[0].value.callback == Some(cb)
    ensures var s' := Step(limits, s, BuildRequest(None));
      Statuses(s'.log, cb) == Statuses(s.log, cb) + [InProgress] && s'.d.active == Some(cb)
  {
    StatusesOfOne(Event(cb, InProgress), cb);
    StatusesJoin(s.log, [Event(cb, InProgress)], cb);
  }

  // ---------- No dispatched callback is lost ----------

  /** No poll raises after its command was answered OK. */
  ghost predicate CleanOp(s: System, op: Op)
    requires Enabled(s, op)
  {
    op.PollBoard? && s.phase.request.commands != [] && op.board.command(0).Ok? ==>
      !PollRaises(s.d, s.phase.request, op.board)
  }

  /** No active callback has been overwritten, and the one there is will hear of its command: the board is busy
      with it, or its answer is about to be handled. */
  ghost predicate Settled(s: System) {
    && s.overwritten == {}
    && (s.d.active.Some? && !s.d.busy ==>
          match s.phase
          case Requested(request) => request.commands != []
          case Replied(replies) => replies != []
          case _ => false)
  }

  lemma StepKeepsSettled(limits: Limits, s: System, op: Op)
    requires Enabled(s, op) && Shape(s) && Settled(s) && CleanOp(s, op)
    ensures Settled(Step(limits, s, op))
  {
    if op.PollBoard? {
      PolledOne(s.d, s.phase.request, op.board);
    } else if op.Succeed? {
      CompletedOne(s.phase.replies);
    }
  }

  lemma CompletedOne(replies: seq<Reply>)
    requires |replies| <= 1
    ensures CompletedReply(replies)
         == if replies != [] && replies[0].action == CommandCompleted then Some(replies[0].truthy) else None
  {
    if replies != [] {
      assert replies[..|replies| - 1] == [];
    }
  }

  /** While the command of an active callback is in flight, the poll keeps it settled if and only if it does not raise
      after an OK answer. What becomes of a callback that is no longer settled is the subject of
      `SubrackFailures.OverwrittenExactly`. */
  lemma PollSettlesExactly(limits: Limits, s: System, op: Op)
    requires Enabled(s, op) && op.PollBoard? && Shape(s) && Settled(s)
    requires s.d.active.Some? && !s.d.busy
    ensures Settled(Step(limits, s, op)) <==> CleanOp(s, op)
  {
    PolledOne(s.d, s.phase.request, op.board);
  }

  ghost predicate CleanRun(limits: Limits, s: System, ops: seq<Op>)
    requires Runnable(limits, s, ops)
    decreases |ops|
  {
    ops != [] ==> CleanOp(s, ops[0]) && CleanRun(limits, Step(limits, s, ops[0]), ops[1..])
  }

  lemma {:induction false} RunKeepsSettled(limits: Limits, s: System, ops: seq<Op>)
    requires Runnable(limits, s, ops) && CleanRun(limits, s, ops) && Shape(s) && Settled(s)
    ensures Shape(Run(limits, s, ops)) && Settled(Run(limits, s, ops))
    decreases |ops|
  {
    if ops != [] {
      StepKeepsShape(limits, s, ops[0]);
      StepKeepsSettled(limits, s, ops[0]);
      RunKeepsSettled(limits, Step(limits, s, ops[0]), ops[1..]);
    }
  }

  /** If no poll raises after an OK answer, no dispatched callback is overwritten: every callback registered is
      waiting, active, dropped by a later health request, or has been told exactly one terminal status. */
  lemma EveryCallbackAccountedFor(limits: Limits, ops: seq<Op>, cb: Callback)
    requires Runnable(limits, Start(limits), ops) && SafeRun(limits, Start(limits), ops)
    requires CleanRun(limits, Start(limits), ops)
    ensures var s := Run(limits, Start(limits), ops);
      cb in s.registered && Waiting(s.d.commands, cb) == 0 && s.d.active != Some(cb) && cb !in s.dropped ==>
        Statuses(s.log, cb)
        in {[Aborted], [InProgress, TaskStatus.Failed], [InProgress, Completed]}
  {
    RunKeepsFate(limits, Start(limits), ops, cb);
    RunKeepsSettled(limits, Start(limits), ops);
  }

  // ---------- While the board is busy ----------

  /** No poll of the run reports `command_completed` true. */
  ghost predicate StillRunning(limits: Limits, s: System, ops: seq<Op>)
    requires Runnable(limits, s, ops)
    decreases |ops|
  {
    ops != [] ==>
      && (ops[0].Succeed? ==> CompletedReply(s.phase.replies) != Some(true))
      && StillRunning(limits, Step(limits, s, ops[0]), ops[1..])
  }

  /** The requests built in a run, in order. */
  ghost function Built(limits: Limits, s: System, ops: seq<Op>): seq<Request>
    requires Runnable(limits, s, ops)
    decreases |ops|
  {
    if ops == [] then []
    else
      (if ops[0].BuildRequest? then [Step(limits, s, ops[0]).phase.request] else [])
      + Built(limits, Step(limits, s, ops[0]), ops[1..])
  }

  /** The waiting commands and writes after nothing but registrations. */
  function OnlyRegistered(commands: seq<Command>, ops: seq<Op>): seq<Command>
    decreases |ops|
  {
    if ops == [] then commands
    else OnlyRegistered(if ops[0].Register? then Put(commands, ops[0].c) else commands, ops[1..])
  }

  function OnlyWritten(writes: seq<Write>, ops: seq<Op>): seq<Write>
    decreases |ops|
  {
    if ops == [] then writes
    else OnlyWritten(if ops[0].WriteValues? then PutAll(writes, ops[0].values) else writes, ops[1..])
  }

  /** How many callbacks have been told COMPLETED. */
  function Completions(log: seq<Event>): (n: nat) {
    if log == [] then 0
    else Completions(log[..|log| - 1]) + if log[|log| - 1].status == Completed then 1 else 0
  }

  lemma {:induction false} CompletionsJoin(log: seq<Event>, more: seq<Event>)
    ensures Completions(log + more) == Completions(log) + Completions(more)
  {
    if more == [] {
      assert log + more == log;
    } else {
      CompletionsJoin(log, more[..|more| - 1]);
      assert (log + more)[..|log + more| - 1] == log + more[..|more| - 1];
    }
  }

  lemma {:induction false} AbortsCompleteNothing(commands: seq<Command>, keys: seq<Key>)
    ensures Completions(AbortsAt(commands, keys)) == 0
  {
    if keys != [] {
      var first := AbortOf(CallbackAt(commands, keys[0]));
      AbortsCompleteNothing(commands, keys[1..]);
      CompletionsJoin(first, AbortsAt(commands, keys[1..]));
      assert first == [] || first[..|first| - 1] == [];
    }
  }

  lemma BusyStep(limits: Limits, s: System, op: Op)
    requires Enabled(s, op) && Shape(s) && s.d.busy
    requires op.Succeed? ==> CompletedReply(s.phase.replies) != Some(true)
    ensures var s' := Step(limits, s, op);
      && s'.d.busy
      && (op.BuildRequest? ==> s'.phase.request == Request([CommandCompleted], [], 0))
      && s'.d.commands == (if op.Register? then Put(s.d.commands, op.c) else s.d.commands)
      && s'.d.writes == (if op.WriteValues? then PutAll(s.d.writes, op.values) else s.d.writes)
  {
    if op.PollBoard? {
      PolledOne(s.d, s.phase.request, op.board);
    }
  }

  lemma BusyStepCompletesNothing(limits: Limits, s: System, op: Op)
    requires Enabled(s, op) && Shape(s) && s.d.busy
    requires op.Succeed? ==> CompletedReply(s.phase.replies) != Some(true)
    ensures Completions(Step(limits, s, op).log) == Completions(s.log)
  {
    match op
    case Register(c) =>
      AbortsCompleteNothing(s.d.commands, Superseded(c.key));
      CompletionsJoin(s.log, RegisterEvents(s.d, c));
    case PollBoard(board) =>
      PolledOne(s.d, s.phase.request, board);
      var events := Polled(s.d, s.phase.request, board).events;
      CompletionsJoin(s.log, events);
      assert events == [] || events[..|events| - 1] == [];
    case Succeed =>
      assert s.log + [] == s.log;
    case BuildRequest(_) =>
      assert s.log + [] == s.log;
    case _ =>
  }

  /** From the moment the board is busy until a poll reports `command_completed` true, every request built carries
      only `command_completed`, no waiting command and no pending write is consumed, and nobody is told COMPLETED. */
  lemma {:induction false} BusyWindow(limits: Limits, s: System, ops: seq<Op>)
    requires Runnable(limits, s, ops) && Shape(s) && s.d.busy && StillRunning(limits, s, ops)
    ensures Run(limits, s, ops).d.busy
    ensures forall r :: r in Built(limits, s, ops) ==> r == Request([CommandCompleted], [], 0)
    ensures Run(limits, s, ops).d.commands == OnlyRegistered(s.d.commands, ops)
    ensures Run(limits, s, ops).d.writes == OnlyWritten(s.d.writes, ops)
    ensures Completions(Run(limits, s, ops).log) == Completions(s.log)
    decreases |ops|
  {
    if ops != [] {
      var s' := Step(limits, s, ops[0]);
      BusyStep(limits, s, ops[0]);
      BusyStepCompletesNothing(limits, s, ops[0]);
      StepKeepsShape(limits, s, ops[0]);
      BusyWindow(limits, s', ops[1..]);
    }
  }

  /** A STARTED answer opens such a window. */
  lemma StartedOpensWindow(limits: Limits, s: System, board: Board)
    requires Shape(s) && s.phase.Requested? && s.phase.request.commands != [] && board.command(0).Started?
    ensures Step(limits, s, PollBoard(board)).d.busy
    ensures Step(limits, s, PollBoard(board)).d.active == s.d.active
  {
    PolledOne(s.d, s.phase.request, board);
  }

  /** Every request ever built carries at most one command. */
  lemma {:induction false} AtMostOneCommand(limits: Limits, s: System, ops: seq<Op>)
    requires Runnable(limits, s, ops)
    ensures forall r :: r in Built(limits, s, ops) ==> |r.commands| <= 1
    decreases |ops|
  {
    if ops != [] {
      AtMostOneCommand(limits, Step(limits, s, ops[0]), ops[1..]);
    }
  }

  /** The first request built after a busy board reports completion reads all attributes, whatever is registered or
      written in between. */
  lemma FirstIdleRequestReadsAll(limits: Limits, s: System, ops: seq<Op>, newBios: Option<bool>)
    requires s.phase.Replied? && s.d.busy && CompletedReply(s.phase.replies) == Some(true)
    requires Runnable(limits, Step(limits, s, Succeed), ops)
    requires forall op :: op in ops ==> !op.BuildRequest?
    ensures var s' := Run(limits, Step(limits, s, Succeed), ops);
      !s'.d.busy && s'.phase.Idle? && BuiltRequest(s'.d, limits, newBios).queries == ALL_ATTRIBUTES
  {
    TickStaysDue(limits, Step(limits, s, Succeed), ops);
  }

  lemma {:induction false} TickStaysDue(limits: Limits, s: System, ops: seq<Op>)
    requires s.phase.Idle? && !s.d.busy && s.d.tick >= limits.maxTick && Runnable(limits, s, ops)
    requires forall op :: op in ops ==> !op.BuildRequest?
    ensures var s' := Run(limits, s, ops); s'.phase.Idle? && !s'.d.busy && s'.d.tick >= limits.maxTick
    decreases |ops|
  {
    if ops != [] {
      assert ops[0] in ops;
      assert forall op :: op in ops[1..] ==> op in ops;
      TickStaysDue(limits, Step(limits, s, ops[0]), ops[1..]);
    }
  }
}
