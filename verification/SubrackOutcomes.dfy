/** What the board's answers mean for the callback of the active command, over every run. Everything here is said in
    terms of the answers given and the statuses heard. */
module SubrackOutcomes {
  import opened Basics
  import opened OrderedMap
  import opened SubrackCommands
  import opened SubrackPolling
  import opened SubrackRuns
  import opened SubrackFailures

  // ---------- One poll ----------

  /** The answer is one of those after which nothing more is asked. */
  predicate Breaks(answer: Answer) {
    answer == RequestException || answer == HttpError || answer == OtherStatus
  }

  /** A poll raises if and only if its command, one of its writes or one of its reads is answered with a request
      exception, an HTTP error or an unknown status. */
  lemma PollRaisesExactly(limits: Limits, s: System, board: Board)
    requires s.phase.Requested? && Shape(s)
    ensures Step(limits, s, PollBoard(board)).phase == Broken
       <==> || (s.phase.request.commands != [] && Breaks(board.command(0)))
            || (exists i :: 0 <= i < |s.phase.request.writes| && Breaks(board.write(i)))
            || (exists i :: 0 <= i < s.phase.request.queries && Breaks(board.read(i)))
  {
    PolledOne(s.d, s.phase.request, board);
    if RaisesWithin(board.write, |s.phase.request.writes|) {
      var i :| 0 <= i < |s.phase.request.writes| && Raises(board.write(i));
      assert Breaks(board.write(i));
    }
    if RaisesWithin(board.read, s.phase.request.queries) {
      var i :| 0 <= i < s.phase.request.queries && Raises(board.read(i));
      assert Breaks(board.read(i));
    }
    if i :| 0 <= i < |s.phase.request.writes| && Breaks(board.write(i)) {
      assert Raises(board.write(i));
    }
    if i :| 0 <= i < s.phase.request.queries && Breaks(board.read(i)) {
      assert Raises(board.read(i));
    }
  }

  /** A command is finished by the answer OK; a long-running one, which keeps the board busy, by the answer OK with the
      value true. */
  predicate IsFinished(busy: bool, answer: Answer) {
    answer == Ok(true) || (answer == Ok(false) && !busy)
  }

  /** A command has failed if the answer is neither OK nor STARTED; BUSY is no failure while the board is busy. */
  predicate HasFailed(busy: bool, answer: Answer) {
    match answer
    case Ok(_) => false
    case Started => false
    case Busy => !busy
    case _ => true
  }

  lemma PolledIs(d: Driver, request: Request, board: Board)
    requires |request.commands| <= 1
    ensures var polled, answer := Polled(d, request, board), board.command(0);
      if request.commands == [] then polled.busy == d.busy && polled.active == d.active && polled.events == []
      else
        && polled.busy == (d.busy || answer == Started)
        && polled.active == (if HasFailed(d.busy, answer) then None else d.active)
        && polled.events == if HasFailed(d.busy, answer) then StatusOf(d.active, TaskStatus.Failed) else []
  {
    PolledOne(d, request, board);
    assert [] + StatusOf(d.active, TaskStatus.Failed) == StatusOf(d.active, TaskStatus.Failed);
  }

  /** What a poll does to the callback of the active command. */
  lemma PollTells(limits: Limits, s: System, board: Board, cb: Callback)
    requires s.phase.Requested? && Shape(s) && s.d.active == Some(cb)
    ensures var s', fails := Step(limits, s, PollBoard(board)),
                             s.phase.request.commands != [] && HasFailed(s.d.busy, board.command(0));
      && Statuses(s'.log, cb) == Statuses(s.log, cb) + (if fails then [TaskStatus.Failed] else [])
      && s'.d.active == (if fails then None else Some(cb))
      && s'.d.busy == (s.d.busy || (s.phase.request.commands != [] && board.command(0) == Started))
  {
    PolledIs(s.d, s.phase.request, board);
    if s.phase.request.commands != [] && HasFailed(s.d.busy, board.command(0)) {
      StageAfter(s.log, s.d.active, TaskStatus.Failed, cb);
    } else {
      assert s.log + [] == s.log && Statuses(s.log, cb) + [] == Statuses(s.log, cb);
    }
  }

  /** What is recorded of a poll that did not raise. */
  lemma PollRecords(limits: Limits, s: System, board: Board)
    requires s.phase.Requested? && Shape(s) && Step(limits, s, PollBoard(board)).phase.Replied?
    ensures Step(limits, s, PollBoard(board)).phase.replies
         == if s.phase.request.commands != [] && board.command(0).Ok?
            then [Reply(s.phase.request.commands[0], board.command(0).truthy)] else []
  {
    PolledOne(s.d, s.phase.request, board);
    assert forall r: Reply :: [] + [r] == [r];
  }

  lemma FinishesExactly(s: System)
    requires s.phase.Replied? && Shape(s)
    ensures Finishes(s.d, s.phase.replies) <==> s.phase.replies != [] && (!s.d.busy || s.phase.replies[0].truthy)
  {
    CompletedOne(s.phase.replies);
  }

  /** What the hook after a poll that did not raise does to it. */
  lemma HookTells(limits: Limits, s: System, cb: Callback)
    requires s.phase.Replied? && Shape(s) && s.d.active == Some(cb)
    ensures var s', done := Step(limits, s, Succeed), s.phase.replies != [] && (!s.d.busy || s.phase.replies[0].truthy);
      && Statuses(s'.log, cb) == Statuses(s.log, cb) + (if done then [Completed] else [])
      && s'.d.active == (if done then None else Some(cb))
      && s'.d.busy == (s.d.busy && !done)
  {
    FinishesExactly(s);
    if Finishes(s.d, s.phase.replies) {
      StageAfter(s.log, s.d.active, Completed, cb);
    } else {
      assert s.log + [] == s.log && Statuses(s.log, cb) + [] == Statuses(s.log, cb);
    }
  }

  // ---------- From a poll to the hook ----------

  /** Registrations and writes, which is all that can come between a poll and its hook. */
  ghost predicate IsTraffic(ops: seq<Op>) {
    forall op :: op in ops ==> op.Register? || op.WriteValues?
  }

  lemma TrafficStep(limits: Limits, s: System, op: Op, cb: Callback)
    requires Enabled(s, op) && (op.Register? || op.WriteValues?) && LooseFate(s, cb) && s.d.active == Some(cb)
    ensures var s' := Step(limits, s, op);
      && s'.phase == s.phase && s'.d.busy == s.d.busy && s'.d.active == s.d.active
      && Statuses(s'.log, cb) == Statuses(s.log, cb)
  {
    if op.Register? {
      AbortsKeepStage(s.log, s.d.commands, Superseded(op.c.key), cb);
    }
  }

  lemma {:induction false} TrafficKeeps(limits: Limits, s: System, ops: seq<Op>, cb: Callback)
    requires Runnable(limits, s, ops) && IsTraffic(ops) && Shape(s) && LooseFate(s, cb) && s.d.active == Some(cb)
    ensures var s' := Run(limits, s, ops);
      && s'.phase == s.phase && s'.d.busy == s.d.busy && s'.d.active == s.d.active
      && Statuses(s'.log, cb) == Statuses(s.log, cb) && Shape(s') && LooseFate(s', cb)
    decreases |ops|
  {
    if ops != [] {
      assert ops[0] in ops && forall op :: op in ops[1..] ==> op in ops;
      TrafficStep(limits, s, ops[0], cb);
      StepKeepsShape(limits, s, ops[0]);
      StepKeepsLooseFate(limits, s, ops[0], cb);
      TrafficKeeps(limits, Step(limits, s, ops[0]), ops[1..], cb);
    }
  }

  /** The hook tells COMPLETED if and only if the command of the poll was answered as finished, and then the board is
      idle with nothing active; otherwise nothing changes for the callback. Meanwhile anything may be registered. */
  lemma HookDecides(limits: Limits, s: System, board: Board, traffic: seq<Op>, cb: Callback)
    requires s.phase.Requested? && Shape(s) && LooseFate(s, cb) && s.d.active == Some(cb)
    requires var polled := Step(limits, s, PollBoard(board));
      polled.phase.Replied? && polled.d.active == Some(cb) && Runnable(limits, polled, traffic) && IsTraffic(traffic)
    ensures Run(limits, Step(limits, s, PollBoard(board)), traffic).phase.Replied?
    ensures var s' := Step(limits, Run(limits, Step(limits, s, PollBoard(board)), traffic), Succeed);
      var done := s.phase.request.commands != [] && IsFinished(s.d.busy, board.command(0));
      && Statuses(s'.log, cb) == Statuses(s.log, cb) + (if done then [Completed] else [])
      && s'.d.active == (if done then None else Some(cb))
      && (done ==> !s'.d.busy)
  {
    var polled := Step(limits, s, PollBoard(board));
    PollTells(limits, s, board, cb);
    PollRecords(limits, s, board);
    StepKeepsShape(limits, s, PollBoard(board));
    StepKeepsLooseFate(limits, s, PollBoard(board), cb);
    TrafficKeeps(limits, polled, traffic, cb);
    HookTells(limits, Run(limits, polled, traffic), cb);
    assert Statuses(s.log, cb) + [] == Statuses(s.log, cb);
  }

  // ---------- Over every run ----------

  lemma {:induction false} RunJoins(limits: Limits, s: System, a: seq<Op>, b: seq<Op>)
    requires Runnable(limits, s, a + b)
    ensures Runnable(limits, s, a) && Runnable(limits, Run(limits, s, a), b)
    ensures Run(limits, s, a + b) == Run(limits, Run(limits, s, a), b)
    decreases |a|
  {
    if a == [] {
      assert a + b == b;
    } else {
      assert (a + b)[0] == a[0] && (a + b)[1..] == a[1..] + b;
      RunJoins(limits, Step(limits, s, a[0]), a[1..], b);
    }
  }

  lemma RunSplits(limits: Limits, s: System, ops: seq<Op>, k: nat)
    requires Runnable(limits, s, ops) && k < |ops|
    ensures Runnable(limits, s, ops[..k]) && Enabled(Run(limits, s, ops[..k]), ops[k])
    ensures var after := Step(limits, Run(limits, s, ops[..k]), ops[k]);
      Runnable(limits, after, ops[k + 1..]) && Run(limits, s, ops) == Run(limits, after, ops[k + 1..])
  {
    assert ops[..k] + ops[k..] == ops && ops[k..][1..] == ops[k + 1..];
    RunJoins(limits, s, ops[..k], ops[k..]);
  }

  /** A run whose last poll waits for its hook: the poll is followed by registrations and writes alone. */
  lemma {:induction false} EndsWithPoll(limits: Limits, ops: seq<Op>) returns (j: nat)
    requires Runnable(limits, Start(limits), ops) && Run(limits, Start(limits), ops).phase.Replied?
    ensures j < |ops| && ops[j].PollBoard? && IsTraffic(ops[j + 1..])
    decreases |ops|
  {
    var last := |ops| - 1;
    RunSplits(limits, Start(limits), ops, last);
    assert ops[last + 1..] == [];
    if ops[last].PollBoard? {
      j := last;
    } else {
      j := EndsWithPoll(limits, ops[..last]);
      assert ops[j + 1..] == ops[..last][j + 1..] + [ops[last]];
    }
  }

  lemma StagesDiffer(told: seq<TaskStatus>, status: TaskStatus)
    ensures StageOf(told + [status]) == Advance(StageOf(told), status)
  {
    assert (told + [status])[..|told|] == told;
  }

  /** Over every run, a callback is told FAILED if and only if it is active and the command of a poll is answered as
      failed: neither OK nor STARTED, and BUSY only on an idle board. */
  lemma FailedExactly(limits: Limits, ops: seq<Op>, op: Op, cb: Callback)
    requires Runnable(limits, Start(limits), ops) && Enabled(Run(limits, Start(limits), ops), op)
    ensures var s := Run(limits, Start(limits), ops);
      Statuses(Step(limits, s, op).log, cb) == Statuses(s.log, cb) + [TaskStatus.Failed]
      <==> op.PollBoard? && s.d.active == Some(cb) && s.phase.request.commands != []
           && HasFailed(s.d.busy, op.board.command(0))
  {
    var s := Run(limits, Start(limits), ops);
    StartIsLoose(limits, ops, cb);
    if op.PollBoard? && s.d.active == Some(cb) {
      PollTells(limits, s, op.board, cb);
    } else {
      NotToldOtherwise(limits, s, op, cb, TaskStatus.Failed);
    }
  }

  lemma Differ(told: seq<TaskStatus>, x: TaskStatus, y: TaskStatus)
    requires x != y
    ensures told + [x] != told + [y]
  {
    assert (told + [x])[|told|] == x && (told + [y])[|told|] == y;
  }

  /** Only a poll tells FAILED, and only a hook tells COMPLETED. */
  lemma NotToldOtherwise(limits: Limits, s: System, op: Op, cb: Callback, status: TaskStatus)
    requires Enabled(s, op) && Shape(s) && LooseFate(s, cb) && (status == TaskStatus.Failed || status == Completed)
    requires op.PollBoard? ==> status == Completed || s.d.active != Some(cb)
    requires op.Succeed? ==> status == TaskStatus.Failed || s.d.active != Some(cb)
    ensures Statuses(Step(limits, s, op).log, cb) != Statuses(s.log, cb) + [status]
  {
    var told := Statuses(s.log, cb);
    match op
    case Register(c) =>
      StagesDiffer(told, status);
      AbortsKeepStage(s.log, s.d.commands, Superseded(c.key), cb);
    case BuildRequest(_) =>
      Differ(told, InProgress, status);
      if Dispatches(s.d) {
        StageAfter(s.log, s.d.commands[0].value.callback, InProgress, cb);
      } else {
        assert s.log + [] == s.log;
      }
    case PollBoard(board) =>
      Differ(told, TaskStatus.Failed, Completed);
      PollFailsOrKeeps(s.d, s.phase.request, board);
      StageAfter(s.log, s.d.active, TaskStatus.Failed, cb);
      assert s.log + [] == s.log;
    case Succeed =>
      Differ(told, TaskStatus.Failed, Completed);
      StageAfter(s.log, s.d.active, Completed, cb);
      assert s.log + [] == s.log;
    case _ =>
  }

  /** Over every run, a callback is told COMPLETED only by the hook after a poll that did not raise
      (`OnlyHooksComplete`), and then if and only if it is active and the command of that poll was answered as
      finished. */
  lemma CompletedExactly(limits: Limits, ops: seq<Op>, cb: Callback) returns (j: nat)
    requires Runnable(limits, Start(limits), ops) && Run(limits, Start(limits), ops).phase.Replied?
    ensures j < |ops| && ops[j].PollBoard? && IsTraffic(ops[j + 1..]) && Runnable(limits, Start(limits), ops[..j])
    ensures Run(limits, Start(limits), ops[..j]).phase.Requested?
    ensures var asked, s := Run(limits, Start(limits), ops[..j]), Run(limits, Start(limits), ops);
      Statuses(Step(limits, s, Succeed).log, cb) == Statuses(s.log, cb) + [Completed]
      <==> && s.d.active == Some(cb) && asked.phase.request.commands != []
           && IsFinished(asked.d.busy, ops[j].board.command(0))
  {
    j := EndsWithPoll(limits, ops);
    RunSplits(limits, Start(limits), ops, j);
    var asked, s := Run(limits, Start(limits), ops[..j]), Run(limits, Start(limits), ops);
    StartIsLoose(limits, ops[..j], cb);
    StartIsLoose(limits, ops, cb);
    if s.d.active == Some(cb) {
      HookAfterTraffic(limits, asked, ops[j].board, ops[j + 1..], cb);
    } else {
      NotToldOtherwise(limits, s, Succeed, cb, Completed);
    }
  }

  lemma OnlyHooksComplete(limits: Limits, ops: seq<Op>, op: Op, cb: Callback)
    requires Runnable(limits, Start(limits), ops) && Enabled(Run(limits, Start(limits), ops), op)
    ensures var s := Run(limits, Start(limits), ops);
      Statuses(Step(limits, s, op).log, cb) == Statuses(s.log, cb) + [Completed]
      ==> op.Succeed? && s.phase.Replied? && s.d.active == Some(cb)
  {
    StartIsLoose(limits, ops, cb);
    if !(op.Succeed? && Run(limits, Start(limits), ops).d.active == Some(cb)) {
      NotToldOtherwise(limits, Run(limits, Start(limits), ops), op, cb, Completed);
    }
  }

  lemma HookAfterTraffic(limits: Limits, asked: System, board: Board, traffic: seq<Op>, cb: Callback)
    requires asked.phase.Requested? && Shape(asked) && LooseFate(asked, cb) && IsTraffic(traffic)
    requires var polled := Step(limits, asked, PollBoard(board));
      && Runnable(limits, polled, traffic) && Run(limits, polled, traffic).phase.Replied?
      && Run(limits, polled, traffic).d.active == Some(cb)
    ensures var s := Run(limits, Step(limits, asked, PollBoard(board)), traffic);
      Statuses(Step(limits, s, Succeed).log, cb) == Statuses(s.log, cb) + [Completed]
      <==> asked.phase.request.commands != [] && IsFinished(asked.d.busy, board.command(0))
  {
    ActiveSincePoll(limits, asked, board, traffic, cb);
    HookDecides(limits, asked, board, traffic, cb);
    TrafficSince(limits, asked, board, traffic, cb);
    var told := Statuses(asked.log, cb);
    assert |told + [Completed]| != |told| && told + [] == told;
  }

  lemma {:induction false} TrafficKeepsActive(limits: Limits, s: System, ops: seq<Op>)
    requires Runnable(limits, s, ops) && IsTraffic(ops)
    ensures Run(limits, s, ops).d.active == s.d.active && Run(limits, s, ops).phase == s.phase
    decreases |ops|
  {
    if ops != [] {
      assert ops[0] in ops && forall op :: op in ops[1..] ==> op in ops;
      TrafficKeepsActive(limits, Step(limits, s, ops[0]), ops[1..]);
    }
  }

  lemma ActiveSincePoll(limits: Limits, s: System, board: Board, traffic: seq<Op>, cb: Callback)
    requires s.phase.Requested? && Shape(s) && IsTraffic(traffic)
    requires var polled := Step(limits, s, PollBoard(board));
      Runnable(limits, polled, traffic) && Run(limits, polled, traffic).d.active == Some(cb)
    ensures s.d.active == Some(cb) && Step(limits, s, PollBoard(board)).d.active == Some(cb)
    ensures Step(limits, s, PollBoard(board)).phase == Run(limits, Step(limits, s, PollBoard(board)), traffic).phase
  {
    TrafficKeepsActive(limits, Step(limits, s, PollBoard(board)), traffic);
    PollFailsOrKeeps(s.d, s.phase.request, board);
  }

  lemma TrafficSince(limits: Limits, s: System, board: Board, traffic: seq<Op>, cb: Callback)
    requires s.phase.Requested? && Shape(s) && LooseFate(s, cb) && s.d.active == Some(cb)
    requires var polled := Step(limits, s, PollBoard(board));
      polled.d.active == Some(cb) && Runnable(limits, polled, traffic) && IsTraffic(traffic)
    ensures Statuses(Run(limits, Step(limits, s, PollBoard(board)), traffic).log, cb) == Statuses(s.log, cb)
  {
    PollTells(limits, s, board, cb);
    StepKeepsShape(limits, s, PollBoard(board));
    StepKeepsLooseFate(limits, s, PollBoard(board), cb);
    TrafficKeeps(limits, Step(limits, s, PollBoard(board)), traffic, cb);
  }

  // ---------- Long-running commands ----------

  /** The board runs a command, and has not reported its completion. */
  ghost predicate IsRunning(s: System) {
    s.d.busy && Shape(s) && (s.phase.Replied? ==> s.phase.replies == [] || !s.phase.replies[0].truthy)
  }

  /** No poll of the run answers that the command is completed. */
  predicate NotCompleted(op: Op) {
    op.PollBoard? ==> op.board.command(0) != Ok(true)
  }

  lemma StepRunsOn(limits: Limits, s: System, op: Op)
    requires Enabled(s, op) && IsRunning(s) && NotCompleted(op)
    ensures IsRunning(Step(limits, s, op))
    ensures Step(limits, s, op).d.active == s.d.active || Step(limits, s, op).d.active == None
  {
    StepKeepsShape(limits, s, op);
    if op.PollBoard? {
      PollFailsOrKeeps(s.d, s.phase.request, op.board);
      if Step(limits, s, op).phase.Replied? {
        PollRecords(limits, s, op.board);
      }
      PolledOne(s.d, s.phase.request, op.board);
    } else if op.Succeed? {
      CompletedOne(s.phase.replies);
    }
  }

  lemma StepTellsNobody(limits: Limits, s: System, op: Op, cb: Callback)
    requires Enabled(s, op) && IsRunning(s) && NotCompleted(op) && LooseFate(s, cb)
    requires s.d.active == Some(cb) && Step(limits, s, op).d.active == Some(cb)
    ensures Statuses(Step(limits, s, op).log, cb) == Statuses(s.log, cb)
  {
    match op
    case Register(_) => TrafficStep(limits, s, op, cb);
    case BuildRequest(_) => assert s.log + [] == s.log;
    case PollBoard(board) => PollTells(limits, s, board, cb);
    case Succeed => HookTells(limits, s, cb);
    case _ =>
  }

  lemma {:induction false} InactiveStays(limits: Limits, s: System, ops: seq<Op>)
    requires Runnable(limits, s, ops) && IsRunning(s) && s.d.active == None
    requires forall op :: op in ops ==> NotCompleted(op)
    ensures Run(limits, s, ops).d.active == None
    decreases |ops|
  {
    if ops != [] {
      assert ops[0] in ops && forall op :: op in ops[1..] ==> op in ops;
      StepRunsOn(limits, s, ops[0]);
      InactiveStays(limits, Step(limits, s, ops[0]), ops[1..]);
    }
  }

  lemma {:induction false} RunsOn(limits: Limits, s: System, ops: seq<Op>, cb: Callback)
    requires Runnable(limits, s, ops) && IsRunning(s) && LooseFate(s, cb) && s.d.active == Some(cb)
    requires (forall op :: op in ops ==> NotCompleted(op)) && Run(limits, s, ops).d.active == Some(cb)
    ensures var s' := Run(limits, s, ops);
      IsRunning(s') && LooseFate(s', cb) && Statuses(s'.log, cb) == Statuses(s.log, cb)
    decreases |ops|
  {
    if ops != [] {
      var s' := Step(limits, s, ops[0]);
      assert ops[0] in ops && forall op :: op in ops[1..] ==> op in ops;
      StepRunsOn(limits, s, ops[0]);
      if s'.d.active == None {
        InactiveStays(limits, s', ops[1..]);
      }
      StepTellsNobody(limits, s, ops[0], cb);
      StepKeepsLooseFate(limits, s, ops[0], cb);
      RunsOn(limits, s', ops[1..], cb);
    }
  }

  /** A command is answered STARTED. Over every run in which no poll answers that it is completed and its callback stays
      active, the callback hears nothing. Then the first poll that does answer so tells it COMPLETED, once, and leaves
      the board idle with nothing active. */
  lemma StartedIsCompleted(limits: Limits, s: System, started: Board, ops: seq<Op>, completed: Board, cb: Callback)
    requires s.phase.Requested? && Shape(s) && LooseFate(s, cb) && s.d.active == Some(cb)
    requires s.phase.request.commands != [] && started.command(0) == Started && completed.command(0) == Ok(true)
    requires var s1 := Step(limits, s, PollBoard(started));
      && Runnable(limits, s1, ops) && (forall op :: op in ops ==> NotCompleted(op))
      && Run(limits, s1, ops).phase.Requested? && Run(limits, s1, ops).d.active == Some(cb)
    ensures var s2 := Step(limits, Run(limits, Step(limits, s, PollBoard(started)), ops), PollBoard(completed));
      && s2.phase.Replied? && Statuses(s2.log, cb) == Statuses(s.log, cb)
      && Statuses(Step(limits, s2, Succeed).log, cb) == Statuses(s.log, cb) + [Completed]
      && !Step(limits, s2, Succeed).d.busy && Step(limits, s2, Succeed).d.active == None
  {
    var s1 := Step(limits, s, PollBoard(started));
    PollTells(limits, s, started, cb);
    if s1.phase.Replied? {
      PollRecords(limits, s, started);
    }
    StepKeepsShape(limits, s, PollBoard(started));
    StepKeepsLooseFate(limits, s, PollBoard(started), cb);
    RunsOn(limits, s1, ops, cb);
    CompletionIsTold(limits, Run(limits, s1, ops), completed, cb);
  }

  lemma CompletionIsTold(limits: Limits, s: System, board: Board, cb: Callback)
    requires s.phase.Requested? && IsRunning(s) && LooseFate(s, cb) && s.d.active == Some(cb)
    requires board.command(0) == Ok(true)
    ensures var polled := Step(limits, s, PollBoard(board));
      && polled.phase.Replied? && Statuses(polled.log, cb) == Statuses(s.log, cb)
      && Statuses(Step(limits, polled, Succeed).log, cb) == Statuses(s.log, cb) + [Completed]
      && !Step(limits, polled, Succeed).d.busy && Step(limits, polled, Succeed).d.active == None
  {
    var polled := Step(limits, s, PollBoard(board));
    PollRaisesExactly(limits, s, board);
    PollTells(limits, s, board, cb);
    PollRecords(limits, s, board);
    StepKeepsShape(limits, s, PollBoard(board));
    HookTells(limits, polled, cb);
    assert Statuses(s.log, cb) + [] == Statuses(s.log, cb);
  }
}
