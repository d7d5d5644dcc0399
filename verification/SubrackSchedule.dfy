/** When the subrack driver writes what was registered, reads all attributes and asks for the health status. */
module SubrackSchedule {
  import opened Basics
  import opened OrderedMap
  import opened SubrackCommands
  import opened SubrackPolling
  import opened SubrackRuns
  import opened SubrackDispatch
  import opened SubrackOutcomes

  // ---------- Writes ----------

  /** All values registered in a run, in order. */
  function AllWrites(ops: seq<Op>): seq<Write> {
    if ops == [] then [] else (if ops[0].WriteValues? then ops[0].values else []) + AllWrites(ops[1..])
  }

  lemma {:induction false} PutAllJoins(writes: seq<Write>, a: seq<Write>, b: seq<Write>)
    ensures PutAll(writes, a + b) == PutAll(PutAll(writes, a), b)
    decreases |a|
  {
    if a == [] {
      assert a + b == b;
    } else {
      assert (a + b)[0] == a[0] && (a + b)[1..] == a[1..] + b;
      PutAllJoins(Put(writes, a[0]), a[1..], b);
    }
  }

  lemma {:induction false} WritesGather(limits: Limits, s: System, ops: seq<Op>)
    requires Runnable(limits, s, ops) && IdleRequests(limits, s, ops) == []
    ensures Run(limits, s, ops).d.writes == PutAll(s.d.writes, AllWrites(ops))
    decreases |ops|
  {
    if ops != [] {
      var s', rest := Step(limits, s, ops[0]), AllWrites(ops[1..]);
      assert !BuildsIdle(s, ops[0]);
      WritesGather(limits, s', ops[1..]);
      if ops[0].WriteValues? {
        PutAllJoins(s.d.writes, ops[0].values, rest);
      } else {
        assert [] + rest == rest;
      }
    }
  }

  /** Over every run, the first request for an idle board writes the last value registered for each attribute since the
      one before, and no other attribute; and nothing is pending after it. */
  lemma WritesGoOut(limits: Limits, s: System, ops: seq<Op>, newBios: Option<bool>, name: string)
    requires Runnable(limits, s, ops) && IdleRequests(limits, s, ops) == [] && s.d.writes == []
    requires Run(limits, s, ops).phase.Idle? && !Run(limits, s, ops).d.busy
    ensures var s' := Step(limits, Run(limits, s, ops), BuildRequest(newBios));
      Lookup(s'.phase.request.writes, name) == Latest(AllWrites(ops), name) && s'.d.writes == []
  {
    WritesGather(limits, s, ops);
    PutAllUpdates([], AllWrites(ops), name);
  }

  // ---------- Reads ----------

  /** How many requests a run builds, for a busy or an idle board. */
  function Builds(ops: seq<Op>): (n: nat) {
    if ops == [] then 0 else (if ops[0].BuildRequest? then 1 else 0) + Builds(ops[1..])
  }

  /** The hook ends a long-running command. */
  ghost predicate Completes(s: System, op: Op)
    requires Enabled(s, op)
  {
    op.Succeed? && s.d.busy && s.phase.replies != [] && s.phase.replies[0].truthy
  }

  /** No step of the run builds a request that reads, ends a long-running command or stops the polling. */
  ghost predicate NoRead(limits: Limits, s: System, ops: seq<Op>)
    requires Runnable(limits, s, ops)
    decreases |ops|
  {
    ops != [] ==>
      var s' := Step(limits, s, ops[0]);
      && !ops[0].Stop? && !Completes(s, ops[0]) && (ops[0].BuildRequest? ==> s'.phase.request.queries == 0)
      && NoRead(limits, s', ops[1..])
  }

  lemma TickStep(limits: Limits, s: System, op: Op)
    requires Enabled(s, op) && Shape(s) && !op.Stop? && !Completes(s, op)
    requires op.BuildRequest? ==> Step(limits, s, op).phase.request.queries == 0
    ensures Step(limits, s, op).d.tick == s.d.tick + if op.BuildRequest? then 1 else 0
  {
    if op.Succeed? {
      FinishesExactly(s);
    }
  }

  lemma {:induction false} TickCounts(limits: Limits, s: System, ops: seq<Op>)
    requires Runnable(limits, s, ops) && Shape(s) && NoRead(limits, s, ops)
    ensures Run(limits, s, ops).d.tick == s.d.tick + Builds(ops)
    decreases |ops|
  {
    if ops != [] {
      TickStep(limits, s, ops[0]);
      StepKeepsShape(limits, s, ops[0]);
      TickCounts(limits, Step(limits, s, ops[0]), ops[1..]);
    }
  }

  /** Over every run: once all attributes have been read, the next request for an idle board that reads them is the
      first after at least `maxTick` others, and it reads all 19; until then requests read nothing. */
  lemma ReadsInTurn(limits: Limits, s: System, ops: seq<Op>, newBios: Option<bool>)
    requires Runnable(limits, s, ops) && Shape(s) && NoRead(limits, s, ops) && s.d.tick == 0
    requires Run(limits, s, ops).phase.Idle?
    ensures var before := Run(limits, s, ops);
      var after := Step(limits, before, BuildRequest(newBios));
      && after.phase.request.queries == (if !before.d.busy && Builds(ops) >= limits.maxTick then 19 else 0)
      && (after.phase.request.queries > 0 ==> after.d.tick == 0)
  {
    TickCounts(limits, s, ops);
  }

  // ---------- Health ----------

  /** No step of the run adds a health poll to a request, ends a long-running command or stops the polling. */
  ghost predicate NoHealthPoll(limits: Limits, s: System, ops: seq<Op>)
    requires Runnable(limits, s, ops)
    decreases |ops|
  {
    ops != [] ==>
      var s' := Step(limits, s, ops[0]);
      && !ops[0].Stop? && !Completes(s, ops[0])
      && (BuildsIdle(s, ops[0]) && s.d.commands == [] ==> s'.phase.request.commands == [])
      && NoHealthPoll(limits, s', ops[1..])
  }

  lemma HealthTickStep(limits: Limits, s: System, op: Op)
    requires Enabled(s, op) && Shape(s) && !op.Stop? && !Completes(s, op) && s.d.pollCommands
    requires BuildsIdle(s, op) && s.d.commands == [] ==> Step(limits, s, op).phase.request.commands == []
    ensures Step(limits, s, op).d.commandTick == s.d.commandTick + if op.BuildRequest? then 1 else 0
    ensures Step(limits, s, op).d.pollCommands
  {
    if op.Succeed? {
      FinishesExactly(s);
    }
  }

  lemma {:induction false} HealthTickCounts(limits: Limits, s: System, ops: seq<Op>)
    requires Runnable(limits, s, ops) && Shape(s) && NoHealthPoll(limits, s, ops) && s.d.pollCommands
    ensures Run(limits, s, ops).d.commandTick == s.d.commandTick + Builds(ops) && Run(limits, s, ops).d.pollCommands
    decreases |ops|
  {
    if ops != [] {
      HealthTickStep(limits, s, ops[0]);
      StepKeepsShape(limits, s, ops[0]);
      HealthTickCounts(limits, Step(limits, s, ops[0]), ops[1..]);
    }
  }

  /** Over every run with a board that knows the health command: once the health status has been asked for, it is added
      to the first request for an idle board after at least `commandMaxTick` others for which no command waits. */
  lemma HealthInTurn(limits: Limits, s: System, ops: seq<Op>, newBios: Option<bool>)
    requires Runnable(limits, s, ops) && Shape(s) && NoHealthPoll(limits, s, ops) && s.d.pollCommands
    requires s.d.commandTick == 0 && Run(limits, s, ops).phase.Idle? && !Run(limits, s, ops).d.busy
    ensures var before := Run(limits, s, ops);
      var after := Step(limits, before, BuildRequest(newBios));
      && after.phase.request.commands
         == (if before.d.commands != [] then [before.d.commands[0].value.action]
             else if Builds(ops) >= limits.commandMaxTick then [GetHealthStatus("")]
             else [])
      && (before.d.commands == [] && after.phase.request.commands != [] ==> after.d.commandTick == 0)
  {
    HealthTickCounts(limits, s, ops);
  }

  /** What the first look at the board information found, so far: whether the board knows the health command. It is
      taken when a request is built for an idle board and a health poll is due. */
  ghost function BiosFound(limits: Limits, s: System, found: Option<bool>, ops: seq<Op>): Option<bool>
    requires Runnable(limits, s, ops)
    decreases |ops|
  {
    if ops == [] then found
    else
      var looks := BuildsIdle(s, ops[0]) && s.d.commandTick >= limits.commandMaxTick;
      BiosFound(limits, Step(limits, s, ops[0]), if found == None && looks then ops[0].newBios else found, ops[1..])
  }

  ghost predicate FollowsBios(s: System, found: Option<bool>) {
    s.d.checkedBios == found.Some? && s.d.pollCommands == (found == Some(true))
  }

  lemma BiosStep(limits: Limits, s: System, found: Option<bool>, op: Op)
    requires Enabled(s, op) && FollowsBios(s, found)
    ensures var looks := BuildsIdle(s, op) && s.d.commandTick >= limits.commandMaxTick;
      FollowsBios(Step(limits, s, op), if found == None && looks then op.newBios else found)
  {
  }

  lemma {:induction false} BiosFollows(limits: Limits, s: System, found: Option<bool>, ops: seq<Op>)
    requires Runnable(limits, s, ops) && FollowsBios(s, found)
    ensures FollowsBios(Run(limits, s, ops), BiosFound(limits, s, found, ops))
    decreases |ops|
  {
    if ops != [] {
      var looks := BuildsIdle(s, ops[0]) && s.d.commandTick >= limits.commandMaxTick;
      BiosStep(limits, s, found, ops[0]);
      BiosFollows(limits, Step(limits, s, ops[0]), if found == None && looks then ops[0].newBios else found, ops[1..]);
    }
  }

  /** Over every run from the start, the board is asked for its health if and only if the first look at its information
      found that it knows the command. */
  lemma HealthIsEnabledExactly(limits: Limits, ops: seq<Op>)
    requires Runnable(limits, Start(limits), ops)
    ensures Run(limits, Start(limits), ops).d.pollCommands
       <==> BiosFound(limits, Start(limits), None, ops) == Some(true)
  {
    BiosFollows(limits, Start(limits), None, ops);
  }

  /** Otherwise an idle request for which no command waits carries none. */
  lemma NoHealthUnlessEnabled(limits: Limits, s: System, newBios: Option<bool>)
    requires s.phase.Idle? && !s.d.busy && s.d.commands == [] && !s.d.pollCommands && newBios != Some(true)
    ensures Step(limits, s, BuildRequest(newBios)).phase.request.commands == []
  {
  }

  /** The board information is looked at again, if it was not there yet, after as many requests as before. */
  lemma DisabledRestarts(limits: Limits, s: System, newBios: Option<bool>)
    requires s.phase.Idle? && !s.d.busy && s.d.commandTick >= limits.commandMaxTick
    requires !Step(limits, s, BuildRequest(newBios)).d.pollCommands
    ensures Step(limits, s, BuildRequest(newBios)).d.commandTick == 0
  {
  }

  // ---------- What makes both due ----------

  /** The next request for an idle board reads all attributes, and asks for the health status if no command waits and
      the board knows the command. */
  ghost predicate IsDue(limits: Limits, s: System) {
    && s.phase.Idle? && !s.d.busy
    && forall newBios: Option<bool> ::
         var asked := Step(limits, s, BuildRequest(newBios));
         && asked.phase.request.queries == 19
         && (s.d.commands == [] && s.d.pollCommands ==> asked.phase.request.commands == [GetHealthStatus("")])
  }

  lemma DueAfterStop(limits: Limits, s: System)
    requires s.phase.Idle? && !s.d.busy
    ensures IsDue(limits, Step(limits, s, Stop))
  {
  }

  lemma DueAfterCompletion(limits: Limits, s: System)
    requires s.phase.Replied? && Shape(s) && Completes(s, Succeed)
    ensures IsDue(limits, Step(limits, s, Succeed))
  {
    FinishesExactly(s);
  }
}
