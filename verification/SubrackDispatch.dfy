/** The order and promptness with which the subrack driver dispatches the commands that wait. */
module SubrackDispatch {
  import opened Basics
  import opened OrderedMap
  import opened SubrackCommands
  import opened SubrackPolling
  import opened SubrackRuns

  /** The step builds a request for an idle board. */
  predicate BuildsIdle(s: System, op: Op) {
    op.BuildRequest? && !s.d.busy
  }

  /** The requests a run builds for an idle board, in order. */
  ghost function IdleRequests(limits: Limits, s: System, ops: seq<Op>): seq<Request>
    requires Runnable(limits, s, ops)
    decreases |ops|
  {
    if ops == [] then []
    else
      var s' := Step(limits, s, ops[0]);
      (if BuildsIdle(s, ops[0]) then [s'.phase.request] else []) + IdleRequests(limits, s', ops[1..])
  }

  /** Nothing registered in the run supersedes the command under a key. */
  ghost predicate Keeps(ops: seq<Op>, key: Key) {
    forall op :: op in ops ==> !(op.Register? && op.c.key == key)
  }

  ghost predicate DistinctKeys(commands: seq<Command>) {
    forall i, j :: 0 <= i < j < |commands| ==> commands[i].key != commands[j].key
  }

  lemma {:induction false} PutKeepsPlace(commands: seq<Command>, c: Command, k: nat)
    requires k < |commands| && commands[k].key != c.key
    ensures k < |Put(commands, c)| && Put(commands, c)[k] == commands[k]
  {
    if k > 0 && commands[0].key != c.key {
      PutKeepsPlace(commands[1..], c, k - 1);
    }
  }

  /** A step leaves a command where it is, or moves it up by one place if it builds an idle request. */
  lemma StepMovesUp(limits: Limits, s: System, op: Op, k: nat)
    requires Enabled(s, op) && k < |s.d.commands|
    requires !(op.Register? && op.c.key == s.d.commands[k].key)
    requires BuildsIdle(s, op) ==> k > 0
    ensures var place, commands := if BuildsIdle(s, op) then k - 1 else k, Step(limits, s, op).d.commands;
      place < |commands| && commands[place] == s.d.commands[k]
  {
    if op.Register? {
      PutKeepsPlace(s.d.commands, op.c, k);
    }
  }

  /** A command with `k` ahead of it is in the request number `k + 1`, and waits until there are so many. */
  ghost predicate InTurn(built: seq<Request>, waiting: seq<Command>, c: Command, k: nat) {
    if |built| > k then built[k].commands == [c.value.action]
    else k - |built| < |waiting| && waiting[k - |built|] == c
  }

  lemma OneLater(r: Request, built: seq<Request>, waiting: seq<Command>, c: Command, k: nat)
    requires InTurn(built, waiting, c, k)
    ensures InTurn([r] + built, waiting, c, k + 1)
  {
  }

  /** Commands are dispatched in turn, one by every request built for an idle board: a command with `k` ahead of it
      is in the idle request number `k + 1`, and waits until then, whatever is registered, answered or superseded
      around it. */
  lemma {:induction false} DispatchedInTurn(limits: Limits, s: System, ops: seq<Op>, k: nat)
    requires Runnable(limits, s, ops) && k < |s.d.commands| && Keeps(ops, s.d.commands[k].key)
    ensures InTurn(IdleRequests(limits, s, ops), Run(limits, s, ops).d.commands, s.d.commands[k], k)
    decreases |ops|
  {
    if ops != [] {
      var s' := Step(limits, s, ops[0]);
      var built, c := IdleRequests(limits, s', ops[1..]), s.d.commands[k];
      KeepsRest(ops, c.key);
      if !BuildsIdle(s, ops[0]) {
        StepMovesUp(limits, s, ops[0], k);
        DispatchedInTurn(limits, s', ops[1..], k);
        assert [] + built == built;
      } else if k > 0 {
        StepMovesUp(limits, s, ops[0], k);
        DispatchedInTurn(limits, s', ops[1..], k - 1);
        OneLater(s'.phase.request, built, Run(limits, s', ops[1..]).d.commands, c, k - 1);
      }
    }
  }

  lemma KeepsRest(ops: seq<Op>, key: Key)
    requires ops != [] && Keeps(ops, key)
    ensures Keeps(ops[1..], key) && !(ops[0].Register? && ops[0].c.key == key)
  {
    assert ops[0] in ops && forall op :: op in ops[1..] ==> op in ops;
  }

  lemma {:induction false} LookupFinds(commands: seq<Command>, key: Key)
    ensures Lookup(commands, key) == None <==> forall i :: 0 <= i < |commands| ==> commands[i].key != key
  {
    if commands != [] && commands[0].key != key {
      LookupFinds(commands[1..], key);
      assert forall i :: 1 <= i < |commands| ==> commands[i] == commands[1..][i - 1];
    }
  }

  lemma StepBringsNothing(limits: Limits, s: System, op: Op, key: Key)
    requires Enabled(s, op) && Lookup(s.d.commands, key) == None && !(op.Register? && op.c.key == key)
    ensures Lookup(Step(limits, s, op).d.commands, key) == None
  {
    if op.Register? {
      PutUpdates(s.d.commands, op.c, key);
    }
  }

  lemma {:induction false} NotAgain(limits: Limits, s: System, ops: seq<Op>, key: Key)
    requires Runnable(limits, s, ops) && Lookup(s.d.commands, key) == None && Keeps(ops, key)
    ensures Lookup(Run(limits, s, ops).d.commands, key) == None
    decreases |ops|
  {
    if ops != [] {
      KeepsRest(ops, key);
      StepBringsNothing(limits, s, ops[0], key);
      NotAgain(limits, Step(limits, s, ops[0]), ops[1..], key);
    }
  }

  lemma {:induction false} PutKeepsDistinct(commands: seq<Command>, c: Command)
    requires DistinctKeys(commands)
    ensures DistinctKeys(Put(commands, c))
  {
    if commands != [] && commands[0].key != c.key {
      var first, others := commands[0].key, commands[1..];
      PutKeepsDistinct(others, c);
      LookupFinds(others, first);
      PutUpdates(others, c, first);
      LookupFinds(Put(others, c), first);
    }
  }

  /** Once dispatched, a command does not wait any more: each is dispatched once. */
  lemma {:induction false} DispatchedOnce(limits: Limits, s: System, ops: seq<Op>, k: nat)
    requires Runnable(limits, s, ops) && DistinctKeys(s.d.commands)
    requires k < |s.d.commands| && Keeps(ops, s.d.commands[k].key)
    ensures Lookup(Run(limits, s, ops).d.commands, s.d.commands[k].key) == None
       <==> |IdleRequests(limits, s, ops)| > k
    decreases |ops|
  {
    var key := s.d.commands[k].key;
    if ops == [] {
      LookupFinds(s.d.commands, key);
    } else {
      KeepsRest(ops, key);
      var s' := Step(limits, s, ops[0]);
      if BuildsIdle(s, ops[0]) && k == 0 {
        LookupFinds(s'.d.commands, key);
        NotAgain(limits, s', ops[1..], key);
      } else {
        StepMovesUp(limits, s, ops[0], k);
        if ops[0].Register? {
          PutKeepsDistinct(s.d.commands, ops[0].c);
        }
        DispatchedOnce(limits, s', ops[1..], if BuildsIdle(s, ops[0]) then k - 1 else k);
      }
    }
  }
}
