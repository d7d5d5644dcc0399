/** What a run of the request provider looks like from outside: what is returned, what stays up to date and what the
    `initialise_queued` flag says, in terms of the calls that were made and the answers they gave. */
module RequestHistories {
  import opened Basics
  import opened TpmPolling
  import opened RequestQueue
  import opened RequestProvider
  import opened RequestRuns

  /** What call `k` of a run from the start does. */
  function OutcomeAt(tables: Tables, ops: seq<Op>, k: nat): Outcome
    requires k < |ops|
  {
    Step(tables, Run(tables, INITIAL, ops[..k]).final, ops[k])
  }

  lemma RunUnfolds(tables: Tables, p: Provider, ops: seq<Op>, rest: seq<Op>)
    requires ops != [] && rest == ops[1..]
    ensures Run(tables, p, ops).final == Run(tables, Step(tables, p, ops[0]).next, rest).final
  {
  }

  lemma {:induction false} RunLast(tables: Tables, p: Provider, ops: seq<Op>, last: Op)
    ensures Run(tables, p, ops + [last]).final == Step(tables, Run(tables, p, ops).final, last).next
    decreases |ops|
  {
    if ops == [] {
      RunUnfolds(tables, p, [last], []);
      assert [] + [last] == [last];
    } else {
      RunUnfolds(tables, p, ops, ops[1..]);
      RunUnfolds(tables, p, ops + [last], ops[1..] + [last]);
      RunLast(tables, Step(tables, p, ops[0]).next, ops[1..], last);
    }
  }

  // ---------- What is returned ----------

  /** The time after which a request that is enqueued must not be run. */
  function Deadline(op: Op): real
    requires op.Enqueue?
  {
    if op.wipeTime.None? then op.now + 60.0 else op.wipeTime.value
  }

  /** Calls that leave nothing of the old queue. */
  predicate Empties(op: Op) {
    op.Cleanup? || (op.Enqueue? && IsInitialise(op.request))
  }

  predicate Made(op: Op, e: Entry) {
    op.Enqueue? && op.request == e.request && op.priority == e.priority && Deadline(op) == e.wipeTime
  }

  /** Call `j` enqueued the entry, and nothing has emptied the queue since. */
  ghost predicate StemsFrom(ops: seq<Op>, e: Entry, j: nat) {
    j < |ops| && Made(ops[j], e) && forall i :: j < i < |ops| ==> !Empties(ops[i])
  }

  lemma TakenFromQueue(tables: Tables, p: Provider, status: TpmStatus, now: real, e: Entry)
    requires e in GetStep(tables, p, status, now).next.queue
    ensures e in p.queue
  {
    if p.queue != [] {
      WithoutIndex(p.queue, MinIndex(p.queue));
    }
  }

  lemma StepStems(tables: Tables, p: Provider, op: Op, e: Entry)
    requires e in Step(tables, p, op).next.queue
    ensures Made(op, e) || (e in p.queue && !Empties(op))
  {
    if op.Get? {
      TakenFromQueue(tables, p, op.status, op.now, e);
    }
  }

  lemma StemsNow(front: seq<Op>, last: Op, e: Entry)
    requires Made(last, e)
    ensures StemsFrom(front + [last], e, |front|)
  {
  }

  lemma StemsStill(front: seq<Op>, last: Op, e: Entry, j: nat)
    requires StemsFrom(front, e, j) && !Empties(last)
    ensures StemsFrom(front + [last], e, j)
  {
  }

  lemma {:induction false} QueueStems(tables: Tables, ops: seq<Op>, e: Entry) returns (j: nat)
    requires e in Run(tables, INITIAL, ops).final.queue
    ensures StemsFrom(ops, e, j)
    decreases |ops|
  {
    var front, last := ops[..|ops| - 1], ops[|ops| - 1];
    RunLast(tables, INITIAL, front, last);
    assert ops == front + [last];
    StepStems(tables, Run(tables, INITIAL, front).final, last, e);
    if Made(last, e) {
      j := |front|;
      StemsNow(front, last, e);
    } else {
      j := QueueStems(tables, front, e);
      StemsStill(front, last, e, j);
    }
  }

  /** A request may run on an initialised tile, and on one that is not yet initialised if it is `initialise` or
      `download_firmware`. */
  predicate MayRun(status: TpmStatus, name: string) {
    || status == Initialised || status == Synchronised
    || ((status == Unprogrammed || status == Programmed) && (name == "initialise" || name == "download_firmware"))
  }

  lemma GetTakes(tables: Tables, p: Provider, op: Op)
    requires op.Get? && Takes(p)
    ensures var o, e := Step(tables, p, op), Head(p);
      if op.now <= e.wipeTime && MayRun(op.status, e.request.name)
      then o.answer == Some(Execute(e.request)) && o.aborted == []
      else o.answer.Some? && o.answer.value.PollAttribute? && o.aborted == [e.request]
  {
  }

  /** Over every run, a call of `get_request` that finds requests waiting and no connection wanted takes one of those
      enqueued since the queue was last emptied. It returns that request if the deadline given with it has not passed
      and the status permits it; otherwise it tells it ABORTED and answers with an attribute. */
  lemma TakenInTimeOrAborted(tables: Tables, ops: seq<Op>, k: nat) returns (j: nat)
    requires k < |ops| && ops[k].Get? && !WantsConnection(ops[..k])
    requires Run(tables, INITIAL, ops[..k]).final.queue != []
    ensures j < k && ops[j].Enqueue? && forall i :: j < i < k ==> !Empties(ops[i])
    ensures var o, r := OutcomeAt(tables, ops, k), ops[j].request;
      if ops[k].now <= Deadline(ops[j]) && MayRun(ops[k].status, r.name)
      then o.answer == Some(Execute(r)) && o.aborted == []
      else o.answer.Some? && o.answer.value.PollAttribute? && o.aborted == [r]
  {
    var p := Run(tables, INITIAL, ops[..k]).final;
    ConnectionFollows(tables, ops[..k]);
    j := QueueStems(tables, ops[..k], Head(p));
    GetTakes(tables, p, ops[k]);
    assert forall i :: 0 <= i < k ==> ops[..k][i] == ops[i];
  }

  /** Over every run, whatever is returned for execution was enqueued by an earlier call, since which the queue has
      not been emptied; its deadline has not passed; and it may run in the status of the moment: any request when the
      tile is initialised, and only `initialise` and `download_firmware` when it is not. */
  lemma ReturnedInTime(tables: Tables, ops: seq<Op>, k: nat, r: Request) returns (j: nat)
    requires k < |ops| && OutcomeAt(tables, ops, k).answer == Some(Execute(r))
    ensures j < k && ops[j].Enqueue? && ops[j].request == r && forall i :: j < i < k ==> !Empties(ops[i])
    ensures ops[k].Get? && ops[k].now <= Deadline(ops[j]) && MayRun(ops[k].status, r.name)
  {
    ConnectionFollows(tables, ops[..k]);
    j := TakenInTimeOrAborted(tables, ops, k);
  }

  // ---------- Connections and configurations ----------

  /** A connection was asked for, and no call of `get_request` has come since. */
  ghost predicate WantsConnection(ops: seq<Op>) {
    exists j :: 0 <= j < |ops| && ops[j].DesireConnection? && forall i :: j < i < |ops| ==> !ops[i].Get?
  }

  /** Of the calls about the configuration, the last one asked for it to be read. */
  ghost predicate WantsConfiguration(ops: seq<Op>) {
    exists j :: && 0 <= j < |ops| && ops[j].DesireConfigurationRead?
                && forall i :: j < i < |ops| ==> !ops[i].InformConfigurationRead?
  }

  lemma WantsMore(front: seq<Op>, last: Op)
    ensures WantsConnection(front + [last]) <==> last.DesireConnection? || (WantsConnection(front) && !last.Get?)
    ensures WantsConfiguration(front + [last])
       <==> last.DesireConfigurationRead? || (WantsConfiguration(front) && !last.InformConfigurationRead?)
  {
    var all := front + [last];
    assert all[|front|] == last && forall i :: 0 <= i < |front| ==> all[i] == front[i];
    if WantsConnection(front) && !last.Get? {
      var j :| 0 <= j < |front| && front[j].DesireConnection? && forall i :: j < i < |front| ==> !front[i].Get?;
      assert all[j].DesireConnection?;
    }
    if WantsConfiguration(front) && !last.InformConfigurationRead? {
      var j :| && 0 <= j < |front| && front[j].DesireConfigurationRead?
               && forall i :: j < i < |front| ==> !front[i].InformConfigurationRead?;
      assert all[j].DesireConfigurationRead?;
    }
  }

  lemma ConnectionStep(tables: Tables, p: Provider, op: Op)
    ensures Step(tables, p, op).next.desireConnection <==> op.DesireConnection? || (p.desireConnection && !op.Get?)
    ensures Step(tables, p, op).next.readConfiguration
       <==> op.DesireConfigurationRead? || (p.readConfiguration && !op.InformConfigurationRead?)
  {
  }

  lemma {:induction false} ConnectionFollows(tables: Tables, ops: seq<Op>)
    ensures Run(tables, INITIAL, ops).final.desireConnection <==> WantsConnection(ops)
    ensures Run(tables, INITIAL, ops).final.readConfiguration <==> WantsConfiguration(ops)
    decreases |ops|
  {
    if ops != [] {
      var front, last := ops[..|ops| - 1], ops[|ops| - 1];
      ConnectionFollows(tables, front);
      RunLast(tables, INITIAL, front, last);
      ConnectionStep(tables, Run(tables, INITIAL, front).final, last);
      WantsMore(front, last);
      assert ops == front + [last];
    }
  }

  /** Over every run, what a call of `get_request` answers, told by the calls before it: CONNECT if and only if a
      connection was asked for since the call before; READ_CONFIGURATION if and only if it was not, nothing waits, and
      the last call about the configuration asked for it; an attribute if nothing waits and nothing of this is asked. */
  lemma AnsweredExactly(tables: Tables, ops: seq<Op>, k: nat)
    requires k < |ops| && ops[k].Get?
    ensures var answer, waits := OutcomeAt(tables, ops, k).answer, Run(tables, INITIAL, ops[..k]).final.queue != [];
      && (answer == Some(ConnectNow) <==> WantsConnection(ops[..k]))
      && (answer == Some(ReadConfiguration)
          <==> !WantsConnection(ops[..k]) && !waits && WantsConfiguration(ops[..k]))
      && (!WantsConnection(ops[..k]) && !waits && !WantsConfiguration(ops[..k]) ==>
            answer.Some? && answer.value.PollAttribute?)
      && (WantsConnection(ops[..k]) || !waits ==> OutcomeAt(tables, ops, k).aborted == [])
  {
    ConnectionFollows(tables, ops[..k]);
  }

  // ---------- Which attribute is polled ----------

  /** The status after a call: that of the last `get_request`, and Unknown at the start and after cleaning up. */
  function StatusAfter(status: TpmStatus, op: Op): TpmStatus {
    if op.Get? then op.status else if op.Cleanup? then Unknown else status
  }

  /** How many attributes have been handed out since the status last changed. */
  function PolledSince(tables: Tables, p: Provider, status: TpmStatus, n: nat, ops: seq<Op>): (TpmStatus, nat)
    decreases |ops|
  {
    if ops == [] then (status, n)
    else
      var o, now := Step(tables, p, ops[0]), StatusAfter(status, ops[0]);
      PolledSince(tables, o.next, now, (if now == status then n else 0) + |PolledBy(o)|, ops[1..])
  }

  lemma {:induction false} IndexFollows(tables: Tables, p: Provider, ops: seq<Op>)
    ensures PolledSince(tables, p, p.status, p.index, ops)
         == (Run(tables, p, ops).final.status, Run(tables, p, ops).final.index)
    decreases |ops|
  {
    if ops != [] {
      var o := Step(tables, p, ops[0]);
      IndexStep(tables, p, ops[0]);
      RunUnfolds(tables, p, ops, ops[1..]);
      IndexFollows(tables, o.next, ops[1..]);
    }
  }

  lemma IndexStep(tables: Tables, p: Provider, op: Op)
    ensures var o, now := Step(tables, p, op), StatusAfter(p.status, op);
      o.next.status == now && o.next.index == (if now == p.status then p.index else 0) + |PolledBy(o)|
  {
    if op.Get? {
      IndexAfterGet(tables, p, op.status, op.now);
    }
  }

  lemma IndexAfterGet(tables: Tables, p: Provider, status: TpmStatus, now: real)
    ensures var o := GetStep(tables, p, status, now);
      o.next.status == status && o.next.index == IndexIn(p, status) + |PolledBy(o)|
  {
  }

  /** Over every run, an attribute handed out is the next in the table of its status: the first one after a change of
      status, and then one after the other, starting over at the end (`WrapIsMod`). */
  lemma PolledInTurn(tables: Tables, ops: seq<Op>, k: nat, a: Attribute)
    requires k < |ops| && OutcomeAt(tables, ops, k).answer == Some(PollAttribute(a))
    ensures ops[k].Get?
    ensures var (status, n) := PolledSince(tables, INITIAL, Unknown, 0, ops[..k]);
      var table := tables[ops[k].status];
      a == table[Wrap(if ops[k].status == status then n else 0, |table|)]
  {
    IndexFollows(tables, INITIAL, ops[..k]);
  }

  // ---------- What stays up to date ----------

  /** The call does not end the polling of an attribute: it does not clean up, and brings no status without it. */
  predicate KeepsPolled(tables: Tables, op: Op, a: Attribute) {
    !op.Cleanup? && (op.Get? ==> a in tables[op.status])
  }

  /** Call `k` hands the attribute out, and no later call ends its polling. */
  ghost predicate HandedOut(tables: Tables, p: Provider, ops: seq<Op>, k: nat, a: Attribute) {
    && k < |ops| && a in PolledBy(Step(tables, Run(tables, p, ops[..k]).final, ops[k]))
    && forall i :: k < i < |ops| ==> KeepsPolled(tables, ops[i], a)
  }

  lemma HandedOutLater(tables: Tables, p: Provider, ops: seq<Op>, k: nat, a: Attribute)
    requires ops != []
    ensures HandedOut(tables, p, ops, k + 1, a)
       <==> HandedOut(tables, Step(tables, p, ops[0]).next, ops[1..], k, a)
  {
    if k + 1 < |ops| {
      assert ops[..k + 1][1..] == ops[1..][..k];
      assert forall i :: 0 <= i < |ops| - 1 ==> ops[1..][i] == ops[i + 1];
      assert forall i :: k + 1 < i < |ops| ==> ops[i] == ops[1..][i - 1];
    }
  }

  lemma HandedOutFirst(tables: Tables, p: Provider, ops: seq<Op>, a: Attribute)
    requires ops != []
    ensures HandedOut(tables, p, ops, 0, a)
       <==> a in PolledBy(Step(tables, p, ops[0])) && forall op :: op in ops[1..] ==> KeepsPolled(tables, op, a)
  {
    assert ops[..0] == [];
    assert forall i :: 0 < i < |ops| ==> ops[i] in ops[1..];
  }

  lemma StaleStep(tables: Tables, p: Provider, live: set<Attribute>, op: Op, a: Attribute)
    requires live <= AllowedSet(tables, p.status)
    ensures a in live - Step(tables, p, op).stale <==> a in live && KeepsPolled(tables, op, a)
  {
  }

  /** Over every run, an attribute counts as up to date, handed out and not reported stale since, if and only if some
      call handed it out and no call since has cleaned up or brought a status in which it is not polled. So nothing
      still polled is reported stale, and nothing is left unreported. */
  lemma {:induction false} LiveExactly(
    tables: Tables, p: Provider, live: set<Attribute>, ops: seq<Op>, a: Attribute)
    requires live <= AllowedSet(tables, p.status)
    ensures a in Live(tables, p, live, ops)
       <==> || (a in live && forall op :: op in ops ==> KeepsPolled(tables, op, a))
            || exists k: nat :: HandedOut(tables, p, ops, k, a)
    decreases |ops|
  {
    if ops != [] {
      var o := Step(tables, p, ops[0]);
      var later := (live - o.stale) + (set b | b in PolledBy(o));
      StepKeepsLive(tables, p, live, ops[0]);
      StaleStep(tables, p, live, ops[0], a);
      LiveExactly(tables, o.next, later, ops[1..], a);
      HandedOutFirst(tables, p, ops, a);
      HandedOutSplits(tables, p, ops, a);
      assert forall op :: op in ops <==> op == ops[0] || op in ops[1..];
    }
  }

  lemma HandedOutSplits(tables: Tables, p: Provider, ops: seq<Op>, a: Attribute)
    requires ops != []
    ensures (exists k: nat :: HandedOut(tables, p, ops, k, a))
       <==> || HandedOut(tables, p, ops, 0, a)
            || exists k: nat :: HandedOut(tables, Step(tables, p, ops[0]).next, ops[1..], k, a)
  {
    if exists k: nat :: HandedOut(tables, p, ops, k, a) {
      var k: nat :| HandedOut(tables, p, ops, k, a);
      if k > 0 {
        HandedOutLater(tables, p, ops, k - 1, a);
      }
    }
    if exists k: nat :: HandedOut(tables, Step(tables, p, ops[0]).next, ops[1..], k, a) {
      var k: nat :| HandedOut(tables, Step(tables, p, ops[0]).next, ops[1..], k, a);
      HandedOutLater(tables, p, ops, k, a);
    }
  }

  // ---------- The flag ----------

  /** What became of the `initialise` enqueued last: it waits, with its deadline; it was taken in time for a tile that
      is not yet initialised; or it was lost. */
  datatype Initialise = NeverQueued | Waiting(deadline: real) | RunInTime | Lost

  predicate TakesInitialise(p: Provider, op: Op) {
    op.Get? && Takes(p) && IsInitialise(Head(p).request)
  }

  /** It is lost if the queue is cleaned up while it waits, or if the call that takes it comes after its deadline or in
      a status other than Unprogrammed and Programmed. */
  function NextInitialise(last: Initialise, p: Provider, op: Op): Initialise {
    if op.Enqueue? && IsInitialise(op.request) then Waiting(Deadline(op))
    else if last.Waiting? && op.Cleanup? then Lost
    else if last.Waiting? && TakesInitialise(p, op) then
      if op.now <= last.deadline && (op.status == Unprogrammed || op.status == Programmed) then RunInTime else Lost
    else last
  }

  function LastInitialise(tables: Tables, p: Provider, last: Initialise, ops: seq<Op>): Initialise
    decreases |ops|
  {
    if ops == [] then last
    else LastInitialise(tables, Step(tables, p, ops[0]).next, NextInitialise(last, p, ops[0]), ops[1..])
  }

  ghost predicate InitialiseWaits(q: seq<Entry>) {
    exists k :: 0 <= k < |q| && IsInitialise(q[k].request)
  }

  ghost predicate Agrees(p: Provider, last: Initialise) {
    && (p.initialiseQueued <==> last.Waiting? || last.Lost?)
    && (InitialiseWaits(p.queue) <==> last.Waiting?)
    && (forall k :: 0 <= k < |p.queue| && IsInitialise(p.queue[k].request) ==>
          last.Waiting? && p.queue[k].wipeTime == last.deadline)
  }

  lemma EnqueueAgrees(tables: Tables, p: Provider, last: Initialise, op: Op)
    requires Agrees(p, last) && op.Enqueue?
    ensures Agrees(Step(tables, p, op).next, NextInitialise(last, p, op))
  {
    var q := Step(tables, p, op).next.queue;
    if IsInitialise(op.request) {
      assert IsInitialise(q[0].request);
    } else {
      assert forall k :: 0 <= k < |p.queue| ==> q[k] == p.queue[k];
    }
  }

  lemma WaitsWithout(q: seq<Entry>, counter: nat, flag: bool, m: nat)
    requires ValidQueue(q, counter, flag) && m < |q|
    ensures InitialiseWaits(Without(q, m)) <==> InitialiseWaits(q) && !IsInitialise(q[m].request)
  {
    WithoutIndex(q, m);
    if InitialiseWaits(q) && !IsInitialise(q[m].request) {
      assert IsInitialise(q[0].request) && Without(q, m)[0] == q[0];
    }
  }

  lemma GetAgrees(tables: Tables, p: Provider, last: Initialise, op: Op)
    requires Valid(p) && Agrees(p, last) && op.Get?
    ensures Agrees(Step(tables, p, op).next, NextInitialise(last, p, op))
  {
    if Takes(p) {
      var m := MinIndex(p.queue);
      WaitsWithout(p.queue, p.counter, p.initialiseQueued, m);
      WithoutIndex(p.queue, m);
    }
  }

  lemma StepAgrees(tables: Tables, p: Provider, last: Initialise, op: Op)
    requires Valid(p) && Agrees(p, last)
    ensures Agrees(Step(tables, p, op).next, NextInitialise(last, p, op))
  {
    match op
    case Enqueue(_, _, _, _) => EnqueueAgrees(tables, p, last, op);
    case Get(_, _) => GetAgrees(tables, p, last, op);
    case _ =>
  }

  lemma {:induction false} FlagFollows(tables: Tables, p: Provider, last: Initialise, ops: seq<Op>)
    requires Valid(p) && Agrees(p, last)
    ensures Agrees(Run(tables, p, ops).final, LastInitialise(tables, p, last, ops))
    decreases |ops|
  {
    if ops != [] {
      StepKeepsValid(tables, p, ops[0]);
      StepAgrees(tables, p, last, ops[0]);
      FlagFollows(tables, Step(tables, p, ops[0]).next, NextInitialise(last, p, ops[0]), ops[1..]);
    }
  }

  /** Over every run from the start, `initialise_queued` tells the truth if and only if the `initialise` enqueued last
      has not been lost. */
  lemma FlagTruthfulExactly(tables: Tables, ops: seq<Op>)
    ensures var p := Run(tables, INITIAL, ops).final;
      (p.initialiseQueued <==> InitialiseWaits(p.queue)) <==> LastInitialise(tables, INITIAL, NeverQueued, ops) != Lost
  {
    FlagFollows(tables, INITIAL, NeverQueued, ops);
  }

  /** Runs from the start that lose one, in each of the ways: cleaned up, too late, refused, or run on a tile that is
      initialised already. The flag stays up although nothing is queued. */
  lemma FlagStaysUp(tables: Tables, request: Request, now: real, op: Op)
    requires IsInitialise(request)
    requires || op.Cleanup?
             || (op.Get? && (op.now > now + 60.0 || (op.status != Unprogrammed && op.status != Programmed)))
    ensures var p := Run(tables, INITIAL, [Enqueue(request, 0, None, now), op]).final;
      p.initialiseQueued && p.queue == []
  {
    var enqueue := Enqueue(request, 0, None, now);
    RunLast(tables, INITIAL, [enqueue], op);
    RunLast(tables, INITIAL, [], enqueue);
    assert [enqueue] + [op] == [enqueue, op] && [] + [enqueue] == [enqueue];
  }
}
