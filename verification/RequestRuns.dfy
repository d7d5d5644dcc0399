/** What holds over every run of the request provider. */
module RequestRuns {
  import opened Basics
  import opened TpmPolling
  import opened RequestQueue
  import opened RequestProvider

  /** A run: where it ends, and what it told and answered, in order. */
  datatype Trace = Trace(final: Provider, aborted: seq<Request>, executed: seq<Request>, polled: seq<Attribute>)

  function ExecutedBy(o: Outcome): seq<Request> {
    if o.answer.Some? && o.answer.value.Execute? then [o.answer.value.request] else []
  }

  function PolledBy(o: Outcome): seq<Attribute> {
    if o.answer.Some? && o.answer.value.PollAttribute? then [o.answer.value.attribute] else []
  }

  function Run(tables: Tables, p: Provider, ops: seq<Op>): Trace
    decreases |ops|
  {
    if ops == [] then Trace(p, [], [], [])
    else
      var o := Step(tables, p, ops[0]);
      var t := Run(tables, o.next, ops[1..]);
      Trace(t.final, o.aborted + t.aborted, ExecutedBy(o) + t.executed, PolledBy(o) + t.polled)
  }

  /** The requests the callers of a run enqueue, in order. */
  function Enqueued(ops: seq<Op>): seq<Request> {
    if ops == [] then []
    else HandedIn(ops[0]) + Enqueued(ops[1..])
  }

  // ---------- Conservation ----------

  /** The request an operation hands in, if it is an enqueue. */
  function HandedIn(op: Op): seq<Request> {
    if op.Enqueue? then [op.request] else []
  }

  lemma QueuedAppend(q: seq<Entry>, e: Entry, r: Request)
    ensures Queued(q + [e], r) == Queued(q, r) + Occurrences([e.request], r)
  {
    assert (q + [e])[..|q|] == q;
  }

  lemma EnqueueConserves(p: Provider, request: Request, priority: int, wipeTime: Option<real>, now: real, r: Request)
    ensures var o := EnqueueStep(p, request, priority, wipeTime, now);
      Queued(p.queue, r) + Occurrences([request], r) == Queued(o.next.queue, r) + Occurrences(o.aborted, r)
  {
    var q := EnqueueStep(p, request, priority, wipeTime, now).next.queue;
    var e := q[|q| - 1];
    DrainedTakesAll(p.queue, r);
    QueuedAppend(if IsInitialise(request) then [] else p.queue, e, r);
  }

  /** Taking the head of the queue and telling or returning it. */
  lemma GetConserves(tables: Tables, p: Provider, status: TpmStatus, now: real, r: Request)
    ensures var o := GetStep(tables, p, status, now);
      Queued(p.queue, r) == Queued(o.next.queue, r) + Occurrences(o.aborted, r) + Occurrences(ExecutedBy(o), r)
  {
    var o := GetStep(tables, p, status, now);
    if Takes(p) {
      QueuedWithout(p.queue, MinIndex(p.queue), r);
      assert o.aborted + ExecutedBy(o) == [Head(p).request];
    }
  }

  lemma StepConserves(tables: Tables, p: Provider, op: Op, r: Request)
    ensures Queued(p.queue, r) + Occurrences(HandedIn(op), r)
            == Queued(Step(tables, p, op).next.queue, r) + Occurrences(Step(tables, p, op).aborted, r)
               + Occurrences(ExecutedBy(Step(tables, p, op)), r)
  {
    match op
    case Enqueue(request, priority, wipeTime, now) => EnqueueConserves(p, request, priority, wipeTime, now, r);
    case Get(status, now) => GetConserves(tables, p, status, now, r);
    case Cleanup => DrainedTakesAll(p.queue, r);
    case _ =>
  }

  /** Conservation: at the end of every run, every request handed in is still queued, was told ABORTED or was
      returned for execution, and as often in total as it was handed in. */
  lemma {:induction false} RunConserves(tables: Tables, p: Provider, ops: seq<Op>, r: Request)
    ensures Queued(p.queue, r) + Occurrences(Enqueued(ops), r)
            == Queued(Run(tables, p, ops).final.queue, r) + Occurrences(Run(tables, p, ops).aborted, r)
               + Occurrences(Run(tables, p, ops).executed, r)
    decreases |ops|
  {
    if ops != [] {
      var o := Step(tables, p, ops[0]);
      var t := Run(tables, o.next, ops[1..]);
      StepConserves(tables, p, ops[0], r);
      RunConserves(tables, o.next, ops[1..], r);
      OccurrencesJoin(HandedIn(ops[0]), Enqueued(ops[1..]), r);
      OccurrencesJoin(o.aborted, t.aborted, r);
      OccurrencesJoin(ExecutedBy(o), t.executed, r);
    }
  }

  /** A request handed in once has exactly one fate: it is queued, was told ABORTED once, or was returned once. */
  lemma ExactlyOneFate(tables: Tables, ops: seq<Op>, r: Request)
    requires Occurrences(Enqueued(ops), r) == 1
    ensures Queued(Run(tables, INITIAL, ops).final.queue, r) + Occurrences(Run(tables, INITIAL, ops).aborted, r)
            + Occurrences(Run(tables, INITIAL, ops).executed, r) == 1
  {
    RunConserves(tables, INITIAL, ops, r);
    assert Queued(INITIAL.queue, r) == 0;
  }

  /** The barrier: enqueueing `initialise` tells everything waiting ABORTED, so of the requests returned
      later none was waiting before. */
  lemma InitialiseIsBarrier(tables: Tables, p: Provider, op: Op, later: seq<Op>, r: Request)
    requires op.Enqueue? && IsInitialise(op.request)
    ensures Occurrences(Step(tables, p, op).aborted, r) == Queued(p.queue, r)
    ensures var t := Run(tables, Step(tables, p, op).next, later);
            Occurrences(t.executed, r) <= Occurrences([op.request] + Enqueued(later), r)
  {
    var o := Step(tables, p, op);
    DrainedTakesAll(p.queue, r);
    RunConserves(tables, o.next, later, r);
    assert o.next.queue[..|o.next.queue| - 1] == [];
    OccurrencesJoin([op.request], Enqueued(later), r);
  }

  /** `cleanup` leaves nothing queued and tells everything that was waiting. */
  lemma CleanupEmpties(tables: Tables, p: Provider, r: Request)
    ensures Step(tables, p, Cleanup).next.queue == []
    ensures Occurrences(Step(tables, p, Cleanup).aborted, r) == Queued(p.queue, r)
  {
    DrainedTakesAll(p.queue, r);
  }

  // ---------- The queue invariant ----------

  /** Counters are distinct and follow the order of arrival, and lie below the next one; only the oldest entry
      can be an `initialise`, and the flag is up when it is. */
  ghost predicate Valid(p: Provider) {
    ValidQueue(p.queue, p.counter, p.initialiseQueued)
  }

  ghost predicate ValidQueue(q: seq<Entry>, counter: nat, initialiseQueued: bool) {
    && (forall i, j :: 0 <= i < j < |q| ==> q[i].counter < q[j].counter)
    && (forall i :: 0 <= i < |q| ==> q[i].counter < counter)
    && (forall i :: 0 < i < |q| ==> !IsInitialise(q[i].request))
    && (|q| > 0 && IsInitialise(q[0].request) ==> initialiseQueued)
  }

  lemma WithoutIndex(q: seq<Entry>, m: nat)
    requires m < |q|
    ensures |Without(q, m)| == |q| - 1
    ensures forall k :: 0 <= k < |q| - 1 ==> Without(q, m)[k] == if k < m then q[k] else q[k + 1]
  {
  }

  lemma WithoutKeepsValid(q: seq<Entry>, counter: nat, initialiseQueued: bool, m: nat)
    requires ValidQueue(q, counter, initialiseQueued) && m < |q|
    ensures ValidQueue(Without(q, m), counter, initialiseQueued && !IsInitialise(q[m].request))
  {
    WithoutIndex(q, m);
  }

  lemma GetKeepsValid(tables: Tables, p: Provider, op: Op)
    requires Valid(p) && op.Get?
    ensures Valid(Step(tables, p, op).next)
  {
    var p' := Step(tables, p, op).next;
    if p.queue != [] {
      WithoutKeepsValid(p.queue, p.counter, p.initialiseQueued, MinIndex(p.queue));
    }
    assert p'.queue == p.queue || p'.queue == Without(p.queue, MinIndex(p.queue));
  }

  lemma AppendKeepsValid(q: seq<Entry>, counter: nat, initialiseQueued: bool, e: Entry)
    requires ValidQueue(q, counter, initialiseQueued) && e.counter == counter && !IsInitialise(e.request)
    ensures ValidQueue(q + [e], counter + 1, initialiseQueued)
  {
  }

  lemma StepKeepsValid(tables: Tables, p: Provider, op: Op)
    requires Valid(p)
    ensures Valid(Step(tables, p, op).next)
  {
    if op.Get? {
      GetKeepsValid(tables, p, op);
    } else if op.Enqueue? && !IsInitialise(op.request) {
      var q := Step(tables, p, op).next.queue;
      AppendKeepsValid(p.queue, p.counter, p.initialiseQueued, q[|q| - 1]);
    }
  }

  /** On every run from the start, keys in the queue are distinct despite the counter restart, at most one
      `initialise` is queued, and `initialise_queued` is true whenever one is. */
  lemma {:induction false} ValidHolds(tables: Tables, p: Provider, ops: seq<Op>)
    requires Valid(p)
    ensures Valid(Run(tables, p, ops).final)
    decreases |ops|
  {
    if ops != [] {
      StepKeepsValid(tables, p, ops[0]);
      ValidHolds(tables, Step(tables, p, ops[0]).next, ops[1..]);
    }
  }

  /** The entry taken is the one of lowest priority number, and of these the one that arrived first. */
  lemma TakesByPriorityThenArrival(p: Provider, j: nat)
    requires Valid(p) && j < |p.queue|
    ensures var i := MinIndex(p.queue);
            i == j || p.queue[i].priority < p.queue[j].priority
            || (p.queue[i].priority == p.queue[j].priority && i < j)
  {
    var i := MinIndex(p.queue);
    assert !Before(p.queue[j], p.queue[i]);
  }

  lemma WithoutBringsNothing(q: seq<Entry>, m: nat, e: Entry)
    requires m < |q| && e !in q
    ensures e !in Without(q, m)
  {
    WithoutIndex(q, m);
  }

  lemma EnqueueBringsOnlyItsOwn(
    p: Provider, request: Request, priority: int, wipeTime: Option<real>, now: real, e: Entry)
    requires e !in p.queue && request != e.request
    ensures e !in EnqueueStep(p, request, priority, wipeTime, now).next.queue
  {
  }

  lemma GetBringsNothing(tables: Tables, p: Provider, status: TpmStatus, now: real, e: Entry)
    requires e !in p.queue
    ensures e !in GetStep(tables, p, status, now).next.queue
  {
    if p.queue != [] {
      WithoutBringsNothing(p.queue, MinIndex(p.queue), e);
    }
  }

  lemma StepBringsNothingBack(tables: Tables, p: Provider, op: Op, e: Entry)
    requires e !in p.queue && (op.Enqueue? ==> op.request != e.request)
    ensures e !in Step(tables, p, op).next.queue
  {
    match op
    case Enqueue(request, priority, wipeTime, now) => EnqueueBringsOnlyItsOwn(p, request, priority, wipeTime, now, e);
    case Get(status, now) => GetBringsNothing(tables, p, status, now, e);
    case _ =>
  }

  lemma {:induction false} OnceGone(tables: Tables, p: Provider, ops: seq<Op>, e: Entry)
    requires e !in p.queue && e.request !in Enqueued(ops)
    ensures e !in Run(tables, p, ops).final.queue
    decreases |ops|
  {
    if ops != [] {
      assert ops[0].Enqueue? ==> ops[0].request == Enqueued(ops)[0];
      assert Enqueued(ops) == HandedIn(ops[0]) + Enqueued(ops[1..]);
      StepBringsNothingBack(tables, p, ops[0], e);
      OnceGone(tables, Step(tables, p, ops[0]).next, ops[1..], e);
    }
  }

  /** Requests leave in (priority, arrival) order: while an entry is still queued, so is every entry behind it. */
  lemma {:induction false} LeavesInOrder(tables: Tables, p: Provider, ops: seq<Op>, a: Entry, b: Entry)
    requires a in p.queue && b in p.queue && Before(a, b)
    requires a.request !in Enqueued(ops)
    ensures a in Run(tables, p, ops).final.queue ==> b in Run(tables, p, ops).final.queue
    decreases |ops|
  {
    if ops != [] {
      var p' := Step(tables, p, ops[0]).next;
      if a in p'.queue {
        StillBehind(tables, p, ops[0], a, b);
        LeavesInOrder(tables, p', ops[1..], a, b);
      } else {
        OnceGone(tables, p', ops[1..], a);
      }
    }
  }

  lemma StillBehind(tables: Tables, p: Provider, op: Op, a: Entry, b: Entry)
    requires a in p.queue && b in p.queue && Before(a, b)
    requires a in Step(tables, p, op).next.queue
    requires op.Enqueue? ==> op.request != a.request
    ensures b in Step(tables, p, op).next.queue
  {
    if op.Get? && !p.desireConnection {
      var q, m := p.queue, MinIndex(p.queue);
      var j, k :| 0 <= j < |q| && q[j] == a && 0 <= k < |q| && q[k] == b;
      assert k != m;
      WithoutIndex(q, m);
      assert Without(q, m)[if k < m then k else k - 1] == b;
    }
  }

  // ---------- Staleness ----------

  /** The attributes handed out by the iterator during a run and not reported stale since. */
  function Live(tables: Tables, p: Provider, live: set<Attribute>, ops: seq<Op>): set<Attribute>
    decreases |ops|
  {
    if ops == [] then live
    else
      var o := Step(tables, p, ops[0]);
      Live(tables, o.next, (live - o.stale) + (set a | a in PolledBy(o)), ops[1..])
  }

  /** Staleness telescopes: whatever was handed out and not since reported stale is polled in the current status. */
  lemma {:induction false} LiveIsAllowed(tables: Tables, p: Provider, live: set<Attribute>, ops: seq<Op>)
    requires live <= AllowedSet(tables, p.status)
    ensures Live(tables, p, live, ops) <= AllowedSet(tables, Run(tables, p, ops).final.status)
    decreases |ops|
  {
    if ops != [] {
      var o := Step(tables, p, ops[0]);
      StepKeepsLive(tables, p, live, ops[0]);
      LiveIsAllowed(tables, o.next, (live - o.stale) + (set a | a in PolledBy(o)), ops[1..]);
    }
  }

  lemma StepKeepsLive(tables: Tables, p: Provider, live: set<Attribute>, op: Op)
    requires live <= AllowedSet(tables, p.status)
    ensures var o := Step(tables, p, op);
            (live - o.stale) + (set a | a in PolledBy(o)) <= AllowedSet(tables, o.next.status)
  {
    var o := Step(tables, p, op);
    forall a | a in PolledBy(o)
      ensures a in AllowedSet(tables, o.next.status)
    {
      assert op.Get?;
    }
  }

  // ---------- Fairness and promptness ----------

  /** No call of the run changes the status or cleans up. */
  ghost predicate KeepsStatus(status: TpmStatus, ops: seq<Op>) {
    ops != [] ==> !ops[0].Cleanup? && (ops[0].Get? ==> ops[0].status == status) && KeepsStatus(status, ops[1..])
  }

  lemma PollIsNext(tables: Tables, p: Provider, op: Op)
    requires !op.Cleanup? && (op.Get? ==> op.status == p.status)
    ensures Step(tables, p, op).next.status == p.status
    ensures Step(tables, p, op).next.index == p.index + |PolledBy(Step(tables, p, op))|
    ensures PolledBy(Step(tables, p, op)) == Rotation(tables[p.status], p.index, |PolledBy(Step(tables, p, op))|)
  {
    var polled := PolledBy(Step(tables, p, op));
    if polled != [] {
      assert polled == [tables[p.status][Wrap(p.index, |tables[p.status]|)]] + [];
      assert Rotation(tables[p.status], p.index + 1, 0) == [];
    }
  }

  ghost predicate PollsRotation(tables: Tables, p: Provider, polled: seq<Attribute>) {
    polled == Rotation(tables[p.status], p.index, |polled|)
  }

  lemma PolledSoFar(tables: Tables, p: Provider, op: Op, others: seq<Attribute>)
    requires !op.Cleanup? && (op.Get? ==> op.status == p.status)
    requires PollsRotation(tables, Step(tables, p, op).next, others)
    ensures PollsRotation(tables, p, PolledBy(Step(tables, p, op)) + others)
  {
    PollIsNext(tables, p, op);
    RotationSplit(tables[p.status], p.index, |PolledBy(Step(tables, p, op))|, |others|);
  }

  /** While the status stays the same, the attributes handed out are the rotation of its table,
      whatever else is enqueued, returned or aborted in between. */
  lemma {:induction false} PolledIsRotation(tables: Tables, p: Provider, ops: seq<Op>)
    requires KeepsStatus(p.status, ops)
    ensures PollsRotation(tables, p, Run(tables, p, ops).polled)
    decreases |ops|
  {
    if ops != [] {
      var p' := Step(tables, p, ops[0]).next;
      PollIsNext(tables, p, ops[0]);
      PolledIsRotation(tables, p', ops[1..]);
      PolledSoFar(tables, p, ops[0], Run(tables, p', ops[1..]).polled);
    }
  }

  /** Round-robin fairness: when a run with a steady status hands out `turns` tables' worth of attributes, each one
      is handed out exactly `turns` times per listing, from any state and despite any other traffic. */
  lemma RoundRobinIsFair(tables: Tables, p: Provider, ops: seq<Op>, turns: nat, a: Attribute)
    requires KeepsStatus(p.status, ops)
    requires |Run(tables, p, ops).polled| == turns * |tables[p.status]|
    ensures multiset(Run(tables, p, ops).polled)[a] == turns * multiset(tables[p.status])[a]
  {
    PolledIsRotation(tables, p, ops);
    RotationIsFair(tables[p.status], p.index, turns, a);
  }

  /** No table lists an attribute twice; `ShippedTablesListOnce` shows it of the tables the iterator has by default. */
  ghost predicate ListsOnce(tables: Tables) {
    forall status, a :: a in tables[status] ==> multiset(tables[status])[a] == 1
  }

  /** With such tables, every allowed attribute is handed out exactly once a turn. */
  lemma OncePerTurn(tables: Tables, p: Provider, ops: seq<Op>, turns: nat, a: Attribute)
    requires ListsOnce(tables) && KeepsStatus(p.status, ops)
    requires |Run(tables, p, ops).polled| == turns * |tables[p.status]|
    ensures multiset(Run(tables, p, ops).polled)[a] == if a in tables[p.status] then turns else 0
  {
    var listed := multiset(tables[p.status])[a];
    RoundRobinIsFair(tables, p, ops, turns, a);
    if a in tables[p.status] {
      assert listed == 1;
    } else {
      assert listed == 0;
    }
    TimesListed(turns, listed);
  }

  lemma TimesListed(turns: nat, listed: nat)
    requires listed <= 1
    ensures turns * listed == if listed == 1 then turns else 0
  {
  }

  /** A run in which nobody enqueues, cleans up or asks for a connection. */
  ghost predicate Quiet(ops: seq<Op>) {
    ops != [] ==> !ops[0].Enqueue? && !ops[0].Cleanup? && !ops[0].DesireConnection? && Quiet(ops[1..])
  }

  function Gets(ops: seq<Op>): (n: nat) {
    if ops == [] then 0 else (if ops[0].Get? then 1 else 0) + Gets(ops[1..])
  }

  /** Promptness: in a quiet run an entry with `k` entries ahead is still queued after the first `k` calls of
      `get_request`, or `k + 1` if a connection is wanted at first, and gone after the next, whatever the statuses and
      times. */
  lemma {:induction false} ServedPromptly(tables: Tables, p: Provider, ops: seq<Op>, e: Entry)
    requires Valid(p) && e in p.queue && Quiet(ops)
    ensures e in Run(tables, p, ops).final.queue
       <==> Gets(ops) <= Ahead(p.queue, e) + if p.desireConnection then 1 else 0
    decreases |ops|
  {
    if ops != [] {
      var p' := Step(tables, p, ops[0]).next;
      StepKeepsValid(tables, p, ops[0]);
      if ops[0].Get? && !p.desireConnection {
        TakesOneAhead(tables, p, ops[0], e);
      }
      if e in p'.queue {
        ServedPromptly(tables, p', ops[1..], e);
      } else {
        QuietHandsInNothing(ops[1..]);
        OnceGone(tables, p', ops[1..], e);
      }
    }
  }

  lemma {:induction false} QuietHandsInNothing(ops: seq<Op>)
    requires Quiet(ops)
    ensures Enqueued(ops) == []
  {
    if ops != [] {
      QuietHandsInNothing(ops[1..]);
    }
  }

  /** One call takes one of the entries ahead of `e`, or `e` itself when there is none. */
  lemma TakesOneAhead(tables: Tables, p: Provider, op: Op, e: Entry)
    requires Valid(p) && e in p.queue && !p.desireConnection && op.Get?
    ensures e in Step(tables, p, op).next.queue <==> Ahead(p.queue, e) > 0
    ensures e in Step(tables, p, op).next.queue ==>
              Ahead(p.queue, e) == Ahead(Step(tables, p, op).next.queue, e) + 1
  {
    HeadIsAhead(p.queue, p.counter, p.initialiseQueued, e);
    assert Step(tables, p, op).next.queue == Without(p.queue, MinIndex(p.queue));
  }

  lemma HeadIsAhead(q: seq<Entry>, counter: nat, initialiseQueued: bool, e: Entry)
    requires ValidQueue(q, counter, initialiseQueued) && e in q
    ensures e in Without(q, MinIndex(q)) <==> Ahead(q, e) > 0
    ensures e in Without(q, MinIndex(q)) ==> Ahead(q, e) == Ahead(Without(q, MinIndex(q)), e) + 1
  {
    var m := MinIndex(q);
    AheadWithout(q, m, e);
    if q[m] == e {
      NoneAhead(q, e);
      HeadOccursOnce(q, counter, initialiseQueued, m);
    } else {
      StaysWithout(q, m, e);
      assert Before(q[m], e);
    }
  }

  lemma StaysWithout(q: seq<Entry>, m: nat, e: Entry)
    requires e in q && m < |q| && q[m] != e
    ensures e in Without(q, m)
  {
    var k :| 0 <= k < |q| && q[k] == e;
    assert Without(q, m)[if k < m then k else k - 1] == e;
  }

  lemma HeadOccursOnce(q: seq<Entry>, counter: nat, initialiseQueued: bool, m: nat)
    requires ValidQueue(q, counter, initialiseQueued) && m < |q|
    ensures q[m] !in Without(q, m)
  {
    WithoutIndex(q, m);
  }
}
