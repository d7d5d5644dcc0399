/** The provider of tile requests, as a state machine on values and as the class that updates its state in place. */
module RequestProvider {
  import opened Basics
  import opened TpmPolling
  import opened RequestQueue

  /** The state of a `TileRequestProvider` and its iterator. The queue lists entries in order of arrival. */
  datatype Provider = Provider(
    queue: seq<Entry>,
    counter: nat,
    initialiseQueued: bool,
    desireConnection: bool,
    readConfiguration: bool,
    index: nat,
    status: TpmStatus)

  const INITIAL := Provider([], 0, false, false, false, 0, Unknown)

  datatype Answer = ConnectNow | ReadConfiguration | PollAttribute(attribute: Attribute) | Execute(request: Request)

  datatype Op =
    | Enqueue(request: Request, priority: int, wipeTime: Option<real>, now: real)
    | Cleanup
    | Get(status: TpmStatus, now: real)
    | DesireConnection
    | DesireConfigurationRead
    | InformConfigurationRead

  /** What one call does: the new state, the requests told ABORTED, the attributes reported stale,
      and the answer, if the call gives one. */
  datatype Outcome = Outcome(next: Provider, aborted: seq<Request>, stale: set<Attribute>, answer: Option<Answer>)

  predicate IsInitialise(r: Request) {
    r.name == "initialise"
  }

  /** Whether a request may run in a status. */
  predicate Permitted(status: TpmStatus, r: Request) {
    match status
    case Unprogrammed => IsInitialise(r) || r.name == "download_firmware"
    case Programmed => IsInitialise(r) || r.name == "download_firmware"
    case Initialised => true
    case Synchronised => true
    case _ => false
  }

  function EnqueueStep(p: Provider, r: Request, priority: int, wipeTime: Option<real>, now: real): Outcome {
    var wipe := if wipeTime.None? then now + 60.0 else wipeTime.value;
    if IsInitialise(r) then
      Outcome(p.(queue := [Entry(priority, 0, wipe, r)], counter := 1, initialiseQueued := true),
              Drained(p.queue), {}, None)
    else
      Outcome(p.(queue := p.queue + [Entry(priority, p.counter, wipe, r)], counter := p.counter + 1), [], {}, None)
  }

  function CleanupStep(tables: Tables, p: Provider): Outcome {
    Outcome(p.(queue := [], status := Unknown, index := IndexIn(p, Unknown)), Drained(p.queue),
            StaleAttributes(tables, p.status, None), None)
  }

  /** The place in the rotation once the status is `status`: a change of status restarts it. */
  function IndexIn(p: Provider, status: TpmStatus): nat {
    if status == p.status then p.index else 0
  }

  /** `get_request` takes an entry unless a connection is wanted. */
  predicate Takes(p: Provider) {
    !p.desireConnection && p.queue != []
  }

  function Head(p: Provider): Entry
    requires p.queue != []
  {
    p.queue[MinIndex(p.queue)]
  }

  /** The entry taken is returned for execution: it is in time and may run; otherwise it is told ABORTED. */
  predicate Runs(p: Provider, status: TpmStatus, now: real) {
    Takes(p) && now <= Head(p).wipeTime && Permitted(status, Head(p).request)
  }

  /** `get_request` answers with the next attribute of the rotation. */
  predicate Polls(p: Provider, status: TpmStatus, now: real) {
    if Takes(p) then !Runs(p, status, now) else !p.desireConnection && !p.readConfiguration
  }

  predicate ClearsFlag(p: Provider, status: TpmStatus, now: real) {
    Runs(p, status, now) && IsInitialise(Head(p).request) && (status == Unprogrammed || status == Programmed)
  }

  function GetAnswer(tables: Tables, p: Provider, status: TpmStatus, now: real): Answer {
    if p.desireConnection then ConnectNow
    else if Runs(p, status, now) then Execute(Head(p).request)
    else if Polls(p, status, now) then
      PollAttribute(tables[status][Wrap(IndexIn(p, status), |tables[status]|)])
    else ReadConfiguration
  }

  function GetStep(tables: Tables, p: Provider, status: TpmStatus, now: real): Outcome {
    Outcome(
      Provider(
        if Takes(p) then Without(p.queue, MinIndex(p.queue)) else p.queue,
        p.counter,
        p.initialiseQueued && !ClearsFlag(p, status, now),
        false,
        p.readConfiguration,
        if Polls(p, status, now) then IndexIn(p, status) + 1 else IndexIn(p, status),
        status),
      if Takes(p) && !Runs(p, status, now) then [Head(p).request] else [],
      StaleAttributes(tables, p.status, Some(status)),
      Some(GetAnswer(tables, p, status, now)))
  }

  /** Once the status is set, the rest of the call finds nothing stale and does the same. */
  lemma StatusFirst(tables: Tables, p: Provider, status: TpmStatus, now: real)
    ensures GetStep(tables, p.(status := status, index := IndexIn(p, status)), status, now)
         == GetStep(tables, p, status, now).(stale := {})
  {
  }

  function Step(tables: Tables, p: Provider, op: Op): Outcome {
    match op
    case Enqueue(r, priority, wipeTime, now) => EnqueueStep(p, r, priority, wipeTime, now)
    case Cleanup => CleanupStep(tables, p)
    case Get(status, now) => GetStep(tables, p, status, now)
    case DesireConnection => Outcome(p.(desireConnection := true), [], {}, None)
    case DesireConfigurationRead => Outcome(p.(readConfiguration := true), [], {}, None)
    case InformConfigurationRead => Outcome(p.(readConfiguration := false), [], {}, None)
  }

  /** The class itself. The two ghost fields record what the callbacks were told. */
  class TileRequestProvider {
    const requestIterator: RequestIterator
    var lrcQueue: seq<Entry>
    var commandCounter: nat
    var initialiseQueued: bool
    var desireConnection: bool
    var readConfiguration: bool
    ghost var abortedLog: seq<Request>
    ghost var staleLog: seq<set<Attribute>>

    ghost function View(): Provider
      reads this, requestIterator
    {
      Provider(lrcQueue, commandCounter, initialiseQueued, desireConnection, readConfiguration,
               requestIterator.idx, requestIterator.state)
    }

    ghost function Tables(): Tables {
      requestIterator.allowedAttributes
    }

    /** The last call did what the state machine does: it moved the state to `o.next`, and told the callbacks
        about `o.aborted` and `o.stale`. */
    twostate predicate Did(o: Outcome)
      reads this, requestIterator
    {
      && View() == o.next
      && abortedLog == old(abortedLog) + o.aborted
      && staleLog == if o.stale == {} then old(staleLog) else old(staleLog) + [o.stale]
    }

    constructor (tables: Tables)
      ensures fresh(requestIterator) && Tables() == tables
      ensures View() == INITIAL && abortedLog == [] && staleLog == []
    {
      requestIterator := new RequestIterator(tables);
      lrcQueue, commandCounter := [], 0;
      initialiseQueued, desireConnection, readConfiguration := false, false, false;
      abortedLog, staleLog := [], [];
    }

    method RegisterConnection()
      modifies this`desireConnection
      ensures Did(Step(Tables(), old(View()), DesireConnection))
    {
      desireConnection := true;
    }

    method RegisterConfigurationRead()
      modifies this`readConfiguration
      ensures Did(Step(Tables(), old(View()), DesireConfigurationRead))
    {
      readConfiguration := true;
    }

    method ForgetConfigurationRead()
      modifies this`readConfiguration
      ensures Did(Step(Tables(), old(View()), InformConfigurationRead))
    {
      readConfiguration := false;
    }

    /** The stale-attribute callback is called only when there is something to report. */
    ghost method ReportStale(stale: set<Attribute>)
      modifies this`staleLog
      ensures staleLog == if stale == {} then old(staleLog) else old(staleLog) + [stale]
    {
      if stale != {} {
        staleLog := staleLog + [stale];
      }
    }

    /** Take every entry, in queue order, and tell its callback ABORTED. */
    method Drain()
      modifies this`lrcQueue, this`abortedLog
      ensures lrcQueue == [] && abortedLog == old(abortedLog) + Drained(old(lrcQueue))
    {
      while lrcQueue != []
        invariant abortedLog + Drained(lrcQueue) == old(abortedLog) + Drained(old(lrcQueue))
        decreases |lrcQueue|
      {
        var i := MinIndex(lrcQueue);
        abortedLog := abortedLog + [lrcQueue[i].request];
        lrcQueue := Without(lrcQueue, i);
      }
    }

    method EnqueueLrc(request: Request, wipeTime: Option<real>, now: real, priority: int := 999)
      modifies this
      ensures Did(Step(Tables(), old(View()), Enqueue(request, priority, wipeTime, now)))
    {
      if IsInitialise(request) {
        Drain();
        commandCounter := 0;
        initialiseQueued := true;
      }
      var wipe := if wipeTime.None? then now + 60.0 else wipeTime.value;
      lrcQueue := lrcQueue + [Entry(priority, commandCounter, wipe, request)];
      commandCounter := commandCounter + 1;
    }

    method CleanUp()
      modifies this, requestIterator
      ensures Did(Step(Tables(), old(View()), Cleanup))
    {
      ReportStale(StaleAttributes(requestIterator.allowedAttributes, requestIterator.state, None));
      requestIterator.SetState(Unknown);
      Drain();
    }

    method GetRequest(tpmStatus: TpmStatus, now: real) returns (answer: Answer)
      modifies this, requestIterator
      ensures var o := Step(Tables(), old(View()), Get(tpmStatus, now)); Did(o) && o.answer == Some(answer)
    {
      StatusFirst(Tables(), View(), tpmStatus, now);
      ReportStale(StaleAttributes(requestIterator.allowedAttributes, requestIterator.state, Some(tpmStatus)));
      requestIterator.SetState(tpmStatus);
      answer := Choose(tpmStatus, now);
    }

    /** The rest of `GetRequest`, once the status is set. */
    method Choose(tpmStatus: TpmStatus, now: real) returns (answer: Answer)
      requires requestIterator.state == tpmStatus
      modifies this`desireConnection, this`lrcQueue, this`initialiseQueued, this`abortedLog, requestIterator`idx
      ensures var o := GetStep(Tables(), old(View()), tpmStatus, now); Did(o) && o.answer == Some(answer)
    {
      if desireConnection {
        desireConnection := false;
        return ConnectNow;
      }
      if lrcQueue == [] {
        if readConfiguration {
          return ReadConfiguration;
        }
        var item := requestIterator.Next();
        return PollAttribute(item);
      }
      answer := TakeEntry(tpmStatus, now);
    }

    /** The rest of `GetRequest` when there is an entry to take. */
    method TakeEntry(tpmStatus: TpmStatus, now: real) returns (answer: Answer)
      requires Takes(View()) && requestIterator.state == tpmStatus
      modifies this`lrcQueue, this`initialiseQueued, this`abortedLog, requestIterator`idx
      ensures var o := GetStep(Tables(), old(View()), tpmStatus, now); Did(o) && o.answer == Some(answer)
    {
      var i := MinIndex(lrcQueue);
      var entry := lrcQueue[i];
      lrcQueue := Without(lrcQueue, i);
      if entry.wipeTime < now {
        answer := AbortAndPoll(entry.request);
        return;
      }
      match tpmStatus {
        case Unprogrammed | Programmed =>
          if entry.request.name == "initialise" || entry.request.name == "download_firmware" {
            if entry.request.name == "initialise" {
              initialiseQueued := false;
            }
            return Execute(entry.request);
          }
        case Initialised | Synchronised =>
          return Execute(entry.request);
        case _ =>
      }
      answer := AbortAndPoll(entry.request);
    }

    method AbortAndPoll(request: Request) returns (answer: Answer)
      modifies this`abortedLog, requestIterator`idx
      ensures abortedLog == old(abortedLog) + [request]
      ensures requestIterator.idx == old(requestIterator.idx) + 1
      ensures var table := requestIterator.Polled(requestIterator.state);
        answer == PollAttribute(table[Wrap(old(requestIterator.idx), |table|)])
    {
      abortedLog := abortedLog + [request];
      var item := requestIterator.Next();
      return PollAttribute(item);
    }
  }
}
