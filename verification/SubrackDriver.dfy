/** The polling driver of a subrack, as a state machine on values and as the class that updates its state in place.
    The management board is any sequence of answers. */
module SubrackPolling {
  import opened Basics
  import opened OrderedMap
  import opened SubrackCommands

  /** An attribute write; the values themselves do not matter here. */
  type Write = Item<string, int>

  /** A poll request: commands, attribute writes, and how many attributes are read. */
  datatype Request = Request(commands: seq<Action>, writes: seq<Write>, queries: nat)

  /** How many attributes a full read asks for. */
  const ALL_ATTRIBUTES := 19

  /** The status of one answer of the board; an `Ok` answer to a command carries a return value, true or false. */
  datatype Answer =
    | Ok(truthy: bool) | Started | Busy | Error | JsonDecodeError | RequestException | HttpError | OtherStatus

  /** What the board answers to the successive commands, writes and reads of one poll. */
  datatype Board = Board(command: nat -> Answer, write: nat -> Answer, read: nat -> Answer)

  /** An answered command, as the poll response records it. */
  datatype Reply = Reply(action: Action, truthy: bool)

  datatype PollResult = Responded(replies: seq<Reply>) | Raised

  /** The fields of the driver. */
  datatype Driver = Driver(
    tick: nat,
    commandTick: nat,
    checkedBios: bool,
    pollCommands: bool,
    busy: bool,
    active: Option<Callback>,
    commands: seq<Command>,
    writes: seq<Write>)

  /** The tick limits, fixed by the update rates. */
  datatype Limits = Limits(maxTick: nat, commandMaxTick: nat)

  function Initial(limits: Limits): Driver {
    Driver(limits.maxTick, limits.commandMaxTick, false, false, true, None, [], [])
  }

  // ---------- Registration ----------

  function RegisterNext(d: Driver, c: Command): Driver {
    d.(commands := Put(d.commands, c))
  }

  function RegisterEvents(d: Driver, c: Command): seq<Event> {
    AbortsAt(d.commands, Superseded(c.key))
  }

  // ---------- get_request ----------

  /** A command is taken from the map when the board is idle and one waits. */
  predicate Dispatches(d: Driver) {
    !d.busy && d.commands != []
  }

  predicate ReadsAll(d: Driver, limits: Limits) {
    !d.busy && d.tick + 1 > limits.maxTick
  }

  predicate ConsidersHealth(d: Driver, limits: Limits) {
    !d.busy && d.commandTick + 1 > limits.commandMaxTick
  }

  /** Whether health is polled, once the BIOS version has been checked against `newBios`: what the board information
      says of it, if there is any yet. */
  predicate PollsHealth(d: Driver, newBios: Option<bool>) {
    d.pollCommands || (!d.checkedBios && newBios == Some(true))
  }

  function BuiltRequest(d: Driver, limits: Limits, newBios: Option<bool>): Request {
    if d.busy then Request([CommandCompleted], [], 0)
    else
      Request(
        if Dispatches(d) then [d.commands[0].value.action]
        else if ConsidersHealth(d, limits) && PollsHealth(d, newBios) then [GetHealthStatus("")]
        else [],
        d.writes,
        if ReadsAll(d, limits) then ALL_ATTRIBUTES else 0)
  }

  function RequestNext(d: Driver, limits: Limits, newBios: Option<bool>): Driver {
    Driver(
      if ReadsAll(d, limits) then 0 else d.tick + 1,
      if ConsidersHealth(d, limits) && !(PollsHealth(d, newBios) && Dispatches(d)) then 0 else d.commandTick + 1,
      d.checkedBios || (ConsidersHealth(d, limits) && newBios.Some?),
      if ConsidersHealth(d, limits) then PollsHealth(d, newBios) else d.pollCommands,
      d.busy,
      if Dispatches(d) then d.commands[0].value.callback else d.active,
      if Dispatches(d) then d.commands[1..] else d.commands,
      if d.busy then d.writes else [])
  }

  function RequestEvents(d: Driver): seq<Event> {
    if Dispatches(d) then StatusOf(d.commands[0].value.callback, InProgress) else []
  }

  function StatusOf(callback: Option<Callback>, status: TaskStatus): seq<Event> {
    if callback.Some? then [Event(callback.value, status)] else []
  }

  // ---------- poll ----------

  /** Statuses that make `poll` raise. */
  predicate Raises(answer: Answer) {
    answer.RequestException? || answer.HttpError? || answer.OtherStatus?
  }

  /** Statuses that fail the active command. */
  predicate Refuses(answer: Answer) {
    Raises(answer) || answer.Error? || answer.JsonDecodeError?
  }

  /** What answering commands has done so far: the busy flag, the active callback, the events, the replies, and
      whether the poll raised. */
  datatype Polling = Polling(
    busy: bool, active: Option<Callback>, events: seq<Event>, replies: seq<Reply>, raised: bool)

  function PollCommand(p: Polling, action: Action, answer: Answer): Polling {
    var fails := Refuses(answer) || (answer.Busy? && !p.busy);
    Polling(
      p.busy || answer.Started?,
      if fails then None else p.active,
      p.events + if fails then StatusOf(p.active, Failed) else [],
      if answer.Ok? then p.replies + [Reply(action, answer.truthy)] else p.replies,
      Raises(answer))
  }

  /** The commands of a request from index `i` on; a raise ends the poll. */
  function PollCommands(p: Polling, commands: seq<Action>, answer: nat -> Answer, i: nat): Polling
    requires i <= |commands|
    decreases |commands| - i
  {
    if p.raised || i == |commands| then p
    else PollCommands(PollCommand(p, commands[i], answer(i)), commands, answer, i + 1)
  }

  /** Whether one of the first `n` answers raises. */
  predicate RaisesWithin(answer: nat -> Answer, n: nat) {
    exists i :: 0 <= i < n && Raises(answer(i))
  }

  function Polled(d: Driver, request: Request, board: Board): Polling {
    PollCommands(Polling(d.busy, d.active, [], [], false), request.commands, board.command, 0)
  }

  function PollNext(d: Driver, request: Request, board: Board): Driver {
    d.(busy := Polled(d, request, board).busy, active := Polled(d, request, board).active)
  }

  predicate PollRaises(d: Driver, request: Request, board: Board) {
    || Polled(d, request, board).raised
    || RaisesWithin(board.write, |request.writes|)
    || RaisesWithin(board.read, request.queries)
  }

  function PollResultOf(d: Driver, request: Request, board: Board): PollResult {
    if PollRaises(d, request, board) then Raised else Responded(Polled(d, request, board).replies)
  }

  // ---------- poll_succeeded ----------

  /** The return value recorded for `command_completed`, if there is one; a later reply replaces an earlier one. */
  function CompletedReply(replies: seq<Reply>): Option<bool> {
    if replies == [] then None
    else if replies[|replies| - 1].action == CommandCompleted then Some(replies[|replies| - 1].truthy)
    else CompletedReply(replies[..|replies| - 1])
  }

  /** Whether the response means that the active command is done. */
  predicate Finishes(d: Driver, replies: seq<Reply>) {
    && CompletedReply(replies) != Some(false)
    && replies != []
    && (!d.busy || CompletedReply(replies) == Some(true))
  }

  function SucceededNext(d: Driver, limits: Limits, replies: seq<Reply>): Driver {
    var forced := Finishes(d, replies) && d.busy;
    d.(tick := if forced then limits.maxTick + 1 else d.tick,
       commandTick := if forced then limits.commandMaxTick + 1 else d.commandTick,
       busy := d.busy && !Finishes(d, replies),
       active := if Finishes(d, replies) then None else d.active)
  }

  function SucceededEvents(d: Driver, replies: seq<Reply>): seq<Event> {
    if Finishes(d, replies) then StatusOf(d.active, Completed) else []
  }

  // ---------- polling_stopped ----------

  function StoppedNext(d: Driver, limits: Limits): Driver {
    d.(tick := limits.maxTick, commandTick := limits.commandMaxTick)
  }

  /** The driver itself. The ghost field records what the task callbacks were told. */
  class SubrackDriver {
    const maxTick: nat
    const commandMaxTick: nat
    var tick: nat
    var commandTick: nat
    var checkedBios: bool
    var pollCommands: bool
    var boardIsBusy: bool
    var activeCallback: Option<Callback>
    var commandsToExecute: seq<Command>
    var attributesToWrite: seq<Write>
    ghost var log: seq<Event>

    ghost function View(): Driver
      reads this
    {
      Driver(tick, commandTick, checkedBios, pollCommands, boardIsBusy, activeCallback, commandsToExecute,
             attributesToWrite)
    }

    ghost function TickLimits(): Limits {
      Limits(maxTick, commandMaxTick)
    }

    constructor (maxTick: nat, commandMaxTick: nat)
      ensures TickLimits() == Limits(maxTick, commandMaxTick)
      ensures View() == Initial(TickLimits()) && log == []
    {
      this.maxTick, this.commandMaxTick := maxTick, commandMaxTick;
      tick, commandTick := maxTick, commandMaxTick;
      checkedBios, pollCommands, boardIsBusy := false, false, true;
      activeCallback, commandsToExecute, attributesToWrite := None, [], [];
      log := [];
    }

    /** Abort the callbacks found under some keys, one after the other, then store the new command under its own. */
    method Supersede(keys: seq<Key>, c: Command)
      modifies this`commandsToExecute, this`log
      ensures View() == RegisterNext(old(View()), c)
      ensures log == old(log) + AbortsAt(old(commandsToExecute), keys)
    {
      for i := 0 to |keys|
        invariant commandsToExecute == old(commandsToExecute)
        invariant log + AbortsAt(commandsToExecute, keys[i..]) == old(log) + AbortsAt(commandsToExecute, keys)
      {
        assert keys[i..][1..] == keys[i + 1..];
        var prior := CallbackAt(commandsToExecute, keys[i]);
        if prior.Some? {
          log := log + [Event(prior.value, Aborted)];
        }
      }
      commandsToExecute := Put(commandsToExecute, c);
    }

    method TurnOffOnTpm(tpmNumber: int, isTurnOn: bool, taskCallback: Option<Callback>)
      modifies this`commandsToExecute, this`log
      ensures var c := Item(Tpm(tpmNumber), Task(TurnTpm(tpmNumber, isTurnOn), taskCallback));
        View() == RegisterNext(old(View()), c) && log == old(log) + RegisterEvents(old(View()), c)
    {
      var keys := if tpmNumber == 0 then seq(TPM_BAY_COUNT + 1, i => Tpm(i)) else [Tpm(tpmNumber)];
      Supersede(keys, Item(Tpm(tpmNumber), Task(TurnTpm(tpmNumber, isTurnOn), taskCallback)));
      assert keys == Superseded(Tpm(tpmNumber));
    }

    method TurnOffOnPduPort(portNumber: int, isTurnOn: bool, taskCallback: Option<Callback>)
      modifies this`commandsToExecute, this`log
      ensures var c := Item(PduPort(portNumber), Task(TurnPduPort(portNumber, isTurnOn), taskCallback));
        View() == RegisterNext(old(View()), c) && log == old(log) + RegisterEvents(old(View()), c)
    {
      var keys := if portNumber == 0 then seq(PDU_PORT_COUNT + 1, i => PduPort(i)) else [PduPort(portNumber)];
      Supersede(keys, Item(PduPort(portNumber), Task(TurnPduPort(portNumber, isTurnOn), taskCallback)));
      assert keys == Superseded(PduPort(portNumber));
    }

    method ReadHealthGroup(monitoringPoints: Option<string>, taskCallback: Option<Callback>)
      modifies this`commandsToExecute, this`log
      ensures var points := if monitoringPoints.None? then "" else monitoringPoints.value;
        var c := Item(HealthStatus, Task(GetHealthStatus(points), taskCallback));
        View() == RegisterNext(old(View()), c) && log == old(log) + RegisterEvents(old(View()), c)
    {
      var points := if monitoringPoints.None? then "" else monitoringPoints.value;
      commandsToExecute := Put(commandsToExecute, Item(HealthStatus, Task(GetHealthStatus(points), taskCallback)));
    }

    method ChangeSubrackFanSpeed(fanNumber: int, speed: real, taskCallback: Option<Callback>)
      modifies this`commandsToExecute, this`log
      ensures var c := Item(SubrackFanSpeed(fanNumber), Task(SetSubrackFanSpeed(fanNumber, speed), taskCallback));
        View() == RegisterNext(old(View()), c) && log == old(log) + RegisterEvents(old(View()), c)
    {
      var key := SubrackFanSpeed(fanNumber);
      Supersede([key], Item(key, Task(SetSubrackFanSpeed(fanNumber, speed), taskCallback)));
    }

    method ChangeSubrackFanMode(fanNumber: int, mode: int, taskCallback: Option<Callback>)
      modifies this`commandsToExecute, this`log
      ensures var c := Item(SubrackFanMode(fanNumber), Task(SetFanMode(fanNumber, mode), taskCallback));
        View() == RegisterNext(old(View()), c) && log == old(log) + RegisterEvents(old(View()), c)
    {
      var key := SubrackFanMode(fanNumber);
      Supersede([key], Item(key, Task(SetFanMode(fanNumber, mode), taskCallback)));
    }

    method ChangePowerSupplyFanSpeed(fanNumber: int, speed: real, taskCallback: Option<Callback>)
      modifies this`commandsToExecute, this`log
      ensures var task := Task(SetPowerSupplyFanSpeed(fanNumber, speed), taskCallback);
        var c := Item(PowerSupplyFanSpeed(fanNumber), task);
        View() == RegisterNext(old(View()), c) && log == old(log) + RegisterEvents(old(View()), c)
    {
      var key := PowerSupplyFanSpeed(fanNumber);
      Supersede([key], Item(key, Task(SetPowerSupplyFanSpeed(fanNumber, speed), taskCallback)));
    }

    method WriteAttributes(values: seq<Write>)
      modifies this`attributesToWrite
      ensures attributesToWrite == PutAll(old(attributesToWrite), values)
    {
      for i := 0 to |values|
        invariant PutAll(attributesToWrite, values[i..]) == PutAll(old(attributesToWrite), values)
      {
        assert values[i..][1..] == values[i + 1..];
        attributesToWrite := Put(attributesToWrite, values[i]);
      }
    }

    /** `newBios` is what the board information, if there is any, says of the BIOS version. */
    method GetRequest(newBios: Option<bool>) returns (request: Request)
      modifies this
      ensures request == BuiltRequest(old(View()), TickLimits(), newBios)
      ensures View() == RequestNext(old(View()), TickLimits(), newBios)
      ensures log == old(log) + RequestEvents(old(View()))
    {
      tick := tick + 1;
      commandTick := commandTick + 1;
      if boardIsBusy {
        return Request([CommandCompleted], [], 0);
      }
      var commands := TakeCommand();
      var writes := attributesToWrite;
      attributesToWrite := [];
      var queries := 0;
      if tick > maxTick {
        queries := ALL_ATTRIBUTES;
        tick := 0;
      }
      if commandTick > commandMaxTick {
        var asks := ConsiderHealth(newBios, commands == []);
        if asks {
          commands := commands + [GetHealthStatus("")];
        }
      }
      request := Request(commands, writes, queries);
    }

    /** The part of `GetRequest` that takes a waiting command, when the board is idle. */
    method TakeCommand() returns (commands: seq<Action>)
      requires !boardIsBusy
      modifies this`activeCallback, this`commandsToExecute, this`log
      ensures commands == if Dispatches(old(View())) then [old(commandsToExecute)[0].value.action] else []
      ensures activeCallback == if commands != [] then old(commandsToExecute)[0].value.callback else old(activeCallback)
      ensures commandsToExecute == if commands != [] then old(commandsToExecute)[1..] else []
      ensures log == old(log) + RequestEvents(old(View()))
    {
      commands := [];
      if commandsToExecute != [] {
        var c := commandsToExecute[0];
        activeCallback, commandsToExecute := c.value.callback, commandsToExecute[1..];
        commands := commands + [c.value.action];
        if activeCallback.Some? {
          log := log + [Event(activeCallback.value, InProgress)];
        }
      }
    }

    /** The part of `GetRequest` that decides whether to poll the health status; `free` says that the request carries
        no command yet. When it does, the tick stays due, so that the next free request retries. */
    method ConsiderHealth(newBios: Option<bool>, free: bool) returns (asks: bool)
      modifies this`checkedBios, this`pollCommands, this`commandTick
      ensures checkedBios == (old(checkedBios) || newBios.Some?)
      ensures pollCommands == PollsHealth(old(View()), newBios)
      ensures commandTick == if pollCommands && !free then old(commandTick) else 0
      ensures asks == (pollCommands && free)
    {
      CheckBiosVersion(newBios);
      asks := pollCommands && free;
      if asks || !pollCommands {
        commandTick := 0;
      }
    }

    method CheckBiosVersion(newBios: Option<bool>)
      modifies this`checkedBios, this`pollCommands
      ensures checkedBios == (old(checkedBios) || newBios.Some?)
      ensures pollCommands == (old(pollCommands) || (!old(checkedBios) && newBios == Some(true)))
    {
      if checkedBios {
        return;
      }
      if newBios.Some? {
        if newBios.value {
          pollCommands := true;
        }
        checkedBios := true;
      }
    }

    method Poll(request: Request, board: Board) returns (result: PollResult)
      modifies this`boardIsBusy, this`activeCallback, this`log
      ensures result == PollResultOf(old(View()), request, board)
      ensures View() == PollNext(old(View()), request, board)
      ensures log == old(log) + Polled(old(View()), request, board).events
    {
      var replies: seq<Reply> := [];
      ghost var p := Polling(boardIsBusy, activeCallback, [], [], false);
      for i := 0 to |request.commands|
        invariant !p.raised && p.busy == boardIsBusy && p.active == activeCallback && p.replies == replies
        invariant log == old(log) + p.events
        invariant PollCommands(p, request.commands, board.command, i) == Polled(old(View()), request, board)
      {
        p := PollCommand(p, request.commands[i], board.command(i));
        var raises := AnswerCommand(board.command(i));
        if raises {
          return Raised;
        }
        if board.command(i).Ok? {
          replies := replies + [Reply(request.commands[i], board.command(i).truthy)];
        }
      }
      for i := 0 to |request.writes|
        invariant !RaisesWithin(board.write, i)
      {
        if Raises(board.write(i)) {
          return Raised;
        }
      }
      for i := 0 to request.queries
        invariant !RaisesWithin(board.read, i)
      {
        if Raises(board.read(i)) {
          return Raised;
        }
      }
      return Responded(replies);
    }

    /** The part of `Poll` that deals with the answer to one command; it says whether the answer raises. */
    method AnswerCommand(answer: Answer) returns (raises: bool)
      modifies this`boardIsBusy, this`activeCallback, this`log
      ensures raises == Raises(answer)
      ensures var fails := Refuses(answer) || (answer.Busy? && !old(boardIsBusy));
        && activeCallback == (if fails then None else old(activeCallback))
        && log == old(log) + if fails then StatusOf(old(activeCallback), Failed) else []
      ensures boardIsBusy == (old(boardIsBusy) || answer.Started?)
    {
      if !answer.Ok? && !answer.Started? && !answer.Busy? {
        FailActive();
        if answer.RequestException? || answer.HttpError? || answer.OtherStatus? {
          return true;
        }
      }
      if answer.Started? {
        boardIsBusy := true;
      } else if !answer.Ok? {
        if !boardIsBusy {
          FailActive();
        }
      }
      raises := false;
    }

    method FailActive()
      modifies this`activeCallback, this`log
      ensures activeCallback == None && log == old(log) + StatusOf(old(activeCallback), Failed)
    {
      if activeCallback.Some? {
        log := log + [Event(activeCallback.value, Failed)];
        activeCallback := None;
      }
    }

    method PollSucceeded(replies: seq<Reply>)
      modifies this
      ensures View() == SucceededNext(old(View()), TickLimits(), replies)
      ensures log == old(log) + SucceededEvents(old(View()), replies)
    {
      var completed := CompletedReply(replies);
      if completed == Some(false) {
        return;
      }
      if replies != [] && (!boardIsBusy || completed == Some(true)) {
        if boardIsBusy {
          tick := maxTick + 1;
          commandTick := commandMaxTick + 1;
        }
        boardIsBusy := false;
        if activeCallback.Some? {
          log := log + [Event(activeCallback.value, Completed)];
        }
        activeCallback := None;
      }
    }

    method PollingStopped()
      modifies this`tick, this`commandTick
      ensures View() == StoppedNext(old(View()), TickLimits())
    {
      tick := maxTick;
      commandTick := commandMaxTick;
    }
  }
}
