/** The ordered map of commands waiting for the subrack, and the statuses its callbacks receive. */
module SubrackCommands {

  import opened Basics
  import opened OrderedMap

  /** The identity of a task callback. */
  type Callback = nat

  datatype TaskStatus = InProgress | Completed | Failed | Aborted

  datatype Event = Event(callback: Callback, status: TaskStatus)

  const TPM_BAY_COUNT := 8
  const PDU_PORT_COUNT := 24

  /** The keys of `_commands_to_execute`. Number 0 of a TPM or a PDU port stands for all of them. */
  datatype Key =
    | Tpm(n: int) | PduPort(n: int) | HealthStatus
    | SubrackFanSpeed(n: int) | SubrackFanMode(n: int) | PowerSupplyFanSpeed(n: int)

  datatype Action =
    | TurnTpm(n: int, on: bool) | TurnPduPort(n: int, on: bool) | GetHealthStatus(points: string)
    | SetSubrackFanSpeed(n: int, speed: real) | SetFanMode(n: int, mode: int)
    | SetPowerSupplyFanSpeed(n: int, speed: real) | CommandCompleted

  datatype Task = Task(action: Action, callback: Option<Callback>)

  /** One item of the ordered map. */
  type Command = Item<Key, Task>

  /** The keys whose callbacks a new command under `key` aborts, in order. */
  function Superseded(key: Key): (keys: seq<Key>) {
    match key
    case Tpm(n) => if n == 0 then seq(TPM_BAY_COUNT + 1, i => Tpm(i)) else [key]
    case PduPort(n) => if n == 0 then seq(PDU_PORT_COUNT + 1, i => PduPort(i)) else [key]
    case HealthStatus => []
    case _ => [key]
  }

  function CallbackAt(commands: seq<Command>, key: Key): Option<Callback> {
    var c := Lookup(commands, key);
    if c.Some? then c.value.callback else None
  }

  function AbortOf(callback: Option<Callback>): seq<Event> {
    if callback.Some? then [Event(callback.value, Aborted)] else []
  }

  function AbortsAt(commands: seq<Command>, keys: seq<Key>): seq<Event> {
    if keys == [] then [] else AbortOf(CallbackAt(commands, keys[0])) + AbortsAt(commands, keys[1..])
  }

  lemma AbortsMore(commands: seq<Command>, key: Key, keys: seq<Key>)
    ensures AbortsAt(commands, [key] + keys) == AbortOf(CallbackAt(commands, key)) + AbortsAt(commands, keys)
  {
    assert ([key] + keys)[1..] == keys;
  }

  /** The callbacks found under some keys are aborted before those found under later ones. */
  lemma {:induction false} AbortsInOrder(commands: seq<Command>, keys: seq<Key>, later: seq<Key>)
    ensures AbortsAt(commands, keys + later) == AbortsAt(commands, keys) + AbortsAt(commands, later)
    decreases |keys|
  {
    if keys == [] {
      assert keys + later == later;
    } else {
      var key, others := keys[0], keys[1..];
      AbortsInOrder(commands, others, later);
      AbortsMore(commands, key, others + later);
      ConcatAssociates([key], others, later);
      assert keys == [key] + others;
      ConcatAssociates(AbortOf(CallbackAt(commands, key)), AbortsAt(commands, others), AbortsAt(commands, later));
    }
  }

  /** The statuses one callback received, in order. */
  function Statuses(log: seq<Event>, cb: Callback): seq<TaskStatus> {
    if log == [] then []
    else Statuses(log[..|log| - 1], cb) + if log[|log| - 1].callback == cb then [log[|log| - 1].status] else []
  }

  /** How many waiting commands carry a callback. */
  function Waiting(commands: seq<Command>, cb: Callback): (n: nat) {
    if commands == [] then 0 else Is(commands[0].value.callback, cb) + Waiting(commands[1..], cb)
  }

  function Is(callback: Option<Callback>, cb: Callback): (n: nat) {
    if callback == Some(cb) then 1 else 0
  }

  lemma {:induction false} StatusesJoin(log: seq<Event>, more: seq<Event>, cb: Callback)
    ensures Statuses(log + more, cb) == Statuses(log, cb) + Statuses(more, cb)
  {
    if more == [] {
      assert log + more == log;
    } else {
      StatusesJoin(log, more[..|more| - 1], cb);
      assert (log + more)[..|log + more| - 1] == log + more[..|more| - 1];
    }
  }

  lemma StatusesOfOne(event: Event, cb: Callback)
    ensures Statuses([event], cb) == if event.callback == cb then [event.status] else []
  {
    assert [event][..0] == [];
  }

  /** A new command takes the place of the one under its key, and of that one only. */
  lemma {:induction false} PutWaits(commands: seq<Command>, c: Command, cb: Callback)
    ensures Waiting(Put(commands, c), cb)
         == Waiting(commands, cb) + Is(c.value.callback, cb) - Is(CallbackAt(commands, c.key), cb)
  {
    if commands != [] && commands[0].key != c.key {
      PutWaits(commands[1..], c, cb);
    }
  }

  lemma SingleCommand(c: Command, more: Command, key: Key)
    ensures Lookup([c], key) == if c.key == key then Some(c.value) else None
    ensures c.key != more.key ==> Put([c], more) == [c, more]
  {
    assert [c][1..] == [];
  }

  lemma PutKeepsOthers(commands: seq<Command>, c: Command, key: Key)
    requires key != c.key
    ensures CallbackAt(Put(commands, c), key) == CallbackAt(commands, key)
  {
    PutUpdates(commands, c, key);
  }

  lemma {:induction false} FoundWaits(commands: seq<Command>, key: Key, cb: Callback)
    requires CallbackAt(commands, key) == Some(cb)
    ensures Waiting(commands, cb) >= 1
  {
    if commands[0].key != key {
      FoundWaits(commands[1..], key, cb);
    }
  }

  /** Whether a new command under `key` aborts no callback but that of the command it replaces. A turn-all request
      is safe exactly when no individual command with a callback waits. */
  ghost predicate Safe(commands: seq<Command>, key: Key) {
    forall k :: k in Superseded(key) && k != key ==> CallbackAt(commands, k) == None
  }

  lemma {:induction false} NoAborts(commands: seq<Command>, keys: seq<Key>)
    requires forall k :: k in keys ==> CallbackAt(commands, k) == None
    ensures AbortsAt(commands, keys) == []
  {
    if keys != [] {
      NoAborts(commands, keys[1..]);
    }
  }

  lemma SafeAborts(commands: seq<Command>, key: Key)
    requires Safe(commands, key)
    ensures AbortsAt(commands, Superseded(key))
         == if key == HealthStatus then [] else AbortOf(CallbackAt(commands, key))
  {
    var keys := Superseded(key);
    if keys != [] {
      assert keys[0] == key;
      forall k | k in keys[1..]
        ensures CallbackAt(commands, k) == None
      {
        assert k in keys && k != key;
      }
      NoAborts(commands, keys[1..]);
    }
  }

  lemma {:induction false} AbortIsTold(commands: seq<Command>, keys: seq<Key>, key: Key, cb: Callback)
    requires key in keys && CallbackAt(commands, key) == Some(cb)
    ensures |Statuses(AbortsAt(commands, keys), cb)| > 0
  {
    var first, others := AbortOf(CallbackAt(commands, keys[0])), AbortsAt(commands, keys[1..]);
    StatusesJoin(first, others, cb);
    if keys[0] == key {
      StatusesOfOne(Event(cb, Aborted), cb);
    } else {
      AbortIsTold(commands, keys[1..], key, cb);
    }
  }
}
