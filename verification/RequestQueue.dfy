/** The priority queue of long-running requests: entries are taken in tuple order, lowest first. */
module RequestQueue {

  /** A long-running command request; `id` stands for the identity of the Python object. */
  datatype Request = Request(id: nat, name: string)

  datatype Entry = Entry(priority: int, counter: nat, wipeTime: real, request: Request)

  /** Tuple order. Counters in one queue differ (`RequestRuns.ValidHolds`), so later fields never decide. */
  predicate Before(a: Entry, b: Entry) {
    a.priority < b.priority || (a.priority == b.priority && a.counter < b.counter)
  }

  /** The index of the entry that `get_nowait` takes. Entries are listed in order of arrival. */
  function MinIndex(q: seq<Entry>): (i: nat)
    requires |q| > 0
    ensures i < |q|
    ensures forall j :: 0 <= j < |q| ==> !Before(q[j], q[i])
  {
    if |q| == 1 then 0
    else
      var i := MinIndex(q[..|q| - 1]);
      if Before(q[|q| - 1], q[i]) then |q| - 1 else i
  }

  function Without(q: seq<Entry>, i: nat): seq<Entry>
    requires i < |q|
  {
    q[..i] + q[i + 1..]
  }

  /** The requests in the order in which emptying the queue takes them. */
  function Drained(q: seq<Entry>): seq<Request>
    decreases |q|
  {
    if q == [] then []
    else
      var i := MinIndex(q);
      [q[i].request] + Drained(Without(q, i))
  }

  /** How often request `r` is queued. */
  function Queued(q: seq<Entry>, r: Request): (n: nat) {
    if q == [] then 0 else Queued(q[..|q| - 1], r) + if q[|q| - 1].request == r then 1 else 0
  }

  /** How often `x` occurs in `s`. */
  function Occurrences<T(==)>(s: seq<T>, x: T): (n: nat) {
    if s == [] then 0 else (if s[0] == x then 1 else 0) + Occurrences(s[1..], x)
  }

  lemma {:induction false} OccurrencesJoin<T>(s: seq<T>, t: seq<T>, x: T)
    ensures Occurrences(s + t, x) == Occurrences(s, x) + Occurrences(t, x)
  {
    if s == [] {
      assert s + t == t;
    } else {
      OccurrencesJoin(s[1..], t, x);
      assert (s + t)[1..] == s[1..] + t;
    }
  }

  lemma {:induction false} QueuedJoins(p: seq<Entry>, q: seq<Entry>, r: Request)
    ensures Queued(p + q, r) == Queued(p, r) + Queued(q, r)
  {
    if q == [] {
      assert p + q == p;
    } else {
      QueuedJoins(p, q[..|q| - 1], r);
      assert (p + q)[..|p + q| - 1] == p + q[..|q| - 1];
    }
  }

  lemma QueuedWithout(q: seq<Entry>, i: nat, r: Request)
    requires i < |q|
    ensures Queued(q, r) == Queued(Without(q, i), r) + if q[i].request == r then 1 else 0
  {
    var front, back := q[..i], q[i + 1..];
    assert q == front + ([q[i]] + back);
    QueuedJoins(front, [q[i]] + back, r);
    QueuedJoins([q[i]], back, r);
    QueuedJoins(front, back, r);
    assert [q[i]][..0] == [];
  }

  /** Emptying the queue takes every request in it, each exactly as often as it is queued. */
  lemma {:induction false} DrainedTakesAll(q: seq<Entry>, r: Request)
    ensures Occurrences(Drained(q), r) == Queued(q, r)
    decreases |q|
  {
    if q != [] {
      QueuedWithout(q, MinIndex(q), r);
      DrainedTakesAll(Without(q, MinIndex(q)), r);
    }
  }

  /** How many entries of the queue come before `e`. */
  function Ahead(q: seq<Entry>, e: Entry): (n: nat) {
    if q == [] then 0 else Ahead(q[..|q| - 1], e) + if Before(q[|q| - 1], e) then 1 else 0
  }

  lemma {:induction false} AheadJoins(p: seq<Entry>, q: seq<Entry>, e: Entry)
    ensures Ahead(p + q, e) == Ahead(p, e) + Ahead(q, e)
  {
    if q == [] {
      assert p + q == p;
    } else {
      AheadJoins(p, q[..|q| - 1], e);
      assert (p + q)[..|p + q| - 1] == p + q[..|q| - 1];
    }
  }

  lemma AheadWithout(q: seq<Entry>, i: nat, e: Entry)
    requires i < |q|
    ensures Ahead(q, e) == Ahead(Without(q, i), e) + if Before(q[i], e) then 1 else 0
  {
    var front, back := q[..i], q[i + 1..];
    assert q == front + ([q[i]] + back);
    AheadJoins(front, [q[i]] + back, e);
    AheadJoins([q[i]], back, e);
    AheadJoins(front, back, e);
    assert [q[i]][..0] == [];
  }

  lemma {:induction false} NoneAhead(q: seq<Entry>, e: Entry)
    ensures Ahead(q, e) == 0 <==> forall j :: 0 <= j < |q| ==> !Before(q[j], e)
  {
    if q != [] {
      NoneAhead(q[..|q| - 1], e);
      assert forall j :: 0 <= j < |q| - 1 ==> q[..|q| - 1][j] == q[j];
      assert q[|q| - 1] == q[|q| - 1];
    }
  }
}
