/** The health of a tile, evaluated from its monitoring points against a tree of thresholds. */
module HealthRules {
  import opened Basics
  import opened PyDict

  datatype Health = OK | DEGRADED | UNKNOWN | FAILED

  /** Which of two healths is worse: FAILED, then UNKNOWN, then DEGRADED, then OK. */
  function Rank(h: Health): nat {
    match h
    case OK => 0
    case DEGRADED => 1
    case UNKNOWN => 2
    case FAILED => 3
  }

  /** What decides which points are ignored: the group of points, and the hardware and BIOS versions. */
  datatype Context = Context(healthKey: string, hwVersion: string, biosVersion: string)

  // ---------- Combination ----------

  /** `_combine_states`: the first health of the order FAILED, UNKNOWN, DEGRADED, OK that occurs. */
  function Combine(states: seq<Health>): Health {
    if FAILED in states then FAILED
    else if UNKNOWN in states then UNKNOWN
    else if DEGRADED in states then DEGRADED
    else if OK in states then OK
    else UNKNOWN
  }

  /** It is the worst of the states, if there are any. */
  lemma CombineIsWorst(states: seq<Health>)
    requires states != []
    ensures Combine(states) in states
    ensures forall h :: h in states ==> Rank(h) <= Rank(Combine(states))
  {
    assert states[0] in states;
    match states[0] case OK => case DEGRADED => case UNKNOWN => case FAILED =>
  }

  lemma CombineJoins(a: seq<Health>, b: seq<Health>)
    requires a != [] && b != []
    ensures Combine(a + b) == Combine([Combine(a)] + b)
  {
    CombineIsWorst(a);
    CombineIsWorst(a + b);
    CombineIsWorst([Combine(a)] + b);
    assert Combine(a) in a + b;
    assert Combine(a) in [Combine(a)] + b;
    WorstIsUnique(a + b, [Combine(a)] + b, a, b);
  }

  lemma WorstIsUnique(all: seq<Health>, some: seq<Health>, a: seq<Health>, b: seq<Health>)
    requires a != [] && all == a + b && some == [Combine(a)] + b
    ensures Combine(all) == Combine(some)
  {
    CombineIsWorst(a);
    forall h ensures h in some ==> h in all {}
    forall h | h in all ensures exists g :: g in some && Rank(h) <= Rank(g) {
      if h in a {
        assert some[0] in some;
      } else {
        assert h in b && h in some;
      }
    }
    CombineIsWorst(all);
    CombineIsWorst(some);
  }

  // ---------- One monitoring point ----------

  /** Temperatures of ADC 0 to 15 are ignored without a hardware version, and `pll_40g` without a BIOS version. */
  predicate Ignored(c: Context, p: string) {
    || (c.healthKey == "temperatures" && IsAdc(p) && c.hwVersion == "")
    || (c.healthKey == "timing" && p == "pll_40g" && c.biosVersion == "")
  }

  predicate IsAdc(p: string) {
    exists i :: 0 <= i < 16 && p == "ADC" + Decimal(i)
  }

  function Decimal(i: nat): string
    requires i < 16
  {
    if i < 10 then [Digit(i)] else ['1', Digit(i - 10)]
  }

  function Digit(i: nat): char
    requires i < 10
  {
    "0123456789"[i]
  }

  /** `a <= b` for strings: in dictionary order. */
  predicate TextAtMost(a: string, b: string) {
    a == "" || (b != "" && (a[0] < b[0] || (a[0] == b[0] && TextAtMost(a[1..], b[1..]))))
  }

  /** `a <= b` for numbers and for strings; other operands raise TypeError, shown as `None`. */
  function AtMost(a: Value, b: Value): Option<bool> {
    if a.Plain? && b.Plain? then
      match (a.scalar, b.scalar)
      case (Num(x), Num(y)) => Some(x <= y)
      case (Num(_), NotANumber) => Some(false)
      case (NotANumber, Num(_)) => Some(false)
      case (NotANumber, NotANumber) => Some(false)
      case (Text(x), Text(y)) => Some(TextAtMost(x, y))
      case _ => None
    else None
  }

  /** The verdict on one point: a health, no verdict, or an exception. */
  datatype Verdict = Checked(h: Health) | Unchecked | Raised

  function RangeVerdict(v: Value, limits: Items): Verdict
    requires HasKey(limits, "min")
  {
    var above := AtMost(Lookup(limits, "min").value, v);
    if above.None? then Raised
    else if !above.value then Checked(FAILED)
    else if !HasKey(limits, "max") then Raised
    else
      var below := AtMost(v, Lookup(limits, "max").value);
      if below.None? then Raised else if below.value then Checked(OK) else Checked(FAILED)
  }

  function SoftVerdict(v: Value, limits: Items): Verdict
    requires HasKey(limits, "soft")
  {
    var soft := AtMost(v, Lookup(limits, "soft").value);
    if soft.None? then Raised
    else if soft.value then Checked(OK)
    else if !HasKey(limits, "hard") then Raised
    else
      var hard := AtMost(v, Lookup(limits, "hard").value);
      if hard.None? then Raised else if hard.value then Checked(DEGRADED) else Checked(FAILED)
  }

  /** Limits are a range, or a soft and a hard limit; the latter override the former. */
  function LimitsVerdict(v: Value, limits: Items): Verdict {
    var range := if HasKey(limits, "min") then RangeVerdict(v, limits) else Unchecked;
    if range.Raised? || !HasKey(limits, "soft") then range else SoftVerdict(v, limits)
  }

  /** The elements of `list(v)`; a value that cannot be iterated raises. */
  function Elements(v: Value): Option<seq<Scalar>> {
    match v
    case List(xs) => Some(xs)
    case Tuple(xs) => Some(xs)
    case Plain(Text(s)) => Some(seq(|s|, i requires 0 <= i < |s| => Text([s[i]])))
    case _ => None
  }

  function EqualVerdict(v: Value, limit: Value): Verdict {
    if limit.List? then
      var elements := Elements(v);
      if elements.None? then Raised else if elements.value == limit.elements then Checked(OK) else Checked(FAILED)
    else if v == limit then Checked(OK) else Checked(FAILED)
  }

  predicate Contains(s: string, p: string) {
    |p| <= |s| && (s[..|p|] == p || (s != "" && Contains(s[1..], p)))
  }

  /** Whether a name is in the thresholds, which a list or a string can hold too; `None` stands for TypeError. */
  function Holds(thresholds: Value, p: string): Option<bool> {
    match thresholds
    case Dict(items) => Some(HasKey(items, p))
    case List(xs) => Some(Text(p) in xs)
    case Tuple(xs) => Some(Text(p) in xs)
    case Plain(Text(s)) => Some(Contains(s, p))
    case _ => None
  }

  predicate Knows(thresholds: Value, p: string) {
    thresholds.Dict? && HasKey(thresholds.items, p)
  }

  function LimitOf(thresholds: Value, p: string): Value
    requires Knows(thresholds, p)
  {
    Lookup(thresholds.items, p).value
  }

  /** Looking a nested node up raises: the thresholds cannot be searched, or they hold the name and nothing under it. */
  predicate Refuses(thresholds: Value, p: string) {
    !thresholds.Dict? && Holds(thresholds, p) != Some(false)
  }

  /** An empty node is not evaluated if its thresholds mention hardware. */
  predicate Exempts(thresholds: Value) {
    Holds(thresholds, "hardware") == Some(true)
  }

  /** The verdict on a point that is not a dictionary. A point without a threshold raises KeyError. */
  function PointVerdict(c: Context, p: string, v: Value, thresholds: Value): Verdict {
    if Ignored(c, p) then Checked(OK)
    else if !Knows(thresholds, p) then Raised
    else
      var limit := LimitOf(thresholds, p);
      if v == Plain(Nothing) && limit != Plain(Nothing) then Checked(UNKNOWN)
      else if limit.Dict? then LimitsVerdict(v, limit.items)
      else EqualVerdict(v, limit)
  }

  // ---------- The tree ----------

  /** `compute_intermediate_state`; `None` stands for an exception. */
  function Evaluate(c: Context, points: Items, thresholds: Value): Option<Health>
    decreases points, 1
  {
    if points.Nil? && Holds(thresholds, "hardware") == None then None
    else if points.Nil? && Exempts(thresholds) then Some(OK)
    else
      var states := States(c, points, thresholds);
      if states.None? then None else Some(Combine(states.value))
  }

  /** The states of the points of one node: of each point that gets a verdict, and of each nested node that the
      thresholds know. */
  function States(c: Context, points: Items, thresholds: Value): Option<seq<Health>>
    decreases points, 0
  {
    match points
    case Nil => Some([])
    case Cons(p, v, rest) =>
      var state := StateOf(c, p, v, thresholds);
      if state.Raised? then None
      else
        var others := States(c, rest, thresholds);
        if others.None? then None
        else Some((if state.Checked? then [state.h] else []) + others.value)
  }

  function StateOf(c: Context, p: string, v: Value, thresholds: Value): Verdict
    decreases v, 2
  {
    if v.Dict? then
      if Refuses(thresholds, p) then Raised
      else if !Knows(thresholds, p) then Unchecked
      else
        var h := Evaluate(c, v.items, LimitOf(thresholds, p));
        if h.None? then Raised else Checked(h.value)
    else PointVerdict(c, p, v, thresholds)
  }

  method ComputeIntermediateState(c: Context, points: Items, thresholds: Value) returns (health: Option<Health>)
    ensures health == Evaluate(c, points, thresholds)
    decreases points
  {
    if points.Nil? && Holds(thresholds, "hardware") == None {
      return None;
    }
    if points.Nil? && Exempts(thresholds) {
      return Some(OK);
    }
    var states: seq<Health> := [];
    var todo := points;
    PrependMoves([], None, States(c, points, thresholds));
    while todo.Cons?
      invariant todo == points || todo < points
      invariant States(c, points, thresholds) == Prepend(states, States(c, todo, thresholds))
      decreases todo
    {
      var verdict: Verdict;
      if todo.value.Dict? {
        if Refuses(thresholds, todo.key) {
          verdict := Raised;
        } else if Knows(thresholds, todo.key) {
          var inner := ComputeIntermediateState(c, todo.value.items, LimitOf(thresholds, todo.key));
          verdict := if inner.None? then Raised else Checked(inner.value);
        } else {
          verdict := Unchecked;
        }
      } else {
        verdict := PointVerdict(c, todo.key, todo.value, thresholds);
      }
      assert verdict == StateOf(c, todo.key, todo.value, thresholds);
      if verdict.Raised? {
        return None;
      }
      PrependMoves(states, if verdict.Checked? then Some(verdict.h) else None, States(c, todo.rest, thresholds));
      if verdict.Checked? {
        states := states + [verdict.h];
      }
      todo := todo.rest;
    }
    return Some(Combine(states));
  }

  function Prepend(states: seq<Health>, others: Option<seq<Health>>): Option<seq<Health>> {
    if others.None? then None else Some(states + others.value)
  }

  lemma PrependMoves(states: seq<Health>, h: Option<Health>, others: Option<seq<Health>>)
    ensures Prepend([], others) == others
    ensures h.Some? ==> Prepend(states + [h.value], others) == Prepend(states, Prepend([h.value], others))
  {
    if others.Some? {
      assert [] + others.value == others.value;
      if h.Some? {
        assert states + [h.value] + others.value == states + ([h.value] + others.value);
      }
    }
  }

  // ---------- What the evaluation means ----------

  /** What a walk of the tree meets: checked points, nodes without a single state of their own, and empty nodes that are
      exempt because their thresholds mention hardware. */
  datatype Found = Leaf(h: Health) | Hollow | Exempt

  /** Everything met below a node, in order. */
  function Walk(c: Context, points: Items, thresholds: Value): seq<Found>
    decreases points, 1
  {
    if points.Nil? && Exempts(thresholds) then [Exempt]
    else
      var found := WalkItems(c, points, thresholds);
      if found == [] then [Hollow] else found
  }

  function WalkItems(c: Context, points: Items, thresholds: Value): seq<Found>
    decreases points, 0
  {
    match points
    case Nil => []
    case Cons(p, v, rest) =>
      (if v.Dict? then
         if Knows(thresholds, p) then Walk(c, v.items, LimitOf(thresholds, p)) else []
       else if PointVerdict(c, p, v, thresholds).Checked? then [Leaf(PointVerdict(c, p, v, thresholds).h)]
       else [])
      + WalkItems(c, rest, thresholds)
  }

  function HealthOf(f: Found): Health {
    match f
    case Leaf(h) => h
    case Hollow => UNKNOWN
    case Exempt => OK
  }

  function Healths(found: seq<Found>): seq<Health> {
    seq(|found|, i requires 0 <= i < |found| => HealthOf(found[i]))
  }

  lemma HealthsJoin(a: seq<Found>, b: seq<Found>)
    ensures Healths(a + b) == Healths(a) + Healths(b)
  {
  }

  /** The recursive evaluation is the worst of everything met on a walk of the tree, at any depth. */
  lemma {:induction false} EvaluateIsWorst(c: Context, points: Items, thresholds: Value)
    requires Evaluate(c, points, thresholds).Some?
    ensures Evaluate(c, points, thresholds) == Some(Combine(Healths(Walk(c, points, thresholds))))
    decreases points, 1
  {
    if points.Nil? && Exempts(thresholds) {
      assert Healths([Exempt]) == [OK];
    } else {
      StatesAreWorst(c, points, thresholds);
      assert Healths([Hollow]) == [UNKNOWN];
    }
  }

  lemma {:induction false} StatesAreWorst(c: Context, points: Items, thresholds: Value)
    requires States(c, points, thresholds).Some?
    ensures var states, found := States(c, points, thresholds).value, WalkItems(c, points, thresholds);
      (states == [] <==> found == []) && Combine(states) == Combine(Healths(found))
    decreases points, 0
  {
    match points
    case Nil =>
    case Cons(p, v, rest) =>
      var others := States(c, rest, thresholds).value;
      var below := WalkItems(c, rest, thresholds);
      StatesAreWorst(c, rest, thresholds);
      assert [] + others == others && [] + below == below;
      var state := StateOf(c, p, v, thresholds);
      if v.Dict? {
        if Knows(thresholds, p) {
          VisitedIsEvaluated(c, p, v, thresholds);
          var inner := LimitOf(thresholds, p);
          EvaluateIsWorst(c, v.items, inner);
          FirstThenRest(Walk(c, v.items, inner), state.h, below, others);
        }
      } else if state.Checked? {
        assert Healths([Leaf(state.h)]) == [state.h];
        FirstThenRest([Leaf(state.h)], state.h, below, others);
      }
  }

  lemma VisitedIsEvaluated(c: Context, p: string, v: Value, thresholds: Value)
    requires v.Dict? && Knows(thresholds, p) && !StateOf(c, p, v, thresholds).Raised?
    ensures Evaluate(c, v.items, LimitOf(thresholds, p)) == Some(StateOf(c, p, v, thresholds).h)
  {
  }

  lemma FirstThenRest(first: seq<Found>, h: Health, below: seq<Found>, others: seq<Health>)
    requires first != [] && h == Combine(Healths(first))
    requires (others == [] <==> below == []) && Combine(others) == Combine(Healths(below))
    ensures Combine([h] + others) == Combine(Healths(first + below))
  {
    HealthsJoin(first, below);
    if below == [] {
      assert first + below == first && [h] + others == [h];
    } else {
      CombineJoins(Healths(first), Healths(below));
      CombineAfter(h, others, Healths(below));
    }
  }

  lemma CombineAfter(h: Health, a: seq<Health>, b: seq<Health>)
    requires a != [] && b != [] && Combine(a) == Combine(b)
    ensures Combine([h] + a) == Combine([h] + b)
  {
    CombineJoins(a, [h]);
    CombineJoins(b, [h]);
    CombineSwaps(a, [h]);
    CombineSwaps(b, [h]);
  }

  lemma CombineSwaps(a: seq<Health>, b: seq<Health>)
    ensures Combine(a + b) == Combine(b + a)
  {
    assert forall h :: h in a + b <==> h in b + a;
  }

  /** The checked points alone. */
  function Leaves(found: seq<Found>): seq<Health> {
    if found == [] then []
    else (if found[0].Leaf? then [found[0].h] else []) + Leaves(found[1..])
  }

  lemma {:induction false} LeavesAreFound(found: seq<Found>, h: Health)
    ensures h in Leaves(found) <==> Leaf(h) in found
  {
    if found != [] {
      LeavesAreFound(found[1..], h);
      assert Leaf(h) in found <==> found[0] == Leaf(h) || Leaf(h) in found[1..];
    }
  }

  /** When there are checked points, the evaluation is the worst of them if and only if no visited node is hollow or
      the worst of them is UNKNOWN or FAILED already. */
  lemma WorstLeafExactly(c: Context, points: Items, thresholds: Value)
    requires Evaluate(c, points, thresholds).Some?
    requires Leaves(Walk(c, points, thresholds)) != []
    ensures Evaluate(c, points, thresholds) == Some(Combine(Leaves(Walk(c, points, thresholds))))
       <==> || Hollow !in Walk(c, points, thresholds)
            || Rank(Combine(Leaves(Walk(c, points, thresholds)))) >= Rank(UNKNOWN)
  {
    var found := Walk(c, points, thresholds);
    EvaluateIsWorst(c, points, thresholds);
    forall h ensures h in Leaves(found) <==> Leaf(h) in found {
      LeavesAreFound(found, h);
    }
    HealthsHold(found);
    CombineIsWorst(Leaves(found));
  }

  lemma HealthsHold(found: seq<Found>)
    ensures forall h :: h in Healths(found)
              <==> Leaf(h) in found || (h == UNKNOWN && Hollow in found) || (h == OK && Exempt in found)
  {
    forall f | f in found ensures HealthOf(f) in Healths(found) {
      var i :| 0 <= i < |found| && found[i] == f;
      assert Healths(found)[i] == HealthOf(f);
    }
    forall h | h in Healths(found)
      ensures Leaf(h) in found || (h == UNKNOWN && Hollow in found) || (h == OK && Exempt in found)
    {
      var i :| 0 <= i < |found| && Healths(found)[i] == h;
      assert found[i] in found;
    }
  }

  // ---------- Worsening ----------

  /** The second set of points differs from the first only in points whose health is no better. */
  ghost predicate NoBetter(c: Context, points: Items, worse: Items, thresholds: Value)
    decreases points
  {
    match (points, worse)
    case (Nil, Nil) => true
    case (Cons(p, v, rest), Cons(q, w, others)) =>
      && p == q
      && NoBetter(c, rest, others, thresholds)
      && (v.Dict? <==> w.Dict?)
      && (if v.Dict? then
            Knows(thresholds, p) ==> NoBetter(c, v.items, w.items, LimitOf(thresholds, p))
          else NoBetterVerdict(PointVerdict(c, p, v, thresholds), PointVerdict(c, p, w, thresholds)))
    case _ => false
  }

  ghost predicate Pointwise(a: seq<Health>, b: seq<Health>) {
    |a| == |b| && forall i :: 0 <= i < |a| ==> Rank(a[i]) <= Rank(b[i])
  }

  lemma CombineIsMonotone(a: seq<Health>, b: seq<Health>)
    requires Pointwise(a, b)
    ensures Rank(Combine(a)) <= Rank(Combine(b))
  {
    if a != [] {
      CombineIsWorst(a);
      CombineIsWorst(b);
      var i :| 0 <= i < |a| && a[i] == Combine(a);
      assert b[i] in b;
    }
  }

  /** Worsening points, anywhere in the tree, never improves the result, and never makes the evaluation raise. */
  lemma {:induction false} WorseningNeverHelps(c: Context, points: Items, worse: Items, thresholds: Value)
    requires NoBetter(c, points, worse, thresholds)
    requires Evaluate(c, points, thresholds).Some?
    ensures Evaluate(c, worse, thresholds).Some?
    ensures Rank(Evaluate(c, points, thresholds).value) <= Rank(Evaluate(c, worse, thresholds).value)
    decreases points, 1
  {
    if !(points.Nil? && Exempts(thresholds)) {
      StatesWorsen(c, points, worse, thresholds);
      CombineIsMonotone(States(c, points, thresholds).value, States(c, worse, thresholds).value);
    }
  }

  /** The same verdict, or a health that is no better. */
  predicate NoBetterVerdict(before: Verdict, after: Verdict) {
    before == after || (before.Checked? && after.Checked? && Rank(before.h) <= Rank(after.h))
  }

  lemma FirstWorsens(before: Verdict, after: Verdict, a: seq<Health>, b: seq<Health>)
    requires NoBetterVerdict(before, after) && !before.Raised? && Pointwise(a, b)
    ensures Pointwise((if before.Checked? then [before.h] else []) + a, (if after.Checked? then [after.h] else []) + b)
  {
  }

  lemma {:induction false} StatesWorsen(c: Context, points: Items, worse: Items, thresholds: Value)
    requires NoBetter(c, points, worse, thresholds)
    requires States(c, points, thresholds).Some?
    ensures States(c, worse, thresholds).Some?
    ensures Pointwise(States(c, points, thresholds).value, States(c, worse, thresholds).value)
    decreases points, 0
  {
    if points.Cons? {
      StatesWorsen(c, points.rest, worse.rest, thresholds);
      VerdictWorsens(c, points.key, points.value, worse.value, thresholds);
      FirstWorsens(StateOf(c, points.key, points.value, thresholds), StateOf(c, points.key, worse.value, thresholds),
                   States(c, points.rest, thresholds).value, States(c, worse.rest, thresholds).value);
    }
  }

  lemma {:induction false} VerdictWorsens(c: Context, p: string, v: Value, w: Value, thresholds: Value)
    requires (v.Dict? <==> w.Dict?) && !StateOf(c, p, v, thresholds).Raised?
    requires v.Dict? && Knows(thresholds, p) ==> NoBetter(c, v.items, w.items, LimitOf(thresholds, p))
    requires !v.Dict? ==> NoBetterVerdict(PointVerdict(c, p, v, thresholds), PointVerdict(c, p, w, thresholds))
    ensures NoBetterVerdict(StateOf(c, p, v, thresholds), StateOf(c, p, w, thresholds))
    decreases v, 2
  {
    if v.Dict? && Knows(thresholds, p) {
      VisitedIsEvaluated(c, p, v, thresholds);
      WorseningNeverHelps(c, v.items, w.items, LimitOf(thresholds, p));
    }
  }

  // ---------- When the evaluation raises ----------

  /** The path leads, through nested nodes that the thresholds know, to what raises: an empty node whose thresholds
      cannot be searched, a nested node that they refuse, or a point that cannot be compared. */
  predicate FaultAt(c: Context, points: Items, thresholds: Value, path: seq<string>)
    decreases |path|
  {
    if path == [] then points.Nil? && Holds(thresholds, "hardware") == None
    else
      && HasKey(points, path[0])
      && var p, v := path[0], Lookup(points, path[0]).value;
         if !v.Dict? then |path| == 1 && PointVerdict(c, p, v, thresholds).Raised?
         else if Knows(thresholds, p) then FaultAt(c, v.items, LimitOf(thresholds, p), path[1..])
         else |path| == 1 && Refuses(thresholds, p)
  }

  lemma {:induction false} RaisesOnlyAtFault(c: Context, points: Items, thresholds: Value) returns (path: seq<string>)
    requires Proper(points) && Evaluate(c, points, thresholds) == None
    ensures FaultAt(c, points, thresholds, path)
    decreases points, 1
  {
    if points.Nil? {
      path := [];
    } else {
      path := StatesRaiseAtFault(c, points, thresholds);
    }
  }

  lemma {:induction false} StatesRaiseAtFault(c: Context, points: Items, thresholds: Value) returns (path: seq<string>)
    requires Proper(points) && States(c, points, thresholds) == None
    ensures path != [] && FaultAt(c, points, thresholds, path)
    decreases points, 0
  {
    var p, v := points.key, points.value;
    if !StateOf(c, p, v, thresholds).Raised? {
      path := StatesRaiseAtFault(c, points.rest, thresholds);
      assert HasKey(points.rest, path[0]) && path[0] != p;
    } else if v.Dict? && Knows(thresholds, p) {
      var inner := RaisesOnlyAtFault(c, v.items, LimitOf(thresholds, p));
      path := [p] + inner;
      assert path[1..] == inner;
    } else {
      path := [p];
    }
  }

  lemma {:induction false} FaultRaises(c: Context, points: Items, thresholds: Value, path: seq<string>)
    requires Proper(points) && FaultAt(c, points, thresholds, path)
    ensures Evaluate(c, points, thresholds) == None
    decreases |path|, points, 1
  {
    if path != [] {
      FaultRaisesStates(c, points, thresholds, path);
    }
  }

  lemma {:induction false} FaultRaisesStates(c: Context, points: Items, thresholds: Value, path: seq<string>)
    requires Proper(points) && path != [] && FaultAt(c, points, thresholds, path)
    ensures States(c, points, thresholds) == None
    decreases |path|, points, 0
  {
    if points.key != path[0] {
      FaultRaisesStates(c, points.rest, thresholds, path);
    } else if points.value.Dict? && Knows(thresholds, path[0]) {
      FaultRaises(c, points.value.items, LimitOf(thresholds, path[0]), path[1..]);
    }
  }

  ghost predicate HasFault(c: Context, points: Items, thresholds: Value) {
    exists path :: FaultAt(c, points, thresholds, path)
  }

  /** The evaluation raises if and only if a path through nodes that the thresholds know leads to what does. */
  lemma RaisesExactly(c: Context, points: Items, thresholds: Value)
    requires Proper(points)
    ensures Evaluate(c, points, thresholds) == None <==> HasFault(c, points, thresholds)
  {
    if Evaluate(c, points, thresholds) == None {
      var path := RaisesOnlyAtFault(c, points, thresholds);
      assert FaultAt(c, points, thresholds, path);
    } else if HasFault(c, points, thresholds) {
      var path :| FaultAt(c, points, thresholds, path);
      FaultRaises(c, points, thresholds, path);
      assert false;
    }
  }

  // ---------- The tile ----------

  /** The rule of a health applies to the intermediate healths. */
  predicate Rule(h: Health, intermediates: seq<Health>) {
    match h
    case FAILED => exists i :: 0 <= i < |intermediates| && intermediates[i] == FAILED
    case UNKNOWN => exists i :: 0 <= i < |intermediates| && intermediates[i] == UNKNOWN
    case DEGRADED => exists i :: 0 <= i < |intermediates| && intermediates[i] == DEGRADED
    case OK => forall i :: 0 <= i < |intermediates| ==> intermediates[i] == OK
  }

  /** `evaluate_health`: the first health, worst first, that is the base health or whose rule applies. */
  function EvaluateHealth(base: Health, intermediates: seq<Health>): Health {
    if base == FAILED || Rule(FAILED, intermediates) then FAILED
    else if base == UNKNOWN || Rule(UNKNOWN, intermediates) then UNKNOWN
    else if base == DEGRADED || Rule(DEGRADED, intermediates) then DEGRADED
    else if base == OK || Rule(OK, intermediates) then OK
    else UNKNOWN
  }

  /** The tile's health is the worst of the base health and the intermediate healths. */
  lemma TileHealthIsWorst(base: Health, intermediates: seq<Health>)
    ensures EvaluateHealth(base, intermediates) == Combine([base] + intermediates)
  {
    forall h ensures h in [base] + intermediates
                <==> h == base || exists i :: 0 <= i < |intermediates| && intermediates[i] == h {
    }
  }

  /** Python's `not v`. */
  predicate Falsy(v: Value) {
    match v
    case Plain(Nothing) => true
    case Plain(Num(x)) => x == 0.0
    case Plain(NotANumber) => false
    case Plain(Text(s)) => s == ""
    case List(xs) => xs == []
    case Tuple(xs) => xs == []
    case Dict(items) => items.Nil?
  }

  /** The points of a tile: those of the structure it reports, and the derived ones. */
  function AllPoints(structure: Items, derived: Option<Value>): Items {
    Set(structure, "derived", derived.GetOr(Dict(Nil)))
  }

  /** The points of a group, or none. */
  function Group(points: Items, key: string): Value {
    Lookup(points, key).GetOr(Dict(Nil))
  }

  /** What should be a dictionary of points can be evaluated otherwise only if it counts as empty and is exempt. */
  function GroupHealth(c: Context, group: Value, limits: Value): Option<Health> {
    if group.Dict? then Evaluate(c, group.items, limits)
    else if Falsy(group) && Exempts(limits) then Some(OK)
    else None
  }

  /** The intermediate healths: one for each group of thresholds. */
  function Intermediates(hw: string, bios: string, points: Items, thresholds: Items): Option<seq<Health>> {
    match thresholds
    case Nil => Some([])
    case Cons(key, limits, rest) =>
      var h := GroupHealth(Context(key, hw, bios), Group(points, key), limits);
      var others := Intermediates(hw, bios, points, rest);
      if h.None? || others.None? then None else Some([h.value] + others.value)
  }

  function WalkGroup(c: Context, group: Value, limits: Value): seq<Found> {
    if group.Dict? then Walk(c, group.items, limits) else [Exempt]
  }

  /** Everything met in all groups. */
  function WalkAll(hw: string, bios: string, points: Items, thresholds: Items): seq<Found> {
    match thresholds
    case Nil => []
    case Cons(key, limits, rest) =>
      WalkGroup(Context(key, hw, bios), Group(points, key), limits) + WalkAll(hw, bios, points, rest)
  }

  lemma GroupIsWorst(c: Context, group: Value, limits: Value)
    requires GroupHealth(c, group, limits).Some?
    ensures WalkGroup(c, group, limits) != []
    ensures GroupHealth(c, group, limits) == Some(Combine(Healths(WalkGroup(c, group, limits))))
  {
    if group.Dict? {
      EvaluateIsWorst(c, group.items, limits);
    } else {
      assert Healths([Exempt]) == [OK];
    }
  }

  lemma {:induction false} IntermediatesAreWorst(hw: string, bios: string, points: Items, thresholds: Items)
    requires Intermediates(hw, bios, points, thresholds).Some?
    ensures var hs, found := Intermediates(hw, bios, points, thresholds).value, WalkAll(hw, bios, points, thresholds);
      (hs == [] <==> found == []) && Combine(hs) == Combine(Healths(found))
    decreases thresholds
  {
    match thresholds
    case Nil =>
    case Cons(key, limits, rest) =>
      var c, group := Context(key, hw, bios), Group(points, key);
      IntermediatesAreWorst(hw, bios, points, rest);
      GroupIsWorst(c, group, limits);
      FirstThenRest(WalkGroup(c, group, limits), GroupHealth(c, group, limits).value,
                    WalkAll(hw, bios, points, rest), Intermediates(hw, bios, points, rest).value);
  }

  /** End to end: the tile's health is the worst of its base health and everything met in any group of points. */
  lemma TileHealthIsWorstOfAll(
    base: Health, hw: string, bios: string, structure: Items, derived: Option<Value>, thresholds: Items)
    requires Intermediates(hw, bios, AllPoints(structure, derived), thresholds).Some?
    ensures EvaluateHealth(base, Intermediates(hw, bios, AllPoints(structure, derived), thresholds).value)
         == Combine([base] + Healths(WalkAll(hw, bios, AllPoints(structure, derived), thresholds)))
  {
    var points := AllPoints(structure, derived);
    var hs, found := Intermediates(hw, bios, points, thresholds).value, WalkAll(hw, bios, points, thresholds);
    IntermediatesAreWorst(hw, bios, points, thresholds);
    TileHealthIsWorst(base, hs);
    if found != [] {
      CombineAfter(base, hs, Healths(found));
    }
  }

  /** Nor does worsening intermediate healths ever improve the tile's health. */
  lemma TileWorsens(base: Health, intermediates: seq<Health>, worse: seq<Health>)
    requires Pointwise(intermediates, worse)
    ensures Rank(EvaluateHealth(base, intermediates)) <= Rank(EvaluateHealth(base, worse))
  {
    TileHealthIsWorst(base, intermediates);
    TileHealthIsWorst(base, worse);
    CombineIsMonotone([base] + intermediates, [base] + worse);
  }

  ghost predicate GroupNoBetter(c: Context, group: Value, worse: Value, limits: Value) {
    if group.Dict? && worse.Dict? then NoBetter(c, group.items, worse.items, limits) else group == worse
  }

  /** In every group, the second points differ from the first only in points whose health is no better. */
  ghost predicate GroupsNoBetter(hw: string, bios: string, points: Items, worse: Items, thresholds: Items)
    decreases thresholds
  {
    match thresholds
    case Nil => true
    case Cons(key, limits, rest) =>
      && GroupNoBetter(Context(key, hw, bios), Group(points, key), Group(worse, key), limits)
      && GroupsNoBetter(hw, bios, points, worse, rest)
  }

  lemma {:induction false} IntermediatesWorsen(hw: string, bios: string, points: Items, worse: Items, thresholds: Items)
    requires GroupsNoBetter(hw, bios, points, worse, thresholds)
    requires Intermediates(hw, bios, points, thresholds).Some?
    ensures Intermediates(hw, bios, worse, thresholds).Some?
    ensures Pointwise(Intermediates(hw, bios, points, thresholds).value,
                      Intermediates(hw, bios, worse, thresholds).value)
    decreases thresholds
  {
    match thresholds
    case Nil =>
    case Cons(key, limits, rest) =>
      var group, worseGroup := Group(points, key), Group(worse, key);
      IntermediatesWorsen(hw, bios, points, worse, rest);
      if group.Dict? && worseGroup.Dict? {
        WorseningNeverHelps(Context(key, hw, bios), group.items, worseGroup.items, limits);
      }
  }

  /** End to end: worsening points anywhere, in any group and at any depth, never improves the health of the tile and
      never makes its evaluation raise. */
  lemma WorseningNeverHelpsTile(base: Health, hw: string, bios: string, points: Items, worse: Items, thresholds: Items)
    requires GroupsNoBetter(hw, bios, points, worse, thresholds)
    requires Intermediates(hw, bios, points, thresholds).Some?
    ensures Intermediates(hw, bios, worse, thresholds).Some?
    ensures Rank(EvaluateHealth(base, Intermediates(hw, bios, points, thresholds).value))
         <= Rank(EvaluateHealth(base, Intermediates(hw, bios, worse, thresholds).value))
  {
    IntermediatesWorsen(hw, bios, points, worse, thresholds);
    var before, after := Intermediates(hw, bios, points, thresholds), Intermediates(hw, bios, worse, thresholds);
    TileWorsens(base, before.value, after.value);
  }

  /** A group raises: a path in it leads to something that does, or it is no dictionary and not exempt. */
  ghost predicate GroupFails(hw: string, bios: string, points: Items, thresholds: Items, key: string) {
    && HasKey(thresholds, key)
    && var group, limits := Group(points, key), Lookup(thresholds, key).value;
       if group.Dict? then HasFault(Context(key, hw, bios), group.items, limits)
       else !(Falsy(group) && Exempts(limits))
  }

  lemma {:induction false} ProperGroup(items: Items, key: string)
    requires Proper(items)
    ensures Group(items, key).Dict? ==> Proper(Group(items, key).items)
  {
    if items.Cons? && items.key != key {
      ProperGroup(items.rest, key);
    }
  }

  lemma FirstGroupFails(hw: string, bios: string, points: Items, thresholds: Items)
    requires Proper(points) && thresholds.Cons?
    ensures GroupFails(hw, bios, points, thresholds, thresholds.key)
       <==> GroupHealth(Context(thresholds.key, hw, bios), Group(points, thresholds.key), thresholds.value) == None
  {
    var group := Group(points, thresholds.key);
    ProperGroup(points, thresholds.key);
    if group.Dict? {
      RaisesExactly(Context(thresholds.key, hw, bios), group.items, thresholds.value);
    }
  }

  /** The tile's evaluation raises if and only if a group of its points does. */
  lemma {:induction false} TileRaisesExactly(hw: string, bios: string, points: Items, thresholds: Items)
    requires Proper(points) && Proper(thresholds)
    ensures Intermediates(hw, bios, points, thresholds) == None
       <==> exists key :: GroupFails(hw, bios, points, thresholds, key)
    decreases thresholds
  {
    match thresholds
    case Nil =>
    case Cons(first, limits, rest) =>
      FirstGroupFails(hw, bios, points, thresholds);
      TileRaisesExactly(hw, bios, points, rest);
      forall key | key != first
        ensures GroupFails(hw, bios, points, thresholds, key) <==> GroupFails(hw, bios, points, rest, key)
      {
      }
      assert !GroupFails(hw, bios, points, rest, first);
  }

  // ---------- A hollow node ----------

  /** A node without points makes a tree UNKNOWN whose only point is healthy. */
  lemma HollowNodeIsUnknown(c: Context)
    requires !Ignored(c, "point")
    ensures var one := Plain(Num(1.0));
      var points := Cons("node", Dict(Nil), Cons("point", one, Nil));
      && Evaluate(c, points, Dict(points)) == Some(UNKNOWN)
      && Leaves(Walk(c, points, Dict(points))) == [OK]
  {
    var one := Plain(Num(1.0));
    var point := Cons("point", one, Nil);
    var points := Cons("node", Dict(Nil), point);
    var thresholds := Dict(points);
    assert Lookup(points, "point") == Some(one) && Lookup(points, "node") == Some(Dict(Nil));
    assert PointVerdict(c, "point", one, thresholds) == Checked(OK);
    assert WalkItems(c, Nil, thresholds) == [] && States(c, Nil, thresholds) == Some([]);
    assert Walk(c, Nil, Dict(Nil)) == [Hollow];
    assert WalkItems(c, point, thresholds) == [Leaf(OK)];
    assert Walk(c, points, thresholds) == [Hollow, Leaf(OK)];
    assert [Hollow, Leaf(OK)][1..] == [Leaf(OK)] && [Leaf(OK)][1..] == [];
    assert StateOf(c, "point", one, thresholds) == Checked(OK);
    assert [OK] + [] == [OK] && [UNKNOWN] + [OK] == [UNKNOWN, OK];
    assert States(c, point, thresholds) == Some([OK]);
    assert Evaluate(c, Nil, Dict(Nil)) == Some(UNKNOWN);
    assert States(c, points, thresholds) == Some([UNKNOWN, OK]);
  }
}
