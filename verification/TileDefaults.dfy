/** The generator of default values for monitoring points, and when these defaults are healthy. */
module TileDefaults {
  import opened Basics
  import opened PyDict
  import opened HealthRules

  // ---------- Rounding ----------

  /** Rounding to the nearest integer, ties to even. */
  function RoundEven(y: real): int {
    var f := y.Floor;
    if y - f as real < 0.5 then f
    else if y - f as real > 0.5 then f + 1
    else if f % 2 == 0 then f else f + 1
  }

  /** `round(x, 3)` in exact arithmetic. */
  function RoundThousandth(x: real): real {
    RoundEven(1000.0 * x) as real / 1000.0
  }

  /** The range contains a whole number of thousandths. */
  predicate HoldsThousandth(min: real, max: real) {
    ((1000.0 * max).Floor as real) >= 1000.0 * min
  }

  lemma RoundEvenIsNearest(y: real, k: int)
    ensures k as real <= y ==> RoundEven(y) as real - y <= y - k as real
    ensures k as real >= y ==> y - RoundEven(y) as real <= k as real - y
    ensures k as real <= y ==> RoundEven(y) >= k
    ensures k as real >= y ==> RoundEven(y) <= k
  {
  }

  /** The rounded midpoint of a range lies in the range if and only if the range contains a thousandth at all. */
  lemma MidpointInRangeExactly(min: real, max: real)
    ensures min <= RoundThousandth((min + max) / 2.0) <= max <==> HoldsThousandth(min, max)
  {
    var a, b := 1000.0 * min, 1000.0 * max;
    var y := 1000.0 * ((min + max) / 2.0);
    var n, k := RoundEven(y), b.Floor;
    assert y == (a + b) / 2.0;
    assert RoundThousandth((min + max) / 2.0) * 1000.0 == n as real;
    if a <= k as real {
      RoundEvenIsNearest(y, k);
    }
  }

  /** A range at least a thousandth wide contains one. */
  lemma WideRangeHoldsThousandth(min: real, max: real)
    requires max - min >= 0.001
    ensures HoldsThousandth(min, max)
  {
    assert 1000.0 * max - 1000.0 * min >= 1.0;
  }

  // ---------- Generation ----------

  /** The default of one point; `None` stands for KeyError or TypeError. */
  function DefaultPoint(p: string, expected: Value): Option<Value> {
    if !expected.Dict? then Some(expected)
    else if p == "voltage_alm" then Some(Plain(Num(0.0)))
    else
      match (Lookup(expected.items, "min"), Lookup(expected.items, "max"))
      case (Some(Plain(Num(min))), Some(Plain(Num(max)))) => Some(Plain(Num(RoundThousandth((min + max) / 2.0))))
      case _ => None
  }

  function Default(p: string, v: Value, expected: Value): Option<Value>
    decreases v, 1
  {
    if v.Dict? then
      var inner := Generate(v.items, expected);
      if inner.None? then None else Some(Dict(inner.value))
    else DefaultPoint(p, expected)
  }

  /** `_generate_tile_defaults`: every point of the structure gets its default, nested nodes recursively. */
  function Generate(structure: Items, expected: Value): Option<Items>
    decreases structure
  {
    match structure
    case Nil => Some(Nil)
    case Cons(p, v, rest) =>
      if !expected.Dict? || !HasKey(expected.items, p) then None
      else
        var value := Default(p, v, Lookup(expected.items, p).value);
        var others := Generate(rest, expected);
        if value.None? || others.None? then None else Some(Cons(p, value.value, others.value))
  }

  /** Replaces the values in place, key by key. */
  method GenerateTileDefaults(structure: Items, expected: Value) returns (defaults: Option<Items>)
    ensures defaults == Generate(structure, expected)
    decreases structure
  {
    var done: seq<(string, Value)> := [];
    var todo := structure;
    while todo.Cons?
      invariant todo == structure || todo < structure
      invariant Generate(structure, expected) == Onto(done, Generate(todo, expected))
      decreases todo
    {
      if !expected.Dict? || !HasKey(expected.items, todo.key) {
        return None;
      }
      var limit := Lookup(expected.items, todo.key).value;
      var value;
      if todo.value.Dict? {
        var inner := GenerateTileDefaults(todo.value.items, limit);
        value := if inner.None? then None else Some(Dict(inner.value));
      } else {
        value := DefaultPoint(todo.key, limit);
      }
      assert value == Default(todo.key, todo.value, limit);
      if value.None? {
        return None;
      }
      OntoMoves(done, (todo.key, value.value), Generate(todo.rest, expected));
      done := done + [(todo.key, value.value)];
      todo := todo.rest;
    }
    return Onto(done, Some(Nil));
  }

  /** A list of items put before others. */
  function Onto(done: seq<(string, Value)>, others: Option<Items>): Option<Items> {
    if done == [] || others.None? then others
    else Onto(done[..|done| - 1], Some(Cons(done[|done| - 1].0, done[|done| - 1].1, others.value)))
  }

  lemma OntoMoves(done: seq<(string, Value)>, item: (string, Value), others: Option<Items>)
    ensures Onto(done + [item], others)
         == Onto(done, if others.None? then None else Some(Cons(item.0, item.1, others.value)))
  {
    assert (done + [item])[..|done|] == done;
  }

  // ---------- When defaults are healthy ----------

  /** A threshold with limits has a numeric range and no soft limit. */
  ghost predicate IsRange(limits: Items) {
    && Lookup(limits, "min").Some? && Lookup(limits, "min").value.Plain? && Lookup(limits, "min").value.scalar.Num?
    && Lookup(limits, "max").Some? && Lookup(limits, "max").value.Plain? && Lookup(limits, "max").value.scalar.Num?
    && !HasKey(limits, "soft")
  }

  function MinOf(limits: Items): real
    requires IsRange(limits)
  {
    Lookup(limits, "min").value.scalar.x
  }

  function MaxOf(limits: Items): real
    requires IsRange(limits)
  {
    Lookup(limits, "max").value.scalar.x
  }

  /** The thresholds have the shape of the structure. */
  ghost predicate Fits(structure: Items, thresholds: Items)
    decreases structure
  {
    match structure
    case Nil => true
    case Cons(p, v, rest) =>
      && HasKey(thresholds, p)
      && (if v.Dict? then Lookup(thresholds, p).value.Dict? && Fits(v.items, Lookup(thresholds, p).value.items)
          else Lookup(thresholds, p).value.Dict? ==> IsRange(Lookup(thresholds, p).value.items))
      && Fits(rest, thresholds)
  }

  /** Every range that is not ignored contains a thousandth, that of `voltage_alm` contains 0, and every node has points
      or is exempt. */
  ghost predicate Satisfiable(c: Context, structure: Items, thresholds: Items)
    decreases structure, 1
  {
    (structure.Nil? ==> HasKey(thresholds, "hardware")) && SatisfiablePoints(c, structure, thresholds)
  }

  ghost predicate SatisfiablePoints(c: Context, structure: Items, thresholds: Items)
    decreases structure, 0
  {
    match structure
    case Nil => true
    case Cons(p, v, rest) =>
      && (HasKey(thresholds, p) ==>
            var limit := Lookup(thresholds, p).value;
            if v.Dict? then limit.Dict? ==> Satisfiable(c, v.items, limit.items)
            else SatisfiablePoint(c, p, limit))
      && SatisfiablePoints(c, rest, thresholds)
  }

  ghost predicate SatisfiablePoint(c: Context, p: string, limit: Value) {
    || Ignored(c, p)
    || (limit.Dict? && IsRange(limit.items) ==>
          if p == "voltage_alm" then MinOf(limit.items) <= 0.0 <= MaxOf(limit.items)
          else HoldsThousandth(MinOf(limit.items), MaxOf(limit.items)))
  }

  lemma PointIsHealthyExactly(c: Context, p: string, thresholds: Items)
    requires HasKey(thresholds, p)
    requires Lookup(thresholds, p).value.Dict? ==> IsRange(Lookup(thresholds, p).value.items)
    ensures DefaultPoint(p, Lookup(thresholds, p).value).Some?
    ensures var verdict := PointVerdict(c, p, DefaultPoint(p, Lookup(thresholds, p).value).value, Dict(thresholds));
      verdict.Checked? && (verdict.h == OK <==> SatisfiablePoint(c, p, Lookup(thresholds, p).value))
  {
    var limit := Lookup(thresholds, p).value;
    if limit.Dict? {
      MidpointInRangeExactly(MinOf(limit.items), MaxOf(limit.items));
    } else if limit.List? {
      assert Elements(limit) == Some(limit.elements);
    }
  }

  /** Defaults generated from thresholds of matching shape are healthy under those thresholds if and only if every range
      contains a thousandth (0 for `voltage_alm`) and no node is empty. */
  lemma {:induction false} DefaultsAreHealthyExactly(c: Context, structure: Items, thresholds: Items)
    requires Fits(structure, thresholds)
    ensures Generate(structure, Dict(thresholds)).Some?
    ensures Evaluate(c, Generate(structure, Dict(thresholds)).value, Dict(thresholds)).Some?
    ensures Evaluate(c, Generate(structure, Dict(thresholds)).value, Dict(thresholds)) == Some(OK)
       <==> Satisfiable(c, structure, thresholds)
    decreases structure, 1
  {
    DefaultStates(c, structure, thresholds);
    var states := States(c, Generate(structure, Dict(thresholds)).value, Dict(thresholds)).value;
    if states != [] {
      CombineIsWorst(states);
    }
  }

  lemma {:induction false} DefaultStates(c: Context, structure: Items, thresholds: Items)
    requires Fits(structure, thresholds)
    ensures Generate(structure, Dict(thresholds)).Some?
    ensures Generate(structure, Dict(thresholds)).value.Nil? <==> structure.Nil?
    ensures States(c, Generate(structure, Dict(thresholds)).value, Dict(thresholds)).Some?
    ensures var states := States(c, Generate(structure, Dict(thresholds)).value, Dict(thresholds)).value;
      && (structure.Cons? ==> states != [])
      && (AllOK(states) <==> SatisfiablePoints(c, structure, thresholds))
    decreases structure, 0
  {
    match structure
    case Nil =>
    case Cons(p, v, rest) =>
      DefaultStates(c, rest, thresholds);
      var limit := Lookup(thresholds, p).value;
      if v.Dict? {
        DefaultsAreHealthyExactly(c, v.items, limit.items);
      } else {
        PointIsHealthyExactly(c, p, thresholds);
        DefaultIsNoDict(p, limit);
      }
      var state := StateOf(c, p, Default(p, v, limit).value, Dict(thresholds));
      AllOKMore(state.h, States(c, Generate(rest, Dict(thresholds)).value, Dict(thresholds)).value);
  }

  ghost predicate AllOK(states: seq<Health>) {
    forall h :: h in states ==> h == OK
  }

  lemma AllOKMore(h: Health, states: seq<Health>)
    ensures AllOK([h] + states) <==> h == OK && AllOK(states)
  {
    assert h in [h] + states;
    assert forall g :: g in states ==> g in [h] + states;
  }

  lemma DefaultIsNoDict(p: string, limit: Value)
    requires DefaultPoint(p, limit).Some?
    ensures !DefaultPoint(p, limit).value.Dict?
  {
  }

  /** A range between two thousandths: the midpoint of 0.0002 and 0.0004 rounds to 0, and the default is FAILED. */
  lemma NarrowRangeFails(c: Context, p: string)
    requires !Ignored(c, p) && p != "voltage_alm"
    ensures var limits := Cons("min", Plain(Num(0.0002)), Cons("max", Plain(Num(0.0004)), Nil));
      DefaultPoint(p, Dict(limits)) == Some(Plain(Num(0.0)))
      && PointVerdict(c, p, Plain(Num(0.0)), Dict(Cons(p, Dict(limits), Nil))) == Checked(FAILED)
  {
    var limits := Cons("min", Plain(Num(0.0002)), Cons("max", Plain(Num(0.0004)), Nil));
    assert Lookup(limits, "min") == Some(Plain(Num(0.0002))) && Lookup(limits, "max") == Some(Plain(Num(0.0004)));
    assert Lookup(limits, "soft") == None;
    assert RoundThousandth((0.0002 + 0.0004) / 2.0) == 0.0 by {
      assert 1000.0 * ((0.0002 + 0.0004) / 2.0) == 0.3;
    }
  }
}
