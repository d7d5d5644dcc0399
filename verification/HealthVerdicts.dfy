/** What health a single monitoring point has, in terms of its value and its threshold, and how it shows in the tree
    that holds it. */
module HealthVerdicts {
  import opened Basics
  import opened PyDict
  import opened HealthRules

  // ---------- One point ----------

  /** The health of a point is that of a node that holds nothing else. */
  function PointHealth(c: Context, p: string, v: Value, thresholds: Value): Option<Health> {
    Evaluate(c, Cons(p, v, Nil), thresholds)
  }

  lemma OneState(h: Health)
    ensures Combine([h]) == h
  {
    CombineIsWorst([h]);
  }

  lemma OnlyItem(c: Context, p: string, v: Value, thresholds: Value)
    ensures Evaluate(c, Cons(p, v, Nil), thresholds)
         == match StateOf(c, p, v, thresholds)
            case Checked(h) => Some(h)
            case Unchecked => Some(UNKNOWN)
            case Raised => None
  {
    assert States(c, Nil, thresholds) == Some([]);
    match StateOf(c, p, v, thresholds)
    case Checked(h) =>
      OneState(h);
      assert [h] + [] == [h];
      assert States(c, Cons(p, v, Nil), thresholds) == Some([h]);
    case Unchecked =>
      var none: seq<Health> := [];
      assert none + none == none;
      assert States(c, Cons(p, v, Nil), thresholds) == Some([]);
    case Raised =>
  }

  lemma OnlyPoint(c: Context, p: string, v: Value, thresholds: Value)
    requires !v.Dict?
    ensures PointHealth(c, p, v, thresholds)
         == match PointVerdict(c, p, v, thresholds)
            case Checked(h) => Some(h)
            case Unchecked => Some(UNKNOWN)
            case Raised => None
  {
    OnlyItem(c, p, v, thresholds);
  }

  /** Ignored are the temperatures of ADC0 to ADC15 while the hardware version is not known, and `pll_40g` of the timing
      group while the BIOS version is not. */
  lemma IgnoredExactly(c: Context, p: string)
    ensures Ignored(c, p)
       <==> || (c.healthKey == "temperatures" && c.hwVersion == "" && |p| >= 4 && p[..3] == "ADC"
                && ((|p| == 4 && '0' <= p[3] <= '9') || (|p| == 5 && p[3] == '1' && '0' <= p[4] <= '5')))
            || (c.healthKey == "timing" && c.biosVersion == "" && p == "pll_40g")
  {
    AdcExactly(p);
  }

  lemma DigitExactly(i: nat)
    requires i < 10
    ensures Digit(i) == '0' + i as char
  {
  }

  lemma AdcExactly(p: string)
    ensures IsAdc(p)
       <==> |p| >= 4 && p[..3] == "ADC"
            && ((|p| == 4 && '0' <= p[3] <= '9') || (|p| == 5 && p[3] == '1' && '0' <= p[4] <= '5'))
  {
    if IsAdc(p) {
      var i :| 0 <= i < 16 && p == "ADC" + Decimal(i);
      DigitExactly(if i < 10 then i else i - 10);
    }
    if |p| == 4 && p[..3] == "ADC" && '0' <= p[3] <= '9' {
      var i := (p[3] - '0') as int;
      DigitExactly(i);
      assert p == "ADC" + Decimal(i);
    }
    if |p| == 5 && p[..3] == "ADC" && p[3] == '1' && '0' <= p[4] <= '5' {
      var i := (p[4] - '0') as int;
      DigitExactly(i);
      assert p == "ADC" + Decimal(10 + i);
    }
  }

  lemma IgnoredIsOk(c: Context, p: string, v: Value, thresholds: Value)
    requires Ignored(c, p) && !v.Dict?
    ensures PointHealth(c, p, v, thresholds) == Some(OK)
  {
    OnlyPoint(c, p, v, thresholds);
  }

  /** A point that is not ignored needs a threshold. */
  lemma NoThresholdRaises(c: Context, p: string, v: Value, thresholds: Items)
    requires !Ignored(c, p) && !v.Dict? && !HasKey(thresholds, p)
    ensures PointHealth(c, p, v, Dict(thresholds)) == None
  {
    OnlyPoint(c, p, v, Dict(thresholds));
  }

  /** No value at all against any threshold but none. */
  lemma NoneIsUnknown(c: Context, p: string, thresholds: Items)
    requires !Ignored(c, p) && HasKey(thresholds, p) && Lookup(thresholds, p) != Some(Plain(Nothing))
    ensures PointHealth(c, p, Plain(Nothing), Dict(thresholds)) == Some(UNKNOWN)
  {
    OnlyPoint(c, p, Plain(Nothing), Dict(thresholds));
  }

  /** A plain threshold, which is no list and has no limits: the value must be equal to it. */
  lemma PlainThreshold(c: Context, p: string, v: Value, thresholds: Items, limit: Value)
    requires !Ignored(c, p) && !v.Dict? && Lookup(thresholds, p) == Some(limit) && !limit.Dict? && !limit.List?
    requires v == Plain(Nothing) ==> limit == Plain(Nothing)
    ensures PointHealth(c, p, v, Dict(thresholds)) == Some(if v == limit then OK else FAILED)
  {
    OnlyPoint(c, p, v, Dict(thresholds));
  }

  /** A list: the elements must be the same, in a list or a tuple; a string is the list of its characters. */
  lemma ListThreshold(c: Context, p: string, v: Value, thresholds: Items, limit: seq<Scalar>)
    requires !Ignored(c, p) && !v.Dict? && Lookup(thresholds, p) == Some(List(limit)) && v != Plain(Nothing)
    ensures match v
            case List(xs) => PointHealth(c, p, v, Dict(thresholds)) == Some(if xs == limit then OK else FAILED)
            case Tuple(xs) => PointHealth(c, p, v, Dict(thresholds)) == Some(if xs == limit then OK else FAILED)
            case Plain(Text(s)) =>
              PointHealth(c, p, v, Dict(thresholds))
              == Some(if |s| == |limit| && forall i :: 0 <= i < |s| ==> limit[i] == Text([s[i]]) then OK else FAILED)
            case _ => PointHealth(c, p, v, Dict(thresholds)) == None
  {
    OnlyPoint(c, p, v, Dict(thresholds));
    if v.Plain? && v.scalar.Text? {
      assert |Elements(v).value| == |v.scalar.s|;
    }
  }

  /** A range: the value must not lie outside. */
  lemma RangeThreshold(c: Context, p: string, x: real, thresholds: Items, limits: Items, min: real, max: real)
    requires !Ignored(c, p) && Lookup(thresholds, p) == Some(Dict(limits)) && !HasKey(limits, "soft")
    requires Lookup(limits, "min") == Some(Plain(Num(min))) && Lookup(limits, "max") == Some(Plain(Num(max)))
    ensures PointHealth(c, p, Plain(Num(x)), Dict(thresholds)) == Some(if min <= x <= max then OK else FAILED)
    ensures PointHealth(c, p, Plain(NotANumber), Dict(thresholds)) == Some(FAILED)
    ensures forall xs :: PointHealth(c, p, List(xs), Dict(thresholds)) == None
  {
    OnlyPoint(c, p, Plain(Num(x)), Dict(thresholds));
    OnlyPoint(c, p, Plain(NotANumber), Dict(thresholds));
    forall xs ensures PointHealth(c, p, List(xs), Dict(thresholds)) == None {
      OnlyPoint(c, p, List(xs), Dict(thresholds));
    }
  }

  /** A soft and a hard limit, with or without a range beside them, which they override. */
  lemma SoftThreshold(c: Context, p: string, x: real, thresholds: Items, limits: Items, soft: real, hard: real)
    requires !Ignored(c, p) && Lookup(thresholds, p) == Some(Dict(limits))
    requires Lookup(limits, "soft") == Some(Plain(Num(soft))) && Lookup(limits, "hard") == Some(Plain(Num(hard)))
    requires HasKey(limits, "min") ==>
               exists min, max :: && Lookup(limits, "min") == Some(Plain(Num(min)))
                                  && Lookup(limits, "max") == Some(Plain(Num(max)))
    ensures PointHealth(c, p, Plain(Num(x)), Dict(thresholds))
         == Some(if x <= soft then OK else if x <= hard then DEGRADED else FAILED)
  {
    OnlyPoint(c, p, Plain(Num(x)), Dict(thresholds));
  }

  // ---------- Nodes ----------

  /** An empty node is UNKNOWN, unless its thresholds mention hardware. */
  lemma EmptyNode(c: Context, thresholds: Items)
    ensures Evaluate(c, Nil, Dict(thresholds)) == Some(if HasKey(thresholds, "hardware") then OK else UNKNOWN)
  {
  }

  /** A nested node is evaluated against what the thresholds have under its name, and skipped if they have nothing. */
  lemma NestedNode(c: Context, p: string, items: Items, thresholds: Items)
    ensures Evaluate(c, Cons(p, Dict(items), Nil), Dict(thresholds))
         == if HasKey(thresholds, p) then Evaluate(c, items, Lookup(thresholds, p).value) else Some(UNKNOWN)
  {
    OnlyItem(c, p, Dict(items), Dict(thresholds));
  }

  // ---------- Points of a tree ----------

  /** A point of the tree, with the thresholds of the node that holds it. */
  datatype Point = Point(p: string, v: Value, thresholds: Value)

  /** The point at a path through nested nodes that the thresholds know. */
  function PointAt(points: Items, thresholds: Value, path: seq<string>): Option<Point>
    decreases |path|
  {
    if path == [] || !HasKey(points, path[0]) then None
    else
      var v := Lookup(points, path[0]).value;
      if !v.Dict? then if |path| == 1 then Some(Point(path[0], v, thresholds)) else None
      else if Knows(thresholds, path[0]) then PointAt(v.items, LimitOf(thresholds, path[0]), path[1..])
      else None
  }

  /** At a path there is a point with a verdict. */
  ghost predicate LeafAt(c: Context, points: Items, thresholds: Value, path: seq<string>, h: Health) {
    var point := PointAt(points, thresholds, path);
    point.Some? && PointVerdict(c, point.value.p, point.value.v, point.value.thresholds) == Checked(h)
  }

  lemma LeafBelow(c: Context, points: Items, thresholds: Value, p: string, path: seq<string>, h: Health)
    requires HasKey(points, p) && Lookup(points, p).value.Dict? && Knows(thresholds, p)
    ensures LeafAt(c, points, thresholds, [p] + path, h)
       <==> LeafAt(c, Lookup(points, p).value.items, LimitOf(thresholds, p), path, h)
  {
    assert ([p] + path)[1..] == path;
  }

  lemma {:induction false} WalkedHasPath(c: Context, points: Items, thresholds: Value, h: Health)
    returns (path: seq<string>)
    requires Proper(points) && Leaf(h) in WalkItems(c, points, thresholds)
    ensures LeafAt(c, points, thresholds, path, h)
    decreases points
  {
    var p, v := points.key, points.value;
    if Leaf(h) in WalkItems(c, points.rest, thresholds) {
      path := WalkedHasPath(c, points.rest, thresholds, h);
      assert path[0] != p;
    } else if v.Dict? {
      var below := WalkedHasPath(c, v.items, LimitOf(thresholds, p), h);
      LeafBelow(c, points, thresholds, p, below, h);
      path := [p] + below;
    } else {
      path := [p];
    }
  }

  lemma {:induction false} PathIsWalked(c: Context, points: Items, thresholds: Value, path: seq<string>, h: Health)
    requires Proper(points) && LeafAt(c, points, thresholds, path, h)
    ensures Leaf(h) in WalkItems(c, points, thresholds)
    decreases |path|, points
  {
    if points.key != path[0] {
      PathIsWalked(c, points.rest, thresholds, path, h);
    } else if points.value.Dict? {
      assert path == [path[0]] + path[1..];
      LeafBelow(c, points, thresholds, path[0], path[1..], h);
      PathIsWalked(c, points.value.items, LimitOf(thresholds, path[0]), path[1..], h);
    }
  }

  lemma LeafIsPoint(c: Context, points: Items, thresholds: Value, path: seq<string>, h: Health)
    requires h != UNKNOWN
    ensures LeafAt(c, points, thresholds, path, h) <==> IsAt(c, points, thresholds, path, h)
  {
    var point := PointAt(points, thresholds, path);
    if point.Some? {
      PointIsLeaf(points, thresholds, path);
      OnlyPoint(c, point.value.p, point.value.v, point.value.thresholds);
    }
  }

  lemma {:induction false} PointIsLeaf(points: Items, thresholds: Value, path: seq<string>)
    requires PointAt(points, thresholds, path).Some?
    ensures !PointAt(points, thresholds, path).value.v.Dict?
    decreases |path|
  {
    var v := Lookup(points, path[0]).value;
    if v.Dict? {
      PointIsLeaf(v.items, LimitOf(thresholds, path[0]), path[1..]);
    }
  }

  /** The point at the path has that health by itself. */
  ghost predicate IsAt(c: Context, points: Items, thresholds: Value, path: seq<string>, h: Health) {
    var point := PointAt(points, thresholds, path);
    point.Some? && PointHealth(c, point.value.p, point.value.v, point.value.thresholds) == Some(h)
  }

  lemma LeavesAreWalked(c: Context, points: Items, thresholds: Value, h: Health)
    requires Proper(points) && h != UNKNOWN
    ensures Leaf(h) in Walk(c, points, thresholds) <==> exists path :: IsAt(c, points, thresholds, path, h)
  {
    if Leaf(h) in Walk(c, points, thresholds) {
      var path := WalkedHasPath(c, points, thresholds, h);
      LeafIsPoint(c, points, thresholds, path, h);
    }
    forall path | IsAt(c, points, thresholds, path, h)
      ensures Leaf(h) in Walk(c, points, thresholds)
    {
      LeafIsPoint(c, points, thresholds, path, h);
      PathIsWalked(c, points, thresholds, path, h);
    }
  }

  lemma EvaluationIs(c: Context, points: Items, thresholds: Value)
    requires Evaluate(c, points, thresholds).Some?
    ensures var found := Walk(c, points, thresholds);
      && (Leaf(FAILED) in found <==> Evaluate(c, points, thresholds) == Some(FAILED))
      && (Evaluate(c, points, thresholds) == Some(DEGRADED) ==> Leaf(DEGRADED) in found)
      && (Leaf(DEGRADED) in found ==> Evaluate(c, points, thresholds) != Some(OK))
  {
    EvaluateIsWorst(c, points, thresholds);
    HealthsHold(Walk(c, points, thresholds));
  }

  /** A tree is FAILED if and only if one of its points is, by itself, and DEGRADED only if one of its points is; a tree
      with a DEGRADED point is not OK. Points are those at paths through nested nodes that the thresholds know. */
  lemma TreeShowsItsPoints(c: Context, points: Items, thresholds: Value)
    requires Proper(points) && Evaluate(c, points, thresholds).Some?
    ensures Evaluate(c, points, thresholds) == Some(FAILED)
       <==> exists path :: IsAt(c, points, thresholds, path, FAILED)
    ensures Evaluate(c, points, thresholds) == Some(DEGRADED) ==>
              exists path :: IsAt(c, points, thresholds, path, DEGRADED)
    ensures (exists path :: IsAt(c, points, thresholds, path, DEGRADED)) ==> Evaluate(c, points, thresholds) != Some(OK)
  {
    EvaluationIs(c, points, thresholds);
    LeavesAreWalked(c, points, thresholds, FAILED);
    LeavesAreWalked(c, points, thresholds, DEGRADED);
  }

  // ---------- The tile ----------

  /** FAILED before UNKNOWN before DEGRADED before OK. */
  lemma CombineExactly(states: seq<Health>)
    ensures Combine(states) == FAILED <==> FAILED in states
    ensures Combine(states) == DEGRADED <==> DEGRADED in states && FAILED !in states && UNKNOWN !in states
    ensures Combine(states) == OK <==> OK in states && forall h :: h in states ==> h == OK
  {
    if h :| h in states && h != OK {
      match h case FAILED => case UNKNOWN => case DEGRADED => case OK =>
    }
  }

  /** The tile is FAILED if its base health or a group is, OK if all of them are, and so on in between. */
  lemma TileHealthExactly(base: Health, groups: seq<Health>)
    ensures EvaluateHealth(base, groups) == FAILED <==> base == FAILED || FAILED in groups
    ensures EvaluateHealth(base, groups) == OK <==> base == OK && forall h :: h in groups ==> h == OK
    ensures EvaluateHealth(base, groups) == DEGRADED
       <==> && (base == DEGRADED || DEGRADED in groups) && base != FAILED && base != UNKNOWN
            && FAILED !in groups && UNKNOWN !in groups
  {
    TileHealthIsWorst(base, groups);
    CombineExactly([base] + groups);
    assert forall h :: h in [base] + groups <==> h == base || h in groups;
  }

  /** What is evaluated for the group under item `i` of the thresholds: the derived points for `derived`, and otherwise
      what the reported structure has under that name; nothing if there is nothing. */
  lemma {:induction false} GroupIsEvaluated(
    hw: string, bios: string, structure: Items, derived: Option<Value>, thresholds: Items, i: nat)
    requires Intermediates(hw, bios, AllPoints(structure, derived), thresholds).Some? && ItemAt(thresholds, i).Some?
    ensures var healths := Intermediates(hw, bios, AllPoints(structure, derived), thresholds).value;
      var (key, limits) := ItemAt(thresholds, i).value;
      var points := if key == "derived" then derived else Lookup(structure, key);
      && i < |healths|
      && (points == None ==> Some(healths[i]) == Evaluate(Context(key, hw, bios), Nil, limits))
      && (points.Some? && points.value.Dict? ==>
            Some(healths[i]) == Evaluate(Context(key, hw, bios), points.value.items, limits))
    decreases thresholds
  {
    var key := ItemAt(thresholds, i).value.0;
    SetUpdates(structure, "derived", derived.GetOr(Dict(Nil)), key);
    if i > 0 {
      GroupIsEvaluated(hw, bios, structure, derived, thresholds.rest, i - 1);
    }
  }
}
