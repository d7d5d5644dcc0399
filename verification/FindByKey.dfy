/** The breadth-first search for a key in a nested dictionary. */
module FindByKey {
  import opened Basics
  import opened PyDict

  datatype Pair = Pair(key: string, value: Value)

  function Pairs(items: Items): seq<Pair> {
    match items
    case Nil => []
    case Cons(k, v, rest) => [Pair(k, v)] + Pairs(rest)
  }

  /** The items of a dictionary, in its own order. */
  lemma {:induction false} PairsAre(items: Items, i: nat)
    ensures i < |Pairs(items)| <==> ItemAt(items, i).Some?
    ensures i < |Pairs(items)| ==> (Pairs(items)[i].key, Pairs(items)[i].value) == ItemAt(items, i).value
    decreases items
  {
    if items.Cons? && i > 0 {
      PairsAre(items.rest, i - 1);
    }
  }

  /** The items below one pair. */
  function Kids(p: Pair): seq<Pair> {
    if p.value.Dict? then Pairs(p.value.items) else []
  }

  function Children(q: seq<Pair>): seq<Pair> {
    if q == [] then [] else Kids(q[0]) + Children(q[1..])
  }

  /** How many items there are in a dictionary, at all levels. */
  function Count(items: Items): (n: nat) {
    match items
    case Nil => 0
    case Cons(_, v, rest) => 1 + (if v.Dict? then Count(v.items) else 0) + Count(rest)
  }

  function Weight(q: seq<Pair>): (n: nat) {
    if q == [] then 0 else 1 + (if q[0].value.Dict? then Count(q[0].value.items) else 0) + Weight(q[1..])
  }

  lemma {:induction false} WeightJoins(p: seq<Pair>, q: seq<Pair>)
    ensures Weight(p + q) == Weight(p) + Weight(q)
  {
    if p == [] {
      assert p + q == q;
    } else {
      WeightJoins(p[1..], q);
      assert (p + q)[1..] == p[1..] + q;
    }
  }

  lemma {:induction false} PairsWeigh(items: Items)
    ensures Weight(Pairs(items)) == Count(items)
  {
    match items
    case Nil =>
    case Cons(k, v, rest) => PairsWeigh(rest);
  }

  /** Replacing the head of the queue by what is below it makes the queue lighter. */
  lemma StepIsLighter(q: seq<Pair>)
    requires q != []
    ensures Weight(q[1..] + Kids(q[0])) < Weight(q)
  {
    WeightJoins(q[1..], Kids(q[0]));
    if q[0].value.Dict? {
      PairsWeigh(q[0].value.items);
    }
  }

  /** The search on a queue. */
  function Search(q: seq<Pair>, target: string): Option<Value>
    decreases Weight(q)
  {
    if q == [] then None
    else if q[0].key == target then Some(q[0].value)
    else
      StepIsLighter(q);
      Search(q[1..] + Kids(q[0]), target)
  }

  // ---------- Levels ----------

  function First(q: seq<Pair>, target: string): Option<Value> {
    if q == [] then None
    else if q[0].key == target then Some(q[0].value)
    else First(q[1..], target)
  }

  /** The items `k` levels below those of `q`, in order. */
  function Level(q: seq<Pair>, k: nat): seq<Pair>
    decreases k
  {
    if k == 0 then q else Level(Children(q), k - 1)
  }

  /** The search goes through the front of the queue first, and then through the rest and what is below the front. */
  lemma {:induction false} SearchByLevel(front: seq<Pair>, rest: seq<Pair>, target: string)
    ensures Search(front + rest, target)
         == if First(front, target).Some? then First(front, target) else Search(rest + Children(front), target)
    decreases |front|
  {
    if front == [] {
      assert front + rest == rest && rest + [] == rest;
    } else if front[0].key != target {
      var kids := Kids(front[0]);
      SearchByLevel(front[1..], rest + kids, target);
      assert (front + rest)[1..] + kids == front[1..] + (rest + kids);
      ConcatAssociates(rest, kids, Children(front[1..]));
    }
  }

  lemma SearchDescends(q: seq<Pair>, target: string)
    ensures Search(q, target) == if First(q, target).Some? then First(q, target) else Search(Children(q), target)
  {
    SearchByLevel(q, [], target);
    assert q + [] == q && [] + Children(q) == Children(q);
  }

  lemma {:induction false} ChildrenAreLighter(q: seq<Pair>)
    ensures Weight(Children(q)) + |q| == Weight(q)
  {
    if q != [] {
      WeightJoins(Kids(q[0]), Children(q[1..]));
      if q[0].value.Dict? {
        PairsWeigh(q[0].value.items);
      }
      ChildrenAreLighter(q[1..]);
    }
  }

  /** The value found is the first occurrence of the key in the first level that holds the key. */
  lemma {:induction false} FoundInFirstLevel(q: seq<Pair>, target: string) returns (k: nat)
    requires Search(q, target).Some?
    ensures First(Level(q, k), target) == Search(q, target)
    ensures forall j: nat :: j < k ==> First(Level(q, j), target) == None
    decreases Weight(q)
  {
    SearchDescends(q, target);
    if First(q, target).Some? {
      k := 0;
    } else {
      ChildrenAreLighter(q);
      k := FoundInFirstLevel(Children(q), target);
      forall j: nat | j < k + 1
        ensures First(Level(q, j), target) == None
      {
        assert j > 0 ==> Level(q, j) == Level(Children(q), j - 1);
      }
      k := k + 1;
    }
  }

  /** The search ends with nothing only if no level holds the key. */
  lemma {:induction false} NotFoundInAnyLevel(q: seq<Pair>, target: string, k: nat)
    requires Search(q, target) == None
    ensures First(Level(q, k), target) == None
    decreases k
  {
    SearchDescends(q, target);
    if k > 0 {
      NotFoundInAnyLevel(Children(q), target, k - 1);
    }
  }

  /** The value found is the first one under the key in the first level that holds the key. */
  ghost predicate IsFirstInLevelOrder(q: seq<Pair>, target: string, result: Option<Value>) {
    if result.Some? then
      exists k: nat :: && First(Level(q, k), target) == result
                       && forall j: nat :: j < k ==> First(Level(q, j), target) == None
    else
      forall k: nat :: First(Level(q, k), target) == None
  }

  lemma SearchIsFirst(q: seq<Pair>, target: string)
    ensures IsFirstInLevelOrder(q, target, Search(q, target))
  {
    if Search(q, target).Some? {
      var k := FoundInFirstLevel(q, target);
    } else {
      forall k: nat
        ensures First(Level(q, k), target) == None
      {
        NotFoundInAnyLevel(q, target, k);
      }
    }
  }

  method Find(data: Items, target: string) returns (result: Option<Value>)
    ensures IsFirstInLevelOrder(Pairs(data), target, result)
    ensures result == Search(Pairs(data), target)
  {
    SearchIsFirst(Pairs(data), target);
    var queue := Pairs(data);
    while queue != []
      invariant Search(queue, target) == Search(Pairs(data), target)
      decreases Weight(queue)
    {
      var item := queue[0];
      if item.key == target {
        return Some(item.value);
      }
      StepIsLighter(queue);
      queue := queue[1..] + Kids(item);
    }
    result := None;
  }

  // ---------- Paths ----------

  /** A path of keys, through dictionaries only, leads from the items of `q` to a value. */
  ghost predicate Leads(q: seq<Pair>, path: seq<string>, v: Value)
    decreases |path|
  {
    path != [] && exists p :: p in q && p.key == path[0]
                         && if |path| == 1 then p.value == v else Leads(Kids(p), path[1..], v)
  }

  lemma {:induction false} InChildren(q: seq<Pair>, p: Pair)
    ensures p in Children(q) <==> exists parent :: parent in q && p in Kids(parent)
  {
    if q != [] {
      InChildren(q[1..], p);
      assert forall parent :: parent in q <==> parent == q[0] || parent in q[1..];
    }
  }

  lemma LeadsFromChildren(q: seq<Pair>, path: seq<string>, v: Value)
    requires path != []
    ensures Leads(Children(q), path, v) <==> exists parent :: parent in q && Leads(Kids(parent), path, v)
  {
    if Leads(Children(q), path, v) {
      var p :| p in Children(q) && p.key == path[0]
               && if |path| == 1 then p.value == v else Leads(Kids(p), path[1..], v);
      InChildren(q, p);
    }
    forall parent | parent in q && Leads(Kids(parent), path, v)
      ensures Leads(Children(q), path, v)
    {
      var p :| p in Kids(parent) && p.key == path[0]
               && if |path| == 1 then p.value == v else Leads(Kids(p), path[1..], v);
      InChildren(q, p);
    }
  }

  lemma PathDescends(q: seq<Pair>, path: seq<string>, v: Value)
    requires |path| > 1 && Leads(q, path, v)
    ensures Leads(Children(q), path[1..], v)
  {
    var p :| p in q && p.key == path[0] && Leads(Kids(p), path[1..], v);
    LeadsFromChildren(q, path[1..], v);
  }

  /** A path that leads to a value puts it in the level of the path's length. */
  lemma {:induction false} PathReachesLevel(q: seq<Pair>, path: seq<string>, v: Value)
    requires Leads(q, path, v)
    ensures Pair(path[|path| - 1], v) in Level(q, |path| - 1)
    decreases |path|
  {
    if |path| == 1 {
      assert Pair(path[0], v) in q;
    } else {
      PathDescends(q, path, v);
      PathReachesLevel(Children(q), path[1..], v);
    }
  }

  /** To every value in a level a path of that length leads. */
  lemma {:induction false} LevelHasPath(q: seq<Pair>, k: nat, target: string, v: Value) returns (path: seq<string>)
    requires Pair(target, v) in Level(q, k)
    ensures |path| == k + 1 && path[k] == target && Leads(q, path, v)
    decreases k
  {
    if k == 0 {
      path := [target];
    } else {
      var shorter := LevelHasPath(Children(q), k - 1, target, v);
      LeadsFromChildren(q, shorter, v);
      var parent :| parent in q && Leads(Kids(parent), shorter, v);
      path := [parent.key] + shorter;
      assert path[1..] == shorter;
    }
  }

  lemma {:induction false} FirstIsFound(q: seq<Pair>, target: string)
    ensures First(q, target).Some? ==> Pair(target, First(q, target).value) in q
    ensures forall v :: Pair(target, v) in q ==> First(q, target).Some?
  {
    if q != [] && q[0].key != target {
      FirstIsFound(q[1..], target);
      assert forall p :: p in q <==> p == q[0] || p in q[1..];
    }
  }

  /** What is found is what a shortest path through dictionaries to the key leads to. */
  lemma FoundIsShortest(data: Items, target: string) returns (path: seq<string>)
    requires Search(Pairs(data), target).Some?
    ensures path != [] && path[|path| - 1] == target
    ensures Leads(Pairs(data), path, Search(Pairs(data), target).value)
    ensures forall other, v :: other != [] && other[|other| - 1] == target && Leads(Pairs(data), other, v) ==>
              |other| >= |path|
  {
    var q := Pairs(data);
    var k := FoundInFirstLevel(q, target);
    FirstIsFound(Level(q, k), target);
    path := LevelHasPath(q, k, target, Search(q, target).value);
    forall other, v | other != [] && other[|other| - 1] == target && Leads(q, other, v)
      ensures |other| >= |path|
    {
      PathReachesLevel(q, other, v);
      FirstIsFound(Level(q, |other| - 1), target);
    }
  }

  /** Nothing is found only if no path through dictionaries ends in the key. */
  lemma NotFoundIsUnreachable(data: Items, target: string, path: seq<string>, v: Value)
    requires Search(Pairs(data), target) == None && path != [] && path[|path| - 1] == target
    ensures !Leads(Pairs(data), path, v)
  {
    if Leads(Pairs(data), path, v) {
      var level := Level(Pairs(data), |path| - 1);
      PathReachesLevel(Pairs(data), path, v);
      FirstIsFound(level, target);
      assert First(level, target).Some?;
      NotFoundInAnyLevel(Pairs(data), target, |path| - 1);
    }
  }
}
