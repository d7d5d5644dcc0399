/** Nested Python dictionaries, as loaded from YAML or JSON, with their keys in insertion order. */
module PyDict {
  import opened Basics

  /** A value that is not a container. Booleans are the numbers 0 and 1. */
  datatype Scalar = Nothing | Num(x: real) | NotANumber | Text(s: string)

  datatype Value =
    | Plain(scalar: Scalar) | List(elements: seq<Scalar>) | Tuple(elements: seq<Scalar>) | Dict(items: Items)

  datatype Items = Nil | Cons(key: string, value: Value, rest: Items)

  function Lookup(items: Items, key: string): Option<Value> {
    match items
    case Nil => None
    case Cons(k, v, rest) => if k == key then Some(v) else Lookup(rest, key)
  }

  predicate HasKey(items: Items, key: string) {
    Lookup(items, key).Some?
  }

  /** Item number `i` of a dictionary. */
  function ItemAt(items: Items, i: nat): Option<(string, Value)> {
    match items
    case Nil => None
    case Cons(k, v, rest) => if i == 0 then Some((k, v)) else ItemAt(rest, i - 1)
  }

  /** Assignment to a key: a key already there keeps its place. */
  function Set(items: Items, key: string, value: Value): Items {
    match items
    case Nil => Cons(key, value, Nil)
    case Cons(k, v, rest) => if k == key then Cons(k, value, rest) else Cons(k, v, Set(rest, key, value))
  }

  lemma {:induction false} SetUpdates(items: Items, key: string, value: Value, other: string)
    ensures Lookup(Set(items, key, value), other) == if other == key then Some(value) else Lookup(items, other)
  {
    match items
    case Nil =>
    case Cons(k, v, rest) =>
      if k != key {
        SetUpdates(rest, key, value, other);
      }
  }

  /** Keys are distinct at every level. */
  ghost predicate Proper(items: Items) {
    match items
    case Nil => true
    case Cons(k, v, rest) => !HasKey(rest, k) && (v.Dict? ==> Proper(v.items)) && Proper(rest)
  }

  /** The value at a path of keys. */
  function Get(value: Value, path: seq<string>): Option<Value>
    decreases |path|
  {
    if path == [] then Some(value)
    else if value.Dict? && HasKey(value.items, path[0]) then Get(Lookup(value.items, path[0]).value, path[1..])
    else None
  }

  /** What there is at a path: nothing, a value, or a dictionary, whose items are at longer paths. */
  function EntryAt(items: Items, path: seq<string>): Option<Value> {
    var v := Get(Dict(items), path);
    if v.Some? && v.value.Dict? then Some(Dict(Nil)) else v
  }

  // ---------- Equality ----------

  /** Equality of dictionaries: the same keys, in any order, and equal values. */
  ghost predicate Same(a: Items, b: Items)
    decreases a, 1
  {
    Within(a, b) && forall k :: HasKey(b, k) ==> HasKey(a, k)
  }

  ghost predicate Within(a: Items, b: Items)
    decreases a, 0
  {
    match a
    case Nil => true
    case Cons(k, v, rest) => HasKey(b, k) && SameValue(v, Lookup(b, k).value) && Within(rest, b)
  }

  ghost predicate SameValue(v: Value, w: Value)
    decreases v, 2
  {
    if v.Dict? && w.Dict? then Same(v.items, w.items) else v == w
  }

  lemma {:induction false} WithinLookup(a: Items, b: Items, key: string)
    requires Within(a, b) && HasKey(a, key)
    ensures HasKey(b, key) && SameValue(Lookup(a, key).value, Lookup(b, key).value)
  {
    if a.key != key {
      WithinLookup(a.rest, b, key);
    }
  }

  lemma {:induction false} SameEntries(a: Items, b: Items, path: seq<string>)
    requires Same(a, b)
    ensures EntryAt(a, path) == EntryAt(b, path)
    decreases |path|
  {
    if path != [] && HasKey(a, path[0]) {
      WithinLookup(a, b, path[0]);
      var v, w := Lookup(a, path[0]).value, Lookup(b, path[0]).value;
      if v.Dict? && w.Dict? {
        SameEntries(v.items, w.items, path[1..]);
      }
    }
  }

  /** Two dictionaries have the same entries at all paths. */
  ghost predicate Agree(a: Items, b: Items) {
    forall path :: path != [] ==> EntryAt(a, path) == EntryAt(b, path)
  }

  lemma GetOne(items: Items, key: string)
    ensures Get(Dict(items), [key]) == Lookup(items, key)
  {
    assert [key][1..] == [];
  }

  lemma EntryAtKey(items: Items, key: string)
    ensures EntryAt(items, [key])
         == if HasKey(items, key) && Lookup(items, key).value.Dict? then Some(Dict(Nil)) else Lookup(items, key)
  {
    GetOne(items, key);
  }

  lemma EntryBelow(items: Items, key: string, path: seq<string>)
    requires HasKey(items, key) && Lookup(items, key).value.Dict?
    ensures EntryAt(items, [key] + path) == EntryAt(Lookup(items, key).value.items, path)
  {
    assert ([key] + path)[1..] == path;
  }

  lemma AgreeAtKey(a: Items, b: Items, key: string)
    requires Agree(a, b)
    ensures HasKey(a, key) <==> HasKey(b, key)
    ensures HasKey(a, key) ==>
              var v, w := Lookup(a, key).value, Lookup(b, key).value;
              && (v.Dict? <==> w.Dict?)
              && (if v.Dict? then Agree(v.items, w.items) else v == w)
  {
    EntryAtKey(a, key);
    EntryAtKey(b, key);
    assert EntryAt(a, [key]) == EntryAt(b, [key]);
    if HasKey(a, key) && Lookup(a, key).value.Dict? {
      AgreeBelow(a, b, key);
    }
  }

  lemma AgreeBelow(a: Items, b: Items, key: string)
    requires Agree(a, b) && HasKey(a, key) && Lookup(a, key).value.Dict? && HasKey(b, key) && Lookup(b, key).value.Dict?
    ensures Agree(Lookup(a, key).value.items, Lookup(b, key).value.items)
  {
    forall path: seq<string> | path != []
      ensures EntryAt(Lookup(a, key).value.items, path) == EntryAt(Lookup(b, key).value.items, path)
    {
      EntryBelow(a, key, path);
      EntryBelow(b, key, path);
      assert EntryAt(a, [key] + path) == EntryAt(b, [key] + path);
    }
  }

  /** A part of `a` whose keys are found in `a` as they are in the part. */
  lemma {:induction false} AgreeingIsWithin(part: Items, a: Items, b: Items)
    requires Proper(part) && Agree(a, b) && forall k :: HasKey(part, k) ==> Lookup(a, k) == Lookup(part, k)
    ensures Within(part, b)
    decreases part
  {
    match part
    case Nil =>
    case Cons(key, v, rest) =>
      assert HasKey(part, key);
      AgreeAtKey(a, b, key);
      if v.Dict? {
        AgreeingIsSame(v.items, Lookup(b, key).value.items);
      }
      forall k | HasKey(rest, k)
        ensures HasKey(part, k) && Lookup(part, k) == Lookup(rest, k)
      {
      }
      AgreeingIsWithin(rest, a, b);
  }

  lemma {:induction false} AgreeingIsSame(a: Items, b: Items)
    requires Proper(a) && Agree(a, b)
    ensures Same(a, b)
    decreases a
  {
    forall k
      ensures HasKey(a, k) <==> HasKey(b, k)
    {
      AgreeAtKey(a, b, k);
    }
    match a
    case Nil =>
    case Cons(key, v, rest) =>
      assert HasKey(a, key);
      AgreeAtKey(a, b, key);
      if v.Dict? {
        AgreeingIsSame(v.items, Lookup(b, key).value.items);
      }
      forall k | HasKey(rest, k)
        ensures HasKey(a, k) && Lookup(a, k) == Lookup(rest, k)
      {
      }
      AgreeingIsWithin(rest, a, b);
  }

  /** Dictionaries are equal if and only if they have the same entries at all paths. */
  lemma SameExactly(a: Items, b: Items)
    requires Proper(a)
    ensures Same(a, b) <==> Agree(a, b)
  {
    if Same(a, b) {
      forall path | path != []
        ensures EntryAt(a, path) == EntryAt(b, path)
      {
        SameEntries(a, b, path);
      }
    }
    if Agree(a, b) {
      AgreeingIsSame(a, b);
    }
  }
}
