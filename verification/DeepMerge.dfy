/** The recursive merge of threshold modifiers into a threshold dictionary. */
module DeepMerge {
  import opened Basics
  import opened PyDict

  function MergeKey(dest: Items, key: string, value: Value): Items
    decreases value, 1
  {
    Set(dest, key, MergedValue(Lookup(dest, key), value))
  }

  /** What becomes of a key: two dictionaries are merged, otherwise the source wins. */
  function MergedValue(prior: Option<Value>, value: Value): Value
    decreases value, 0
  {
    if prior.Some? && prior.value.Dict? && value.Dict? then Dict(Merge(prior.value.items, value.items)) else value
  }

  function Merge(dest: Items, src: Items): Items
    decreases src
  {
    match src
    case Nil => dest
    case Cons(key, value, rest) => Merge(MergeKey(dest, key, value), rest)
  }

  method DeepMergeDicts(dest: Items, src: Items) returns (merged: Items)
    ensures merged == Merge(dest, src)
    decreases src
  {
    merged := dest;
    var todo := src;
    while todo.Cons?
      invariant Merge(merged, todo) == Merge(dest, src)
      invariant todo == src || todo < src
      decreases todo
    {
      var prior := Lookup(merged, todo.key);
      assert MergeKey(merged, todo.key, todo.value) == Set(merged, todo.key, MergedValue(prior, todo.value));
      if prior.Some? && prior.value.Dict? && todo.value.Dict? {
        var inner := DeepMergeDicts(prior.value.items, todo.value.items);
        merged := Set(merged, todo.key, Dict(inner));
      } else {
        merged := Set(merged, todo.key, todo.value);
      }
      todo := todo.rest;
    }
  }

  /** Key by key: the source leaves alone the keys it does not have. */
  lemma {:induction false} MergeLookup(dest: Items, src: Items, key: string)
    requires Proper(src)
    ensures Lookup(Merge(dest, src), key)
         == if HasKey(src, key) then Some(MergedValue(Lookup(dest, key), Lookup(src, key).value)) else Lookup(dest, key)
    decreases src
  {
    match src
    case Nil =>
    case Cons(k, v, rest) =>
      MergeLookup(MergeKey(dest, k, v), rest, key);
      SetUpdates(dest, k, MergedValue(Lookup(dest, k), v), key);
  }

  /** The source has a say at a path: it holds something there, or a leaf on the way. */
  predicate Covers(src: Items, path: seq<string>)
    decreases |path|
  {
    && path != [] && HasKey(src, path[0])
    && (|path| > 1 && Lookup(src, path[0]).value.Dict? ==> Covers(Lookup(src, path[0]).value.items, path[1..]))
  }

  lemma {:induction false} ProperInside(items: Items, key: string)
    requires Proper(items) && HasKey(items, key) && Lookup(items, key).value.Dict?
    ensures Proper(Lookup(items, key).value.items)
  {
    if items.key != key {
      ProperInside(items.rest, key);
    }
  }

  /** Path by path: where the source has a say it wins, elsewhere the destination is untouched. */
  lemma {:induction false} MergeAtPath(dest: Items, src: Items, path: seq<string>)
    requires Proper(src) && path != []
    ensures EntryAt(Merge(dest, src), path) == if Covers(src, path) then EntryAt(src, path) else EntryAt(dest, path)
    decreases |path|
  {
    var key, rest := path[0], path[1..];
    MergeLookup(dest, src, key);
    if |path| == 1 {
      assert path == [key];
      GetOne(dest, key);
      GetOne(src, key);
      GetOne(Merge(dest, src), key);
    } else if HasKey(src, key) {
      var prior, later := Lookup(dest, key), Lookup(src, key).value;
      if later.Dict? {
        ProperInside(src, key);
        if prior.Some? && prior.value.Dict? {
          MergeAtPath(prior.value.items, later.items, rest);
        } else if !Covers(later.items, rest) {
          UncoveredIsAbsent(later.items, rest);
          assert prior.Some? ==> Get(prior.value, rest) == None;
          assert Get(Dict(Merge(dest, src)), path) == Get(later, rest);
        }
      }
    }
  }

  lemma {:induction false} UncoveredIsAbsent(src: Items, path: seq<string>)
    requires path != [] && !Covers(src, path)
    ensures EntryAt(src, path) == None
    decreases |path|
  {
    if HasKey(src, path[0]) {
      UncoveredIsAbsent(Lookup(src, path[0]).value.items, path[1..]);
    }
  }

  // ---------- Merging twice ----------

  /** Every item of the source has been merged in already. */
  ghost predicate Absorbed(items: Items, src: Items)
    decreases src
  {
    match src
    case Nil => true
    case Cons(key, value, rest) =>
      && HasKey(items, key) && MergedValue(Lookup(items, key), value) == Lookup(items, key).value
      && Absorbed(items, rest)
  }

  lemma {:induction false} SetSame(items: Items, key: string)
    requires HasKey(items, key)
    ensures Set(items, key, Lookup(items, key).value) == items
  {
    if items.key != key {
      SetSame(items.rest, key);
    }
  }

  lemma {:induction false} AbsorbedChangesNothing(items: Items, src: Items)
    requires Absorbed(items, src)
    ensures Merge(items, src) == items
    decreases src
  {
    if src.Cons? {
      SetSame(items, src.key);
      AbsorbedChangesNothing(items, src.rest);
    }
  }

  /** A value that has been merged in once is not changed by being merged in again. */
  lemma {:induction false} ValueAbsorbed(prior: Option<Value>, value: Value)
    requires value.Dict? ==> Proper(value.items)
    ensures MergedValue(Some(MergedValue(prior, value)), value) == MergedValue(prior, value)
    decreases value, 1
  {
    if value.Dict? {
      if prior.Some? && prior.value.Dict? {
        MergeIsIdempotent(prior.value.items, value.items);
      } else {
        MergesIntoItself(value.items);
      }
    }
  }

  /** If the items of the source are found merged into something, they are absorbed. */
  lemma {:induction false} MergedIsAbsorbed(items: Items, dest: Items, src: Items)
    requires Proper(src)
    requires forall k :: HasKey(src, k) ==> Lookup(items, k) == Some(MergedValue(Lookup(dest, k), Lookup(src, k).value))
    ensures Absorbed(items, src)
    decreases src, 0
  {
    match src
    case Nil =>
    case Cons(key, value, rest) =>
      assert HasKey(src, key);
      ValueAbsorbed(Lookup(dest, key), value);
      forall k | HasKey(rest, k)
        ensures HasKey(src, k) && Lookup(src, k) == Lookup(rest, k)
      {
      }
      MergedIsAbsorbed(items, dest, rest);
  }

  /** Merging the same modifier again changes nothing at all, not even the order of keys. */
  lemma {:induction false} MergeIsIdempotent(dest: Items, src: Items)
    requires Proper(src)
    ensures Merge(Merge(dest, src), src) == Merge(dest, src)
    decreases src, 1
  {
    forall k | HasKey(src, k)
      ensures Lookup(Merge(dest, src), k) == Some(MergedValue(Lookup(dest, k), Lookup(src, k).value))
    {
      MergeLookup(dest, src, k);
    }
    MergedIsAbsorbed(Merge(dest, src), dest, src);
    AbsorbedChangesNothing(Merge(dest, src), src);
  }

  /** A modifier that has nothing to be merged into stays as it is when it is merged into itself. */
  lemma {:induction false} MergesIntoItself(src: Items)
    requires Proper(src)
    ensures Merge(src, src) == src
    decreases src, 1
  {
    ItselfIsAbsorbed(src, src);
    AbsorbedChangesNothing(src, src);
  }

  lemma {:induction false} ItselfIsAbsorbed(items: Items, src: Items)
    requires Proper(src) && forall k :: HasKey(src, k) ==> Lookup(items, k) == Lookup(src, k)
    ensures Absorbed(items, src)
    decreases src, 0
  {
    match src
    case Nil =>
    case Cons(key, value, rest) =>
      assert HasKey(src, key);
      if value.Dict? {
        MergesIntoItself(value.items);
      }
      forall k | HasKey(rest, k)
        ensures HasKey(src, k) && Lookup(src, k) == Lookup(rest, k)
      {
      }
      ItselfIsAbsorbed(items, rest);
  }

  // ---------- Merging in either order ----------

  /** Two modifiers agree wherever both have a say. */
  ghost predicate Compatible(a: Items, b: Items) {
    forall path :: Covers(a, path) && Covers(b, path) ==> EntryAt(a, path) == EntryAt(b, path)
  }

  lemma OrderMattersAtPath(dest: Items, a: Items, b: Items, path: seq<string>)
    requires Proper(a) && Proper(b) && path != []
    ensures EntryAt(Merge(Merge(dest, a), b), path) == EntryAt(Merge(Merge(dest, b), a), path)
       <==> (Covers(a, path) && Covers(b, path) ==> EntryAt(a, path) == EntryAt(b, path))
  {
    MergeAtPath(dest, a, path);
    MergeAtPath(dest, b, path);
    MergeAtPath(Merge(dest, a), b, path);
    MergeAtPath(Merge(dest, b), a, path);
  }

  lemma {:induction false} SetKeepsProper(items: Items, key: string, value: Value)
    requires Proper(items) && (value.Dict? ==> Proper(value.items))
    ensures Proper(Set(items, key, value))
  {
    if items.Cons? && items.key != key {
      SetKeepsProper(items.rest, key, value);
      SetUpdates(items.rest, key, value, items.key);
    }
  }

  lemma {:induction false} MergeKeepsProper(dest: Items, src: Items)
    requires Proper(dest) && Proper(src)
    ensures Proper(Merge(dest, src))
    decreases src
  {
    if src.Cons? {
      var prior := Lookup(dest, src.key);
      if prior.Some? && prior.value.Dict? && src.value.Dict? {
        ProperInside(dest, src.key);
        MergeKeepsProper(prior.value.items, src.value.items);
      }
      SetKeepsProper(dest, src.key, MergedValue(prior, src.value));
      MergeKeepsProper(MergeKey(dest, src.key, src.value), src.rest);
    }
  }

  /** Merged into anything in either order, the modifiers give equal dictionaries. */
  ghost predicate Commute(a: Items, b: Items) {
    forall dest :: Proper(dest) ==> Same(Merge(Merge(dest, a), b), Merge(Merge(dest, b), a))
  }

  lemma CommuteAt(dest: Items, a: Items, b: Items)
    requires Proper(dest) && Proper(a) && Proper(b)
    ensures Same(Merge(Merge(dest, a), b), Merge(Merge(dest, b), a))
       <==> Agree(Merge(Merge(dest, a), b), Merge(Merge(dest, b), a))
  {
    MergeKeepsProper(dest, a);
    MergeKeepsProper(Merge(dest, a), b);
    SameExactly(Merge(Merge(dest, a), b), Merge(Merge(dest, b), a));
  }

  /** The order of two modifiers does not matter, whatever they are merged into, if and only if they agree wherever both
      have a say; in particular if their paths do not overlap. */
  lemma ModifiersCommuteExactly(a: Items, b: Items)
    requires Proper(a) && Proper(b)
    ensures Commute(a, b) <==> Compatible(a, b)
  {
    if Compatible(a, b) {
      forall dest | Proper(dest)
        ensures Same(Merge(Merge(dest, a), b), Merge(Merge(dest, b), a))
      {
        CommuteAt(dest, a, b);
        forall path | path != []
          ensures EntryAt(Merge(Merge(dest, a), b), path) == EntryAt(Merge(Merge(dest, b), a), path)
        {
          OrderMattersAtPath(dest, a, b, path);
        }
      }
    } else {
      var path :| Covers(a, path) && Covers(b, path) && EntryAt(a, path) != EntryAt(b, path);
      CommuteAt(Nil, a, b);
      OrderMattersAtPath(Nil, a, b, path);
    }
  }
}
