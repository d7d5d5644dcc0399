/** Which values are generated, path by path, and when the generation raises. */
module TileDefaultValues {
  import opened Basics
  import opened PyDict
  import opened TileDefaults

  /** A number of thousandths nearest to the middle of a range; of two, the even one. */
  predicate IsNearest(n: int, min: real, max: real) {
    var off := 2.0 * n as real - 1000.0 * (min + max);
    -1.0 <= off <= 1.0 && (off == 1.0 || off == -1.0 ==> n % 2 == 0)
  }

  /** The limits have a number as minimum and as maximum. */
  predicate HasRange(limits: Items) {
    && Lookup(limits, "min").Some? && Lookup(limits, "min").value.Plain? && Lookup(limits, "min").value.scalar.Num?
    && Lookup(limits, "max").Some? && Lookup(limits, "max").value.Plain? && Lookup(limits, "max").value.scalar.Num?
  }

  /** What a point called `name` gets for its threshold: the threshold itself if that is no dictionary, 0 for
      `voltage_alm`, and otherwise the middle of the range, to the nearest thousandth. */
  ghost predicate IsDefault(name: string, limit: Value, d: Value) {
    if !limit.Dict? then d == limit
    else if name == "voltage_alm" then d == Plain(Num(0.0))
    else
      && HasRange(limit.items)
      && exists n: int ::
           && IsNearest(n, Lookup(limit.items, "min").value.scalar.x, Lookup(limit.items, "max").value.scalar.x)
           && d == Plain(Num(n as real / 1000.0))
  }

  lemma RoundEvenIs(y: real)
    ensures -0.5 <= RoundEven(y) as real - y <= 0.5
    ensures RoundEven(y) as real - y == 0.5 || RoundEven(y) as real - y == -0.5 ==> RoundEven(y) % 2 == 0
  {
  }

  lemma PointIs(name: string, limit: Value)
    requires DefaultPoint(name, limit).Some?
    ensures IsDefault(name, limit, DefaultPoint(name, limit).value) && !DefaultPoint(name, limit).value.Dict?
  {
    if limit.Dict? && name != "voltage_alm" {
      var min, max := Lookup(limit.items, "min").value.scalar.x, Lookup(limit.items, "max").value.scalar.x;
      var n := RoundEven(1000.0 * ((min + max) / 2.0));
      RoundEvenIs(1000.0 * ((min + max) / 2.0));
      assert IsNearest(n, min, max);
    }
  }

  lemma {:induction false} GeneratedAtKey(structure: Items, expected: Value, key: string)
    requires Generate(structure, expected).Some? && HasKey(structure, key)
    ensures expected.Dict? && HasKey(expected.items, key)
    ensures var v := Default(key, Lookup(structure, key).value, Lookup(expected.items, key).value);
      v.Some? && Lookup(Generate(structure, expected).value, key) == v
  {
    if structure.key != key {
      GeneratedAtKey(structure.rest, expected, key);
    }
  }

  lemma {:induction false} NothingNew(structure: Items, expected: Value, key: string)
    requires Generate(structure, expected).Some? && !HasKey(structure, key)
    ensures !HasKey(Generate(structure, expected).value, key)
  {
    if structure.Cons? {
      NothingNew(structure.rest, expected, key);
    }
  }

  lemma NothingBelow(v: Value, path: seq<string>)
    requires !v.Dict? && path != []
    ensures Get(v, path) == None
  {
  }

  /** At every path the defaults have a point where the structure has one, with the value that its name and the
      threshold at that path call for, and a nested node where the structure has one, and nothing else. */
  lemma {:induction false} DefaultsAtPath(structure: Items, expected: Value, path: seq<string>)
    requires Generate(structure, expected).Some? && path != []
    ensures var before, after := EntryAt(structure, path), EntryAt(Generate(structure, expected).value, path);
      if before == None then after == None
      else if before.value.Dict? then after == before
      else
        && after.Some? && Get(expected, path).Some?
        && IsDefault(path[|path| - 1], Get(expected, path).value, after.value)
    decreases |path|
  {
    var key, defaults := path[0], Generate(structure, expected).value;
    if !HasKey(structure, key) {
      NothingNew(structure, expected, key);
    } else {
      var v := Lookup(structure, key).value;
      GeneratedAtKey(structure, expected, key);
      var limit := Lookup(expected.items, key).value;
      if |path| == 1 {
        assert path == [key];
        GetOne(structure, key);
        GetOne(defaults, key);
        GetOne(expected.items, key);
        if !v.Dict? {
          PointIs(key, limit);
        }
      } else if v.Dict? {
        DefaultsAtPath(v.items, limit, path[1..]);
      } else {
        PointIs(key, limit);
        NothingBelow(v, path[1..]);
        NothingBelow(Lookup(defaults, key).value, path[1..]);
      }
    }
  }

  // ---------- When the generation raises ----------

  /** The structure has a node or point at the path for which there is no threshold, or a point whose limits have no
      range to take the middle of. */
  ghost predicate IsMissing(structure: Items, expected: Value, path: seq<string>) {
    && path != [] && EntryAt(structure, path).Some?
    && var limit := Get(expected, path);
       || limit == None
       || (!EntryAt(structure, path).value.Dict? && limit.value.Dict? && path[|path| - 1] != "voltage_alm"
           && !HasRange(limit.value.items))
  }

  lemma MissingRaises(structure: Items, expected: Value, path: seq<string>)
    requires IsMissing(structure, expected, path)
    ensures Generate(structure, expected) == None
  {
    if Generate(structure, expected).Some? {
      DefaultsAtPath(structure, expected, path);
      NodesHaveThresholds(structure, expected, path);
    }
  }

  lemma {:induction false} NodesHaveThresholds(structure: Items, expected: Value, path: seq<string>)
    requires Generate(structure, expected).Some? && path != [] && EntryAt(structure, path).Some?
    ensures Get(expected, path).Some?
    decreases |path|
  {
    GeneratedAtKey(structure, expected, path[0]);
    if |path| > 1 {
      if !Lookup(structure, path[0]).value.Dict? {
        NothingBelow(Lookup(structure, path[0]).value, path[1..]);
      }
      NodesHaveThresholds(Lookup(structure, path[0]).value.items, Lookup(expected.items, path[0]).value, path[1..]);
    }
  }

  lemma MissingBelow(structure: Items, expected: Value, key: string, path: seq<string>)
    requires HasKey(structure, key) && Lookup(structure, key).value.Dict?
    requires expected.Dict? && HasKey(expected.items, key)
    requires IsMissing(Lookup(structure, key).value.items, Lookup(expected.items, key).value, path)
    ensures IsMissing(structure, expected, [key] + path)
  {
    assert ([key] + path)[1..] == path;
  }

  lemma MissingInRest(structure: Items, expected: Value, path: seq<string>)
    requires structure.Cons? && Proper(structure) && IsMissing(structure.rest, expected, path)
    ensures IsMissing(structure, expected, path)
  {
    assert HasKey(structure.rest, path[0]) && path[0] != structure.key;
  }

  lemma MissingHere(structure: Items, expected: Value)
    requires structure.Cons?
    requires || !expected.Dict? || !HasKey(expected.items, structure.key)
             || (!structure.value.Dict?
                 && DefaultPoint(structure.key, Lookup(expected.items, structure.key).value) == None)
    ensures IsMissing(structure, expected, [structure.key])
  {
    GetOne(structure, structure.key);
    if expected.Dict? {
      GetOne(expected.items, structure.key);
    }
  }

  lemma {:induction false} RaisesAtMissing(structure: Items, expected: Value) returns (path: seq<string>)
    requires Proper(structure) && Generate(structure, expected) == None
    ensures IsMissing(structure, expected, path)
    decreases structure
  {
    var key, v := structure.key, structure.value;
    if !expected.Dict? || !HasKey(expected.items, key) {
      path := [key];
      MissingHere(structure, expected);
    } else if Default(key, v, Lookup(expected.items, key).value) == None {
      if v.Dict? {
        var inner := RaisesAtMissing(v.items, Lookup(expected.items, key).value);
        path := [key] + inner;
        MissingBelow(structure, expected, key, inner);
      } else {
        path := [key];
        MissingHere(structure, expected);
      }
    } else {
      path := RaisesAtMissing(structure.rest, expected);
      MissingInRest(structure, expected, path);
    }
  }

  /** The generation raises if and only if the structure has a node or point without a threshold, or a point whose
      limits have no range to take the middle of. */
  lemma RaisesExactly(structure: Items, expected: Value)
    requires Proper(structure)
    ensures Generate(structure, expected) == None <==> exists path :: IsMissing(structure, expected, path)
  {
    if Generate(structure, expected) == None {
      var path := RaisesAtMissing(structure, expected);
    }
    forall path | IsMissing(structure, expected, path)
      ensures Generate(structure, expected) == None
    {
      MissingRaises(structure, expected, path);
    }
  }
}
