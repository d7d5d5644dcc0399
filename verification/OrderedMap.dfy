/** Maps whose items keep the order in which their keys were first stored, as Python's dictionaries do. */
module OrderedMap {
  import opened Basics

  datatype Item<+K, +V> = Item(key: K, value: V)

  /** The value under a key. */
  function Lookup<K(==), V>(items: seq<Item<K, V>>, key: K): Option<V> {
    if items == [] then None
    else if items[0].key == key then Some(items[0].value)
    else Lookup(items[1..], key)
  }

  /** Assignment to a key: a key already there keeps its place. */
  function Put<K(==), V>(items: seq<Item<K, V>>, item: Item<K, V>): seq<Item<K, V>> {
    if items == [] then [item]
    else if items[0].key == item.key then [item] + items[1..]
    else [items[0]] + Put(items[1..], item)
  }

  /** Assignment of several items, one after the other. */
  function PutAll<K(==), V>(items: seq<Item<K, V>>, more: seq<Item<K, V>>): seq<Item<K, V>>
    decreases |more|
  {
    if more == [] then items else PutAll(Put(items, more[0]), more[1..])
  }

  function Keys<K, V>(items: seq<Item<K, V>>): seq<K> {
    if items == [] then [] else [items[0].key] + Keys(items[1..])
  }

  /** A new item replaces the one under its key and no other. */
  lemma {:induction false} PutUpdates<K, V>(items: seq<Item<K, V>>, item: Item<K, V>, key: K)
    ensures Lookup(Put(items, item), key) == if key == item.key then Some(item.value) else Lookup(items, key)
  {
    if items != [] && items[0].key != item.key {
      PutUpdates(items[1..], item, key);
    }
  }

  /** Keys stay in the order in which they were first stored: a replacement keeps its place. */
  lemma {:induction false} PutKeepsOrder<K, V>(items: seq<Item<K, V>>, item: Item<K, V>)
    ensures Keys(Put(items, item)) == if item.key in Keys(items) then Keys(items) else Keys(items) + [item.key]
  {
    if items != [] && items[0].key != item.key {
      PutKeepsOrder(items[1..], item);
    }
  }

  /** The last value that a list of items has for a key. */
  function Latest<K(==), V>(more: seq<Item<K, V>>, key: K): Option<V> {
    if more == [] then None
    else
      var later := Latest(more[1..], key);
      if later.Some? then later else if more[0].key == key then Some(more[0].value) else None
  }

  /** Of several items under one key the last wins, and no other key is touched. */
  lemma {:induction false} PutAllUpdates<K, V>(items: seq<Item<K, V>>, more: seq<Item<K, V>>, key: K)
    ensures Lookup(PutAll(items, more), key)
         == if Latest(more, key).Some? then Latest(more, key) else Lookup(items, key)
    decreases |more|
  {
    if more != [] {
      PutUpdates(items, more[0], key);
      PutAllUpdates(Put(items, more[0]), more[1..], key);
    }
  }
}
