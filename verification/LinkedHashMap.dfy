/** `LinkedHashMap` (3rdparty/stout/linkedhashmap.hpp): a map that keeps the order in which keys were first inserted. */
module LinkedMap {

  /** The position of a key in the list of entries, or its length. */
  function Position<K(==), V>(es: seq<(K, V)>, key: K): (i: nat)
    ensures i <= |es|
    ensures i < |es| ==> es[i].0 == key
    ensures forall j :: 0 <= j < i ==> es[j].0 != key
  {
    if es == [] || es[0].0 == key then 0 else Position(es[1..], key) + 1
  }

  predicate HasKey<K(==), V>(es: seq<(K, V)>, key: K) { Position(es, key) < |es| }

  ghost predicate DistinctKeys<K, V>(es: seq<(K, V)>) {
    forall i, j :: 0 <= i < j < |es| ==> es[i].0 != es[j].0
  }

  /** Updating a key does not change its place; a new key goes to the end. */
  function Put<K(==), V>(es: seq<(K, V)>, key: K, value: V): seq<(K, V)> {
    var i := Position(es, key);
    if i < |es| then es[i := (key, value)] else es + [(key, value)]
  }

  function Remove<K(==), V>(es: seq<(K, V)>, key: K): seq<(K, V)> {
    var i := Position(es, key);
    if i < |es| then es[..i] + es[i + 1..] else es
  }

  function ValuesOf<K, V>(es: seq<(K, V)>): seq<V> {
    seq(|es|, i requires 0 <= i < |es| => es[i].1)
  }

  lemma {:induction false} HasKeyMeaning<K, V>(es: seq<(K, V)>, key: K)
    ensures HasKey(es, key) <==> exists i :: 0 <= i < |es| && es[i].0 == key
  {
  }

  lemma {:induction false} PutKeepsDistinct<K, V>(es: seq<(K, V)>, key: K, value: V)
    requires DistinctKeys(es)
    ensures DistinctKeys(Put(es, key, value)) && HasKey(Put(es, key, value), key)
    ensures forall k :: HasKey(Put(es, key, value), k) <==> k == key || HasKey(es, k)
  {
    var es', i := Put(es, key, value), Position(es, key);
    forall k ensures HasKey(es', k) <==> k == key || HasKey(es, k) {
      HasKeyMeaning(es, k);
      HasKeyMeaning(es', k);
      if j :| 0 <= j < |es| && es[j].0 == k { assert es'[j].0 == k; }
      assert es'[i].0 == key;
    }
  }

  lemma {:induction false} RemoveKeepsDistinct<K, V>(es: seq<(K, V)>, key: K)
    requires DistinctKeys(es)
    ensures DistinctKeys(Remove(es, key)) && !HasKey(Remove(es, key), key)
    ensures forall k :: HasKey(Remove(es, key), k) <==> k != key && HasKey(es, k)
  {
    var es', i := Remove(es, key), Position(es, key);
    if i < |es| {
      assert forall j :: 0 <= j < |es'| ==> es'[j] == es[if j < i then j else j + 1];
    }
    forall k ensures HasKey(es', k) <==> k != key && HasKey(es, k) {
      HasKeyMeaning(es, k);
      HasKeyMeaning(es', k);
      if j :| 0 <= j < |es| && es[j].0 == k && k != key {
        assert es'[if j < i then j else j - 1].0 == k;
      }
    }
  }

  /** Inserting an unknown key and erasing it again is no change, order included. */
  lemma {:induction false} PutThenRemove<K, V>(es: seq<(K, V)>, key: K, value: V)
    requires !HasKey(es, key)
    ensures Remove(Put(es, key, value), key) == es
  {
    var es' := es + [(key, value)];
    assert Position(es', key) == |es| by {
      assert es'[|es|].0 == key;
      assert forall j :: 0 <= j < |es| ==> es'[j] == es[j];
    }
    assert es'[..|es|] + es'[|es| + 1..] == es;
  }

  /** The list of entries and the index of keys, changed together. */
  class LinkedHashMap<K(==,!new), V> {
    var entries: seq<(K, V)>
    var keys: set<K>

    ghost predicate Valid()
      reads this
    {
      DistinctKeys(entries) && forall k :: k in keys <==> HasKey(entries, k)
    }

    constructor ()
      ensures Valid() && entries == []
    {
      entries, keys := [], {};
    }

    /** `operator[]`, read: an unknown key is inserted with a default value. */
    method Index(key: K, default: V) returns (value: V)
      requires Valid()
      modifies this
      ensures Valid()
      ensures entries == if HasKey(old(entries), key) then old(entries) else Put(old(entries), key, default)
      ensures HasKey(entries, key) && value == entries[Position(entries, key)].1
    {
      if key !in keys {
        PutKeepsDistinct(entries, key, default);
        entries := entries + [(key, default)];
        keys := keys + {key};
      }
      value := entries[Position(entries, key)].1;
    }

    /** `operator[]`, written. */
    method Assign(key: K, value: V)
      requires Valid()
      modifies this
      ensures Valid() && entries == Put(old(entries), key, value)
    {
      PutKeepsDistinct(entries, key, value);
      if key !in keys {
        entries := entries + [(key, value)];
        keys := keys + {key};
      } else {
        entries := entries[Position(entries, key) := (key, value)];
      }
    }

    method Erase(key: K) returns (erased: nat)
      requires Valid()
      modifies this
      ensures Valid() && entries == Remove(old(entries), key)
      ensures erased == if HasKey(old(entries), key) then 1 else 0
    {
      RemoveKeepsDistinct(entries, key);
      erased := 0;
      if key in keys {
        var i := Position(entries, key);
        keys := keys - {key};
        entries := entries[..i] + entries[i + 1..];
        erased := 1;
      }
    }

    /** The values in insertion order. */
    method Values() returns (values: seq<V>)
      ensures values == ValuesOf(entries)
    {
      values := [];
      for i := 0 to |entries|
        invariant values == ValuesOf(entries)[..i]
      {
        values := values + [entries[i].1];
      }
    }
  }
}
