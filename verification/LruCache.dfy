/**
 The least-recently-used cache (3rdparty/stout/cache.hpp). The list positions that the index keeps are
 modelled by searching for the key, which is unique.
 */
module LruCache {
  import opened Wrappers

  /** Keys from least to most recently used, and the index with the values. */
  datatype State<K(==), V> = State(capacity: nat, keys: seq<K>, values: map<K, V>)

  datatype Event<K, V> = Put(key: K, value: V) | Get(key: K) | Erase(key: K)

  function Without<K(==)>(keys: seq<K>, key: K): seq<K> {
    if keys == [] then [] else if keys[0] == key then keys[1..] else [keys[0]] + Without(keys[1..], key)
  }

  function Dropped<K(==), V>(values: map<K, V>, key: K): map<K, V> {
    values - {key}
  }

  /** `evict`: the front of the list goes. */
  function Evict<K(==), V>(s: State<K, V>): State<K, V>
    requires s.keys != []
  {
    s.(keys := s.keys[1..], values := Dropped(s.values, s.keys[0]))
  }

  /** `insert`, which evicts first when the cache is full. The front of an empty list is undefined in the source. */
  function Insert<K(==), V>(s: State<K, V>, key: K, value: V): State<K, V>
    requires s.capacity > 0
  {
    var t := if |s.keys| == s.capacity then Evict(s) else s;
    t.(keys := t.keys + [key], values := t.values[key := value])
  }

  function Step<K(==), V>(s: State<K, V>, e: Event<K, V>): (s': State<K, V>)
    requires e.Put? ==> s.capacity > 0
    ensures s'.capacity == s.capacity
  {
    match e
    case Put(key, value) =>
      if key !in s.values then Insert(s, key, value)
      else s.(keys := Without(s.keys, key) + [key], values := s.values[key := value])
    case Get(key) =>
      if key !in s.values then s else s.(keys := Without(s.keys, key) + [key])
    case Erase(key) =>
      if key !in s.values then s else s.(keys := Without(s.keys, key), values := Dropped(s.values, key))
  }

  function Run<K(==), V>(capacity: nat, es: seq<Event<K, V>>): (s: State<K, V>)
    requires capacity > 0
    ensures s.capacity == capacity
  {
    if es == [] then State(capacity, [], map[]) else Step(Run(capacity, es[..|es| - 1]), es[|es| - 1])
  }

  // ------------------------------------------------------------ the class invariant

  predicate Distinct<K(==)>(keys: seq<K>) {
    forall i, j :: 0 <= i < j < |keys| ==> keys[i] != keys[j]
  }

  /** The list and the index agree, and the size is within the capacity. */
  predicate Valid<K(==), V>(s: State<K, V>) {
    && Distinct(s.keys) && |s.keys| <= s.capacity
    && (forall i :: 0 <= i < |s.keys| ==> s.keys[i] in s.values)
    && (forall k <- s.values :: k in s.keys)
  }

  lemma {:induction false} WithoutAt<K>(keys: seq<K>, key: K, i: nat)
    requires Distinct(keys) && i < |keys| && keys[i] == key
    ensures Without(keys, key) == keys[..i] + keys[i + 1..]
  {
    if i > 0 {
      assert keys[1..][i - 1] == key && keys[0] != key;
      WithoutAt(keys[1..], key, i - 1);
      assert [keys[0]] + keys[1..][..i - 1] == keys[..i];
      assert keys[1..][i..] == keys[i + 1..];
    }
  }

  /** Taking a key out leaves the other keys, in their order. */
  lemma {:induction false} WithoutLaw<K>(keys: seq<K>, key: K)
    requires Distinct(keys) && key in keys
    ensures var rest := Without(keys, key);
            |rest| == |keys| - 1 && Distinct(rest) && key !in rest && (forall k <- keys :: k != key ==> k in rest)
            && (forall k <- rest :: k in keys)
  {
    var i :| 0 <= i < |keys| && keys[i] == key;
    WithoutAt(keys, key, i);
    var rest := keys[..i] + keys[i + 1..];
    forall k <- keys | k != key ensures k in rest {
      var j :| 0 <= j < |keys| && keys[j] == k;
      assert rest[if j < i then j else j - 1] == k;
    }
  }

  lemma {:induction false} UseValid<K, V>(s: State<K, V>, key: K)
    requires Valid(s) && key in s.values
    ensures Valid(s.(keys := Without(s.keys, key) + [key]))
  {
    WithoutLaw(s.keys, key);
    var rest := Without(s.keys, key);
    forall i | 0 <= i < |rest| ensures rest[i] in s.values { assert rest[i] in rest; }
  }

  lemma {:induction false} EraseValid<K, V>(s: State<K, V>, key: K)
    requires Valid(s) && key in s.values
    ensures Valid(s.(keys := Without(s.keys, key), values := Dropped(s.values, key)))
  {
    WithoutLaw(s.keys, key);
    var rest := Without(s.keys, key);
    forall i | 0 <= i < |rest| ensures rest[i] in s.values && rest[i] != key { assert rest[i] in rest; }
  }

  lemma {:induction false} EvictValid<K, V>(s: State<K, V>)
    requires Valid(s) && s.keys != []
    ensures Valid(Evict(s))
  {
    var t := Evict(s);
    forall k <- t.values ensures k in t.keys {
      var i :| 0 <= i < |s.keys| && s.keys[i] == k;
      assert t.keys[i - 1] == k;
    }
  }

  lemma {:induction false} StepValid<K, V>(s: State<K, V>, e: Event<K, V>)
    requires Valid(s) && (e.Put? ==> s.capacity > 0)
    ensures Valid(Step(s, e))
  {
    match e
    case Put(key, value) =>
      if key in s.values {
        UseValid(s, key);
      } else if |s.keys| == s.capacity {
        EvictValid(s);
      }
    case Get(key) => if key in s.values { UseValid(s, key); }
    case Erase(key) => if key in s.values { EraseValid(s, key); }
  }

  lemma {:induction false} RunValid<K, V>(capacity: nat, es: seq<Event<K, V>>)
    requires capacity > 0
    ensures Valid(Run(capacity, es))
  {
    if es != [] {
      RunValid(capacity, es[..|es| - 1]);
      StepValid(Run(capacity, es[..|es| - 1]), es[|es| - 1]);
    }
  }

  // ------------------------------------------------------------ inclusion

  /** `keys` with one more key at position `i`. */
  ghost predicate OneMore<K(!new)>(small: seq<K>, large: seq<K>, i: nat) {
    i < |large| && small == large[..i] + large[i + 1..]
  }

  ghost predicate KeysNear<K(!new)>(small: seq<K>, large: seq<K>) {
    small == large || exists i: nat :: OneMore(small, large, i)
  }

  ghost predicate Included<K, V(!new)>(small: map<K, V>, large: map<K, V>) {
    forall k <- small :: k in large && large[k] == small[k]
  }

  /** The larger cache holds all the smaller one does, in the same order, and at most one key more. */
  ghost predicate Near<K(!new), V(!new)>(small: State<K, V>, large: State<K, V>) {
    large.capacity == small.capacity + 1 && KeysNear(small.keys, large.keys) && Included(small.values, large.values)
  }

  lemma {:induction false} NearKeys<K(!new)>(small: seq<K>, large: seq<K>, i: nat)
    requires OneMore(small, large, i) && Distinct(large)
    ensures large[i] !in small && |large| == |small| + 1
    ensures forall k <- large :: k != large[i] ==> k in small
    ensures forall k <- small :: k in large
  {
    forall j | 0 <= j < |small| ensures small[j] == large[if j < i then j else j + 1] {}
    forall k <- large | k != large[i] ensures k in small {
      var j :| 0 <= j < |large| && large[j] == k;
      assert small[if j < i then j else j - 1] == k;
    }
  }

  /** Appending a key to both, and dropping the front of both. */
  lemma {:induction false} NearAppend<K(!new)>(small: seq<K>, large: seq<K>, key: K)
    requires KeysNear(small, large)
    ensures KeysNear(small + [key], large + [key])
  {
    if small != large {
      var i: nat :| OneMore(small, large, i);
      assert OneMore(small + [key], large + [key], i);
    }
  }

  lemma {:induction false} NearTail<K(!new)>(small: seq<K>, large: seq<K>)
    requires KeysNear(small, large) && small != [] && large != []
    ensures KeysNear(small[1..], large[1..])
  {
    if small != large {
      var i: nat :| OneMore(small, large, i);
      if i == 0 {
        assert OneMore(small[1..], large[1..], 0);
      } else {
        assert large[1..][..i - 1] == large[..i][1..] && large[1..][i..] == large[i + 1..];
        assert OneMore(small[1..], large[1..], i - 1);
      }
    }
  }

  lemma {:induction false} CutTwice<K(!new)>(small: seq<K>, large: seq<K>, i: nat, j: nat)
    requires OneMore(small, large, i) && j < |large| && j != i
    ensures var k := if j < i then j else j - 1;
            KeysNear(small[..k] + small[k + 1..], large[..j] + large[j + 1..])
  {
    var k := if j < i then j else j - 1;
    assert OneMore(small[..k] + small[k + 1..], large[..j] + large[j + 1..], if j < i then i - 1 else i);
  }

  lemma {:induction false} NearWithout<K(!new)>(small: seq<K>, large: seq<K>, key: K)
    requires KeysNear(small, large) && Distinct(small) && Distinct(large) && key in small && key in large
    ensures KeysNear(Without(small, key), Without(large, key))
  {
    if small != large {
      var i: nat :| OneMore(small, large, i);
      var j :| 0 <= j < |large| && large[j] == key;
      NearKeys(small, large, i);
      WithoutAt(large, key, j);
      WithoutAt(small, key, if j < i then j else j - 1);
      CutTwice(small, large, i, j);
    }
  }

  /** A key only the larger cache holds is its one extra key. */
  lemma {:induction false} NearExtra<K(!new)>(small: seq<K>, large: seq<K>, key: K)
    requires KeysNear(small, large) && Distinct(large) && key !in small && key in large
    ensures Without(large, key) == small
  {
    var i: nat :| OneMore(small, large, i);
    NearKeys(small, large, i);
    assert large[i] == key;
    WithoutAt(large, key, i);
  }

  lemma {:induction false} DroppedIncluded<K, V(!new)>(small: map<K, V>, large: map<K, V>, a: K, b: K)
    requires Included(small, large) && (b !in small || b == a)
    ensures Included(Dropped(small, a), Dropped(large, b))
  {
  }

  lemma {:induction false} HitsBoth<K(!new), V(!new)>(small: State<K, V>, large: State<K, V>, key: K)
    requires Valid(small) && Valid(large) && Near(small, large) && key in small.values
    ensures key in large.values
    ensures KeysNear(Without(small.keys, key), Without(large.keys, key))
    ensures KeysNear(Without(small.keys, key) + [key], Without(large.keys, key) + [key])
  {
    NearWithout(small.keys, large.keys, key);
    NearAppend(Without(small.keys, key), Without(large.keys, key), key);
  }

  /** A full small cache that takes a key the large one has, or has room for. */
  lemma {:induction false} NearAfterEviction<K(!new)>(keys: seq<K>, key: K)
    requires keys != []
    ensures KeysNear(keys[1..] + [key], keys + [key])
  {
    assert OneMore(keys[1..] + [key], keys + [key], 0);
  }

  lemma {:induction false} InsertIncluded<K, V(!new)>(small: map<K, V>, large: map<K, V>, key: K, value: V)
    requires Included(small, large)
    ensures Included(small[key := value], large[key := value])
  {
  }

  /** Both insert. */
  lemma {:induction false} MissBoth<K(!new), V(!new)>(small: State<K, V>, large: State<K, V>, key: K, value: V)
    requires Valid(small) && Valid(large) && Near(small, large) && small.capacity > 0
    requires key !in small.values && key !in large.values
    ensures Near(Insert(small, key, value), Insert(large, key, value))
  {
    var s := if |small.keys| == small.capacity then Evict(small) else small;
    var l := if |large.keys| == large.capacity then Evict(large) else large;
    InsertIncluded(s.values, l.values, key, value) by { EvictIncluded(small, large); }
    if small.keys == large.keys {
      if |small.keys| == small.capacity {
        NearAfterEviction(small.keys, key);
      }
    } else {
      var i: nat :| OneMore(small.keys, large.keys, i);
      NearKeys(small.keys, large.keys, i);
      if |small.keys| == small.capacity {
        NearTail(small.keys, large.keys);
      }
      NearAppend(s.keys, l.keys, key);
    }
  }

  lemma {:induction false} EvictIncluded<K(!new), V(!new)>(small: State<K, V>, large: State<K, V>)
    requires Valid(small) && Valid(large) && Near(small, large) && small.capacity > 0
    ensures var s := if |small.keys| == small.capacity then Evict(small) else small;
            var l := if |large.keys| == large.capacity then Evict(large) else large;
            Included(s.values, l.values)
  {
    if small.keys != large.keys {
      var i: nat :| OneMore(small.keys, large.keys, i);
      NearKeys(small.keys, large.keys, i);
      if |small.keys| == small.capacity {
        assert i > 0 ==> small.keys[0] == large.keys[0];
        DroppedIncluded(small.values, large.values, small.keys[0], large.keys[0]);
      }
    }
  }

  /** Only the larger cache has the key. */
  lemma {:induction false} MissSmall<K(!new), V(!new)>(small: State<K, V>, large: State<K, V>, key: K, value: V)
    requires Valid(small) && Valid(large) && Near(small, large) && small.capacity > 0
    requires key !in small.values && key in large.values
    ensures Near(Insert(small, key, value), Step(large, Put(key, value)))
  {
    var s := Insert(small, key, value);
    NearExtra(small.keys, large.keys, key);
    if |small.keys| == small.capacity {
      NearAfterEviction(small.keys, key);
      InsertIncluded(Dropped(small.values, small.keys[0]), large.values, key, value);
    } else {
      InsertIncluded(small.values, large.values, key, value);
    }
    assert KeysNear(s.keys, small.keys + [key]);
  }

  lemma {:induction false} StepNear<K(!new), V(!new)>(small: State<K, V>, large: State<K, V>, e: Event<K, V>)
    requires Valid(small) && Valid(large) && Near(small, large) && small.capacity > 0
    ensures Near(Step(small, e), Step(large, e))
  {
    var key := e.key;
    if key in small.values {
      HitsBoth(small, large, key);
      DroppedIncluded(small.values, large.values, key, key);
      if e.Put? { InsertIncluded(small.values, large.values, key, e.value); }
    } else if e.Put? {
      if key in large.values { MissSmall(small, large, key, e.value); } else { MissBoth(small, large, key, e.value); }
    } else if key in large.values {
      NearExtra(small.keys, large.keys, key);
      assert OneMore(small.keys, small.keys + [key], |small.keys|);
      assert e.Erase? ==> Included(small.values, Dropped(large.values, key));
    }
  }

  /**
   After every run the keys of a cache are those of one a size larger, in the same order, with at most one left out,
   and the values are the same.
   */
  lemma {:induction false} Inclusion<K(!new), V(!new)>(capacity: nat, es: seq<Event<K, V>>)
    requires capacity > 0
    ensures Near(Run(capacity, es), Run(capacity + 1, es))
  {
    if es != [] {
      var front, e := es[..|es| - 1], es[|es| - 1];
      Inclusion(capacity, front);
      RunValid(capacity, front);
      RunValid(capacity + 1, front);
      StepNear(Run(capacity, front), Run(capacity + 1, front), e);
    }
  }

  /** A larger cache answers every lookup the smaller one answers, with the same value. */
  lemma {:induction false} LargerNeverMissesMore<K(!new), V(!new)>(small: nat, large: nat, es: seq<Event<K, V>>)
    requires 0 < small <= large
    ensures Included(Run(small, es).values, Run(large, es).values)
    decreases large - small
  {
    if small < large {
      Inclusion(small, es);
      LargerNeverMissesMore(small + 1, large, es);
    }
  }

  // ------------------------------------------------------------ recency

  /** The number of the last event that used the key: a put of it, or a get that found it. */
  function LastUse<K(==), V>(capacity: nat, es: seq<Event<K, V>>, key: K): (n: nat)
    requires capacity > 0
    ensures n <= |es|
  {
    if es == [] then 0
    else
      var front, e := es[..|es| - 1], es[|es| - 1];
      if e.key == key && (e.Put? || (e.Get? && key in Run(capacity, front).values)) then |es|
      else LastUse(capacity, front, key)
  }

  /** The value of the last put of the key. */
  function LastPut<K(==), V>(es: seq<Event<K, V>>, key: K): Option<V> {
    if es == [] then None
    else
      var e := es[|es| - 1];
      if e.Put? && e.key == key then Some(e.value) else LastPut(es[..|es| - 1], key)
  }

  ghost predicate ByRecency<K, V>(capacity: nat, es: seq<Event<K, V>>, keys: seq<K>)
    requires capacity > 0
  {
    forall i, j :: 0 <= i < j < |keys| ==> LastUse(capacity, es, keys[i]) < LastUse(capacity, es, keys[j])
  }

  /** The rest of the keys keep their order when one moves to the end. */
  lemma {:induction false} RecencyAfterUse<K, V>(capacity: nat, es: seq<Event<K, V>>, keys: seq<K>)
    requires capacity > 0 && es != [] && ByRecency(capacity, es[..|es| - 1], keys)
    requires es[|es| - 1].key !in keys && LastUse(capacity, es, es[|es| - 1].key) == |es|
    ensures ByRecency(capacity, es, keys + [es[|es| - 1].key])
  {
    var front, key := es[..|es| - 1], es[|es| - 1].key;
    forall i | 0 <= i < |keys| ensures LastUse(capacity, es, keys[i]) == LastUse(capacity, front, keys[i]) {
      assert keys[i] in keys;
    }
  }

  lemma {:induction false} RecencySlice<K, V>(capacity: nat, es: seq<Event<K, V>>, keys: seq<K>, i: nat)
    requires capacity > 0 && i < |keys| && ByRecency(capacity, es, keys)
    ensures ByRecency(capacity, es, keys[..i] + keys[i + 1..])
  {
    var rest := keys[..i] + keys[i + 1..];
    forall a | 0 <= a < |rest| ensures rest[a] == keys[if a < i then a else a + 1] {}
  }

  lemma {:induction false} RecencySame<K, V>(capacity: nat, es: seq<Event<K, V>>, keys: seq<K>)
    requires capacity > 0 && es != [] && ByRecency(capacity, es[..|es| - 1], keys)
    requires es[|es| - 1].key !in keys || es[|es| - 1].Erase?
    ensures ByRecency(capacity, es, keys)
  {
    var front := es[..|es| - 1];
    forall i | 0 <= i < |keys| ensures LastUse(capacity, es, keys[i]) == LastUse(capacity, front, keys[i]) {
      assert keys[i] in keys;
    }
  }

  /** In every run the list is in order of last use, so that what is evicted is the least recently used key. */
  lemma {:induction false} KeysAreByRecency<K, V>(capacity: nat, es: seq<Event<K, V>>)
    requires capacity > 0
    ensures ByRecency(capacity, es, Run(capacity, es).keys)
  {
    if es != [] {
      var front, e := es[..|es| - 1], es[|es| - 1];
      var s, key := Run(capacity, front), e.key;
      KeysAreByRecency(capacity, front);
      RunValid(capacity, front);
      if key in s.values {
        var i :| 0 <= i < |s.keys| && s.keys[i] == key;
        WithoutAt(s.keys, key, i);
        WithoutLaw(s.keys, key);
        RecencySlice(capacity, front, s.keys, i);
        if e.Erase? {
          RecencySame(capacity, es, Without(s.keys, key));
        } else {
          RecencyAfterUse(capacity, es, Without(s.keys, key));
        }
      } else if e.Put? {
        if |s.keys| == s.capacity {
          RecencySlice(capacity, front, s.keys, 0);
          assert s.keys[..0] + s.keys[1..] == s.keys[1..];
          RecencyAfterUse(capacity, es, s.keys[1..]);
        } else {
          RecencyAfterUse(capacity, es, s.keys);
        }
      } else {
        RecencySame(capacity, es, s.keys);
      }
    }
  }

  /** A lookup finds the value last put. */
  lemma {:induction false} ValuesAreLatest<K(!new), V(!new)>(capacity: nat, es: seq<Event<K, V>>)
    requires capacity > 0
    ensures forall k <- Run(capacity, es).values :: LastPut(es, k) == Some(Run(capacity, es).values[k])
  {
    if es != [] {
      ValuesAreLatest(capacity, es[..|es| - 1]);
    }
  }

  // ------------------------------------------------------------ the code

  class Cache<K(==), V> {
    const capacity: nat
    var keys: seq<K>
    var values: map<K, V>

    ghost function Abstract(): State<K, V>
      reads this
    {
      State(capacity, keys, values)
    }

    constructor (capacity: nat)
      ensures Abstract() == State(capacity, [], map[]) && Valid(Abstract())
    {
      this.capacity, keys, values := capacity, [], map[];
    }

    method Put(key: K, value: V)
      requires Valid(Abstract()) && capacity > 0
      modifies this
      ensures Valid(Abstract()) && Abstract() == Step(old(Abstract()), Event.Put(key, value))
    {
      StepValid(Abstract(), Event.Put(key, value));
      if key !in values {
        if |keys| == capacity {
          keys, values := keys[1..], values - {keys[0]};
        }
        keys, values := keys + [key], values[key := value];
      } else {
        values := values[key := value];
        Use(key);
      }
    }

    /** Finds the place of the key in the list. */
    method Locate(key: K) returns (i: nat)
      requires Valid(Abstract()) && key in values
      ensures i < |keys| && keys[i] == key && Without(keys, key) == keys[..i] + keys[i + 1..]
    {
      i := 0;
      while keys[i] != key
        invariant i < |keys| && key in keys[i..]
        decreases |keys| - i
      {
        i := i + 1;
      }
      WithoutAt(keys, key, i);
    }

    /** Moves the key to the end of the list. */
    method Use(key: K)
      requires Valid(Abstract()) && key in values
      modifies this`keys
      ensures keys == Without(old(keys), key) + [key]
    {
      var i := Locate(key);
      keys := keys[..i] + keys[i + 1..] + [key];
    }

    method Get(key: K) returns (r: Option<V>)
      requires Valid(Abstract())
      modifies this
      ensures Valid(Abstract()) && Abstract() == Step(old(Abstract()), Event.Get(key))
      ensures r == if key in old(values) then Some(old(values)[key]) else None
    {
      StepValid(Abstract(), Event.Get(key));
      r := None;
      if key in values {
        Use(key);
        r := Some(values[key]);
      }
    }

    method Erase(key: K) returns (r: Option<V>)
      requires Valid(Abstract())
      modifies this
      ensures Valid(Abstract()) && Abstract() == Step(old(Abstract()), Event.Erase(key))
      ensures r == if key in old(values) then Some(old(values)[key]) else None
    {
      StepValid(Abstract(), Event.Erase(key));
      r := None;
      if key in values {
        var i := Locate(key);
        r := Some(values[key]);
        keys, values := keys[..i] + keys[i + 1..], values - {key};
      }
    }
  }
}
