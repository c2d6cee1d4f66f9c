/**
 Stored values under `+=` and `-=` (liburb/source/values.cpp), position by position: `operator==` on set values compares
 the lists of items and not the sets, so that amounts alone do not settle when an operation undoes another one.
 */
module SetValues {
  import opened Values

  /** The items that are not in `out`, in their order. */
  function Without(items: seq<string>, out: seq<string>): seq<string> {
    if items == [] then []
    else (if items[0] in out then [] else [items[0]]) + Without(items[1..], out)
  }

  lemma {:induction false} WithoutMeaning(items: seq<string>, out: seq<string>, x: string)
    ensures x in Without(items, out) <==> x in items && x !in out
  {
    if items != [] {
      WithoutMeaning(items[1..], out, x);
      assert items == [items[0]] + items[1..];
    }
  }

  lemma {:induction false} WithoutConcat(a: seq<string>, b: seq<string>, out: seq<string>)
    ensures Without(a + b, out) == Without(a, out) + Without(b, out)
  {
    if a == [] {
      assert a + b == b;
    } else {
      assert (a + b)[1..] == a[1..] + b;
      WithoutConcat(a[1..], b, out);
    }
  }

  lemma {:induction false} WithoutNone(items: seq<string>, out: seq<string>)
    requires forall x :: x in items ==> x !in out
    ensures Without(items, out) == items
  {
    if items != [] {
      WithoutNone(items[1..], out);
      assert items == [items[0]] + items[1..];
    }
  }

  lemma {:induction false} WithoutAll(items: seq<string>, out: seq<string>)
    requires forall x :: x in items ==> x in out
    ensures Without(items, out) == []
  {
    if items != [] { WithoutAll(items[1..], out); }
  }

  lemma {:induction false} WithoutTwice(items: seq<string>, x: string, rest: seq<string>)
    ensures Without(Without(items, [x]), rest) == Without(items, [x] + rest)
  {
    if items != [] {
      WithoutTwice(items[1..], x, rest);
      var tail := Without(items[1..], [x]);
      assert items[0] in [x] + rest <==> items[0] == x || items[0] in rest;
      if items[0] == x {
        assert Without(items, [x]) == tail;
      } else {
        assert Without(items, [x]) == [items[0]] + tail && ([items[0]] + tail)[1..] == tail;
      }
    }
  }

  lemma {:induction false} WithoutStranger(items: seq<string>, out: seq<string>, x: string)
    requires x !in items
    ensures Without(items, out + [x]) == Without(items, out)
  {
    if items != [] { WithoutStranger(items[1..], out, x); }
  }

  lemma {:induction false} RemoveItemList(items: seq<string>, x: string)
    requires NoDuplicates(items)
    ensures RemoveItem(items, x) == Without(items, [x])
  {
    if items != [] {
      assert items == [items[0]] + items[1..];
      if items[0] == x { WithoutNone(items[1..], [x]); } else { RemoveItemList(items[1..], x); }
    }
  }

  /** `-=` keeps the order of what is left ... */
  lemma {:induction false} SubtractItemsList(left: seq<string>, right: seq<string>)
    requires NoDuplicates(left)
    ensures SubtractItems(left, right) == Without(left, right)
    decreases |right|
  {
    if right == [] {
      WithoutNone(left, right);
    } else {
      RemoveItemMeaning(left, right[0]);
      RemoveItemList(left, right[0]);
      SubtractItemsList(RemoveItem(left, right[0]), right[1..]);
      WithoutTwice(left, right[0], right[1..]);
      assert right == [right[0]] + right[1..];
    }
  }

  /** ... and `+=` appends what is new in its order. */
  lemma {:induction false} AddItemsList(left: seq<string>, right: seq<string>)
    requires NoDuplicates(right)
    ensures AddItems(left, right) == left + Without(right, left)
    decreases |right|
  {
    if right != [] {
      var x, tail := right[0], right[1..];
      if x in left {
        AddItemsList(left, tail);
      } else {
        AddItemsList(left + [x], tail);
        WithoutStranger(tail, left, x);
        assert left + [x] + Without(tail, left) == left + ([x] + Without(tail, left));
      }
    }
  }

  ghost predicate Meet(a: seq<string>, b: seq<string>) { exists x :: x in a && x in b }

  /** Appending and deleting items again restores the list exactly when none of them was there. */
  lemma {:induction false} ItemsAddThenSubtract(a: seq<string>, b: seq<string>)
    requires NoDuplicates(a) && NoDuplicates(b)
    ensures SubtractItems(AddItems(a, b), b) == a <==> !Meet(a, b)
  {
    AddItemsMeaning(a, b);
    AddItemsList(a, b);
    SubtractItemsList(AddItems(a, b), b);
    WithoutConcat(a, Without(b, a), b);
    forall x ensures x in Without(b, a) ==> x in b { WithoutMeaning(b, a, x); }
    WithoutAll(Without(b, a), b);
    if Meet(a, b) {
      var x :| x in a && x in b;
      WithoutMeaning(a, b, x);
    } else {
      WithoutNone(a, b);
    }
  }

  predicate IsSuffix(b: seq<string>, a: seq<string>) { |b| <= |a| && a[|a| - |b|..] == b }

  /** Deleting items and appending them again restores the list exactly when they were its last ones, in their order. */
  lemma {:induction false} ItemsSubtractThenAdd(a: seq<string>, b: seq<string>)
    requires NoDuplicates(a) && NoDuplicates(b)
    ensures AddItems(SubtractItems(a, b), b) == a <==> IsSuffix(b, a)
  {
    var left := Without(a, b);
    SubtractItemsList(a, b);
    AddItemsList(left, b);
    forall x | x in b ensures x !in left { WithoutMeaning(a, b, x); }
    WithoutNone(b, left);
    if IsSuffix(b, a) {
      var p := a[..|a| - |b|];
      assert a == p + b;
      forall x | x in p ensures x !in b {
        var i :| 0 <= i < |p| && p[i] == x;
        assert a[i] == x;
        assert forall j :: 0 <= j < |b| ==> b[j] == a[|p| + j];
      }
      WithoutConcat(p, b, b);
      WithoutNone(p, b);
      WithoutAll(b, b);
      assert left == p;
    }
  }

  lemma {:induction false} DisjointMeaning(q: Quantity, r: Quantity)
    requires WellFormed(q) && WellFormed(r) && KindOf(q) == KindOf(r)
    ensures Disjoint(AmountOf(q), AmountOf(r)) <==>
            match q case Ranges(ports) => ports !! r.ports case Items(items) => !Meet(items, r.items) case _ => true
  {
    var a, b := AmountOf(q).atoms, AmountOf(r).atoms;
    match q
    case Ranges(ports) =>
      if !(ports !! r.ports) { var p :| p in ports && p in r.ports; assert Port(p) in a && Port(p) in b; }
    case Items(items) =>
      if Meet(items, r.items) { var x :| x in items && x in r.items; assert Item(x) in a && Item(x) in b; }
    case _ =>
  }

  /** `+=` and then `-=` restores the stored value exactly when it held none of the ports or items. */
  lemma {:induction false} AddThenSubtractQuantity(q: Quantity, r: Quantity)
    requires WellFormed(q) && WellFormed(r) && KindOf(q) == KindOf(r)
    ensures SubtractQuantity(AddQuantity(q, r), r) == q <==> Disjoint(AmountOf(q), AmountOf(r))
  {
    DisjointMeaning(q, r);
    match q
    case Scalar(_) =>
    case Ranges(a) =>
      var b := r.ports;
      if a !! b {
        assert a + b - b == a;
      } else {
        var p :| p in a && p in b;
        assert p !in a + b - b;
      }
    case Items(a) => ItemsAddThenSubtract(a, r.items);
  }

  /**
   `-=` and then `+=` restores every scalar, restores ranges exactly when they held what was taken, and a set value
   exactly when the items were its last ones: `operator==` on set values looks at positions.
   */
  lemma {:induction false} SubtractThenAddQuantity(q: Quantity, r: Quantity)
    requires WellFormed(q) && WellFormed(r) && KindOf(q) == KindOf(r)
    ensures AddQuantity(SubtractQuantity(q, r), r) == q <==>
            match q case Ranges(ports) => r.ports <= ports case Items(items) => IsSuffix(r.items, items) case _ => true
  {
    match q
    case Scalar(_) =>
    case Ranges(a) =>
      var b := r.ports;
      if b <= a { assert a - b + b == a; } else { var p :| p in b && p !in a; assert p in a - b + b; }
    case Items(a) => ItemsSubtractThenAdd(a, r.items);
  }
}
