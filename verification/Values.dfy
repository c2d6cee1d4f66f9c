/**
 Quantities of a resource (liburb/source/values.cpp) and their meaning.

 A `Quantity` is what a `Resource` message stores; an `Amount` is what it stands for.
 Scalars are held in the fixed-point form on which every operator of values.cpp computes,
 ranges as the set of numbers they cover, and set values as the list of items the message keeps.
 `Ranges.dfy` connects the stored list of ranges with the set of numbers used here.
 */
module Values {

  datatype Kind = SCALAR | RANGES | SET | TEXT

  /** `Unsupported` stands for a TEXT value and for a value that does not match the declared type. */
  datatype Quantity = Scalar(fixed: int) | Ranges(ports: set<nat>) | Items(items: seq<string>) | Unsupported

  function KindOf(q: Quantity): Kind {
    match q
    case Scalar(_) => SCALAR
    case Ranges(_) => RANGES
    case Items(_) => SET
    case Unsupported => TEXT
  }

  predicate NoDuplicates(s: seq<string>) {
    forall i, j :: 0 <= i < j < |s| ==> s[i] != s[j]
  }

  /** The value checks of `Resources::validate`. */
  predicate WellFormed(q: Quantity) {
    match q
    case Scalar(v) => v >= 0
    case Ranges(_) => true
    case Items(items) => NoDuplicates(items)
    case Unsupported => false
  }

  /** `+=` on set values: append what is not there yet. */
  function AddItems(left: seq<string>, right: seq<string>): (r: seq<string>)
    decreases |right|
  {
    if right == [] then left
    else AddItems(if right[0] in left then left else left + [right[0]], right[1..])
  }

  /** Deletes the first occurrence of `x`. */
  function RemoveItem(items: seq<string>, x: string): (r: seq<string>) {
    if items == [] then []
    else if items[0] == x then items[1..]
    else [items[0]] + RemoveItem(items[1..], x)
  }

  /** `-=` on set values: delete one occurrence of each item of `right`. */
  function SubtractItems(left: seq<string>, right: seq<string>): (r: seq<string>)
    decreases |right|
  {
    if right == [] then left else SubtractItems(RemoveItem(left, right[0]), right[1..])
  }

  function AddQuantity(q: Quantity, r: Quantity): Quantity {
    match (q, r)
    case (Scalar(a), Scalar(b)) => Scalar(a + b)
    case (Ranges(a), Ranges(b)) => Ranges(a + b)
    case (Items(a), Items(b)) => Items(AddItems(a, b))
    case _ => q
  }

  function SubtractQuantity(q: Quantity, r: Quantity): Quantity {
    match (q, r)
    case (Scalar(a), Scalar(b)) => Scalar(a - b)
    case (Ranges(a), Ranges(b)) => Ranges(a - b)
    case (Items(a), Items(b)) => Items(SubtractItems(a, b))
    case _ => q
  }

  /** `q <= r`; false for values of different or unsupported types. */
  predicate AtMost(q: Quantity, r: Quantity) {
    match (q, r)
    case (Scalar(a), Scalar(b)) => a <= b
    case (Ranges(a), Ranges(b)) => a <= b
    case (Items(a), Items(b)) => |a| <= |b| && forall i :: 0 <= i < |a| ==> a[i] in b
    case _ => false
  }

  /** `==`; set values are compared position by position, as `operator==(Value::Set)` does. */
  predicate Same(q: Quantity, r: Quantity) {
    !q.Unsupported? && q == r
  }

  predicate IsEmpty(q: Quantity) {
    match q
    case Scalar(v) => v == 0
    case Ranges(ports) => ports == {}
    case Items(items) => items == []
    case Unsupported => false
  }

  // ---------------------------------------------------------------- meaning

  datatype Atom = Port(port: nat) | Item(item: string)

  /** A number of units together with a set of indivisible atoms. */
  datatype Amount = Amount(num: int, atoms: set<Atom>)

  const Zero: Amount := Amount(0, {})

  function Units(n: int): Amount { Amount(n, {}) }

  function Plus(a: Amount, b: Amount): Amount { Amount(a.num + b.num, a.atoms + b.atoms) }

  function Minus(a: Amount, b: Amount): Amount { Amount(a.num - b.num, a.atoms - b.atoms) }

  predicate Le(a: Amount, b: Amount) { a.num <= b.num && a.atoms <= b.atoms }

  /** Neither negative nor empty. */
  predicate Positive(a: Amount) { a.num >= 0 && a != Zero }

  predicate Disjoint(a: Amount, b: Amount) { a.atoms !! b.atoms }

  /** What `Resources::subtract` leaves: nothing instead of a negative or empty amount. */
  function Clip(a: Amount): Amount { if Positive(a) then a else Zero }

  ghost function AmountOf(q: Quantity): Amount {
    match q
    case Scalar(v) => Units(v)
    case Ranges(ports) => Amount(0, set p | p in ports :: Port(p))
    case Items(items) => Amount(0, set x | x in items :: Item(x))
    case Unsupported => Zero
  }

  lemma {:induction false} PlusLaws(a: Amount, b: Amount, c: Amount)
    ensures Plus(a, b) == Plus(b, a)
    ensures Plus(Plus(a, b), c) == Plus(a, Plus(b, c))
    ensures Plus(a, Zero) == a == Plus(Zero, a)
  {
    assert a.atoms + b.atoms == b.atoms + a.atoms;
    assert (a.atoms + b.atoms) + c.atoms == a.atoms + (b.atoms + c.atoms);
  }

  lemma {:induction false} PlusSwap(a: Amount, b: Amount, c: Amount)
    ensures Plus(a, Plus(b, c)) == Plus(b, Plus(a, c))
  {
    assert a.atoms + (b.atoms + c.atoms) == b.atoms + (a.atoms + c.atoms);
  }

  lemma {:induction false} PlusRotate(a: Amount, b: Amount, c: Amount)
    ensures Plus(Plus(a, b), c) == Plus(Plus(a, c), b)
  {
    assert (a.atoms + b.atoms) + c.atoms == (a.atoms + c.atoms) + b.atoms;
  }

  lemma {:induction false} MinusThenPlus(a: Amount, b: Amount)
    requires Le(b, a)
    ensures Plus(Minus(a, b), b) == a
  {
    assert (a.atoms - b.atoms) + b.atoms == a.atoms;
  }

  /** Adding and taking away again restores an amount exactly when no atom was there before. */
  lemma {:induction false} PlusThenMinus(a: Amount, b: Amount)
    ensures Minus(Plus(a, b), b) == a <==> Disjoint(a, b)
  {
    if Disjoint(a, b) {
      assert (a.atoms + b.atoms) - b.atoms == a.atoms;
    } else {
      var x :| x in a.atoms && x in b.atoms;
      assert x !in (a.atoms + b.atoms) - b.atoms;
    }
  }

  lemma {:induction false} AddItemsMeaning(left: seq<string>, right: seq<string>)
    requires NoDuplicates(left)
    ensures NoDuplicates(AddItems(left, right))
    ensures forall x :: x in AddItems(left, right) <==> x in left || x in right
    decreases |right|
  {
    if right != [] {
      var left' := if right[0] in left then left else left + [right[0]];
      AddItemsMeaning(left', right[1..]);
      forall x ensures x in left' || x in right[1..] <==> x in left || x in right {
        assert right == [right[0]] + right[1..];
      }
    }
  }

  lemma {:induction false} RemoveItemMeaning(items: seq<string>, x: string)
    requires NoDuplicates(items)
    ensures NoDuplicates(RemoveItem(items, x))
    ensures forall y :: y in RemoveItem(items, x) <==> y in items && y != x
  {
    if items != [] {
      assert items == [items[0]] + items[1..];
      if items[0] != x {
        RemoveItemMeaning(items[1..], x);
        var rest := RemoveItem(items[1..], x);
        forall k | 0 <= k < |rest| ensures rest[k] != items[0] { assert rest[k] in rest; }
      }
    }
  }

  lemma {:induction false} SubtractItemsMeaning(left: seq<string>, right: seq<string>)
    requires NoDuplicates(left)
    ensures NoDuplicates(SubtractItems(left, right))
    ensures forall x :: x in SubtractItems(left, right) <==> x in left && x !in right
    decreases |right|
  {
    if right != [] {
      RemoveItemMeaning(left, right[0]);
      SubtractItemsMeaning(RemoveItem(left, right[0]), right[1..]);
      assert right == [right[0]] + right[1..];
    }
  }

  /** `+=` adds the amounts, whatever the type. */
  lemma {:induction false} AddMeaning(q: Quantity, r: Quantity)
    requires WellFormed(q) && WellFormed(r) && KindOf(q) == KindOf(r)
    ensures WellFormed(AddQuantity(q, r)) && KindOf(AddQuantity(q, r)) == KindOf(q)
    ensures AmountOf(AddQuantity(q, r)) == Plus(AmountOf(q), AmountOf(r))
  {
    match q
    case Scalar(_) =>
    case Ranges(_) =>
      assert AmountOf(AddQuantity(q, r)).atoms == AmountOf(q).atoms + AmountOf(r).atoms;
    case Items(_) =>
      AddItemsMeaning(q.items, r.items);
      assert AmountOf(AddQuantity(q, r)).atoms == AmountOf(q).atoms + AmountOf(r).atoms;
  }

  /** `-=` takes the amount away; only a scalar can become ill-formed, by going negative. */
  lemma {:induction false} SubtractMeaning(q: Quantity, r: Quantity)
    requires WellFormed(q) && WellFormed(r) && KindOf(q) == KindOf(r)
    ensures KindOf(SubtractQuantity(q, r)) == KindOf(q)
    ensures AmountOf(SubtractQuantity(q, r)) == Minus(AmountOf(q), AmountOf(r))
    ensures WellFormed(SubtractQuantity(q, r)) <==> Minus(AmountOf(q), AmountOf(r)).num >= 0
  {
    match q
    case Scalar(_) =>
    case Ranges(_) =>
      assert AmountOf(SubtractQuantity(q, r)).atoms == AmountOf(q).atoms - AmountOf(r).atoms;
    case Items(_) =>
      SubtractItemsMeaning(q.items, r.items);
      assert AmountOf(SubtractQuantity(q, r)).atoms == AmountOf(q).atoms - AmountOf(r).atoms;
  }

  lemma {:induction false} NoDuplicatesFits(a: seq<string>, b: seq<string>)
    requires NoDuplicates(a) && forall x :: x in a ==> x in b
    ensures |a| <= |b|
    decreases |a|
  {
    if a != [] {
      assert a[0] in b;
      var k :| 0 <= k < |b| && b[k] == a[0];
      var b' := b[..k] + b[k + 1..];
      forall x | x in a[1..] ensures x in b' {
        var j :| 0 <= j < |a[1..]| && a[1..][j] == x;
        assert a[j + 1] == x && x != a[0];
        assert x in b;
        var m :| 0 <= m < |b| && b[m] == x;
        assert if m < k then b'[m] == x else b'[m - 1] == x;
      }
      NoDuplicatesFits(a[1..], b');
    }
  }

  /** `<=` decides inclusion of amounts; its length test on set values is no restriction. */
  lemma {:induction false} AtMostMeaning(q: Quantity, r: Quantity)
    requires WellFormed(q) && WellFormed(r) && KindOf(q) == KindOf(r)
    ensures AtMost(q, r) <==> Le(AmountOf(q), AmountOf(r))
  {
    var a, b := AmountOf(q), AmountOf(r);
    match q
    case Scalar(_) =>
    case Ranges(ports) =>
      if a.atoms <= b.atoms {
        forall p | p in ports ensures p in r.ports { assert Port(p) in b.atoms; }
      }
    case Items(items) =>
      if a.atoms <= b.atoms {
        forall x | x in items ensures x in r.items { assert Item(x) in b.atoms; }
        NoDuplicatesFits(items, r.items);
      }
  }

  lemma {:induction false} EmptyMeaning(q: Quantity)
    requires WellFormed(q)
    ensures IsEmpty(q) <==> AmountOf(q) == Zero
    ensures !IsEmpty(q) ==> Positive(AmountOf(q))
  {
    match q
    case Scalar(_) =>
    case Ranges(ports) =>
      if ports != {} { var p :| p in ports; assert Port(p) in AmountOf(q).atoms; }
    case Items(items) =>
      if items != [] { assert Item(items[0]) in AmountOf(q).atoms; }
  }

  lemma {:induction false} SubtractSelf(q: Quantity)
    requires WellFormed(q)
    ensures IsEmpty(SubtractQuantity(q, q))
  {
    SubtractMeaning(q, q);
    EmptyMeaning(SubtractQuantity(q, q));
  }

  /** Subtracting at most what is there leaves a well-formed rest, which is empty or adds up again. */
  lemma {:induction false} SubtractRest(q: Quantity, r: Quantity)
    requires WellFormed(q) && WellFormed(r) && KindOf(q) == KindOf(r) && Le(AmountOf(r), AmountOf(q))
    ensures WellFormed(SubtractQuantity(q, r)) && KindOf(SubtractQuantity(q, r)) == KindOf(q)
    ensures if IsEmpty(SubtractQuantity(q, r)) then AmountOf(q) == AmountOf(r)
            else Plus(AmountOf(SubtractQuantity(q, r)), AmountOf(r)) == AmountOf(q)
  {
    SubtractMeaning(q, r);
    EmptyMeaning(SubtractQuantity(q, r));
    MinusThenPlus(AmountOf(q), AmountOf(r));
    PlusLaws(AmountOf(r), Zero, Zero);
  }

  /** Taking copies one after the other is taking them together. */
  lemma {:induction false} TakeUnits(t: int, r: int, h: int)
    requires t > 0 && r >= 0
    ensures Le(Plus(Units(t), Units(r)), Units(h)) <==>
            Le(Units(t), Units(h)) && Le(Units(r), Clip(Minus(Units(h), Units(t))))
  {
    assert Minus(Units(h), Units(t)) == Units(h - t);
    assert Plus(Units(t), Units(r)) == Units(t + r);
  }
}
