/**
 The vector inside `Resources` (liburb/source/resources.cpp): adding and subtracting one entry,
 and the law each obeys on what the vector holds, slot by slot.
 */
module Entries {
  import opened Wrappers
  import opened Values
  import opened ResourceModel

  /** `Resources::Resource_`; the counter is present exactly for shared resources. */
  datatype Entry = Entry(resource: Resource, sharedCount: Option<int>)

  function Wrap(r: Resource): Entry {
    Entry(r, if r.shared then Some(1) else None)
  }

  predicate EntryEmpty(e: Entry) {
    (e.sharedCount.Some? && e.sharedCount.value == 0) || IsEmpty(e.resource.quantity)
  }

  predicate EntryNegative(e: Entry) {
    || (e.sharedCount.Some? && e.sharedCount.value < 0)
    || (e.resource.quantity.Scalar? && e.resource.quantity.fixed < 0)
  }

  function EntryPlus(e: Entry, that: Entry): Entry {
    if e.sharedCount.Some? && that.sharedCount.Some?
    then e.(sharedCount := Some(e.sharedCount.value + that.sharedCount.value))
    else e.(resource := e.resource.(quantity := AddQuantity(e.resource.quantity, that.resource.quantity)))
  }

  function EntryMinus(e: Entry, that: Entry): Entry {
    if e.sharedCount.Some? && that.sharedCount.Some?
    then e.(sharedCount := Some(e.sharedCount.value - that.sharedCount.value))
    else e.(resource := e.resource.(quantity := SubtractQuantity(e.resource.quantity, that.resource.quantity)))
  }

  /** `Resource_::contains` */
  predicate EntryContains(e: Entry, that: Entry) {
    e.sharedCount.Some? == that.sharedCount.Some? &&
    if e.sharedCount.Some?
    then e.sharedCount.value >= that.sharedCount.value && ResourceEqual(e.resource, that.resource)
    else Subtractable(e.resource, that.resource) && AtMost(that.resource.quantity, e.resource.quantity)
  }

  /** `Resources::add`: merge into the first addable entry, or append. */
  function Add(es: seq<Entry>, that: Entry): seq<Entry> {
    if EntryEmpty(that) then es else Merge(es, that)
  }

  function Merge(es: seq<Entry>, that: Entry): seq<Entry> {
    if es == [] then [that]
    else if Addable(es[0].resource, that.resource) then [EntryPlus(es[0], that)] + es[1..]
    else [es[0]] + Merge(es[1..], that)
  }

  /** The index of the first entry `that` can be subtracted from, or `|es|`. */
  function FirstSubtractable(es: seq<Entry>, that: Entry): (i: nat)
    ensures i <= |es|
    ensures i < |es| ==> Subtractable(es[i].resource, that.resource)
    ensures forall j :: 0 <= j < i ==> !Subtractable(es[j].resource, that.resource)
  {
    if es == [] || Subtractable(es[0].resource, that.resource) then 0
    else
      var i := FirstSubtractable(es[1..], that);
      assert forall j :: 1 <= j < i + 1 ==> es[j] == es[1..][j - 1];
      i + 1
  }

  /** Overwrite by the last element, then shrink by one. */
  function SwapRemove<T>(s: seq<T>, i: nat): seq<T>
    requires i < |s|
  {
    s[i := s[|s| - 1]][..|s| - 1]
  }

  /** `Resources::subtract` */
  function Subtract(es: seq<Entry>, that: Entry): seq<Entry> {
    if EntryEmpty(that) then es
    else
      var i := FirstSubtractable(es, that);
      if i == |es| then es
      else
        var d := EntryMinus(es[i], that);
        if EntryNegative(d) || EntryEmpty(d) then SwapRemove(es, i) else es[i := d]
  }

  // ------------------------------------------------------------ the class invariant

  /** What `validate` and the post-refinement format give each stored message, on regular messages. */
  ghost predicate Sound(r: Resource) {
    && Regular(r)
    && WellFormed(r.quantity)
    && (r.shared ==> IsPersistentVolume(r))
    && r.role.None? && r.reservation.None?
  }

  /** A stored entry: neither empty nor negative. */
  ghost predicate Stored(e: Entry) {
    && Sound(e.resource)
    && (e.sharedCount.Some? <==> e.resource.shared)
    && (e.sharedCount.Some? ==> e.sharedCount.value > 0)
    && !IsEmpty(e.resource.quantity)
  }

  /** No empty or negative entry, and no two entries that could be added together. */
  ghost predicate Valid(es: seq<Entry>) {
    && (forall i :: 0 <= i < |es| ==> Stored(es[i]))
    && forall i, j :: 0 <= i < j < |es| ==> EntrySlot(es[i]) != EntrySlot(es[j]) || MayRepeat(EntrySlot(es[i]))
  }

  ghost function EntrySlot(e: Entry): Slot { SlotOf(e.resource) }

  /** How much an entry puts into its slot: its quantity, or its number of copies. */
  ghost function Share(e: Entry): Amount {
    if EntrySlot(e).Divisible? then AmountOf(e.resource.quantity)
    else if e.sharedCount.Some? then Units(e.sharedCount.value) else Units(1)
  }

  /** The ways to account for a vector: the shares in a slot; the shares in a slot with reservations left aside;
      or, as `get<Scalar>`, `get<Ranges>` and `get<Set>` do, the quantities of all entries of a name and type. */
  datatype Account = InSlot(slot: Slot) | Unreserved(slot: Slot) | Named(name: string, kind: Kind)

  ghost function ClearSlot(s: Slot): Slot {
    match s
    case Divisible(key) => Divisible(key.(reservations := []))
    case Whole(key, quantity, shared) => Whole(key.(reservations := []), quantity, shared)
  }

  ghost function At(e: Entry, a: Account): Amount {
    match a
    case InSlot(s) => if EntrySlot(e) == s then Share(e) else Zero
    case Unreserved(s) => if ClearSlot(EntrySlot(e)) == s then Share(e) else Zero
    case Named(name, kind) =>
      if e.resource.name == name && KindOf(e.resource.quantity) == kind then AmountOf(e.resource.quantity) else Zero
  }

  ghost function Balance(es: seq<Entry>, a: Account): Amount {
    if es == [] then Zero else Plus(At(es[0], a), Balance(es[1..], a))
  }

  /** What a vector holds in a slot. */
  ghost function Holds(es: seq<Entry>, s: Slot): Amount { Balance(es, InSlot(s)) }

  /** Holding the same everywhere. */
  ghost predicate Alike(a: seq<Entry>, b: seq<Entry>) {
    forall s :: Holds(a, s) == Holds(b, s)
  }

  lemma {:induction false} SharePositive(e: Entry)
    requires Stored(e)
    ensures Positive(Share(e))
  {
    EmptyMeaning(e.resource.quantity);
  }

  /** `sum` is in the slot of `e` and `that`, with both shares; copies of a shared resource add no quantity. */
  ghost predicate Sums(e: Entry, that: Entry, sum: Entry) {
    && EntrySlot(e) == EntrySlot(that) == EntrySlot(sum)
    && Share(sum) == Plus(Share(e), Share(that))
    && e.resource.name == that.resource.name == sum.resource.name
    && KindOf(e.resource.quantity) == KindOf(that.resource.quantity) == KindOf(sum.resource.quantity)
    && AmountOf(sum.resource.quantity) ==
       if that.resource.shared then AmountOf(e.resource.quantity)
       else Plus(AmountOf(e.resource.quantity), AmountOf(that.resource.quantity))
  }

  lemma {:induction false} EntryPlusLaw(e: Entry, that: Entry)
    requires Stored(e) && Stored(that) && Addable(e.resource, that.resource)
    ensures Sums(e, that, EntryPlus(e, that)) && Stored(EntryPlus(e, that)) && !MayRepeat(EntrySlot(e))
  {
    SlotMeaning(e.resource, that.resource);
    if !e.resource.shared {
      var q := e.resource.quantity;
      AddMeaning(q, that.resource.quantity);
      assert KeyOf(EntryPlus(e, that).resource) == KeyOf(e.resource);
      EmptyMeaning(q);
      EmptyMeaning(that.resource.quantity);
      EmptyMeaning(EntryPlus(e, that).resource.quantity);
    }
  }

  /** Subtracting leaves an entry to be removed exactly when nothing positive is left in its slot. */
  lemma {:induction false} EntryMinusLaw(e: Entry, that: Entry)
    requires Stored(e) && Stored(that) && Subtractable(e.resource, that.resource)
    ensures EntrySlot(e) == EntrySlot(that)
    ensures var d := EntryMinus(e, that);
            if EntryNegative(d) || EntryEmpty(d) then !Positive(Minus(Share(e), Share(that)))
            else Stored(d) && EntrySlot(d) == EntrySlot(e) && Share(d) == Minus(Share(e), Share(that)) && Positive(Share(d))
  {
    SlotMeaning(e.resource, that.resource);
    var d := EntryMinus(e, that);
    if e.resource.shared {
    } else if IsExclusive(e.resource) {
      SubtractSelf(e.resource.quantity);
    } else {
      SubtractMeaning(e.resource.quantity, that.resource.quantity);
      assert KeyOf(d.resource) == KeyOf(e.resource);
      if WellFormed(d.resource.quantity) { EmptyMeaning(d.resource.quantity); }
    }
  }

  // ------------------------------------------------------------ laws of Holds

  lemma {:induction false} BalanceConcat(x: seq<Entry>, y: seq<Entry>, a: Account)
    ensures Balance(x + y, a) == Plus(Balance(x, a), Balance(y, a))
    decreases |x|
  {
    if x == [] {
      assert x + y == y;
      PlusLaws(Balance(y, a), Zero, Zero);
    } else {
      assert (x + y)[1..] == x[1..] + y;
      BalanceConcat(x[1..], y, a);
      PlusLaws(At(x[0], a), Balance(x[1..], a), Balance(y, a));
    }
  }

  /** One entry and the rest. */
  lemma {:induction false} BalanceSplit(es: seq<Entry>, i: nat, a: Account)
    requires i < |es|
    ensures Balance(es, a) == Plus(At(es[i], a), Balance(es[..i] + es[i + 1..], a))
  {
    var x, y := es[..i], es[i..];
    assert es == x + y && y[0] == es[i] && y[1..] == es[i + 1..];
    BalanceConcat(x, y, a);
    BalanceConcat(x, es[i + 1..], a);
    PlusSwap(Balance(x, a), At(es[i], a), Balance(es[i + 1..], a));
  }

  lemma {:induction false} BalanceUpdate(es: seq<Entry>, i: nat, e: Entry, a: Account)
    requires i < |es|
    ensures Balance(es[i := e], a) == Plus(At(e, a), Balance(es[..i] + es[i + 1..], a))
  {
    var es' := es[i := e];
    assert es'[..i] + es'[i + 1..] == es[..i] + es[i + 1..];
    BalanceSplit(es', i, a);
  }

  lemma {:induction false} RemoveMatching<T>(x: seq<T>, y: seq<T>, k: nat)
    requires multiset(x) == multiset(y) && x != [] && k < |y| && y[k] == x[0]
    ensures multiset(x[1..]) == multiset(y[..k] + y[k + 1..])
  {
    assert x == [x[0]] + x[1..];
    assert y == y[..k] + ([y[k]] + y[k + 1..]);
    assert multiset(x[1..]) == multiset(x) - multiset{x[0]};
    assert multiset(y[..k] + y[k + 1..]) == multiset(y) - multiset{y[k]};
  }

  /** A balance depends on the entries alone, not on their order. */
  lemma {:induction false} BalancePermutation(x: seq<Entry>, y: seq<Entry>, a: Account)
    requires multiset(x) == multiset(y)
    ensures Balance(x, a) == Balance(y, a)
    decreases |x|
  {
    if x == [] {
      assert |multiset(y)| == 0;
    } else {
      assert x[0] in multiset(y);
      var k :| 0 <= k < |y| && y[k] == x[0];
      var rest := y[..k] + y[k + 1..];
      RemoveMatching(x, y, k);
      BalancePermutation(x[1..], rest, a);
      BalanceSplit(y, k, a);
    }
  }

  lemma {:induction false} BalanceSwapRemove(es: seq<Entry>, i: nat, a: Account)
    requires i < |es|
    ensures Balance(SwapRemove(es, i), a) == Balance(es[..i] + es[i + 1..], a)
  {
    var n := |es| - 1;
    if i == n {
      assert SwapRemove(es, i) == es[..i] + es[i + 1..];
    } else {
      assert SwapRemove(es, i) == es[..i] + [es[n]] + es[i + 1..n];
      assert es[..i] + es[i + 1..] == es[..i] + es[i + 1..n] + [es[n]];
      BalancePermutation(SwapRemove(es, i), es[..i] + es[i + 1..], a);
    }
  }

  lemma {:induction false} HoldsNothing(es: seq<Entry>, s: Slot)
    requires forall i :: 0 <= i < |es| ==> EntrySlot(es[i]) != s
    ensures Holds(es, s) == Zero
    decreases |es|
  {
    if es != [] {
      HoldsNothing(es[1..], s);
      PlusLaws(Zero, Zero, Zero);
    }
  }

  /** A slot that cannot repeat is filled by one entry. */
  lemma {:induction false} HoldsOne(es: seq<Entry>, i: nat)
    requires Valid(es) && i < |es| && !MayRepeat(EntrySlot(es[i]))
    ensures Holds(es, EntrySlot(es[i])) == Share(es[i])
    ensures Holds(es[..i] + es[i + 1..], EntrySlot(es[i])) == Zero
  {
    var s := EntrySlot(es[i]);
    var rest := es[..i] + es[i + 1..];
    forall k | 0 <= k < |rest| ensures EntrySlot(rest[k]) != s {
      assert rest[k] == es[if k < i then k else k + 1];
    }
    HoldsNothing(rest, s);
    BalanceSplit(es, i, InSlot(s));
    PlusLaws(Share(es[i]), Zero, Zero);
  }

  /** A slot that can repeat holds a number of copies. */
  lemma {:induction false} HoldsCopies(es: seq<Entry>, s: Slot)
    requires MayRepeat(s) && forall i :: 0 <= i < |es| ==> Stored(es[i])
    ensures Holds(es, s).atoms == {} && Holds(es, s).num >= 0
    decreases |es|
  {
    if es != [] { HoldsCopies(es[1..], s); }
  }

  /** A slot holds something positive exactly when some entry is in it. */
  lemma {:induction false} HoldsPositive(es: seq<Entry>, s: Slot)
    requires Valid(es)
    ensures Holds(es, s) == Zero || Positive(Holds(es, s))
    ensures Holds(es, s) == Zero <==> forall i :: 0 <= i < |es| ==> EntrySlot(es[i]) != s
  {
    if i :| 0 <= i < |es| && EntrySlot(es[i]) == s {
      SharePositive(es[i]);
      if MayRepeat(s) {
        BalanceSplit(es, i, InSlot(s));
        HoldsCopies(es[..i] + es[i + 1..], s);
      } else {
        HoldsOne(es, i);
      }
    } else {
      HoldsNothing(es, s);
    }
  }

  // ------------------------------------------------------------ add and subtract

  /** What an entry adds to an account: a further copy of a shared resource adds no quantity. */
  ghost function Gain(es: seq<Entry>, e: Entry, a: Account): Amount {
    if a.Named? && e.resource.shared && Holds(es, EntrySlot(e)) != Zero then Zero else At(e, a)
  }

  lemma {:induction false} AtPlus(e: Entry, that: Entry, sum: Entry, a: Account)
    requires Sums(e, that, sum)
    ensures At(sum, a) == Plus(At(e, a), if a.Named? && that.resource.shared then Zero else At(that, a))
  {
    PlusLaws(At(e, a), Zero, Zero);
  }

  /** `add` merges into one entry or appends. */
  lemma {:induction false} MergeCases(es: seq<Entry>, that: Entry) returns (i: nat)
    ensures i <= |es|
    ensures forall j :: 0 <= j < i ==> !Addable(es[j].resource, that.resource)
    ensures if i < |es| then Addable(es[i].resource, that.resource) && Merge(es, that) == es[i := EntryPlus(es[i], that)]
            else Merge(es, that) == es + [that]
    decreases |es|
  {
    if es == [] || Addable(es[0].resource, that.resource) {
      i := 0;
    } else {
      var rest := es[1..];
      var k := MergeCases(rest, that);
      i := k + 1;
      assert forall j :: 1 <= j < i ==> es[j] == rest[j - 1];
      assert es == [es[0]] + rest;
    }
  }

  lemma {:induction false} AppendValid(es: seq<Entry>, that: Entry)
    requires Valid(es) && Stored(that)
    requires forall j :: 0 <= j < |es| ==> !Addable(es[j].resource, that.resource)
    ensures Valid(es + [that])
    ensures !MayRepeat(EntrySlot(that)) ==> Holds(es, EntrySlot(that)) == Zero
  {
    var s := EntrySlot(that);
    forall j | 0 <= j < |es| ensures EntrySlot(es[j]) != s || MayRepeat(s) {
      SlotMeaning(es[j].resource, that.resource);
    }
    if !MayRepeat(s) { HoldsNothing(es, s); }
  }

  lemma {:induction false} AppendLaw(es: seq<Entry>, that: Entry, a: Account)
    requires that.resource.shared ==> Holds(es, EntrySlot(that)) == Zero
    ensures Balance(es + [that], a) == Plus(Balance(es, a), Gain(es, that, a))
  {
    BalanceConcat(es, [that], a);
    PlusLaws(At(that, a), Zero, Zero);
  }

  lemma {:induction false} MergeLaw(es: seq<Entry>, i: nat, that: Entry, a: Account)
    requires Valid(es) && Stored(that) && i < |es| && Addable(es[i].resource, that.resource)
    ensures Valid(es[i := EntryPlus(es[i], that)])
    ensures Balance(es[i := EntryPlus(es[i], that)], a) == Plus(Balance(es, a), Gain(es, that, a))
  {
    var sum := EntryPlus(es[i], that);
    EntryPlusLaw(es[i], that);
    ReplaceValid(es, i, sum);
    HoldsOne(es, i);
    SharePositive(es[i]);
    AtPlus(es[i], that, sum, a);
    BalanceSplit(es, i, a);
    BalanceUpdate(es, i, sum, a);
    var rest := Balance(es[..i] + es[i + 1..], a);
    PlusRotate(At(es[i], a), Gain(es, that, a), rest);
  }

  /** `add` keeps the class invariant, and adds the share of the new entry to its slot alone. */
  lemma {:induction false} AddLaw(es: seq<Entry>, that: Entry)
    requires Valid(es) && Stored(that)
    ensures Valid(Add(es, that))
    ensures forall a :: Balance(Add(es, that), a) == Plus(Balance(es, a), Gain(es, that, a))
  {
    var i := MergeCases(es, that);
    forall a ensures Valid(Add(es, that)) && Balance(Add(es, that), a) == Plus(Balance(es, a), Gain(es, that, a)) {
      if i < |es| { MergeLaw(es, i, that, a); } else { AppendValid(es, that); AppendLaw(es, that, a); }
    }
    assert Balance(Add(es, that), InSlot(EntrySlot(that))) == Plus(Holds(es, EntrySlot(that)), Share(that));
  }

  /** The same in one slot at a time. */
  lemma {:induction false} AddHolds(es: seq<Entry>, that: Entry)
    requires Valid(es) && Stored(that)
    ensures Valid(Add(es, that))
    ensures forall s :: Holds(Add(es, that), s) ==
                        if s == EntrySlot(that) then Plus(Holds(es, s), Share(that)) else Holds(es, s)
  {
    AddLaw(es, that);
    forall s ensures Holds(Add(es, that), s) ==
                     if s == EntrySlot(that) then Plus(Holds(es, s), Share(that)) else Holds(es, s)
    {
      PlusLaws(Balance(es, InSlot(s)), Zero, Zero);
      assert Balance(Add(es, that), InSlot(s)) == Plus(Balance(es, InSlot(s)), Gain(es, that, InSlot(s)));
    }
  }

  lemma {:induction false} ReplaceValid(es: seq<Entry>, i: nat, e: Entry)
    requires Valid(es) && i < |es| && Stored(e) && EntrySlot(e) == EntrySlot(es[i])
    ensures Valid(es[i := e])
  {
    var es' := es[i := e];
    forall a | 0 <= a < |es'| ensures EntrySlot(es'[a]) == EntrySlot(es[a]) && Stored(es'[a]) {}
  }

  lemma {:induction false} SwapRemoveValid(es: seq<Entry>, i: nat)
    requires Valid(es) && i < |es|
    ensures Valid(SwapRemove(es, i))
  {
    var es' := SwapRemove(es, i);
    forall a, b | 0 <= a < b < |es'| ensures EntrySlot(es'[a]) != EntrySlot(es'[b]) || MayRepeat(EntrySlot(es'[a])) {
      var n := |es| - 1;
      assert es'[a] == es[if a == i then n else a] && es'[b] == es[if b == i then n else b];
    }
  }

  /** `subtract` either removes the entry it met or replaces it by what is left. */
  lemma {:induction false} SubtractCases(es: seq<Entry>, i: nat, that: Entry) returns (d: Entry)
    requires Valid(es) && Stored(that) && i == FirstSubtractable(es, that) < |es|
    ensures EntrySlot(es[i]) == EntrySlot(that)
    ensures var left := Clip(Minus(Share(es[i]), Share(that)));
            || (Subtract(es, that) == SwapRemove(es, i) && left == Zero)
            || (Subtract(es, that) == es[i := d] && Stored(d) && EntrySlot(d) == EntrySlot(that) && Share(d) == left)
  {
    d := EntryMinus(es[i], that);
    EntryMinusLaw(es[i], that);
    EmptyMeaning(that.resource.quantity);
  }

  lemma {:induction false} SubtractSplit(es: seq<Entry>, i: nat, that: Entry, s: Slot)
    requires Valid(es) && Stored(that) && i == FirstSubtractable(es, that) < |es|
    ensures Valid(Subtract(es, that)) && EntrySlot(es[i]) == EntrySlot(that)
    ensures Holds(Subtract(es, that), s) ==
            Plus(if s == EntrySlot(that) then Clip(Minus(Share(es[i]), Share(that))) else Zero,
                 Holds(es[..i] + es[i + 1..], s))
  {
    var d := SubtractCases(es, i, that);
    PlusLaws(Holds(es[..i] + es[i + 1..], s), Zero, Zero);
    BalanceSwapRemove(es, i, InSlot(s));
    SwapRemoveValid(es, i);
    BalanceUpdate(es, i, d, InSlot(s));
    if Subtract(es, that) != SwapRemove(es, i) { ReplaceValid(es, i, d); }
  }

  lemma {:induction false} SubtractAt(es: seq<Entry>, i: nat, that: Entry, s: Slot)
    requires Valid(es) && Stored(that) && i == FirstSubtractable(es, that) < |es|
    ensures Holds(Subtract(es, that), s) ==
            if s == EntrySlot(that) then Clip(Minus(Holds(es, s), Share(that))) else Holds(es, s)
  {
    var rest := es[..i] + es[i + 1..];
    SubtractSplit(es, i, that, s);
    BalanceSplit(es, i, InSlot(s));
    if s == EntrySlot(that) {
      if MayRepeat(s) {
        HoldsCopies(rest, s);
        assert Share(es[i]) == Share(that) == Units(1);
        assert Minus(Units(1), Units(1)) == Zero;
        PlusLaws(Holds(rest, s), Zero, Zero);
        assert Minus(Holds(es, s), Share(that)) == Holds(rest, s);
      } else {
        HoldsOne(es, i);
        PlusLaws(Clip(Minus(Share(es[i]), Share(that))), Zero, Zero);
      }
    }
  }

  /** `subtract` keeps the class invariant and takes the share out of its slot alone;
      a slot that would go negative or empty is cleared. */
  lemma {:induction false} SubtractLaw(es: seq<Entry>, that: Entry)
    requires Valid(es) && Stored(that)
    ensures Valid(Subtract(es, that))
    ensures forall s :: Holds(Subtract(es, that), s) ==
                        if s == EntrySlot(that) then Clip(Minus(Holds(es, s), Share(that))) else Holds(es, s)
  {
    var i := FirstSubtractable(es, that);
    if i < |es| {
      SubtractSplit(es, i, that, EntrySlot(that));
      forall s ensures Holds(Subtract(es, that), s) ==
                       if s == EntrySlot(that) then Clip(Minus(Holds(es, s), Share(that))) else Holds(es, s)
      {
        SubtractAt(es, i, that, s);
      }
    } else {
      forall j | 0 <= j < |es| ensures EntrySlot(es[j]) != EntrySlot(that) { SlotMeaning(es[j].resource, that.resource); }
      HoldsNothing(es, EntrySlot(that));
      SharePositive(that);
      assert !Positive(Minus(Zero, Share(that)));
    }
  }

  /** What an entry takes out of an account: one of several copies of a shared resource takes no quantity. */
  ghost function Loss(es: seq<Entry>, e: Entry, a: Account): Amount {
    if a.Named? && e.resource.shared && Holds(es, EntrySlot(e)) != Share(e) then Zero else At(e, a)
  }

  /** Subtracting from one entry, seen from its quantity. */
  ghost predicate Leaves(e: Entry, that: Entry, d: Entry) {
    && e.resource.name == that.resource.name == d.resource.name
    && KindOf(e.resource.quantity) == KindOf(that.resource.quantity) == KindOf(d.resource.quantity)
    && var q, r := AmountOf(e.resource.quantity), AmountOf(that.resource.quantity);
       if EntryNegative(d) || EntryEmpty(d)
       then q == r && (that.resource.shared ==> Share(e) == Share(that))
       else (Plus(AmountOf(d.resource.quantity), if that.resource.shared then Zero else r) == q
             && (that.resource.shared ==> Share(e) != Share(that)))
  }

  lemma {:induction false} MinusShared(e: Entry, that: Entry)
    requires Stored(e) && Stored(that) && EntrySlot(e) == EntrySlot(that) && Le(Share(that), Share(e))
    requires that.resource.shared
    ensures Leaves(e, that, EntryMinus(e, that))
  {
    PlusLaws(AmountOf(e.resource.quantity), Zero, Zero);
  }

  lemma {:induction false} MinusExclusive(e: Entry, that: Entry)
    requires Stored(e) && Stored(that) && EntrySlot(e) == EntrySlot(that) && MayRepeat(EntrySlot(e))
    ensures Leaves(e, that, EntryMinus(e, that))
  {
    SubtractSelf(e.resource.quantity);
    SubtractMeaning(e.resource.quantity, e.resource.quantity);
  }

  lemma {:induction false} MinusDivisible(e: Entry, that: Entry)
    requires Stored(e) && Stored(that) && EntrySlot(e) == EntrySlot(that) && Le(Share(that), Share(e))
    requires EntrySlot(e).Divisible?
    ensures Leaves(e, that, EntryMinus(e, that))
  {
    assert KeyOf(e.resource) == KeyOf(that.resource);
    SubtractRest(e.resource.quantity, that.resource.quantity);
  }

  lemma {:induction false} EntryMinusNamed(e: Entry, that: Entry)
    requires Stored(e) && Stored(that) && EntrySlot(e) == EntrySlot(that) && Le(Share(that), Share(e))
    ensures Leaves(e, that, EntryMinus(e, that))
  {
    if that.resource.shared { MinusShared(e, that); }
    else if EntrySlot(e).Divisible? { MinusDivisible(e, that); }
    else { MinusExclusive(e, that); }
  }

  lemma {:induction false} AtLeaves(e: Entry, that: Entry, d: Entry, a: Account)
    requires Leaves(e, that, d) && a.Named?
    ensures if EntryNegative(d) || EntryEmpty(d) then At(e, a) == At(that, a)
            else Plus(At(d, a), if that.resource.shared then Zero else At(that, a)) == At(e, a)
  {
    PlusLaws(Zero, Zero, Zero);
  }

  lemma {:induction false} RemovedNamed(es: seq<Entry>, i: nat, that: Entry, d: Entry, a: Account)
    requires i < |es| && Leaves(es[i], that, d) && a.Named?
    ensures if EntryNegative(d) || EntryEmpty(d)
            then Plus(Balance(SwapRemove(es, i), a), At(that, a)) == Balance(es, a)
            else Plus(Balance(es[i := d], a), if that.resource.shared then Zero else At(that, a)) == Balance(es, a)
  {
    var rest := Balance(es[..i] + es[i + 1..], a);
    var x := if that.resource.shared then Zero else At(that, a);
    AtLeaves(es[i], that, d, a);
    BalanceSplit(es, i, a);
    BalanceSwapRemove(es, i, a);
    BalanceUpdate(es, i, d, a);
    PlusLaws(rest, At(that, a), Zero);
    PlusRotate(At(d, a), rest, x);
  }

  lemma {:induction false} LossMeaning(es: seq<Entry>, i: nat, that: Entry, d: Entry, a: Account)
    requires Valid(es) && i < |es| && EntrySlot(es[i]) == EntrySlot(that) && a.Named?
    requires Stored(that) && Leaves(es[i], that, d)
    ensures Loss(es, that, a) ==
            if EntryNegative(d) || EntryEmpty(d) || !that.resource.shared then At(that, a) else Zero
  {
    if that.resource.shared { HoldsOne(es, i); }
  }

  /** Taking out what is there, every account loses exactly the loss of the entry. */
  lemma {:induction false} SubtractNamed(es: seq<Entry>, that: Entry, i: nat, a: Account)
    requires Valid(es) && Stored(that) && a.Named?
    requires i == FirstSubtractable(es, that) < |es| && Le(Share(that), Share(es[i]))
    ensures Plus(Balance(Subtract(es, that), a), Loss(es, that, a)) == Balance(es, a)
  {
    var d := EntryMinus(es[i], that);
    SlotMeaning(es[i].resource, that.resource);
    EntryMinusNamed(es[i], that);
    RemovedNamed(es, i, that, d, a);
    LossMeaning(es, i, that, d, a);
  }
}
