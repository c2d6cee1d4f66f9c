/**
 `Resources::contains`, `==` and the constructors (liburb/source/resources.cpp): the consuming loop decides
 inclusion slot by slot, so that `==` is an equivalence and sums do not depend on order.
 */
module Containment {
  import opened Wrappers
  import opened Values
  import opened ResourceModel
  import opened Entries

  /** `Resources::_contains` */
  predicate ContainsEntry(es: seq<Entry>, that: Entry) {
    exists i :: 0 <= i < |es| && EntryContains(es[i], that)
  }

  /** `Resources::contains(Resources)`: persistent volumes are consumed as they are matched. */
  predicate Contains(es: seq<Entry>, that: seq<Entry>)
    decreases |that|
  {
    that == [] ||
    (ContainsEntry(es, that[0]) &&
     Contains(if IsPersistentVolume(that[0].resource) then Subtract(es, that[0]) else es, that[1..]))
  }

  /** `Resources::operator==` */
  predicate Equal(x: seq<Entry>, y: seq<Entry>) {
    Contains(x, y) && Contains(y, x)
  }

  // ------------------------------------------------------------ what contains decides

  /** Copies of a MOUNT disk without persistence are matched but not consumed. */
  ghost predicate Counted(s: Slot) {
    MayRepeat(s) ==> s.key.disk.Some? && s.key.disk.value.persistence.Some?
  }

  /** Inclusion in every slot, and presence in the slots that are not counted. */
  ghost predicate Covers(x: seq<Entry>, y: seq<Entry>) {
    forall s :: CoversSlot(x, y, s)
  }

  ghost predicate CoversSlot(x: seq<Entry>, y: seq<Entry>, s: Slot) {
    if Counted(s) then Le(Holds(y, s), Holds(x, s)) else Holds(y, s) != Zero ==> Holds(x, s) != Zero
  }

  lemma {:induction false} EntryContainsMeaning(e: Entry, that: Entry)
    requires Stored(e) && Stored(that)
    ensures EntryContains(e, that) <==> EntrySlot(e) == EntrySlot(that) && Le(Share(that), Share(e))
  {
    SlotMeaning(e.resource, that.resource);
    if EntrySlot(e) == EntrySlot(that) {
      AtMostMeaning(that.resource.quantity, e.resource.quantity);
    }
  }

  lemma {:induction false} ContainsEntryMeaning(es: seq<Entry>, that: Entry)
    requires Valid(es) && Stored(that)
    ensures ContainsEntry(es, that) <==> Le(Share(that), Holds(es, EntrySlot(that)))
  {
    var s := EntrySlot(that);
    SharePositive(that);
    HoldsPositive(es, s);
    forall i | 0 <= i < |es|
      ensures EntrySlot(es[i]) == s ==> (EntryContains(es[i], that) <==> Le(Share(that), Holds(es, s)))
      ensures EntrySlot(es[i]) != s ==> !EntryContains(es[i], that)
    {
      EntryContainsMeaning(es[i], that);
      if EntrySlot(es[i]) == s {
        if MayRepeat(s) { HoldsCopies(es, s); } else { HoldsOne(es, i); }
      }
    }
  }

  lemma {:induction false} ValidTail(es: seq<Entry>)
    requires Valid(es) && es != []
    ensures Stored(es[0]) && Valid(es[1..])
  {
    forall i | 0 <= i < |es[1..]| ensures es[1..][i] == es[i + 1] {}
  }

  lemma {:induction false} HoldsTail(es: seq<Entry>, s: Slot)
    requires es != []
    ensures Holds(es, s) == if s == EntrySlot(es[0]) then Plus(Share(es[0]), Holds(es[1..], s)) else Holds(es[1..], s)
  {
    PlusLaws(Balance(es[1..], InSlot(s)), Zero, Zero);
  }

  /** The first entry shares its slot with the rest only if it is a copy. */
  lemma {:induction false} HoldsFirst(es: seq<Entry>, s: Slot)
    requires Valid(es) && es != [] && s == EntrySlot(es[0]) && !MayRepeat(s)
    ensures Holds(es[1..], s) == Zero && Holds(es, s) == Share(es[0])
  {
    HoldsOne(es, 0);
    assert es[..0] + es[1..] == es[1..];
  }

  /** Matching a persistent volume and then the rest, in one slot. */
  lemma {:induction false} CoversConsumed(x: seq<Entry>, y: seq<Entry>, s: Slot)
    requires Valid(x) && Valid(y) && y != [] && IsPersistentVolume(y[0].resource)
    requires Le(Share(y[0]), Holds(x, EntrySlot(y[0])))
    ensures CoversSlot(x, y, s) <==> CoversSlot(Subtract(x, y[0]), y[1..], s)
  {
    HoldsTail(y, s);
    ValidTail(y);
    SubtractLaw(x, y[0]);
    if s == EntrySlot(y[0]) { CoversCopies(x, y); }
  }

  lemma {:induction false} CoversCopies(x: seq<Entry>, y: seq<Entry>)
    requires Valid(x) && Valid(y) && y != [] && EntrySlot(y[0]).Whole?
    ensures var s := EntrySlot(y[0]);
            Le(Holds(y, s), Holds(x, s)) <==>
            Le(Share(y[0]), Holds(x, s)) && Le(Holds(y[1..], s), Clip(Minus(Holds(x, s), Share(y[0]))))
  {
    var s := EntrySlot(y[0]);
    HoldsTail(y, s);
    ValidTail(y);
    SlotUnits(x, s);
    SlotUnits(y[1..], s);
    SharePositive(y[0]);
    TakeUnits(Share(y[0]).num, Holds(y[1..], s).num, Holds(x, s).num);
  }

  lemma {:induction false} SlotUnits(es: seq<Entry>, s: Slot)
    requires Valid(es) && s.Whole?
    ensures Holds(es, s) == Units(Holds(es, s).num) && Holds(es, s).num >= 0
  {
    HoldsPositive(es, s);
    if i :| 0 <= i < |es| && EntrySlot(es[i]) == s {
      if MayRepeat(s) { HoldsCopies(es, s); } else { HoldsOne(es, i); }
    }
  }

  lemma {:induction false} CoversUnconsumed(x: seq<Entry>, y: seq<Entry>, s: Slot)
    requires Valid(x) && Valid(y) && y != [] && !IsPersistentVolume(y[0].resource)
    requires Le(Share(y[0]), Holds(x, EntrySlot(y[0])))
    ensures CoversSlot(x, y, s) <==> CoversSlot(x, y[1..], s)
  {
    HoldsTail(y, s);
    if s == EntrySlot(y[0]) {
      SharePositive(y[0]);
      HoldsPositive(x, s);
      if !MayRepeat(s) { HoldsFirst(y, s); }
    }
  }

  lemma {:induction false} CoversFirst(x: seq<Entry>, y: seq<Entry>)
    requires Valid(x) && Valid(y) && y != [] && !IsPersistentVolume(y[0].resource)
    requires CoversSlot(x, y, EntrySlot(y[0]))
    ensures Le(Share(y[0]), Holds(x, EntrySlot(y[0])))
  {
    var s := EntrySlot(y[0]);
    if MayRepeat(s) {
      HoldsPositive(y, s);
      SlotUnits(x, s);
    } else {
      HoldsFirst(y, s);
    }
  }

  /** The consuming loop decides inclusion slot by slot. */
  lemma {:induction false} ContainsMeaning(x: seq<Entry>, y: seq<Entry>)
    requires Valid(x) && Valid(y)
    ensures Contains(x, y) <==> Covers(x, y)
    decreases |y|
  {
    if y == [] {
      forall s ensures CoversSlot(x, y, s) { HoldsPositive(x, s); }
    } else {
      var t, rest := y[0], y[1..];
      ValidTail(y);
      ContainsEntryMeaning(x, t);
      if IsPersistentVolume(t.resource) {
        SubtractLaw(x, t);
        ContainsMeaning(Subtract(x, t), rest);
        if Le(Share(t), Holds(x, EntrySlot(t))) {
          forall s ensures CoversSlot(x, y, s) <==> CoversSlot(Subtract(x, t), rest, s) { CoversConsumed(x, y, s); }
        }
        if Covers(x, y) { assert CoversSlot(x, y, EntrySlot(t)); CoversCopies(x, y); }
      } else {
        ContainsMeaning(x, rest);
        if Le(Share(t), Holds(x, EntrySlot(t))) {
          forall s ensures CoversSlot(x, y, s) <==> CoversSlot(x, rest, s) { CoversUnconsumed(x, y, s); }
        }
        if Covers(x, y) { assert CoversSlot(x, y, EntrySlot(t)); CoversFirst(x, y); }
      }
    }
  }

  // ------------------------------------------------------------ equality

  ghost predicate SameInSlot(x: seq<Entry>, y: seq<Entry>, s: Slot) {
    if Counted(s) then Holds(x, s) == Holds(y, s) else (Holds(x, s) == Zero <==> Holds(y, s) == Zero)
  }

  /** `==` holds exactly when both sides hold the same in every counted slot, and the same other slots are filled. */
  lemma {:induction false} EqualMeaning(x: seq<Entry>, y: seq<Entry>)
    requires Valid(x) && Valid(y)
    ensures Equal(x, y) <==> forall s :: SameInSlot(x, y, s)
  {
    ContainsMeaning(x, y);
    ContainsMeaning(y, x);
    forall s ensures SameInSlot(x, y, s) <==> CoversSlot(x, y, s) && CoversSlot(y, x, s) {
      assert Le(Holds(x, s), Holds(y, s)) && Le(Holds(y, s), Holds(x, s)) <==> Holds(x, s) == Holds(y, s);
    }
  }

  /** `contains` is reflexive and transitive, hence `==` is an equivalence. */
  lemma {:induction false} ContainsIsPreorder(x: seq<Entry>, y: seq<Entry>, z: seq<Entry>)
    requires Valid(x) && Valid(y) && Valid(z)
    ensures Contains(x, x) && Equal(x, x)
    ensures Equal(x, y) <==> Equal(y, x)
    ensures Contains(x, y) && Contains(y, z) ==> Contains(x, z)
    ensures Equal(x, y) && Equal(y, z) ==> Equal(x, z)
  {
    ContainsMeaning(x, x);
    ContainsMeaning(x, y);
    ContainsMeaning(y, z);
    ContainsMeaning(x, z);
    ContainsMeaning(y, x);
    ContainsMeaning(z, y);
    ContainsMeaning(z, x);
    forall s ensures CoversSlot(x, x, s) {}
    if Covers(x, y) && Covers(y, z) {
      forall s ensures CoversSlot(x, z, s) { assert CoversSlot(x, y, s) && CoversSlot(y, z, s); }
    }
    if Covers(y, x) && Covers(z, y) {
      forall s ensures CoversSlot(z, x, s) { assert CoversSlot(y, x, s) && CoversSlot(z, y, s); }
    }
  }

  /** No MOUNT disk without persistence is present twice. */
  ghost predicate MountsOnce(es: seq<Entry>) {
    forall s :: !Counted(s) ==> Holds(es, s).num <= 1
  }

  /** Where no plain MOUNT disk is duplicated, `==` means holding the same everywhere. */
  lemma {:induction false} EqualIsAlike(x: seq<Entry>, y: seq<Entry>)
    requires Valid(x) && Valid(y)
    ensures Alike(x, y) ==> Equal(x, y)
    ensures MountsOnce(x) && MountsOnce(y) ==> (Equal(x, y) <==> Alike(x, y))
  {
    EqualMeaning(x, y);
    if MountsOnce(x) && MountsOnce(y) && Equal(x, y) {
      forall s ensures Holds(x, s) == Holds(y, s) {
        assert SameInSlot(x, y, s);
        if !Counted(s) {
          SlotUnits(x, s);
          SlotUnits(y, s);
        }
      }
    }
  }

  lemma {:induction false} HoldsPair(m: Entry, s: Slot)
    ensures Holds([m], s) == if s == EntrySlot(m) then Share(m) else Zero
    ensures Holds([m, m], s) == if s == EntrySlot(m) then Plus(Share(m), Share(m)) else Zero
  {
    assert [m, m][1..] == [m] && [m][1..] == [];
    HoldsTail([m], s);
    HoldsTail([m, m], s);
    PlusLaws(Share(m), Zero, Zero);
  }

  lemma {:induction false} PairInSlots(m: Entry, once: seq<Entry>, twice: seq<Entry>)
    requires Stored(m) && MayRepeat(EntrySlot(m)) && !Counted(EntrySlot(m))
    requires once == [m] && twice == [m, m]
    ensures (forall s :: SameInSlot(once, twice, s)) && !Alike(once, twice)
  {
    SharePositive(m);
    forall s ensures SameInSlot(once, twice, s) { HoldsPair(m, s); }
    HoldsPair(m, EntrySlot(m));
    assert Holds(once, EntrySlot(m)).num == 1 && Holds(twice, EntrySlot(m)).num == 2;
  }

  lemma {:induction false} PairValid(m: Entry, once: seq<Entry>, twice: seq<Entry>)
    requires Stored(m) && MayRepeat(EntrySlot(m)) && once == [m] && twice == [m, m]
    ensures Valid(once) && Valid(twice)
  {
  }

  /** A duplicated plain MOUNT disk is not noticed by `==`. */
  lemma {:induction false} EqualIgnoresMountCopies(m: Entry, once: seq<Entry>, twice: seq<Entry>)
    requires Stored(m) && MayRepeat(EntrySlot(m)) && !Counted(EntrySlot(m))
    requires once == [m] && twice == [m, m]
    ensures Valid(once) && Valid(twice) && Equal(once, twice) && !Alike(once, twice)
  {
    PairValid(m, once, twice);
    PairInSlots(m, once, twice);
    EqualMeaning(once, twice);
  }

  // ------------------------------------------------------------ cancellation

  /** Taking out an entry that is contained and putting it back restores every slot. */
  lemma {:induction false} SubtractThenAdd(es: seq<Entry>, e: Entry)
    requires Valid(es) && Stored(e) && ContainsEntry(es, e)
    ensures Valid(Add(Subtract(es, e), e)) && Alike(Add(Subtract(es, e), e), es)
  {
    SubtractLaw(es, e);
    AddHolds(Subtract(es, e), e);
    ContainsEntryMeaning(es, e);
    RestoreSlot(Holds(es, EntrySlot(e)), Share(e));
  }

  lemma {:induction false} RestoreSlot(h: Amount, a: Amount)
    ensures Le(a, h) ==> Plus(Clip(Minus(h, a)), a) == h
  {
    if Le(a, h) {
      MinusThenPlus(h, a);
      PlusLaws(a, Zero, Zero);
      assert Minus(h, a).num >= 0;
    }
  }

  /** Adding an entry and taking it out again restores every slot exactly when its slot
      held none of its ports or items before; numbers and copies always cancel. */
  lemma {:induction false} AddThenSubtract(es: seq<Entry>, e: Entry)
    requires Valid(es) && Stored(e)
    ensures Valid(Subtract(Add(es, e), e))
    ensures Alike(Subtract(Add(es, e), e), es) <==> Disjoint(Holds(es, EntrySlot(e)), Share(e))
  {
    AddHolds(es, e);
    SubtractLaw(Add(es, e), e);
    var own := EntrySlot(e);
    HoldsPositive(es, own);
    CancelSlot(Holds(es, own), Share(e));
  }

  lemma {:induction false} CancelSlot(h: Amount, a: Amount)
    requires h == Zero || Positive(h)
    ensures Clip(Minus(Plus(h, a), a)) == h <==> Disjoint(h, a)
  {
    PlusThenMinus(h, a);
    if !Disjoint(h, a) {
      var x :| x in h.atoms && x in a.atoms;
      assert x !in Clip(Minus(Plus(h, a), a)).atoms;
    }
  }

  /** The total of a name loses what is taken out, if it is there. */
  lemma {:induction false} SubtractTotal(es: seq<Entry>, e: Entry, a: Account)
    requires Valid(es) && Stored(e) && ContainsEntry(es, e) && a.Named?
    ensures Plus(Balance(Subtract(es, e), a), Loss(es, e, a)) == Balance(es, a)
  {
    var s := EntrySlot(e);
    ContainsEntryMeaning(es, e);
    HoldsPositive(es, s);
    SharePositive(e);
    var j :| 0 <= j < |es| && EntrySlot(es[j]) == s;
    SlotMeaning(es[j].resource, e.resource);
    var i := FirstSubtractable(es, e);
    SlotMeaning(es[i].resource, e.resource);
    if !MayRepeat(s) { HoldsOne(es, i); }
    SubtractNamed(es, e, i, a);
  }

  // ------------------------------------------------------------ normal form

  /** A vector as slots with shares. */
  ghost function View(es: seq<Entry>): seq<(Slot, Amount)> {
    if es == [] then [] else [(EntrySlot(es[0]), Share(es[0]))] + View(es[1..])
  }

  lemma {:induction false} ViewCount(es: seq<Entry>, s: Slot, a: Amount)
    requires Valid(es)
    ensures multiset(View(es))[(s, a)] ==
            if MayRepeat(s) then (if a == Units(1) then Holds(es, s).num else 0)
            else if a != Zero && Holds(es, s) == a then 1 else 0
    decreases |es|
  {
    if es != [] {
      ValidTail(es);
      ViewCount(es[1..], s, a);
      HoldsTail(es, s);
      ViewTail(es, s, a);
      if s == EntrySlot(es[0]) {
        SharePositive(es[0]);
        if !MayRepeat(s) { HoldsFirst(es, s); }
      }
    }
  }

  lemma {:induction false} ViewTail(es: seq<Entry>, s: Slot, a: Amount)
    requires es != []
    ensures multiset(View(es))[(s, a)] ==
            multiset(View(es[1..]))[(s, a)] + if s == EntrySlot(es[0]) && a == Share(es[0]) then 1 else 0
  {
    assert multiset(View(es)) == multiset{(EntrySlot(es[0]), Share(es[0]))} + multiset(View(es[1..]));
  }

  /** What a valid vector holds determines it, up to the order of its entries. */
  lemma {:induction false} HoldingsDetermineEntries(x: seq<Entry>, y: seq<Entry>)
    requires Valid(x) && Valid(y) && Alike(x, y)
    ensures multiset(View(x)) == multiset(View(y))
  {
    forall p: (Slot, Amount) ensures multiset(View(x))[p] == multiset(View(y))[p] {
      ViewCount(x, p.0, p.1);
      ViewCount(y, p.0, p.1);
      assert Holds(x, p.0) == Holds(y, p.0);
    }
  }

  /** Taking out an entry that is contained and putting it back restores the vector, up to the order of its entries. */
  lemma {:induction false} SubtractThenAddRestores(es: seq<Entry>, e: Entry)
    requires Valid(es) && Stored(e) && ContainsEntry(es, e)
    ensures multiset(View(Add(Subtract(es, e), e))) == multiset(View(es))
  {
    SubtractThenAdd(es, e);
    HoldingsDetermineEntries(Add(Subtract(es, e), e), es);
  }
}
