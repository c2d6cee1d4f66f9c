/**
 Sums and differences of whole `Resources` (liburb/source/resources.cpp), the constructors,
 and the projections that drop reservations.
 */
module Collections {
  import opened Values
  import opened ResourceModel
  import opened Entries
  import opened Containment
  import opened Validation

  /** `operator+=(Resources)` */
  function AddAll(es: seq<Entry>, that: seq<Entry>): seq<Entry>
    decreases |that|
  {
    if that == [] then es else AddAll(Add(es, that[0]), that[1..])
  }

  /** `operator-=(Resources)` */
  function SubtractAll(es: seq<Entry>, that: seq<Entry>): seq<Entry>
    decreases |that|
  {
    if that == [] then es else SubtractAll(Subtract(es, that[0]), that[1..])
  }

  /** `operator+=(Resource)`: invalid messages are ignored. */
  function AddResource(es: seq<Entry>, r: Resource): seq<Entry> {
    if Validate(r) then Add(es, Wrap(r)) else es
  }

  /** The constructors from a list. */
  function FromList(es: seq<Entry>, rs: seq<Resource>): seq<Entry>
    decreases |rs|
  {
    if rs == [] then es else FromList(AddResource(es, rs[0]), rs[1..])
  }

  function WithReservations(e: Entry, reservations: seq<Reservation>): Entry {
    e.(resource := e.resource.(reservations := reservations))
  }

  function Cleared(es: seq<Entry>): seq<Entry> {
    seq(|es|, i requires 0 <= i < |es| => WithReservations(es[i], []))
  }

  /** `toUnreserved` */
  function ToUnreserved(es: seq<Entry>): seq<Entry> { AddAll([], Cleared(es)) }

  predicate AllReserved(es: seq<Entry>) {
    forall i :: 0 <= i < |es| ==> !IsUnreserved(es[i].resource)
  }

  function Popped(es: seq<Entry>): seq<Entry>
    requires AllReserved(es)
  {
    seq(|es|, i requires 0 <= i < |es| => es[i].(resource := Pop(es[i].resource)))
  }

  /** `popReservation` */
  function PopReservation(es: seq<Entry>): seq<Entry>
    requires AllReserved(es)
  {
    AddAll([], Popped(es))
  }

  /** What the library asks of a message it is handed: the newer format, and on top of the checks of
      `validate` the regularity on which the comparisons rest. */
  ghost predicate Proper(r: Resource) { PostFormat(r) && Regular(r) }

  lemma {:induction false} WrapStored(r: Resource)
    requires Validate(r) && Proper(r) && !IsEmpty(r.quantity)
    ensures Stored(Wrap(r))
  {
    ValidIsSound(r);
  }

  // ------------------------------------------------------------ sums and differences

  ghost predicate AllStored(es: seq<Entry>) { forall i :: 0 <= i < |es| ==> Stored(es[i]) }

  /** A sum holds the sum in every slot. */
  lemma {:induction false} AddAllLaw(es: seq<Entry>, that: seq<Entry>)
    requires Valid(es) && AllStored(that)
    ensures Valid(AddAll(es, that))
    ensures forall s :: Holds(AddAll(es, that), s) == Plus(Holds(es, s), Holds(that, s))
    decreases |that|
  {
    if that == [] {
      forall s ensures Holds(es, s) == Plus(Holds(es, s), Holds(that, s)) { PlusLaws(Holds(es, s), Zero, Zero); }
    } else {
      AddHolds(es, that[0]);
      AddAllLaw(Add(es, that[0]), that[1..]);
      forall s ensures Holds(AddAll(es, that), s) == Plus(Holds(es, s), Holds(that, s)) {
        HoldsTail(that, s);
        PlusLaws(Holds(es, s), Share(that[0]), Holds(that[1..], s));
      }
    }
  }

  lemma {:induction false} ClipUnits(h: int, a: int, b: int)
    requires a >= 0 && b >= 0
    ensures Clip(Minus(Clip(Minus(Units(h), Units(a))), Units(b))) == Clip(Minus(Units(h), Plus(Units(a), Units(b))))
  {
    assert Minus(Units(h), Units(a)) == Units(h - a);
    assert Plus(Units(a), Units(b)) == Units(a + b);
    assert Minus(Units(h), Units(a + b)) == Units(h - a - b);
    assert Minus(Units(h - a), Units(b)) == Units(h - a - b);
    assert Minus(Units(0), Units(b)) == Units(-b);
  }

  lemma {:induction false} ClipNothing(h: Amount, a: Amount)
    ensures Clip(Minus(Clip(Minus(h, a)), Zero)) == Clip(Minus(h, Plus(a, Zero)))
  {
    PlusLaws(a, Zero, Zero);
    var c := Clip(Minus(h, a));
    assert c.atoms - {} == c.atoms;
    assert Minus(c, Zero) == c;
  }

  /** A difference holds the difference in every slot, and nothing where that is not positive. */
  lemma {:induction false} SubtractAllLaw(es: seq<Entry>, that: seq<Entry>)
    requires Valid(es) && Valid(that)
    ensures Valid(SubtractAll(es, that))
    ensures forall s :: Holds(SubtractAll(es, that), s) == Clip(Minus(Holds(es, s), Holds(that, s)))
    decreases |that|
  {
    if that == [] {
      forall s ensures Holds(es, s) == Clip(Minus(Holds(es, s), Holds(that, s))) {
        HoldsPositive(es, s);
        assert Holds(es, s).atoms - {} == Holds(es, s).atoms;
      }
    } else {
      ValidTail(that);
      SubtractLaw(es, that[0]);
      SubtractAllLaw(Subtract(es, that[0]), that[1..]);
      forall s ensures Holds(SubtractAll(es, that), s) == Clip(Minus(Holds(es, s), Holds(that, s))) {
        HoldsTail(that, s);
        if s == EntrySlot(that[0]) { SubtractAllSlot(es, that); }
      }
    }
  }

  lemma {:induction false} SubtractAllSlot(es: seq<Entry>, that: seq<Entry>)
    requires Valid(es) && Valid(that) && that != []
    ensures var s := EntrySlot(that[0]);
            Clip(Minus(Clip(Minus(Holds(es, s), Share(that[0]))), Holds(that[1..], s))) ==
            Clip(Minus(Holds(es, s), Plus(Share(that[0]), Holds(that[1..], s))))
  {
    var s := EntrySlot(that[0]);
    if MayRepeat(s) {
      ValidTail(that);
      SlotUnits(es, s);
      SlotUnits(that[1..], s);
      ClipUnits(Holds(es, s).num, 1, Holds(that[1..], s).num);
    } else {
      HoldsFirst(that, s);
      ClipNothing(Holds(es, s), Share(that[0]));
    }
  }

  /** Taking out a whole collection that is held and putting it back restores every slot. */
  lemma {:induction false} SubtractThenAddAll(x: seq<Entry>, y: seq<Entry>)
    requires Valid(x) && Valid(y) && forall s :: Le(Holds(y, s), Holds(x, s))
    ensures Valid(AddAll(SubtractAll(x, y), y)) && Alike(AddAll(SubtractAll(x, y), y), x)
  {
    SubtractAllLaw(x, y);
    AddAllLaw(SubtractAll(x, y), y);
    forall s ensures Holds(AddAll(SubtractAll(x, y), y), s) == Holds(x, s) {
      RestoreSlot(Holds(x, s), Holds(y, s));
    }
  }

  // ------------------------------------------------------------ building from a list

  /** The messages that the constructor keeps. */
  function Kept(rs: seq<Resource>): seq<Entry> {
    if rs == [] then []
    else (if Validate(rs[0]) && !EntryEmpty(Wrap(rs[0])) then [Wrap(rs[0])] else []) + Kept(rs[1..])
  }

  lemma {:induction false} FromListKept(es: seq<Entry>, rs: seq<Resource>)
    ensures FromList(es, rs) == AddAll(es, Kept(rs))
    decreases |rs|
  {
    if rs != [] {
      FromListKept(AddResource(es, rs[0]), rs[1..]);
      if Validate(rs[0]) && !EntryEmpty(Wrap(rs[0])) {
        assert Kept(rs)[0] == Wrap(rs[0]) && Kept(rs)[1..] == Kept(rs[1..]);
      } else {
        assert Kept(rs) == Kept(rs[1..]);
      }
    }
  }

  lemma {:induction false} KeptCons(r: Resource, rs: seq<Resource>)
    ensures Kept([r] + rs) == (if Validate(r) && !EntryEmpty(Wrap(r)) then [Wrap(r)] else []) + Kept(rs)
  {
    assert ([r] + rs)[1..] == rs;
  }

  lemma {:induction false} KeptConcat(x: seq<Resource>, y: seq<Resource>)
    ensures Kept(x + y) == Kept(x) + Kept(y)
    decreases |x|
  {
    if x == [] {
      assert x + y == y;
    } else {
      KeptConcat(x[1..], y);
      KeptCons(x[0], x[1..] + y);
      KeptCons(x[0], x[1..]);
      assert x + y == [x[0]] + (x[1..] + y) && x == [x[0]] + x[1..];
      var one := if Validate(x[0]) && !EntryEmpty(Wrap(x[0])) then [Wrap(x[0])] else [];
      assert one + (Kept(x[1..]) + Kept(y)) == one + Kept(x[1..]) + Kept(y);
    }
  }

  lemma {:induction false} KeptPermutation(x: seq<Resource>, y: seq<Resource>)
    requires multiset(x) == multiset(y)
    ensures multiset(Kept(x)) == multiset(Kept(y))
    decreases |x|
  {
    if x == [] {
      assert |multiset(y)| == 0;
    } else {
      assert x[0] in multiset(y);
      var k :| 0 <= k < |y| && y[k] == x[0];
      RemoveMatching(x, y, k);
      KeptPermutation(x[1..], y[..k] + y[k + 1..]);
      KeptSplit(x, 0);
      KeptSplit(y, k);
      assert x[..0] + x[0 + 1..] == x[1..];
    }
  }

  lemma {:induction false} KeptSplit(x: seq<Resource>, k: nat)
    requires k < |x|
    ensures multiset(Kept(x)) == multiset(Kept([x[k]])) + multiset(Kept(x[..k] + x[k + 1..]))
  {
    var a, b, c := x[..k], [x[k]], x[k + 1..];
    assert x == a + (b + c);
    KeptConcat(a, b + c);
    KeptConcat(b, c);
    KeptConcat(a, c);
  }

  ghost predicate AllProper(rs: seq<Resource>) { forall r :: r in rs ==> Proper(r) }

  lemma {:induction false} KeptStored(rs: seq<Resource>)
    requires AllProper(rs)
    ensures AllStored(Kept(rs))
  {
    if rs != [] {
      assert rs[0] in rs && forall r :: r in rs[1..] ==> r in rs;
      KeptStored(rs[1..]);
      if Validate(rs[0]) && !EntryEmpty(Wrap(rs[0])) { WrapStored(rs[0]); }
    }
  }

  /** A `Resources` built from a list is valid and holds what the kept messages hold. */
  lemma {:induction false} FromListLaw(rs: seq<Resource>)
    requires AllProper(rs)
    ensures Valid(FromList([], rs))
    ensures forall s :: Holds(FromList([], rs), s) == Holds(Kept(rs), s)
  {
    FromListKept([], rs);
    KeptStored(rs);
    AddAllLaw([], Kept(rs));
    forall s ensures Holds(FromList([], rs), s) == Holds(Kept(rs), s) { PlusLaws(Holds(Kept(rs), s), Zero, Zero); }
  }

  /** The order of the list does not matter: any permutation builds an equal `Resources`. */
  lemma {:induction false} FromListPermutation(x: seq<Resource>, y: seq<Resource>)
    requires AllProper(x) && multiset(x) == multiset(y)
    ensures Valid(FromList([], x)) && Valid(FromList([], y))
    ensures Alike(FromList([], x), FromList([], y)) && Equal(FromList([], x), FromList([], y))
  {
    forall r | r in y ensures r in x { assert r in multiset(y); }
    FromListLaw(x);
    FromListLaw(y);
    KeptPermutation(x, y);
    forall s ensures Holds(FromList([], x), s) == Holds(FromList([], y), s) {
      BalancePermutation(Kept(x), Kept(y), InSlot(s));
    }
    EqualIsAlike(FromList([], x), FromList([], y));
  }

  // ------------------------------------------------------------ one message

  lemma {:induction false} AddAllSingle(es: seq<Entry>, e: Entry)
    ensures AddAll(es, [e]) == Add(es, e)
    ensures SubtractAll(es, [e]) == Subtract(es, e)
  {
    assert [e][1..] == [];
  }

  /** `Resources(r)` holds the one message, or nothing if it is empty. */
  lemma {:induction false} SingleMessage(r: Resource)
    requires Validate(r)
    ensures FromList([], [r]) == if EntryEmpty(Wrap(r)) then [] else [Wrap(r)]
  {
    assert [r][1..] == [];
  }

  lemma {:induction false} SinglePopped(r: Resource)
    requires Validate(r) && !IsUnreserved(r)
    ensures AllReserved(FromList([], [r]))
    ensures PopReservation(FromList([], [r])) == if EntryEmpty(Wrap(r)) then [] else [Wrap(Pop(r))]
  {
    SingleMessage(r);
    if !EntryEmpty(Wrap(r)) {
      var e := Wrap(r).(resource := Pop(r));
      assert Popped([Wrap(r)]) == [e];
      AddAllSingle([], e);
    }
  }
}
