/** Undoing operations: RESERVE by UNRESERVE and CREATE by DESTROY, one operand and whole lists (liburb/source/resources.cpp). */
module Inverses {
  import opened Wrappers
  import opened Values
  import opened ResourceModel
  import opened Entries
  import opened Containment
  import opened Validation
  import opened Collections
  import opened Operations

  /** Exchanging back restores every slot exactly when the slot that was filled held none of the same atoms. */
  lemma {:induction false} ExchangeBack(es: seq<Entry>, later: seq<Entry>, out: Entry, into: Entry)
    requires Valid(es) && Valid(later) && Stored(out) && Stored(into) && EntrySlot(out) != EntrySlot(into)
    requires ContainsEntry(es, out) && Alike(later, Exchange(es, out, into))
    ensures ContainsEntry(later, into)
    ensures Valid(Exchange(later, into, out))
    ensures Alike(Exchange(later, into, out), es) <==> Disjoint(Holds(es, EntrySlot(into)), Share(into))
  {
    var a, b := EntrySlot(out), EntrySlot(into);
    var back := Exchange(later, into, out);
    ExchangeLaw(es, out, into);
    ExchangeLaw(later, into, out);
    ContainsEntryMeaning(es, out);
    ContainsEntryMeaning(later, into);
    HoldsPositive(es, b);
    assert Holds(later, b) == Plus(Holds(es, b), Share(into));
    CancelSlot(Holds(es, b), Share(into));
    assert Holds(later, a) == Clip(Minus(Holds(es, a), Share(out)));
    RestoreSlot(Holds(es, a), Share(out));
    assert Holds(back, a) == Holds(es, a);
    assert Holds(back, b) == Clip(Minus(Plus(Holds(es, b), Share(into)), Share(into)));
    forall s ensures s != b ==> Holds(back, s) == Holds(es, s) {
      assert Holds(later, s) == Holds(Exchange(es, out, into), s);
    }
  }

  /** UNRESERVE accepts what RESERVE has just reserved, on any vector that holds the same, and restores what was held
      before exactly when none of the ports or items were already reserved that way. */
  lemma {:induction false} ReserveUndone(es: seq<Entry>, later: seq<Entry>, r: Resource)
    requires Valid(es) && Valid(later) && Validate(r) && Proper(r) && !IsEmpty(r.quantity)
    requires Step(RESERVE, es, r).Ok? && Alike(later, Step(RESERVE, es, r).value)
    ensures Step(UNRESERVE, later, r).Ok? && Valid(Step(UNRESERVE, later, r).value)
    ensures Alike(Step(UNRESERVE, later, r).value, es) <==> Disjoint(Holds(es, SlotOf(r)), Share(Wrap(r)))
  {
    StepIsExchange(RESERVE, es, r);
    StepIsExchange(UNRESERVE, later, r);
    BothSidesStored(RESERVE, r);
    ExchangeBack(es, later, Wrap(Pop(r)), Wrap(r));
  }

  /** DESTROY accepts what CREATE has just created exactly when the volume was not held before, and then restores
      what was held. */
  lemma {:induction false} CreateUndone(es: seq<Entry>, later: seq<Entry>, v: Resource)
    requires Valid(es) && Valid(later) && Validate(v) && Proper(v) && !IsEmpty(v.quantity)
    requires Step(CREATE, es, v).Ok? && Alike(later, Step(CREATE, es, v).value)
    ensures Step(DESTROY, later, v).Ok? <==> Holds(es, SlotOf(v)) == Zero
    ensures Step(DESTROY, later, v).Ok? ==>
              Valid(Step(DESTROY, later, v).value) && Alike(Step(DESTROY, later, v).value, es)
  {
    StepIsExchange(CREATE, es, v);
    StepIsExchange(DESTROY, later, v);
    BothSidesStored(CREATE, v);
    ExchangeBack(es, later, Wrap(Strip(v)), Wrap(v));
    LastCopy(later, v);
    CreatedHolds(es, later, v);
  }

  lemma {:induction false} CreatedHolds(es: seq<Entry>, later: seq<Entry>, v: Resource)
    requires Valid(es) && Validate(v) && Proper(v) && !IsEmpty(v.quantity) && IsPersistentVolume(v)
    requires Alike(later, Exchange(es, Wrap(Strip(v)), Wrap(v)))
    ensures Holds(later, SlotOf(v)) == Units(1) <==> Holds(es, SlotOf(v)) == Zero
    ensures Disjoint(Holds(es, SlotOf(v)), Share(Wrap(v)))
  {
    BothSidesStored(CREATE, v);
    ExchangeLaw(es, Wrap(Strip(v)), Wrap(v));
    assert Share(Wrap(v)) == Units(1);
    SlotUnits(es, SlotOf(v));
    OneMore(Holds(es, SlotOf(v)));
  }

  lemma {:induction false} OneMore(h: Amount)
    requires h == Units(h.num)
    ensures Plus(h, Units(1)) == Units(1) <==> h == Zero
    ensures Disjoint(h, Units(1))
  {
  }

  // ------------------------------------------------------------ lists of operands

  function Reverse(s: seq<Resource>): (r: seq<Resource>)
    ensures forall x :: x in r <==> x in s
  {
    if s == [] then [] else Reverse(s[1..]) + [s[0]]
  }

  ghost predicate Ready(rs: seq<Resource>) {
    forall r :: r in rs ==> Validate(r) && Proper(r) && !IsEmpty(r.quantity)
  }

  lemma {:induction false} StepsConcat(kind: ChangeKind, es: seq<Entry>, x: seq<Resource>, y: seq<Resource>)
    requires forall i :: 0 <= i < |x| ==> Validate(x[i])
    requires forall i :: 0 <= i < |y| ==> Validate(y[i])
    ensures forall i :: 0 <= i < |x + y| ==> Validate((x + y)[i])
    ensures Steps(kind, es, x + y) ==
            match Steps(kind, es, x) case Error => Error case Ok(es') => Steps(kind, es', y)
    decreases |x|
  {
    if x == [] {
      assert x + y == y;
    } else {
      assert (x + y)[1..] == x[1..] + y;
      match Step(kind, es, x[0])
      case Error =>
      case Ok(es') => StepsConcat(kind, es', x[1..], y);
    }
  }

  /** After the rest is undone, undo the first. */
  lemma {:induction false} UndoLast(undo: ChangeKind, later: seq<Entry>, rs: seq<Resource>)
    requires rs != [] && Ready(rs) && Ready(rs[1..]) && Steps(undo, later, Reverse(rs[1..])).Ok?
    ensures Steps(undo, later, Reverse(rs)) == Step(undo, Steps(undo, later, Reverse(rs[1..])).value, rs[0])
  {
    var r := rs[0];
    assert r in rs && forall x :: x in rs[1..] ==> x in rs;
    StepsConcat(undo, later, Reverse(rs[1..]), [r]);
    assert [r][1..] == [];
  }

  /** A resource whose share in its slot is a number: a scalar, or something handed out whole. */
  ghost predicate Countable(r: Resource) { r.quantity.Scalar? || IsExclusive(r) || r.shared }

  /** An accepted run that ends with what `es` holds. */
  ghost predicate Restores(t: Try<seq<Entry>>, es: seq<Entry>) {
    t.Ok? && Valid(t.value) && Alike(t.value, es) && Equal(t.value, es)
  }

  lemma {:induction false} AlikeRestores(t: Try<seq<Entry>>, es: seq<Entry>)
    requires t.Ok? && Valid(t.value) && Valid(es) && Alike(t.value, es)
    ensures Restores(t, es)
  {
    EqualIsAlike(t.value, es);
  }

  lemma {:induction false} StepValid(kind: ChangeKind, es: seq<Entry>, r: Resource)
    requires Valid(es) && Validate(r) && Proper(r) && Step(kind, es, r).Ok?
    ensures Valid(Step(kind, es, r).value)
  {
    StepTotals(kind, es, r, Named("", SCALAR));
  }

  lemma {:induction false} ReserveStepUndone(es: seq<Entry>, rs: seq<Resource>, later: seq<Entry>)
    requires Valid(es) && Valid(later) && rs != [] && Ready(rs) && Ready(rs[1..]) && Countable(rs[0])
    requires Step(RESERVE, es, rs[0]).Ok? && Valid(Step(RESERVE, es, rs[0]).value)
    requires Restores(Steps(UNRESERVE, later, Reverse(rs[1..])), Step(RESERVE, es, rs[0]).value)
    ensures Restores(Steps(UNRESERVE, later, Reverse(rs)), es)
  {
    var r := rs[0];
    assert r in rs;
    ReserveUndone(es, Steps(UNRESERVE, later, Reverse(rs[1..])).value, r);
    CountableShare(r);
    UndoLast(UNRESERVE, later, rs);
    AlikeRestores(Steps(UNRESERVE, later, Reverse(rs)), es);
  }

  /** Reserving a list and unreserving it in reverse order succeeds and restores an equal `Resources`. */
  lemma {:induction false} ReserveListUndone(es: seq<Entry>, rs: seq<Resource>, later: seq<Entry>)
    requires Valid(es) && Valid(later) && Ready(rs) && forall r :: r in rs ==> Countable(r)
    requires Steps(RESERVE, es, rs).Ok? && Alike(later, Steps(RESERVE, es, rs).value)
    ensures Restores(Steps(UNRESERVE, later, Reverse(rs)), es)
    decreases |rs|
  {
    if rs == [] {
      AlikeRestores(Ok(later), es);
    } else {
      var r, rest := rs[0], rs[1..];
      assert r in rs && forall x :: x in rest ==> x in rs;
      StepValid(RESERVE, es, r);
      ReserveListUndone(Step(RESERVE, es, r).value, rest, later);
      ReserveStepUndone(es, rs, later);
    }
  }

  lemma {:induction false} CountableShare(r: Resource)
    requires Countable(r)
    ensures Share(Wrap(r)).atoms == {}
  {
  }

  /** Volumes that are not held yet, each listed once. */
  ghost predicate NewVolumes(es: seq<Entry>, vs: seq<Resource>) {
    && (forall i :: 0 <= i < |vs| ==> Holds(es, SlotOf(vs[i])) == Zero)
    && (forall i, j :: 0 <= i < j < |vs| ==> SlotOf(vs[i]) != SlotOf(vs[j]))
  }

  lemma {:induction false} NewVolumesStep(es: seq<Entry>, vs: seq<Resource>)
    requires Valid(es) && Ready(vs) && vs != [] && NewVolumes(es, vs) && Step(CREATE, es, vs[0]).Ok?
    ensures NewVolumes(Step(CREATE, es, vs[0]).value, vs[1..])
  {
    var v, rest := vs[0], vs[1..];
    assert v in vs;
    StepIsExchange(CREATE, es, v);
    BothSidesStored(CREATE, v);
    ExchangeLaw(es, Wrap(Strip(v)), Wrap(v));
    assert forall i :: 0 <= i < |rest| ==> rest[i] == vs[i + 1];
    assert Clip(Minus(Zero, Share(Wrap(Strip(v))))) == Zero by {
      EmptyMeaning(Strip(v).quantity);
      assert {} - Share(Wrap(Strip(v))).atoms == {};
    }
  }

  lemma {:induction false} CreateStepUndone(es: seq<Entry>, vs: seq<Resource>, later: seq<Entry>)
    requires Valid(es) && Valid(later) && vs != [] && Ready(vs) && Ready(vs[1..]) && Holds(es, SlotOf(vs[0])) == Zero
    requires Step(CREATE, es, vs[0]).Ok? && Valid(Step(CREATE, es, vs[0]).value)
    requires Restores(Steps(DESTROY, later, Reverse(vs[1..])), Step(CREATE, es, vs[0]).value)
    ensures Restores(Steps(DESTROY, later, Reverse(vs)), es)
  {
    var v := vs[0];
    assert v in vs;
    CreateUndone(es, Steps(DESTROY, later, Reverse(vs[1..])).value, v);
    UndoLast(DESTROY, later, vs);
    AlikeRestores(Steps(DESTROY, later, Reverse(vs)), es);
  }

  /** Creating new volumes and destroying them in reverse order succeeds and restores an equal `Resources`. */
  lemma {:induction false} CreateListUndone(es: seq<Entry>, vs: seq<Resource>, later: seq<Entry>)
    requires Valid(es) && Valid(later) && Ready(vs) && NewVolumes(es, vs)
    requires Steps(CREATE, es, vs).Ok? && Alike(later, Steps(CREATE, es, vs).value)
    ensures Restores(Steps(DESTROY, later, Reverse(vs)), es)
    decreases |vs|
  {
    if vs == [] {
      AlikeRestores(Ok(later), es);
    } else {
      var v, rest := vs[0], vs[1..];
      assert v in vs && forall x :: x in rest ==> x in vs;
      StepValid(CREATE, es, v);
      NewVolumesStep(es, vs);
      CreateListUndone(Step(CREATE, es, v).value, rest, later);
      CreateStepUndone(es, vs, later);
    }
  }
}
