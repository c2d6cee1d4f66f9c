/**
 `Resources::apply` (liburb/source/resources.cpp): every operation exchanges entries for others with the same
 goods, so that per-name totals only move where copies of a shared volume are involved,
 and RESERVE and CREATE are undone by UNRESERVE and DESTROY.
 */
module Operations {
  import opened Wrappers
  import opened Values
  import opened ResourceModel
  import opened Entries
  import opened Containment
  import opened Validation
  import opened Collections

  datatype ChangeKind = RESERVE | UNRESERVE | CREATE | DESTROY

  /** `Offer::Operation`; launching tasks does not alter the offered resources. */
  datatype Operation = LAUNCH | LAUNCH_GROUP | UNKNOWN_OPERATION | Change(kind: ChangeKind, resources: seq<Resource>)

  /** A volume without persistence, as the disk it was made from. */
  function Strip(volume: Resource): Resource
    requires volume.disk.Some?
  {
    volume.(disk := if volume.disk.value.source.Some? then Some(Disk(volume.disk.value.source, None, None)) else None,
            shared := false)
  }

  /** `Resources::contains(Resource)` */
  predicate ContainsResource(es: seq<Entry>, r: Resource) {
    Validate(r) && ContainsEntry(es, Wrap(r))
  }

  function PoppedResources(r: Resource): seq<Entry>
    requires Validate(r) && !IsUnreserved(r)
  {
    SinglePopped(r);
    PopReservation(FromList([], [r]))
  }

  /** One operand of an operation. */
  function Step(kind: ChangeKind, es: seq<Entry>, r: Resource): Try<seq<Entry>>
    requires Validate(r)
  {
    match kind
    case RESERVE =>
      if !IsReserved(r, None) || !IsDynamicallyReserved(r) then Error
      else
        var resources := PoppedResources(r);
        if !Contains(es, resources) then Error
        else Ok(Add(SubtractAll(es, resources), Wrap(r)))
    case UNRESERVE =>
      if !IsReserved(r, None) || !IsDynamicallyReserved(r) then Error
      else if !ContainsResource(es, r) then Error
      else Ok(AddAll(Subtract(es, Wrap(r)), PoppedResources(r)))
    case CREATE =>
      if !IsPersistentVolume(r) then Error
      else if !ContainsResource(es, Strip(r)) then Error
      else Ok(Add(Subtract(es, Wrap(Strip(r))), Wrap(r)))
    case DESTROY =>
      if !IsPersistentVolume(r) || !ContainsResource(es, r) then Error
      else
        var rest := Subtract(es, Wrap(r));
        if ContainsResource(rest, r) then Error else Ok(Add(rest, Wrap(Strip(r))))
  }

  function Steps(kind: ChangeKind, es: seq<Entry>, rs: seq<Resource>): Try<seq<Entry>>
    requires forall i :: 0 <= i < |rs| ==> Validate(rs[i])
    decreases |rs|
  {
    if rs == [] then Ok(es)
    else
      match Step(kind, es, rs[0])
      case Error => Error
      case Ok(es') => Steps(kind, es', rs[1..])
  }

  /** `Resources::apply` up to its closing CHECKs. */
  function Apply(es: seq<Entry>, operation: Operation): Try<seq<Entry>> {
    match operation
    case LAUNCH => Ok(es)
    case LAUNCH_GROUP => Ok(es)
    case UNKNOWN_OPERATION => Error
    case Change(kind, resources) =>
      if exists i :: 0 <= i < |resources| && !Validate(resources[i]) then Error else Steps(kind, es, resources)
  }

  // ------------------------------------------------------------ an exchange of entries

  /** What an operand takes out, and what it puts in. */
  function Taken(kind: ChangeKind, r: Resource): Resource
    requires Eligible(kind, r)
  {
    match kind case RESERVE => Pop(r) case CREATE => Strip(r) case _ => r
  }

  function Given(kind: ChangeKind, r: Resource): Resource
    requires Eligible(kind, r)
  {
    match kind case UNRESERVE => Pop(r) case DESTROY => Strip(r) case _ => r
  }

  predicate Eligible(kind: ChangeKind, r: Resource) {
    match kind
    case RESERVE => IsDynamicallyReserved(r)
    case UNRESERVE => IsDynamicallyReserved(r)
    case _ => IsPersistentVolume(r)
  }

  function Exchange(es: seq<Entry>, out: Entry, into: Entry): seq<Entry> { Add(Subtract(es, out), into) }

  lemma {:induction false} StripKeeps(v: Resource)
    requires Validate(v) && Proper(v) && v.disk.Some?
    ensures Validate(Strip(v)) && Proper(Strip(v))
  {
    assert Strip(v).reservations == v.reservations;
  }

  lemma {:induction false} PopKeepsProper(r: Resource)
    requires Proper(r) && !IsUnreserved(r)
    ensures Proper(Pop(r))
  {
    assert forall i :: 0 <= i < |Pop(r).reservations| ==> Pop(r).reservations[i] == r.reservations[i];
  }

  /** Both sides of an exchange are proper entries in different slots, with the same goods. */
  lemma {:induction false} BothSidesStored(kind: ChangeKind, r: Resource)
    requires Validate(r) && Proper(r) && !IsEmpty(r.quantity) && Eligible(kind, r)
    ensures Stored(Wrap(Taken(kind, r))) && Stored(Wrap(Given(kind, r)))
    ensures EntrySlot(Wrap(Taken(kind, r))) != EntrySlot(Wrap(Given(kind, r)))
    ensures Taken(kind, r).name == Given(kind, r).name == r.name
    ensures Taken(kind, r).quantity == Given(kind, r).quantity == r.quantity
  {
    WrapStored(r);
    if kind == RESERVE || kind == UNRESERVE {
      PopKeepsProper(r);
      assert |KeyOf(Pop(r)).reservations| != |KeyOf(r).reservations|;
    } else {
      StripKeeps(r);
      WrapStored(Strip(r));
      assert KeyOf(Strip(r)).disk != KeyOf(r).disk;
    }
  }

  /** An operand with goods is accepted exactly when what it takes is there - and, for DESTROY, is there once -
      and then it exchanges one entry for another. */
  lemma {:induction false} StepIsExchange(kind: ChangeKind, es: seq<Entry>, r: Resource)
    requires Valid(es) && Validate(r) && Proper(r) && !IsEmpty(r.quantity)
    ensures if Eligible(kind, r)
               && ContainsEntry(es, Wrap(Taken(kind, r)))
               && (kind == DESTROY ==> !ContainsEntry(Subtract(es, Wrap(r)), Wrap(r)))
            then Step(kind, es, r) == Ok(Exchange(es, Wrap(Taken(kind, r)), Wrap(Given(kind, r))))
            else Step(kind, es, r) == Error
  {
    if Eligible(kind, r) {
      match kind
      case RESERVE => ReserveIsExchange(es, r);
      case UNRESERVE =>
        SinglePopped(r);
        AddAllSingle(Subtract(es, Wrap(r)), Wrap(Pop(r)));
      case CREATE => StripKeeps(r);
      case DESTROY =>
    }
  }

  lemma {:induction false} ReserveIsExchange(es: seq<Entry>, r: Resource)
    requires Valid(es) && Validate(r) && Proper(r) && !IsEmpty(r.quantity) && IsDynamicallyReserved(r)
    ensures Step(RESERVE, es, r) ==
            if ContainsEntry(es, Wrap(Pop(r))) then Ok(Exchange(es, Wrap(Pop(r)), Wrap(r))) else Error
  {
    var p := Wrap(Pop(r));
    SinglePopped(r);
    AddAllSingle(es, p);
    assert [p][1..] == [];
    assert Contains(es, [p]) <==> ContainsEntry(es, p);
  }

  /** An operand without goods changes nothing when it is accepted. */
  lemma {:induction false} EmptyStep(kind: ChangeKind, es: seq<Entry>, r: Resource)
    requires Valid(es) && Validate(r) && Proper(r) && IsEmpty(r.quantity) && Step(kind, es, r).Ok?
    ensures Step(kind, es, r) == Ok(es)
  {
    if kind == RESERVE || kind == UNRESERVE { SinglePopped(r); }
  }

  // ------------------------------------------------------------ conservation

  /** An exchange moves a share from one slot to another. */
  lemma {:induction false} ExchangeLaw(es: seq<Entry>, out: Entry, into: Entry)
    requires Valid(es) && Stored(out) && Stored(into) && EntrySlot(out) != EntrySlot(into)
    ensures Valid(Subtract(es, out)) && Valid(Exchange(es, out, into))
    ensures Holds(Subtract(es, out), EntrySlot(into)) == Holds(es, EntrySlot(into))
    ensures forall s :: Holds(Exchange(es, out, into), s) ==
                        if s == EntrySlot(out) then Clip(Minus(Holds(es, s), Share(out)))
                        else if s == EntrySlot(into) then Plus(Holds(es, s), Share(into))
                        else Holds(es, s)
  {
    SubtractLaw(es, out);
    AddHolds(Subtract(es, out), into);
  }

  /** The quantity of a shared or exclusive entry that is held is part of the total of its name. */
  lemma {:induction false} HeldGoods(es: seq<Entry>, e: Entry, a: Account)
    requires Valid(es) && a.Named? && EntrySlot(e).Whole? && Holds(es, EntrySlot(e)) != Zero
    ensures At(e, a).atoms <= Balance(es, a).atoms
  {
    HoldsPositive(es, EntrySlot(e));
    var i :| 0 <= i < |es| && EntrySlot(es[i]) == EntrySlot(e);
    assert KeyOf(es[i].resource) == KeyOf(e.resource) && es[i].resource.quantity == e.resource.quantity;
    assert At(es[i], a) == At(e, a);
    BalanceSplit(es, i, a);
  }

  /** How far an exchange moves the scalar total of a name: taking one of several copies of a shared
      volume frees nothing, adding a copy to those already held uses nothing. */
  ghost function Leak(es: seq<Entry>, out: Entry, into: Entry, a: Account): int {
    Gain(es, into, a).num - Loss(es, out, a).num
  }

  lemma {:induction false} ExchangeTotals(es: seq<Entry>, out: Entry, into: Entry, a: Account)
    requires Valid(es) && Stored(out) && Stored(into) && EntrySlot(out) != EntrySlot(into)
    requires out.resource.name == into.resource.name && out.resource.quantity == into.resource.quantity
    requires ContainsEntry(es, out) && a.Named?
    ensures Balance(Exchange(es, out, into), a).atoms == Balance(es, a).atoms
    ensures Balance(Exchange(es, out, into), a).num == Balance(es, a).num + Leak(es, out, into, a)
  {
    var rest := Subtract(es, out);
    ExchangeLaw(es, out, into);
    SubtractTotal(es, out, a);
    AddLaw(rest, into);
    assert Balance(Add(rest, into), a) == Plus(Balance(rest, a), Gain(rest, into, a));
    assert Gain(rest, into, a) == Gain(es, into, a);
    assert At(out, a) == At(into, a);
    if out.resource.shared && Holds(es, EntrySlot(out)) != Share(out) { StillHeld(es, out, a); }
    if into.resource.shared && Holds(es, EntrySlot(into)) != Zero { HeldGoods(rest, into, a); }
  }

  /** Of several copies some remain. */
  lemma {:induction false} StillHeld(es: seq<Entry>, out: Entry, a: Account)
    requires Valid(es) && Stored(out) && out.resource.shared && ContainsEntry(es, out) && a.Named?
    requires Holds(es, EntrySlot(out)) != Share(out)
    ensures At(out, a).atoms <= Balance(Subtract(es, out), a).atoms
  {
    var s := EntrySlot(out);
    ContainsEntryMeaning(es, out);
    SlotUnits(es, s);
    SubtractLaw(es, out);
    assert Minus(Holds(es, s), Share(out)) == Units(Holds(es, s).num - Share(out).num);
    HeldGoods(Subtract(es, out), out, a);
  }

  /** The leak of one operand. */
  ghost function StepLeak(kind: ChangeKind, es: seq<Entry>, r: Resource, a: Account): int {
    if Eligible(kind, r) && !IsEmpty(r.quantity) then Leak(es, Wrap(Taken(kind, r)), Wrap(Given(kind, r)), a) else 0
  }

  lemma {:induction false} StepsUnfold(kind: ChangeKind, es: seq<Entry>, rs: seq<Resource>, a: Account, next: seq<Entry>)
    requires rs != [] && (forall i :: 0 <= i < |rs| ==> Validate(rs[i])) && Step(kind, es, rs[0]) == Ok(next)
    ensures Steps(kind, es, rs) == Steps(kind, next, rs[1..])
    ensures StepsLeak(kind, es, rs, a) == StepLeak(kind, es, rs[0], a) + StepsLeak(kind, next, rs[1..], a)
  {
  }

  ghost function StepsLeak(kind: ChangeKind, es: seq<Entry>, rs: seq<Resource>, a: Account): int
    requires forall i :: 0 <= i < |rs| ==> Validate(rs[i])
    decreases |rs|
  {
    if rs == [] then 0
    else
      match Step(kind, es, rs[0])
      case Error => 0
      case Ok(es') => StepLeak(kind, es, rs[0], a) + StepsLeak(kind, es', rs[1..], a)
  }

  lemma {:induction false} StepTotals(kind: ChangeKind, es: seq<Entry>, r: Resource, a: Account)
    requires Valid(es) && Validate(r) && Proper(r) && Step(kind, es, r).Ok? && a.Named?
    ensures Valid(Step(kind, es, r).value)
    ensures Balance(Step(kind, es, r).value, a) ==
            Amount(Balance(es, a).num + StepLeak(kind, es, r, a), Balance(es, a).atoms)
  {
    if IsEmpty(r.quantity) {
      EmptyStep(kind, es, r);
    } else {
      StepIsExchange(kind, es, r);
      BothSidesStored(kind, r);
      ExchangeLaw(es, Wrap(Taken(kind, r)), Wrap(Given(kind, r)));
      ExchangeTotals(es, Wrap(Taken(kind, r)), Wrap(Given(kind, r)), a);
    }
  }

  /** The exact account of an operation: sets and ranges of every name are conserved, and a scalar total moves by
      the leaks of the operands alone. */
  lemma {:induction false} StepsTotals(kind: ChangeKind, es: seq<Entry>, rs: seq<Resource>, a: Account)
    requires Valid(es) && a.Named? && AllProper(rs)
    requires forall i :: 0 <= i < |rs| ==> Validate(rs[i])
    requires Steps(kind, es, rs).Ok?
    ensures Valid(Steps(kind, es, rs).value)
    ensures Balance(Steps(kind, es, rs).value, a) ==
            Amount(Balance(es, a).num + StepsLeak(kind, es, rs, a), Balance(es, a).atoms)
    decreases |rs|
  {
    if rs != [] {
      var next, rest := Step(kind, es, rs[0]).value, rs[1..];
      assert rs[0] in rs && forall r :: r in rest ==> r in rs;
      StepTotals(kind, es, rs[0], a);
      StepsTotals(kind, next, rest, a);
      StepsUnfold(kind, es, rs, a, next);
    }
  }

  /** When an operand with a scalar quantity leaves the total alone. */
  ghost predicate Balanced(kind: ChangeKind, es: seq<Entry>, r: Resource)
    requires Eligible(kind, r)
  {
    match kind
    case DESTROY => true
    case CREATE => r.shared ==> Holds(es, SlotOf(r)) == Zero
    case _ => r.shared ==> (Holds(es, SlotOf(Taken(kind, r))) == Units(1) <==> Holds(es, SlotOf(Given(kind, r))) == Zero)
  }

  /** The leak of an exchange within the account of its name. */
  lemma {:induction false} LeakMeaning(es: seq<Entry>, out: Entry, into: Entry, a: Account)
    requires out.resource.name == into.resource.name && out.resource.quantity == into.resource.quantity
    requires a == Named(out.resource.name, KindOf(out.resource.quantity))
    ensures var q := AmountOf(out.resource.quantity).num;
            Leak(es, out, into, a) ==
            (if into.resource.shared && Holds(es, EntrySlot(into)) != Zero then 0 else q) -
            (if out.resource.shared && Holds(es, EntrySlot(out)) != Share(out) then 0 else q)
  {
  }

  /** An accepted operand leaks exactly when its quantity is a scalar and it is not balanced;
      a further copy of a shared volume takes its size from the total. */
  lemma {:induction false} StepLeakMeaning(kind: ChangeKind, es: seq<Entry>, r: Resource, a: Account)
    requires Valid(es) && Validate(r) && Proper(r) && Step(kind, es, r).Ok? && !IsEmpty(r.quantity)
    requires a == Named(r.name, KindOf(r.quantity))
    ensures Eligible(kind, r)
    ensures StepLeak(kind, es, r, a) == 0 <==> !r.quantity.Scalar? || Balanced(kind, es, r)
    ensures kind == CREATE && !Balanced(kind, es, r) && r.quantity.Scalar? ==>
              StepLeak(kind, es, r, a) == -r.quantity.fixed
  {
    StepIsExchange(kind, es, r);
    BothSidesStored(kind, r);
    LeakMeaning(es, Wrap(Taken(kind, r)), Wrap(Given(kind, r)), a);
    if kind == DESTROY && r.shared { LastCopy(es, r); }
  }

  /** DESTROY is accepted only for the last copy. */
  lemma {:induction false} LastCopy(es: seq<Entry>, r: Resource)
    requires Valid(es) && Stored(Wrap(r)) && EntrySlot(Wrap(r)).Whole?
    ensures ContainsEntry(es, Wrap(r)) && !ContainsEntry(Subtract(es, Wrap(r)), Wrap(r)) <==>
            Holds(es, SlotOf(r)) == Units(1)
  {
    var e := Wrap(r);
    var s := EntrySlot(e);
    SubtractLaw(es, e);
    ContainsEntryMeaning(es, e);
    ContainsEntryMeaning(Subtract(es, e), e);
    SlotUnits(es, s);
    var h := Holds(es, s).num;
    assert Holds(es, s) == Units(h) && Share(e) == Units(1);
    assert Minus(Units(h), Units(1)) == Units(h - 1);
    assert Holds(Subtract(es, e), s) == Clip(Units(h - 1));
  }

  /** Operands that cannot leak, as a caller can see before the call: nothing shared is reserved or unreserved,
      and no shared volume is created that is held already or listed twice. */
  ghost predicate Safe(kind: ChangeKind, es: seq<Entry>, rs: seq<Resource>) {
    match kind
    case DESTROY => true
    case CREATE =>
      && (forall i :: 0 <= i < |rs| && rs[i].shared ==> Holds(es, SlotOf(rs[i])) == Zero)
      && (forall i, j :: 0 <= i < j < |rs| && rs[i].shared ==> SlotOf(rs[i]) != SlotOf(rs[j]))
    case _ => forall i :: 0 <= i < |rs| ==> !rs[i].shared
  }

  lemma {:induction false} SafeExchange(kind: ChangeKind, es: seq<Entry>, rs: seq<Resource>)
    requires Valid(es) && rs != [] && Validate(rs[0]) && Proper(rs[0]) && Safe(kind, es, rs)
    requires Eligible(kind, rs[0]) && !IsEmpty(rs[0].quantity)
    ensures Balanced(kind, es, rs[0])
    ensures Safe(kind, Exchange(es, Wrap(Taken(kind, rs[0])), Wrap(Given(kind, rs[0]))), rs[1..])
  {
    var r, rest := rs[0], rs[1..];
    assert forall i :: 0 <= i < |rest| ==> rest[i] == rs[i + 1];
    if kind == CREATE {
      BothSidesStored(kind, r);
      ExchangeLaw(es, Wrap(Taken(kind, r)), Wrap(Given(kind, r)));
    }
  }

  lemma {:induction false} SafeStep(kind: ChangeKind, es: seq<Entry>, rs: seq<Resource>)
    requires Valid(es) && rs != [] && Validate(rs[0]) && Proper(rs[0]) && Step(kind, es, rs[0]).Ok?
    requires Safe(kind, es, rs)
    ensures Safe(kind, Step(kind, es, rs[0]).value, rs[1..])
    ensures !IsEmpty(rs[0].quantity) ==> Eligible(kind, rs[0]) && Balanced(kind, es, rs[0])
  {
    if IsEmpty(rs[0].quantity) {
      EmptyStep(kind, es, rs[0]);
      assert forall i :: 0 <= i < |rs[1..]| ==> rs[1..][i] == rs[i + 1];
    } else {
      StepIsExchange(kind, es, rs[0]);
      SafeExchange(kind, es, rs);
    }
  }

  /** Accounts of other names are not touched at all. */
  lemma {:induction false} OtherAccounts(es: seq<Entry>, out: Entry, into: Entry, a: Account)
    requires a.Named? && out.resource.name == into.resource.name && out.resource.quantity == into.resource.quantity
    requires a != Named(out.resource.name, KindOf(out.resource.quantity)) || !out.resource.quantity.Scalar?
    ensures Leak(es, out, into, a) == 0
  {
    assert At(out, a).num == 0 && At(into, a).num == 0;
  }

  lemma {:induction false} BalancedStepDoesNotLeak(kind: ChangeKind, es: seq<Entry>, r: Resource, a: Account)
    requires Valid(es) && Validate(r) && Proper(r) && Step(kind, es, r).Ok? && a.Named?
    requires !IsEmpty(r.quantity) ==> Eligible(kind, r) && Balanced(kind, es, r)
    ensures StepLeak(kind, es, r, a) == 0
  {
    if !IsEmpty(r.quantity) {
      var own := Named(r.name, KindOf(r.quantity));
      if a == own {
        StepLeakMeaning(kind, es, r, own);
      } else {
        BothSidesStored(kind, r);
        OtherAccounts(es, Wrap(Taken(kind, r)), Wrap(Given(kind, r)), a);
      }
    }
  }

  lemma {:induction false} SafeStepsDoNotLeak(kind: ChangeKind, es: seq<Entry>, rs: seq<Resource>, a: Account)
    requires Valid(es) && a.Named? && AllProper(rs) && Safe(kind, es, rs)
    requires forall i :: 0 <= i < |rs| ==> Validate(rs[i])
    requires Steps(kind, es, rs).Ok?
    ensures StepsLeak(kind, es, rs, a) == 0
    decreases |rs|
  {
    if rs != [] {
      assert rs[0] in rs && forall x :: x in rs[1..] ==> x in rs;
      SafeStep(kind, es, rs);
      StepTotals(kind, es, rs[0], a);
      BalancedStepDoesNotLeak(kind, es, rs[0], a);
      SafeStepsDoNotLeak(kind, Step(kind, es, rs[0]).value, rs[1..], a);
    }
  }

  // ------------------------------------------------------------ the closing CHECKs

  ghost predicate InAccount(e: Entry, a: Account) {
    a.Named? && e.resource.name == a.name && KindOf(e.resource.quantity) == a.kind
  }

  /** `get<Scalar>(name)`, `get<Ranges>(name)` and `get<Set>(name)`: nothing when there is no such entry. */
  ghost function Total(es: seq<Entry>, a: Account): Option<Amount> {
    if exists i :: 0 <= i < |es| && InAccount(es[i], a) then Some(Balance(es, a)) else None
  }

  lemma {:induction false} BalanceNotNegative(es: seq<Entry>, a: Account)
    requires AllStored(es) && a.Named?
    ensures Balance(es, a).num >= 0
  {
    if es != [] {
      BalanceNotNegative(es[1..], a);
      EmptyMeaning(es[0].resource.quantity);
    }
  }

  lemma {:induction false} BalanceOutside(es: seq<Entry>, a: Account)
    requires a.Named? && forall i :: 0 <= i < |es| ==> !InAccount(es[i], a)
    ensures Balance(es, a) == Zero
  {
    if es != [] {
      var rest := es[1..];
      forall i | 0 <= i < |rest| ensures !InAccount(rest[i], a) { assert rest[i] == es[i + 1]; }
      BalanceOutside(rest, a);
      assert !InAccount(es[0], a) && At(es[0], a) == Zero;
      PlusLaws(Zero, Zero, Zero);
    }
  }

  lemma {:induction false} TotalMeaning(es: seq<Entry>, a: Account)
    requires Valid(es) && a.Named?
    ensures Total(es, a) == if Balance(es, a) == Zero then None else Some(Balance(es, a))
  {
    if i :| 0 <= i < |es| && InAccount(es[i], a) {
      var rest := es[..i] + es[i + 1..];
      forall k | 0 <= k < |rest| ensures Stored(rest[k]) { assert rest[k] == es[if k < i then k else k + 1]; }
      BalanceNotNegative(rest, a);
      BalanceSplit(es, i, a);
      EmptyMeaning(es[i].resource.quantity);
    } else {
      BalanceOutside(es, a);
    }
  }

  ghost predicate SafeOperation(es: seq<Entry>, op: Operation) {
    op.Change? ==> AllProper(op.resources) && Safe(op.kind, es, op.resources)
  }

  lemma {:induction false} SameTotal(es: seq<Entry>, after: seq<Entry>, a: Account)
    requires Valid(es) && Valid(after) && a.Named?
    requires Balance(after, a).num == Balance(es, a).num && Balance(after, a).atoms == Balance(es, a).atoms
    ensures Total(after, a) == Total(es, a)
  {
    TotalMeaning(es, a);
    TotalMeaning(after, a);
  }

  lemma {:induction false} StepsConserve(kind: ChangeKind, es: seq<Entry>, rs: seq<Resource>, a: Account)
    requires Valid(es) && a.Named? && AllProper(rs) && Safe(kind, es, rs)
    requires forall i :: 0 <= i < |rs| ==> Validate(rs[i])
    requires Steps(kind, es, rs).Ok?
    ensures Valid(Steps(kind, es, rs).value)
    ensures Total(Steps(kind, es, rs).value, a) == Total(es, a)
  {
    StepsTotals(kind, es, rs, a);
    SafeStepsDoNotLeak(kind, es, rs, a);
    SameTotal(es, Steps(kind, es, rs).value, a);
  }

  /** Whatever `apply` accepts of safe operands, the total of every name and type is conserved, and in particular
      the closing CHECKs on cpus, gpus, mem, disk and ports hold. */
  lemma {:induction false} ApplyConserves(es: seq<Entry>, op: Operation)
    requires Valid(es) && SafeOperation(es, op) && Apply(es, op).Ok?
    ensures Valid(Apply(es, op).value)
    ensures forall a: Account :: a.Named? ==> Total(Apply(es, op).value, a) == Total(es, a)
  {
    if op.Change? {
      StepsConserve(op.kind, es, op.resources, Named("", SCALAR));
      forall a: Account | a.Named? ensures Total(Apply(es, op).value, a) == Total(es, a) {
        StepsConserve(op.kind, es, op.resources, a);
      }
    }
  }
}
