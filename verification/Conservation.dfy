/**
 When `Resources::apply` (liburb/source/resources.cpp) conserves the totals, and when one of its closing CHECKs fails,
 computed from the vector and the operands before the call.

 `get<Scalar>` counts a shared volume once however many copies are held, so that the total of "disk" moves whenever copies
 stay behind on one side of an exchange only.
 */
module Conservation {
  import opened Wrappers
  import opened Values
  import opened ResourceModel
  import opened Entries
  import opened Containment
  import opened Validation
  import opened Collections
  import opened Operations

  const DISK: Account := Named("disk", SCALAR)

  // ------------------------------------------------------------ what a caller can compute

  /** By how many copies an operand changes what is held in a slot. */
  ghost function Moved(kind: ChangeKind, r: Resource, s: Slot): int {
    if IsEmpty(r.quantity) || !Eligible(kind, r) then 0
    else (if SlotOf(Given(kind, r)) == s then 1 else 0) - (if SlotOf(Taken(kind, r)) == s then 1 else 0)
  }

  /** How many copies are held in a slot when the first `n` operands are through. */
  ghost function Copies(kind: ChangeKind, es: seq<Entry>, rs: seq<Resource>, n: nat, s: Slot): int
    requires n <= |rs|
  {
    if n == 0 then Holds(es, s).num else Copies(kind, es, rs, n - 1, s) + Moved(kind, rs[n - 1], s)
  }

  /** How far an operand moves the total of "disk", from the copies held in the slots it fills and empties. */
  ghost function LeakOf(kind: ChangeKind, r: Resource, given: int, taken: int): int {
    if IsEmpty(r.quantity) || !Eligible(kind, r) || !r.quantity.Scalar? then 0
    else (if Given(kind, r).shared && given > 0 then 0 else r.quantity.fixed) -
         (if Taken(kind, r).shared && taken != 1 then 0 else r.quantity.fixed)
  }

  ghost function OperandLeak(kind: ChangeKind, es: seq<Entry>, rs: seq<Resource>, i: nat): int
    requires i < |rs|
  {
    if !Eligible(kind, rs[i]) then 0
    else LeakOf(kind, rs[i], Copies(kind, es, rs, i, SlotOf(Given(kind, rs[i]))),
                             Copies(kind, es, rs, i, SlotOf(Taken(kind, rs[i]))))
  }

  ghost function LeakList(kind: ChangeKind, es: seq<Entry>, rs: seq<Resource>): (leaks: seq<int>)
    ensures |leaks| == |rs| && forall i :: 0 <= i < |rs| ==> leaks[i] == OperandLeak(kind, es, rs, i)
  {
    seq(|rs|, i requires 0 <= i < |rs| => OperandLeak(kind, es, rs, i))
  }

  function SumTo(xs: seq<int>, n: nat): int
    requires n <= |xs|
  {
    if n == 0 then 0 else SumTo(xs, n - 1) + xs[n - 1]
  }

  /** How far a list of operands moves the total of "disk". */
  ghost function Leaks(kind: ChangeKind, es: seq<Entry>, rs: seq<Resource>): int {
    SumTo(LeakList(kind, es, rs), |rs|)
  }

  // ------------------------------------------------------------ one operand

  lemma {:induction false} OneCopyLess(h: Amount)
    requires h == Units(h.num) && Le(Units(1), h)
    ensures Clip(Minus(h, Units(1))).num == h.num - 1
  {
    assert Minus(h, Units(1)) == Units(h.num - 1);
  }

  lemma {:induction false} OperandMoves(kind: ChangeKind, es: seq<Entry>, r: Resource, s: Slot)
    requires Valid(es) && Validate(r) && Proper(r) && Step(kind, es, r).Ok? && s.Whole?
    ensures Holds(Step(kind, es, r).value, s).num == Holds(es, s).num + Moved(kind, r, s)
  {
    if IsEmpty(r.quantity) {
      EmptyStep(kind, es, r);
    } else {
      StepIsExchange(kind, es, r);
      BothSidesStored(kind, r);
      var out, into := Wrap(Taken(kind, r)), Wrap(Given(kind, r));
      ExchangeLaw(es, out, into);
      if s == EntrySlot(out) {
        ContainsEntryMeaning(es, out);
        SlotUnits(es, s);
        OneCopyLess(Holds(es, s));
      }
    }
  }

  /** Something is held in a slot of copies exactly when their number is positive. */
  lemma {:induction false} HeldCopies(es: seq<Entry>, s: Slot)
    requires Valid(es) && s.Whole?
    ensures Holds(es, s) == Zero <==> Holds(es, s).num <= 0
    ensures Holds(es, s) == Units(1) <==> Holds(es, s).num == 1
  {
    SlotUnits(es, s);
  }

  lemma {:induction false} OperandLeaks(kind: ChangeKind, es: seq<Entry>, r: Resource)
    requires Valid(es) && Validate(r) && Proper(r) && Step(kind, es, r).Ok? && Eligible(kind, r)
    ensures StepLeak(kind, es, r, DISK) ==
            LeakOf(kind, r, Holds(es, SlotOf(Given(kind, r))).num, Holds(es, SlotOf(Taken(kind, r))).num)
  {
    if !IsEmpty(r.quantity) {
      var out, into := Wrap(Taken(kind, r)), Wrap(Given(kind, r));
      BothSidesStored(kind, r);
      if out.resource.shared { HeldCopies(es, EntrySlot(out)); }
      if into.resource.shared { HeldCopies(es, EntrySlot(into)); }
      if DISK == Named(r.name, KindOf(r.quantity)) {
        LeakMeaning(es, out, into, DISK);
      } else {
        OtherAccounts(es, out, into, DISK);
      }
    }
  }

  /** The total of every other name and type stays. */
  lemma {:induction false} OtherTotals(kind: ChangeKind, es: seq<Entry>, r: Resource, a: Account)
    requires Valid(es) && Validate(r) && Proper(r) && Step(kind, es, r).Ok? && a.Named? && a != DISK
    ensures StepLeak(kind, es, r, a) == 0
  {
    if !IsEmpty(r.quantity) {
      StepIsExchange(kind, es, r);
      BothSidesStored(kind, r);
      var out, into := Wrap(Taken(kind, r)), Wrap(Given(kind, r));
      if a == Named(r.name, KindOf(r.quantity)) {
        LeakMeaning(es, out, into, a);
      } else {
        OtherAccounts(es, out, into, a);
      }
    }
  }

  // ------------------------------------------------------------ a list of operands

  ghost predicate Moves(kind: ChangeKind, before: seq<Entry>, r: Resource, after: seq<Entry>) {
    Valid(before) && Valid(after) && Validate(r) && Proper(r) && Step(kind, before, r) == Ok(after)
  }

  ghost predicate MovesAt(kind: ChangeKind, rs: seq<Resource>, trace: seq<seq<Entry>>, i: nat)
    requires |trace| == |rs| + 1 && i < |rs|
  {
    Moves(kind, trace[i], rs[i], trace[i + 1])
  }

  /** The vectors an accepted list of operands goes through. */
  ghost predicate IsTrace(kind: ChangeKind, es: seq<Entry>, rs: seq<Resource>, trace: seq<seq<Entry>>) {
    && |trace| == |rs| + 1 && trace[0] == es && Valid(es)
    && (forall i {:trigger MovesAt(kind, rs, trace, i)} :: 0 <= i < |rs| ==> MovesAt(kind, rs, trace, i))
  }

  ghost predicate Accepted(kind: ChangeKind, es: seq<Entry>, rs: seq<Resource>) {
    && Valid(es) && AllProper(rs) && (forall i :: 0 <= i < |rs| ==> Validate(rs[i]))
    && Steps(kind, es, rs).Ok?
  }

  lemma {:induction false} FirstMoves(kind: ChangeKind, es: seq<Entry>, rs: seq<Resource>) returns (next: seq<Entry>)
    requires Accepted(kind, es, rs) && rs != []
    ensures Moves(kind, es, rs[0], next) && Accepted(kind, next, rs[1..])
    ensures Steps(kind, es, rs) == Steps(kind, next, rs[1..])
  {
    next := Step(kind, es, rs[0]).value;
    assert rs[0] in rs && forall r :: r in rs[1..] ==> r in rs;
    StepTotals(kind, es, rs[0], DISK);
    StepsUnfold(kind, es, rs, DISK, next);
  }

  lemma {:induction false} TraceOf(kind: ChangeKind, es: seq<Entry>, rs: seq<Resource>) returns (trace: seq<seq<Entry>>)
    requires Accepted(kind, es, rs)
    ensures IsTrace(kind, es, rs, trace) && Valid(trace[|rs|]) && Steps(kind, es, rs) == Ok(trace[|rs|])
    decreases |rs|
  {
    if rs == [] {
      trace := [es];
    } else {
      var next := FirstMoves(kind, es, rs);
      var later := TraceOf(kind, next, rs[1..]);
      trace := [es] + later;
      TraceCons(kind, es, rs, later, trace);
    }
  }

  lemma {:induction false} TraceCons(kind: ChangeKind, es: seq<Entry>, rs: seq<Resource>, later: seq<seq<Entry>>,
                                     trace: seq<seq<Entry>>)
    requires rs != [] && later != [] && IsTrace(kind, later[0], rs[1..], later) && Moves(kind, es, rs[0], later[0])
    requires trace == [es] + later
    ensures IsTrace(kind, es, rs, trace) && trace[|rs|] == later[|rs| - 1]
  {
    forall i | 0 <= i < |rs| ensures MovesAt(kind, rs, trace, i) {
      if i == 0 { assert MovesAt(kind, rs, trace, 0); } else { MovesLater(kind, es, rs, later, trace, i); }
    }
  }

  lemma {:induction false} MovesLater(kind: ChangeKind, es: seq<Entry>, rs: seq<Resource>, later: seq<seq<Entry>>,
                                      trace: seq<seq<Entry>>, i: nat)
    requires 0 < i < |rs| == |later| && trace == [es] + later && MovesAt(kind, rs[1..], later, i - 1)
    ensures MovesAt(kind, rs, trace, i)
  {
    assert trace[i] == later[i - 1] && trace[i + 1] == later[i] && rs[i] == rs[1..][i - 1];
  }

  lemma {:induction false} TracedCopies(kind: ChangeKind, es: seq<Entry>, rs: seq<Resource>, trace: seq<seq<Entry>>, i: nat,
                                        s: Slot)
    requires IsTrace(kind, es, rs, trace) && i < |rs| && s.Whole?
    ensures Holds(trace[i + 1], s).num == Holds(trace[i], s).num + Moved(kind, rs[i], s)
  {
    assert MovesAt(kind, rs, trace, i);
    OperandMoves(kind, trace[i], rs[i], s);
  }

  /** The copies held along the way are those a caller can count. */
  lemma {:induction false} CopiesHeld(kind: ChangeKind, es: seq<Entry>, rs: seq<Resource>, trace: seq<seq<Entry>>, n: nat,
                                      s: Slot)
    requires IsTrace(kind, es, rs, trace) && n <= |rs| && s.Whole?
    ensures Holds(trace[n], s).num == Copies(kind, es, rs, n, s)
  {
    if n > 0 {
      CopiesHeld(kind, es, rs, trace, n - 1, s);
      TracedCopies(kind, es, rs, trace, n - 1, s);
    }
  }

  /** The leak of each operand, from the copies a caller can count. */
  lemma {:induction false} LeakCounted(kind: ChangeKind, es: seq<Entry>, rs: seq<Resource>, trace: seq<seq<Entry>>, i: nat)
    requires IsTrace(kind, es, rs, trace) && i < |rs|
    ensures StepLeak(kind, trace[i], rs[i], DISK) == OperandLeak(kind, es, rs, i)
  {
    var r := rs[i];
    if Eligible(kind, r) {
      assert MovesAt(kind, rs, trace, i);
      OperandLeaks(kind, trace[i], r);
      if Given(kind, r).shared { CopiesHeld(kind, es, rs, trace, i, SlotOf(Given(kind, r))); }
      if Taken(kind, r).shared { CopiesHeld(kind, es, rs, trace, i, SlotOf(Taken(kind, r))); }
    }
  }

  lemma {:induction false} TracedTotals(kind: ChangeKind, es: seq<Entry>, rs: seq<Resource>, trace: seq<seq<Entry>>, i: nat,
                                        a: Account)
    requires IsTrace(kind, es, rs, trace) && i < |rs| && a.Named?
    ensures Balance(trace[i + 1], a).atoms == Balance(trace[i], a).atoms
    ensures Balance(trace[i + 1], a).num == Balance(trace[i], a).num + if a == DISK then OperandLeak(kind, es, rs, i) else 0
  {
    assert MovesAt(kind, rs, trace, i);
    StepTotals(kind, trace[i], rs[i], a);
    if a == DISK { LeakCounted(kind, es, rs, trace, i); } else { OtherTotals(kind, trace[i], rs[i], a); }
  }

  lemma {:induction false} Telescopes(trace: seq<seq<Entry>>, a: Account, leaks: seq<int>, n: nat)
    requires |trace| == |leaks| + 1 && n <= |leaks|
    requires forall i :: 0 <= i < |leaks| ==> Balance(trace[i + 1], a).num == Balance(trace[i], a).num + leaks[i]
    requires forall i :: 0 <= i < |leaks| ==> Balance(trace[i + 1], a).atoms == Balance(trace[i], a).atoms
    ensures Balance(trace[n], a).num == Balance(trace[0], a).num + SumTo(leaks, n)
    ensures Balance(trace[n], a).atoms == Balance(trace[0], a).atoms
  {
    if n > 0 { Telescopes(trace, a, leaks, n - 1); }
  }

  lemma {:induction false} SumOfZeros(xs: seq<int>, n: nat)
    requires n <= |xs| && forall i :: 0 <= i < |xs| ==> xs[i] == 0
    ensures SumTo(xs, n) == 0
  {
    if n > 0 { SumOfZeros(xs, n - 1); }
  }

  /** The exact account of an accepted operation: the scalar total of "disk" moves by the leaks, and nothing else moves. */
  lemma {:induction false} TotalsMove(kind: ChangeKind, es: seq<Entry>, rs: seq<Resource>, trace: seq<seq<Entry>>, a: Account)
    requires IsTrace(kind, es, rs, trace) && a.Named?
    ensures Balance(trace[|rs|], a).atoms == Balance(es, a).atoms
    ensures Balance(trace[|rs|], a).num == Balance(es, a).num + if a == DISK then Leaks(kind, es, rs) else 0
  {
    var leaks := if a == DISK then LeakList(kind, es, rs) else seq(|rs|, _ => 0);
    forall i | 0 <= i < |leaks|
      ensures Balance(trace[i + 1], a).num == Balance(trace[i], a).num + leaks[i]
      ensures Balance(trace[i + 1], a).atoms == Balance(trace[i], a).atoms
    {
      TracedTotals(kind, es, rs, trace, i, a);
    }
    Telescopes(trace, a, leaks, |rs|);
    if a != DISK { SumOfZeros(leaks, |rs|); }
  }

  // ------------------------------------------------------------ conservation, exactly

  lemma {:induction false} HeldIsPresent(es: seq<Entry>, e: Entry)
    requires Valid(es) && Stored(e) && Holds(es, EntrySlot(e)) != Zero
    ensures Total(es, Named(e.resource.name, KindOf(e.resource.quantity))).Some?
  {
    HoldsPositive(es, EntrySlot(e));
    var i :| 0 <= i < |es| && EntrySlot(es[i]) == EntrySlot(e);
    assert KeyOf(es[i].resource) == KeyOf(e.resource);
    assert InAccount(es[i], Named(e.resource.name, KindOf(e.resource.quantity)));
  }

  lemma {:induction false} PositiveSum(a: Amount, b: Amount)
    requires (a == Zero || Positive(a)) && Positive(b)
    ensures Plus(a, b) != Zero
  {
  }

  lemma {:induction false} ExchangePresence(es: seq<Entry>, out: Entry, into: Entry)
    requires Valid(es) && Stored(out) && Stored(into) && EntrySlot(out) != EntrySlot(into) && ContainsEntry(es, out)
    ensures Total(es, Named(out.resource.name, KindOf(out.resource.quantity))).Some?
    ensures Valid(Exchange(es, out, into))
    ensures Total(Exchange(es, out, into), Named(into.resource.name, KindOf(into.resource.quantity))).Some?
  {
    ExchangeLaw(es, out, into);
    ContainsEntryMeaning(es, out);
    SharePositive(out);
    HeldIsPresent(es, out);
    SharePositive(into);
    HoldsPositive(es, EntrySlot(into));
    PositiveSum(Holds(es, EntrySlot(into)), Share(into));
    HeldIsPresent(Exchange(es, out, into), into);
  }

  lemma {:induction false} ExchangeElsewhere(es: seq<Entry>, out: Entry, into: Entry, a: Account)
    requires Valid(es) && Stored(out) && Stored(into) && EntrySlot(out) != EntrySlot(into) && ContainsEntry(es, out)
    requires out.resource.name == into.resource.name && out.resource.quantity == into.resource.quantity
    requires a.Named? && a != Named(out.resource.name, KindOf(out.resource.quantity))
    ensures Total(Exchange(es, out, into), a) == Total(es, a)
  {
    ExchangeLaw(es, out, into);
    ExchangeTotals(es, out, into, a);
    OtherAccounts(es, out, into, a);
    SameTotal(es, Exchange(es, out, into), a);
  }

  /** An operand makes no name appear or disappear. */
  lemma {:induction false} StepPresence(kind: ChangeKind, es: seq<Entry>, r: Resource, a: Account)
    requires Valid(es) && Validate(r) && Proper(r) && Step(kind, es, r).Ok? && a.Named?
    ensures Total(Step(kind, es, r).value, a).Some? <==> Total(es, a).Some?
  {
    if IsEmpty(r.quantity) {
      EmptyStep(kind, es, r);
    } else {
      StepIsExchange(kind, es, r);
      BothSidesStored(kind, r);
      var out, into := Wrap(Taken(kind, r)), Wrap(Given(kind, r));
      if a == Named(r.name, KindOf(r.quantity)) {
        ExchangePresence(es, out, into);
      } else {
        ExchangeElsewhere(es, out, into, a);
      }
    }
  }

  lemma {:induction false} TracedPresence(kind: ChangeKind, es: seq<Entry>, rs: seq<Resource>, trace: seq<seq<Entry>>, n: nat,
                                          a: Account)
    requires IsTrace(kind, es, rs, trace) && n <= |rs| && a.Named?
    ensures Total(trace[n], a).Some? <==> Total(es, a).Some?
  {
    if n > 0 {
      TracedPresence(kind, es, rs, trace, n - 1, a);
      PresenceStep(kind, es, rs, trace, n - 1, a);
    }
  }

  lemma {:induction false} PresenceStep(kind: ChangeKind, es: seq<Entry>, rs: seq<Resource>, trace: seq<seq<Entry>>, i: nat,
                                        a: Account)
    requires IsTrace(kind, es, rs, trace) && i < |rs| && a.Named?
    ensures Total(trace[i + 1], a).Some? <==> Total(trace[i], a).Some?
  {
    assert MovesAt(kind, rs, trace, i);
    StepPresence(kind, trace[i], rs[i], a);
  }

  lemma {:induction false} MovedTotal(es: seq<Entry>, after: seq<Entry>, a: Account, drift: int)
    requires Balance(after, a).atoms == Balance(es, a).atoms && Balance(after, a).num == Balance(es, a).num + drift
    requires Total(after, a).Some? <==> Total(es, a).Some?
    ensures Total(after, a) == Shifted(Total(es, a), drift)
  {
  }

  function Shifted(total: Option<Amount>, drift: int): Option<Amount> {
    match total case None => None case Some(t) => Some(Amount(t.num + drift, t.atoms))
  }

  lemma {:induction false} ChangeMoves(kind: ChangeKind, es: seq<Entry>, rs: seq<Resource>, after: seq<Entry>, a: Account)
    requires Accepted(kind, es, rs) && Steps(kind, es, rs) == Ok(after) && a.Named?
    ensures Valid(after) && Total(after, a) == Shifted(Total(es, a), if a == DISK then Leaks(kind, es, rs) else 0)
  {
    var trace := TraceOf(kind, es, rs);
    TotalsMove(kind, es, rs, trace, a);
    TracedPresence(kind, es, rs, trace, |rs|, a);
    MovedTotal(es, after, a, if a == DISK then Leaks(kind, es, rs) else 0);
  }

  ghost predicate ProperOperation(op: Operation) { op.Change? ==> AllProper(op.resources) }

  /** How far an operation moves the total of "disk". */
  ghost function Drift(es: seq<Entry>, op: Operation): int {
    if op.Change? then Leaks(op.kind, es, op.resources) else 0
  }

  /** What `apply` accepts moves the scalar total of "disk" by the drift, and no other total at all. */
  lemma {:induction false} ApplyMoves(es: seq<Entry>, op: Operation, after: seq<Entry>, a: Account)
    requires Valid(es) && ProperOperation(op) && Apply(es, op) == Ok(after) && a.Named?
    ensures Valid(after) && Total(after, a) == Shifted(Total(es, a), if a == DISK then Drift(es, op) else 0)
  {
    if op.Change? { ChangeMoves(op.kind, es, op.resources, after, a); }
  }

  lemma {:induction false} LeakIsPresent(kind: ChangeKind, es: seq<Entry>, r: Resource)
    requires Valid(es) && Validate(r) && Proper(r) && Step(kind, es, r).Ok? && StepLeak(kind, es, r, DISK) != 0
    ensures Total(es, DISK).Some?
  {
    StepIsExchange(kind, es, r);
    BothSidesStored(kind, r);
    var out, into := Wrap(Taken(kind, r)), Wrap(Given(kind, r));
    if DISK == Named(r.name, KindOf(r.quantity)) {
      ContainsEntryMeaning(es, out);
      SharePositive(out);
      HeldIsPresent(es, out);
    } else {
      OtherAccounts(es, out, into, DISK);
    }
  }

  lemma {:induction false} NonZeroTerm(xs: seq<int>, n: nat) returns (i: nat)
    requires n <= |xs| && SumTo(xs, n) != 0
    ensures i < n && xs[i] != 0
  {
    i := n - 1;
    if xs[i] == 0 { i := NonZeroTerm(xs, n - 1); }
  }

  lemma {:induction false} DriftIsPresent(kind: ChangeKind, es: seq<Entry>, rs: seq<Resource>)
    requires Accepted(kind, es, rs) && Leaks(kind, es, rs) != 0
    ensures Total(es, DISK).Some?
  {
    var trace := TraceOf(kind, es, rs);
    var i := NonZeroTerm(LeakList(kind, es, rs), |rs|);
    LeakCounted(kind, es, rs, trace, i);
    assert MovesAt(kind, rs, trace, i);
    LeakIsPresent(kind, trace[i], rs[i]);
    TracedPresence(kind, es, rs, trace, i, DISK);
  }

  /** The totals are conserved if and only if the drift is zero. */
  lemma {:induction false} ApplyConservesExactly(es: seq<Entry>, op: Operation, after: seq<Entry>)
    requires Valid(es) && ProperOperation(op) && Apply(es, op) == Ok(after)
    ensures (forall a: Account :: a.Named? ==> Total(after, a) == Total(es, a)) <==> Drift(es, op) == 0
  {
    forall a: Account | a.Named? ensures a != DISK || Drift(es, op) == 0 ==> Total(after, a) == Total(es, a) {
      ApplyMoves(es, op, after, a);
    }
    ApplyMoves(es, op, after, DISK);
    if Drift(es, op) != 0 { DriftIsPresent(op.kind, es, op.resources); }
  }

  // ------------------------------------------------------------ CREATE and DESTROY

  ghost predicate AllEligible(kind: ChangeKind, rs: seq<Resource>) {
    forall i {:trigger Eligible(kind, rs[i])} :: 0 <= i < |rs| && !IsEmpty(rs[i].quantity) ==> Eligible(kind, rs[i])
  }

  lemma {:induction false} AcceptedEligible(kind: ChangeKind, es: seq<Entry>, rs: seq<Resource>)
    requires Accepted(kind, es, rs)
    ensures AllEligible(kind, rs)
  {
    var trace := TraceOf(kind, es, rs);
    forall i | 0 <= i < |rs| && !IsEmpty(rs[i].quantity) ensures Eligible(kind, rs[i]) {
      assert MovesAt(kind, rs, trace, i);
      StepIsExchange(kind, trace[i], rs[i]);
    }
  }

  lemma {:induction false} CreateMoves(r: Resource, s: Slot)
    requires s.Whole? && s.shared && !IsEmpty(s.quantity) && (!IsEmpty(r.quantity) ==> Eligible(CREATE, r))
    ensures Moved(CREATE, r, s) == if SlotOf(r) == s then 1 else 0
  {
  }

  lemma {:induction false} CreateMovesAt(es: seq<Entry>, rs: seq<Resource>, i: nat, s: Slot)
    requires AllEligible(CREATE, rs) && i < |rs| && s.Whole? && s.shared && !IsEmpty(s.quantity)
    ensures Copies(CREATE, es, rs, i + 1, s) == Copies(CREATE, es, rs, i, s) + if SlotOf(rs[i]) == s then 1 else 0
  {
    if !IsEmpty(rs[i].quantity) { assert Eligible(CREATE, rs[i]); }
    CreateMoves(rs[i], s);
  }

  ghost predicate InList(rs: seq<Resource>, n: nat, s: Slot)
    requires n <= |rs|
  {
    exists j :: 0 <= j < n && SlotOf(rs[j]) == s
  }

  lemma {:induction false} InListNext(rs: seq<Resource>, i: nat, s: Slot)
    requires i < |rs|
    ensures InList(rs, i + 1, s) <==> InList(rs, i, s) || SlotOf(rs[i]) == s
  {
    if SlotOf(rs[i]) == s { assert InList(rs, i + 1, s); }
  }

  /** Copies of a shared volume only grow in number under CREATE. */
  lemma {:induction false} CreatedCopies(es: seq<Entry>, rs: seq<Resource>, n: nat, s: Slot)
    requires Valid(es) && AllEligible(CREATE, rs) && n <= |rs| && s.Whole? && s.shared && !IsEmpty(s.quantity)
    ensures Copies(CREATE, es, rs, n, s) >= 0
    ensures Copies(CREATE, es, rs, n, s) == 0 <==> Holds(es, s) == Zero && !InList(rs, n, s)
  {
    if n == 0 {
      HeldCopies(es, s);
      SlotUnits(es, s);
    } else {
      CreatedCopies(es, rs, n - 1, s);
      CreateMovesAt(es, rs, n - 1, s);
      InListNext(rs, n - 1, s);
    }
  }

  /** A shared scalar volume that is neither held already nor earlier in the list; any other operand. */
  ghost predicate FirstCopy(es: seq<Entry>, rs: seq<Resource>, i: nat)
    requires i < |rs|
  {
    rs[i].shared && rs[i].quantity.Scalar? && !IsEmpty(rs[i].quantity) ==>
      Holds(es, SlotOf(rs[i])) == Zero && !InList(rs, i, SlotOf(rs[i]))
  }

  ghost predicate NoSecondCopy(es: seq<Entry>, rs: seq<Resource>) {
    forall i :: 0 <= i < |rs| ==> FirstCopy(es, rs, i)
  }

  /** Every operand of CREATE leaks nothing, or takes its size from the total. */
  lemma {:induction false} CreateLeak(es: seq<Entry>, rs: seq<Resource>, i: nat)
    requires Valid(es) && AllEligible(CREATE, rs) && i < |rs| && WellFormed(rs[i].quantity)
    ensures OperandLeak(CREATE, es, rs, i) == if FirstCopy(es, rs, i) then 0 else -rs[i].quantity.fixed
    ensures !FirstCopy(es, rs, i) ==> rs[i].quantity.fixed > 0
  {
    var r := rs[i];
    if r.shared && r.quantity.Scalar? && !IsEmpty(r.quantity) {
      assert Eligible(CREATE, rs[i]);
      CreatedCopies(es, rs, i, SlotOf(r));
    }
  }

  lemma {:induction false} SumNonPositive(xs: seq<int>, n: nat)
    requires n <= |xs| && forall i :: 0 <= i < |xs| ==> xs[i] <= 0
    ensures SumTo(xs, n) <= 0 && (SumTo(xs, n) == 0 <==> forall i :: 0 <= i < n ==> xs[i] == 0)
  {
    if n > 0 { SumNonPositive(xs, n - 1); }
  }

  lemma {:induction false} CreateLeaks(es: seq<Entry>, rs: seq<Resource>)
    requires Accepted(CREATE, es, rs)
    ensures Leaks(CREATE, es, rs) <= 0 && (Leaks(CREATE, es, rs) == 0 <==> NoSecondCopy(es, rs))
  {
    var leaks := LeakList(CREATE, es, rs);
    AcceptedEligible(CREATE, es, rs);
    forall i | 0 <= i < |rs| ensures leaks[i] <= 0 && (leaks[i] == 0 <==> FirstCopy(es, rs, i)) {
      CreateLeak(es, rs, i);
    }
    SumNonPositive(leaks, |rs|);
  }

  /** CREATE conserves the totals if and only if it makes no second copy of a shared volume. */
  lemma {:induction false} CreateConservesExactly(es: seq<Entry>, rs: seq<Resource>, after: seq<Entry>)
    requires Accepted(CREATE, es, rs) && Steps(CREATE, es, rs) == Ok(after)
    ensures (forall a: Account :: a.Named? ==> Total(after, a) == Total(es, a)) <==> NoSecondCopy(es, rs)
  {
    CreateLeaks(es, rs);
    ApplyConservesExactly(es, Change(CREATE, rs), after);
  }

  lemma {:induction false} DestroyConserves(es: seq<Entry>, rs: seq<Resource>)
    requires Accepted(DESTROY, es, rs)
    ensures Leaks(DESTROY, es, rs) == 0
  {
    var trace := TraceOf(DESTROY, es, rs);
    TotalsMove(DESTROY, es, rs, trace, DISK);
    StepsTotals(DESTROY, es, rs, DISK);
    SafeStepsDoNotLeak(DESTROY, es, rs, DISK);
  }
}
