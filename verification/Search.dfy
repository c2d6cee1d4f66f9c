/**
 `Resources::find` (liburb/source/resources.cpp): a greedy search for a target in the target's role, then among
 unreserved resources, then anywhere.
 */
module Search {
  import opened Wrappers
  import opened Values
  import opened ResourceModel
  import opened Entries
  import opened Containment
  import opened Validation
  import opened Collections

  /** The predicates the search goes through. */
  datatype RolePredicate = ReservedFor(role: string) | UnreservedOnly | AnyRole

  predicate Matches(p: RolePredicate, r: Resource) {
    match p
    case ReservedFor(role) => IsReserved(r, Some(role))
    case UnreservedOnly => IsUnreserved(r)
    case AnyRole => true
  }

  /** `Resources::filter` */
  function Filter(found: seq<Entry>, es: seq<Entry>, p: RolePredicate): seq<Entry>
    decreases |es|
  {
    if es == [] then found
    else Filter(if Matches(p, es[0].resource) then Add(found, es[0]) else found, es[1..], p)
  }

  /** One message of the vector, without its reservations. */
  function UnreservedForm(e: Entry): seq<Entry> { ToUnreserved(FromList([], [e.resource])) }

  /** What is left of the target, with the reservations of the entry it is taken from. */
  function Reserve(es: seq<Entry>, reservations: seq<Reservation>): seq<Entry> {
    seq(|es|, i requires 0 <= i < |es| => WithReservations(es[i], reservations))
  }

  datatype Scanned = Nothing | Enough(entry: Entry) | Part(entry: Entry)

  /** The first entry that has all that remains, or is part of it. */
  function Scan(es: seq<Entry>, remaining: seq<Entry>): Scanned {
    if es == [] then Nothing
    else if Contains(UnreservedForm(es[0]), remaining) then Enough(es[0])
    else if Contains(remaining, UnreservedForm(es[0])) then Part(es[0])
    else Scan(es[1..], remaining)
  }

  function FindIn(total: seq<Entry>, found: seq<Entry>, remaining: seq<Entry>, predicates: seq<RolePredicate>): Option<seq<Entry>>
    decreases |predicates|
  {
    if predicates == [] then None
    else
      match Scan(Filter([], total, predicates[0]), remaining)
      case Nothing => FindIn(total, found, remaining, predicates[1..])
      case Enough(e) => Some(AddAll(found, Reserve(remaining, e.resource.reservations)))
      case Part(e) =>
        FindIn(Subtract(total, e), Add(found, e), SubtractAll(remaining, UnreservedForm(e)), predicates[1..])
  }

  function Predicates(target: Resource): seq<RolePredicate> {
    (if IsReserved(target, None) then [ReservedFor(ReservationRole(target))] else []) + [UnreservedOnly, AnyRole]
  }

  function Find(es: seq<Entry>, target: Resource): Option<seq<Entry>> {
    FindIn(es, [], ToUnreserved(FromList([], [target])), Predicates(target))
  }

  // ------------------------------------------------------------ every stored message is valid

  /** Every stored message also passes `validate`. */
  ghost predicate Genuine(es: seq<Entry>) {
    Valid(es) && forall i :: 0 <= i < |es| ==> Validate(es[i].resource)
  }

  lemma {:induction false} GenuineTail(es: seq<Entry>)
    requires Genuine(es) && es != []
    ensures Genuine(es[1..])
  {
    ValidTail(es);
    assert forall i :: 0 <= i < |es[1..]| ==> es[1..][i] == es[i + 1];
  }

  lemma {:induction false} QuantityKeepsValid(r: Resource, q: Quantity)
    requires Validate(r) && WellFormed(q)
    ensures Validate(r.(quantity := q))
  {
    assert r.(quantity := q).reservations == r.reservations;
  }

  lemma {:induction false} AddGenuine(es: seq<Entry>, that: Entry)
    requires Genuine(es) && Stored(that) && Validate(that.resource)
    ensures Genuine(Add(es, that))
  {
    AddLaw(es, that);
    var i := MergeCases(es, that);
    if i < |es| {
      EntryPlusLaw(es[i], that);
      if !es[i].resource.shared { QuantityKeepsValid(es[i].resource, EntryPlus(es[i], that).resource.quantity); }
    }
  }

  lemma {:induction false} SubtractGenuine(es: seq<Entry>, that: Entry)
    requires Genuine(es) && Stored(that)
    ensures Genuine(Subtract(es, that)) && |Subtract(es, that)| <= |es|
    ensures forall i :: 0 <= i < |Subtract(es, that)| ==>
              exists j :: 0 <= j < |es| && Subtract(es, that)[i].resource.reservations == es[j].resource.reservations
  {
    SubtractLaw(es, that);
    var i := FirstSubtractable(es, that);
    var es' := Subtract(es, that);
    if i < |es| {
      var d := SubtractCases(es, i, that);
      if es' == SwapRemove(es, i) {
        forall k | 0 <= k < |es'| ensures es'[k] == es[if k == i then |es| - 1 else k] {}
      } else {
        assert EntryMinus(es[i], that).resource.reservations == es[i].resource.reservations;
        if !es[i].resource.shared { QuantityKeepsValid(es[i].resource, es'[i].resource.quantity); }
      }
    }
  }

  // ------------------------------------------------------------ filter and scan

  function Select(es: seq<Entry>, p: RolePredicate): seq<Entry> {
    if es == [] then []
    else (if Matches(p, es[0].resource) then [es[0]] else []) + Select(es[1..], p)
  }

  ghost predicate Apart(x: seq<Entry>, y: seq<Entry>) {
    forall i, j :: 0 <= i < |x| && 0 <= j < |y| ==> !Addable(x[i].resource, y[j].resource)
  }

  lemma {:induction false} ValidApart(es: seq<Entry>)
    requires Valid(es) && es != []
    ensures Apart([es[0]], es[1..])
  {
    forall j | 0 <= j < |es[1..]| ensures !Addable(es[0].resource, es[1..][j].resource) {
      assert es[1..][j] == es[j + 1];
      SlotMeaning(es[0].resource, es[j + 1].resource);
    }
  }

  /** In a valid vector nothing merges, so that `filter` picks a subsequence. */
  lemma {:induction false} FilterSelects(found: seq<Entry>, es: seq<Entry>, p: RolePredicate)
    requires Valid(es) && Apart(found, es)
    ensures Filter(found, es, p) == found + Select(es, p)
    decreases |es|
  {
    if es != [] {
      ValidTail(es);
      ValidApart(es);
      var rest := es[1..];
      if Matches(p, es[0].resource) {
        var i := MergeCases(found, es[0]);
        assert Add(found, es[0]) == found + [es[0]];
        var found' := found + [es[0]];
        forall a, b | 0 <= a < |found'| && 0 <= b < |rest| ensures !Addable(found'[a].resource, rest[b].resource) {
          if a < |found| { assert rest[b] == es[b + 1]; } else { assert [es[0]][0] == es[0]; }
        }
        FilterSelects(found', rest, p);
        assert found + [es[0]] + Select(rest, p) == found + ([es[0]] + Select(rest, p));
      } else {
        forall a, b | 0 <= a < |found| && 0 <= b < |rest| ensures !Addable(found[a].resource, rest[b].resource) {
          assert rest[b] == es[b + 1];
        }
        FilterSelects(found, rest, p);
      }
    }
  }

  lemma {:induction false} SelectIn(es: seq<Entry>, p: RolePredicate)
    ensures forall e :: e in Select(es, p) ==> e in es && Matches(p, e.resource)
  {
    if es != [] { SelectIn(es[1..], p); }
  }

  lemma {:induction false} ScanIn(es: seq<Entry>, remaining: seq<Entry>)
    ensures var r := Scan(es, remaining);
            && (r.Enough? ==> r.entry in es && Contains(UnreservedForm(r.entry), remaining))
            && (r.Part? ==> r.entry in es && Contains(remaining, UnreservedForm(r.entry))
                            && !Contains(UnreservedForm(r.entry), remaining))
  {
    if es != [] { ScanIn(es[1..], remaining); }
  }

  /** Whatever the search looks at is an entry of what is left of the vector. */
  lemma {:induction false} ScannedIn(total: seq<Entry>, p: RolePredicate, remaining: seq<Entry>)
    requires Valid(total)
    ensures var r := Scan(Filter([], total, p), remaining);
            && (r.Enough? ==> r.entry in total && Contains(UnreservedForm(r.entry), remaining))
            && (r.Part? ==> r.entry in total && Contains(remaining, UnreservedForm(r.entry))
                            && !Contains(UnreservedForm(r.entry), remaining))
  {
    FilterSelects([], total, p);
    SelectIn(total, p);
    ScanIn(Filter([], total, p), remaining);
  }

  // ------------------------------------------------------------ one entry, unreserved

  function Bare(e: Entry): Entry { WithReservations(Wrap(e.resource), []) }

  lemma {:induction false} UnreservedFormIs(e: Entry)
    requires Stored(e) && Validate(e.resource)
    ensures UnreservedForm(e) == [Bare(e)]
  {
    SingleMessage(e.resource);
    assert Cleared([Wrap(e.resource)]) == [Bare(e)];
    AddAllSingle([], Bare(e));
  }

  lemma {:induction false} ClearedKey(r: Resource, reservations: seq<Reservation>)
    ensures KeyOf(r.(reservations := [])) == KeyOf(r).(reservations := [])
    ensures KeyOf(r.(reservations := reservations)).reservations ==
            seq(|reservations|, i requires 0 <= i < |reservations| => ReservationKeyOf(reservations[i]))
    ensures KeyOf(r.(reservations := reservations)).(reservations := []) == KeyOf(r).(reservations := [])
  {
    assert KeyOf(r.(reservations := [])).reservations == [];
  }

  lemma {:induction false} BareEntry(e: Entry)
    requires Stored(e)
    ensures Stored(Bare(e)) && EntrySlot(Bare(e)) == ClearSlot(EntrySlot(e))
    ensures Share(Bare(e)) == if e.resource.shared then Units(1) else Share(e)
  {
    ClearedKey(e.resource, []);
  }

  lemma {:induction false} ContainsSingle(x: Entry, t: Entry)
    requires Stored(x) && Stored(t)
    ensures Contains([x], [t]) <==> EntrySlot(x) == EntrySlot(t) && Le(Share(t), Share(x))
  {
    EntryContainsMeaning(x, t);
    assert [t][1..] == [];
    assert ContainsEntry([x], t) <==> EntryContains([x][0], t);
  }

  // ------------------------------------------------------------ soundness

  /** What remains of the target: at most one entry, unreserved, and one copy if it is handed out whole. */
  ghost predicate Remainder(es: seq<Entry>) {
    |es| <= 1 &&
    (es != [] ==> && Stored(es[0]) && es[0].resource.reservations == []
                  && (EntrySlot(es[0]).Whole? ==> Share(es[0]) == Units(1)))
  }

  /** Nothing is lost: what was taken out of the vector is in `found`, and `found`, with reservations left aside,
      makes up the goal together with the remainder. */
  ghost predicate Invariant(es: seq<Entry>, goal: seq<Entry>, total: seq<Entry>, found: seq<Entry>, remaining: seq<Entry>) {
    && Genuine(total) && Valid(found) && Remainder(remaining)
    && (forall s :: Plus(Holds(total, s), Holds(found, s)) == Holds(es, s))
    && (forall s :: Plus(Balance(found, Unreserved(s)), Holds(remaining, s)) == Holds(goal, s))
  }

  /** What the search promises of its result. */
  ghost predicate Answers(es: seq<Entry>, goal: seq<Entry>, found: seq<Entry>) {
    && Valid(found)
    && (forall s :: Le(Holds(found, s), Holds(es, s)))
    && (forall s :: Balance(found, Unreserved(s)) == Holds(goal, s))
  }

  lemma {:induction false} EntryHeld(es: seq<Entry>, e: Entry)
    requires Valid(es) && e in es
    ensures Stored(e) && ContainsEntry(es, e) && Le(Share(e), Holds(es, EntrySlot(e)))
  {
    var i :| 0 <= i < |es| && es[i] == e;
    EntryContainsMeaning(e, e);
    assert EntryContains(es[i], e);
    ContainsEntryMeaning(es, e);
  }

  /** Giving the remainder the reservations of an entry puts it into the slot of that entry. */
  lemma {:induction false} RemainderInSlot(t: Entry, e: Entry)
    requires Stored(t) && Stored(e) && t.resource.reservations == []
    requires EntrySlot(t) == ClearSlot(EntrySlot(e))
    ensures var t' := WithReservations(t, e.resource.reservations);
            Stored(t') && EntrySlot(t') == EntrySlot(e) && Share(t') == Share(t)
  {
    ClearedKey(t.resource, e.resource.reservations);
    ClearedKey(e.resource, e.resource.reservations);
    var t' := WithReservations(t, e.resource.reservations);
    assert KeyOf(t'.resource) == KeyOf(e.resource);
  }

  lemma {:induction false} AddUnreserved(es: seq<Entry>, e: Entry, s: Slot)
    requires Valid(es) && Stored(e)
    ensures Balance(Add(es, e), Unreserved(s)) == Plus(Balance(es, Unreserved(s)), At(e, Unreserved(s)))
  {
    AddLaw(es, e);
    assert Balance(Add(es, e), Unreserved(s)) == Plus(Balance(es, Unreserved(s)), Gain(es, e, Unreserved(s)));
  }

  /** The last piece: an entry has all that remains. */
  lemma {:induction false} EnoughStep(es: seq<Entry>, goal: seq<Entry>, total: seq<Entry>, found: seq<Entry>, remaining: seq<Entry>, e: Entry)
    requires Invariant(es, goal, total, found, remaining) && e in total && Contains(UnreservedForm(e), remaining)
    ensures Answers(es, goal, AddAll(found, Reserve(remaining, e.resource.reservations)))
  {
    EntryHeld(total, e);
    if remaining == [] {
      forall s ensures Le(Holds(found, s), Holds(es, s)) && Balance(found, Unreserved(s)) == Holds(goal, s) {
        NothingRemains(es, goal, total, found, remaining, s);
      }
    } else {
      var t := remaining[0];
      var t' := WithReservations(t, e.resource.reservations);
      assert remaining == [t];
      assert Reserve(remaining, e.resource.reservations) == [t'];
      AddAllSingle(found, t');
      UnreservedFormIs(e);
      BareEntry(e);
      ContainsSingle(Bare(e), t);
      RemainderInSlot(t, e);
      AddHolds(found, t');
      assert Le(Share(t'), Share(e));
      forall s ensures Le(Holds(Add(found, t'), s), Holds(es, s)) {
        LastPieceHeld(es, total, found, t', s);
      }
      forall s ensures Balance(Add(found, t'), Unreserved(s)) == Holds(goal, s) {
        AddUnreserved(found, t', s);
        SingleHolds(t, s);
        assert Plus(Balance(found, Unreserved(s)), Holds(remaining, s)) == Holds(goal, s);
        ClearIdempotent(t);
      }
    }
  }

  lemma {:induction false} NothingRemains(es: seq<Entry>, goal: seq<Entry>, total: seq<Entry>, found: seq<Entry>, remaining: seq<Entry>, s: Slot)
    requires Invariant(es, goal, total, found, remaining) && remaining == []
    ensures Le(Holds(found, s), Holds(es, s)) && Balance(found, Unreserved(s)) == Holds(goal, s)
  {
    HoldsPositive(total, s);
    assert Plus(Holds(total, s), Holds(found, s)) == Holds(es, s);
    assert Plus(Balance(found, Unreserved(s)), Holds(remaining, s)) == Holds(goal, s);
    PlusLaws(Balance(found, Unreserved(s)), Zero, Zero);
  }

  lemma {:induction false} SingleHolds(t: Entry, s: Slot)
    ensures Holds([t], s) == At(t, InSlot(s))
  {
    HoldsTail([t], s);
    assert [t][1..] == [];
    PlusLaws(Share(t), Zero, Zero);
  }

  lemma {:induction false} ClearIdempotent(t: Entry)
    requires t.resource.reservations == []
    ensures ClearSlot(EntrySlot(t)) == EntrySlot(t)
  {
    assert KeyOf(t.resource).reservations == [];
  }

  lemma {:induction false} LastPieceHeld(es: seq<Entry>, total: seq<Entry>, found: seq<Entry>, t: Entry, s: Slot)
    requires Valid(total) && Valid(found) && Stored(t) && Plus(Holds(total, s), Holds(found, s)) == Holds(es, s)
    requires Le(Share(t), Holds(total, EntrySlot(t)))
    ensures Le(Holds(Add(found, t), s), Holds(es, s))
  {
    AddHolds(found, t);
    HoldsPositive(total, s);
  }

  /** A part that does not suffice is divisible. */
  lemma {:induction false} PartIsDivisible(remaining: seq<Entry>, e: Entry)
    requires Remainder(remaining) && Stored(e) && Validate(e.resource)
    requires Contains(remaining, UnreservedForm(e)) && !Contains(UnreservedForm(e), remaining)
    ensures remaining != [] && EntrySlot(e).Divisible? && UnreservedForm(e) == [Bare(e)]
    ensures EntrySlot(remaining[0]) == EntrySlot(Bare(e)) == ClearSlot(EntrySlot(e))
    ensures Stored(Bare(e)) && Share(Bare(e)) == Share(e) && Le(Share(e), Share(remaining[0]))
  {
    UnreservedFormIs(e);
    BareEntry(e);
    NotInEmpty(Bare(e));
    assert remaining != [];
    var t := remaining[0];
    assert remaining == [t];
    ContainsSingle(t, Bare(e));
    ContainsSingle(Bare(e), t);
  }

  lemma {:induction false} NotInEmpty(e: Entry)
    ensures !Contains([], [e])
  {
    assert !ContainsEntry([], e);
  }

  lemma {:induction false} RemainderShrinks(remaining: seq<Entry>, x: Entry)
    requires Remainder(remaining) && remaining != [] && Stored(x)
    requires EntrySlot(remaining[0]) == EntrySlot(x) && EntrySlot(x).Divisible?
    ensures Valid(remaining) && Remainder(Subtract(remaining, x))
  {
    var t := remaining[0];
    assert remaining == [t];
    SlotMeaning(t.resource, x.resource);
    SubtractLaw(remaining, x);
    assert FirstSubtractable(remaining, x) == 0;
    var d := SubtractCases(remaining, 0, x);
    assert EntryMinus(t, x).resource.reservations == [];
  }

  /** A part moves from the vector to what is found, and out of the remainder. */
  lemma {:induction false} PartStep(es: seq<Entry>, goal: seq<Entry>, total: seq<Entry>, found: seq<Entry>, remaining: seq<Entry>, e: Entry)
    requires Invariant(es, goal, total, found, remaining) && e in total
    requires Contains(remaining, UnreservedForm(e)) && !Contains(UnreservedForm(e), remaining)
    ensures Invariant(es, goal, Subtract(total, e), Add(found, e), SubtractAll(remaining, UnreservedForm(e)))
  {
    EntryHeld(total, e);
    PartIsDivisible(remaining, e);
    AddAllSingle(remaining, Bare(e));
    RemainderShrinks(remaining, Bare(e));
    SubtractGenuine(total, e);
    AddHolds(found, e);
    forall s ensures Plus(Holds(Subtract(total, e), s), Holds(Add(found, e), s)) == Holds(es, s) {
      PartMoves(es, total, found, e, s);
    }
    forall s ensures Plus(Balance(Add(found, e), Unreserved(s)), Holds(Subtract(remaining, Bare(e)), s)) == Holds(goal, s) {
      PartCounts(goal, found, remaining, e, s);
    }
  }

  lemma {:induction false} PartMoves(es: seq<Entry>, total: seq<Entry>, found: seq<Entry>, e: Entry, s: Slot)
    requires Valid(total) && Valid(found) && Stored(e) && Plus(Holds(total, s), Holds(found, s)) == Holds(es, s)
    requires Le(Share(e), Holds(total, EntrySlot(e)))
    ensures Plus(Holds(Subtract(total, e), s), Holds(Add(found, e), s)) == Holds(es, s)
  {
    SubtractLaw(total, e);
    AddHolds(found, e);
    if s == EntrySlot(e) { MoveAmount(Holds(total, s), Holds(found, s), Share(e)); }
  }

  lemma {:induction false} MoveAmount(h: Amount, f: Amount, a: Amount)
    requires Le(a, h)
    ensures Plus(Clip(Minus(h, a)), Plus(f, a)) == Plus(h, f)
    ensures Plus(Plus(f, a), Clip(Minus(h, a))) == Plus(f, h)
  {
    RestoreSlot(h, a);
    var c := Clip(Minus(h, a));
    PlusLaws(c, f, a);
    PlusRotate(c, f, a);
    PlusLaws(f, a, c);
    PlusLaws(a, c, Zero);
    PlusLaws(Plus(f, a), c, Zero);
    PlusLaws(h, f, Zero);
  }

  lemma {:induction false} PartCounts(goal: seq<Entry>, found: seq<Entry>, remaining: seq<Entry>, e: Entry, s: Slot)
    requires Valid(found) && Valid(remaining) && remaining != [] && |remaining| == 1 && Stored(e) && Stored(Bare(e))
    requires EntrySlot(remaining[0]) == EntrySlot(Bare(e)) == ClearSlot(EntrySlot(e))
    requires Share(Bare(e)) == Share(e) && Le(Share(e), Share(remaining[0]))
    requires Plus(Balance(found, Unreserved(s)), Holds(remaining, s)) == Holds(goal, s)
    ensures Plus(Balance(Add(found, e), Unreserved(s)), Holds(Subtract(remaining, Bare(e)), s)) == Holds(goal, s)
  {
    AddUnreserved(found, e, s);
    SubtractLaw(remaining, Bare(e));
    assert remaining == [remaining[0]];
    SingleHolds(remaining[0], s);
    PlusLaws(Balance(found, Unreserved(s)), Zero, Zero);
    if s == EntrySlot(Bare(e)) { MoveAmount(Holds(remaining, s), Balance(found, Unreserved(s)), Share(e)); }
  }

  lemma {:induction false} FindInSound(es: seq<Entry>, goal: seq<Entry>,
                                       total: seq<Entry>, found: seq<Entry>, remaining: seq<Entry>,
                                       predicates: seq<RolePredicate>)
    requires Invariant(es, goal, total, found, remaining)
    ensures FindIn(total, found, remaining, predicates).Some? ==>
              Answers(es, goal, FindIn(total, found, remaining, predicates).value)
    decreases |predicates|
  {
    if predicates != [] {
      ScannedIn(total, predicates[0], remaining);
      match Scan(Filter([], total, predicates[0]), remaining)
      case Nothing => FindInSound(es, goal, total, found, remaining, predicates[1..]);
      case Enough(e) => EnoughStep(es, goal, total, found, remaining, e);
      case Part(e) =>
        PartStep(es, goal, total, found, remaining, e);
        FindInSound(es, goal, Subtract(total, e), Add(found, e), SubtractAll(remaining, UnreservedForm(e)), predicates[1..]);
    }
  }

  // ------------------------------------------------------------ the theorem

  lemma {:induction false} ClearedBalance(es: seq<Entry>, s: Slot)
    requires AllStored(es)
    ensures AllStored(Cleared(es)) && Holds(Cleared(es), s) == Balance(es, Unreserved(s))
    decreases |es|
  {
    if es != [] {
      ClearedBalance(es[1..], s);
      assert Cleared(es)[1..] == Cleared(es[1..]);
      assert Cleared(es)[0] == WithReservations(es[0], []);
      ClearedKey(es[0].resource, []);
      assert forall i :: 1 <= i < |es| ==> Cleared(es)[i] == Cleared(es[1..])[i - 1];
    }
  }

  /** Dropping the reservations keeps what is held, slot by slot. */
  lemma {:induction false} ToUnreservedLaw(es: seq<Entry>)
    requires AllStored(es)
    ensures Valid(ToUnreserved(es))
    ensures forall s :: Holds(ToUnreserved(es), s) == Balance(es, Unreserved(s))
  {
    forall s ensures AllStored(Cleared(es)) && Holds(Cleared(es), s) == Balance(es, Unreserved(s)) { ClearedBalance(es, s); }
    ClearedBalance(es, Divisible(KeyOf(Resource("", Unsupported, None, [], None, false, None, false, None, None))));
    AddAllLaw([], Cleared(es));
    forall s ensures Holds(ToUnreserved(es), s) == Balance(es, Unreserved(s)) {
      PlusLaws(Holds(Cleared(es), s), Zero, Zero);
    }
  }

  lemma {:induction false} TargetRemainder(target: Resource)
    requires Proper(target)
    ensures Remainder(ToUnreserved(FromList([], [target])))
  {
    if Validate(target) {
      SingleMessage(target);
      if !EntryEmpty(Wrap(target)) {
        WrapStored(target);
        UnreservedFormIs(Wrap(target));
        BareEntry(Wrap(target));
      }
    } else {
      assert [target][1..] == [];
      assert FromList([], [target]) == [];
    }
  }

  /** Whenever the search finds something, the vector contains it, and with reservations left aside it is
      exactly the target - however many pieces it was gathered from. */
  lemma {:induction false} FindSound(es: seq<Entry>, target: Resource)
    requires Genuine(es) && Proper(target)
    ensures Find(es, target).Some? ==>
              var found := Find(es, target).value;
              var goal := ToUnreserved(FromList([], [target]));
              && Valid(found) && Contains(es, found)
              && Valid(goal) && Alike(ToUnreserved(found), goal) && Equal(ToUnreserved(found), goal)
  {
    var goal := ToUnreserved(FromList([], [target]));
    TargetRemainder(target);
    forall s ensures Plus(Holds(es, s), Holds([], s)) == Holds(es, s)
                  && Plus(Balance([], Unreserved(s)), Holds(goal, s)) == Holds(goal, s) {
      PlusLaws(Holds(es, s), Zero, Zero);
      PlusLaws(Holds(goal, s), Zero, Zero);
    }
    FindInSound(es, goal, es, [], goal, Predicates(target));
    if Find(es, target).Some? {
      var found := Find(es, target).value;
      AnswersMeaning(es, goal, found);
    }
  }

  lemma {:induction false} AnswersMeaning(es: seq<Entry>, goal: seq<Entry>, found: seq<Entry>)
    requires Valid(es) && Remainder(goal) && Answers(es, goal, found)
    ensures Valid(found) && Contains(es, found) && Valid(goal)
    ensures Alike(ToUnreserved(found), goal) && Equal(ToUnreserved(found), goal)
  {
    ContainsMeaning(es, found);
    forall s ensures CoversSlot(es, found, s) {
      HoldsPositive(es, s);
      HoldsPositive(found, s);
      assert Le(Holds(found, s), Holds(es, s));
    }
    ToUnreservedLaw(found);
    EqualIsAlike(ToUnreserved(found), goal);
  }

  /** The search is not complete: a part that does not suffice ends the round it is met in, so that a later entry that
      alone would do is never looked at. */
  lemma {:induction false} FindGivesUp(es: seq<Entry>, target: Resource)
    requires Genuine(es) && |es| == 2 && !IsUnreserved(es[0].resource) && !IsUnreserved(es[1].resource)
    requires Validate(target) && Proper(target) && !IsEmpty(target.quantity) && IsUnreserved(target)
    requires ClearSlot(EntrySlot(es[0])) == ClearSlot(EntrySlot(es[1])) == SlotOf(target) && SlotOf(target).Divisible?
    requires Le(Share(es[0]), AmountOf(target.quantity)) && !Le(AmountOf(target.quantity), Share(es[0]))
    requires Le(AmountOf(target.quantity), Share(es[1]))
    ensures Find(es, target) == None
    ensures Contains(UnreservedForm(es[1]), ToUnreserved(FromList([], [target])))
  {
    var t := Wrap(target);
    TargetGoal(target);
    Comparable(es[0], t);
    Comparable(es[1], t);
    FilterSelects([], es, UnreservedOnly);
    FilterSelects([], es, AnyRole);
    SelectTwo(es, UnreservedOnly);
    SelectTwo(es, AnyRole);
    TwoRounds(es, [t]);
    assert Predicates(target) == [UnreservedOnly, AnyRole];
  }

  lemma {:induction false} TargetGoal(target: Resource)
    requires Validate(target) && Proper(target) && !IsEmpty(target.quantity) && IsUnreserved(target)
    ensures Stored(Wrap(target)) && ToUnreserved(FromList([], [target])) == [Wrap(target)]
  {
    WrapStored(target);
    UnreservedFormIs(Wrap(target));
    assert Bare(Wrap(target)) == Wrap(target);
  }

  lemma {:induction false} Comparable(e: Entry, t: Entry)
    requires Stored(e) && Validate(e.resource) && Stored(t) && ClearSlot(EntrySlot(e)) == EntrySlot(t)
    requires EntrySlot(t).Divisible?
    ensures Contains(UnreservedForm(e), [t]) <==> Le(Share(t), Share(e))
    ensures Contains([t], UnreservedForm(e)) <==> Le(Share(e), Share(t))
  {
    UnreservedFormIs(e);
    BareEntry(e);
    ContainsSingle(Bare(e), t);
    ContainsSingle(t, Bare(e));
  }

  lemma {:induction false} TwoRounds(es: seq<Entry>, remaining: seq<Entry>)
    requires es != [] && Filter([], es, UnreservedOnly) == [] && Filter([], es, AnyRole) == es
    requires !Contains(UnreservedForm(es[0]), remaining) && Contains(remaining, UnreservedForm(es[0]))
    ensures FindIn(es, [], remaining, [UnreservedOnly, AnyRole]) == None
  {
    assert [UnreservedOnly, AnyRole][1..] == [AnyRole] && [AnyRole][1..] == [];
    assert Scan(es, remaining) == Part(es[0]);
  }

  lemma {:induction false} SelectTwo(es: seq<Entry>, p: RolePredicate)
    requires |es| == 2 && !IsUnreserved(es[0].resource) && !IsUnreserved(es[1].resource)
    ensures p == UnreservedOnly ==> Select(es, p) == []
    ensures p == AnyRole ==> Select(es, p) == es
  {
    var tail := es[1..];
    assert tail == [es[1]] && tail[1..] == [];
    assert Select(tail[1..], p) == [];
    assert Select(tail, p) == if Matches(p, es[1].resource) then [es[1]] else [];
  }
}
