/**
 When `Resources::find` (liburb/source/resources.cpp) succeeds. The search takes at most one entry that does not suffice in
 each of its rounds, so that it can miss a target the vector holds; this module says exactly when it does not.
 */
module Completeness {
  import opened Wrappers
  import opened Values
  import opened ResourceModel
  import opened Entries
  import opened Containment
  import opened Validation
  import opened Collections
  import opened Search

  /** An entry in the slot of the target, with reservations left aside. */
  ghost predicate Wanted(e: Entry, s: Slot) { ClearSlot(EntrySlot(e)) == s }

  /** An entry the search stops at: it has all that is needed, or is part of it. */
  ghost predicate Stops(e: Entry, p: RolePredicate, s: Slot, need: Amount) {
    Matches(p, e.resource) && Wanted(e, s) && (Le(need, Share(e)) || Le(Share(e), need))
  }

  ghost function FirstStop(es: seq<Entry>, p: RolePredicate, s: Slot, need: Amount): (i: nat)
    ensures i <= |es| && (i < |es| ==> Stops(es[i], p, s, need))
  {
    if es == [] || Stops(es[0], p, s, need) then 0 else 1 + FirstStop(es[1..], p, s, need)
  }

  /** In each round the first entry that can be compared with what is still needed decides: it suffices, or it is taken
      and the rest is looked for in the next round. */
  ghost predicate Reaches(total: seq<Entry>, s: Slot, need: Amount, ps: seq<RolePredicate>)
    decreases |ps|
  {
    if ps == [] then false
    else
      var i := FirstStop(total, ps[0], s, need);
      if i == |total| then Reaches(total, s, need, ps[1..])
      else if Le(need, Share(total[i])) then true
      else Reaches(SwapRemove(total, i), s, Minus(need, Share(total[i])), ps[1..])
  }

  // ------------------------------------------------------------ one round

  /** An entry can be compared with the target only if it is in its slot. */
  lemma {:induction false} ComparedWith(e: Entry, t: Entry)
    requires Stored(e) && Validate(e.resource) && Stored(t) && EntrySlot(t).Divisible?
    ensures Contains(UnreservedForm(e), [t]) <==> Wanted(e, EntrySlot(t)) && Le(Share(t), Share(e))
    ensures Contains([t], UnreservedForm(e)) <==> Wanted(e, EntrySlot(t)) && Le(Share(e), Share(t))
  {
    UnreservedFormIs(e);
    BareEntry(e);
    ContainsSingle(Bare(e), t);
    ContainsSingle(t, Bare(e));
  }

  lemma {:induction false} ScanFirst(es: seq<Entry>, p: RolePredicate, remaining: seq<Entry>)
    requires es != []
    ensures Scan(Select(es, p), remaining) ==
            if Matches(p, es[0].resource) && Contains(UnreservedForm(es[0]), remaining) then Enough(es[0])
            else if Matches(p, es[0].resource) && Contains(remaining, UnreservedForm(es[0])) then Part(es[0])
            else Scan(Select(es[1..], p), remaining)
  {
    var rest := Select(es[1..], p);
    if Matches(p, es[0].resource) {
      assert Select(es, p) == [es[0]] + rest;
      assert ([es[0]] + rest)[1..] == rest;
    } else {
      assert Select(es, p) == [] + rest == rest;
    }
  }

  ghost function Stopped(es: seq<Entry>, p: RolePredicate, s: Slot, need: Amount): Scanned {
    var i := FirstStop(es, p, s, need);
    if i == |es| then Nothing else if Le(need, Share(es[i])) then Enough(es[i]) else Part(es[i])
  }

  lemma {:induction false} StoppedFirst(es: seq<Entry>, p: RolePredicate, s: Slot, need: Amount)
    requires es != []
    ensures Stopped(es, p, s, need) ==
            if !Stops(es[0], p, s, need) then Stopped(es[1..], p, s, need)
            else if Le(need, Share(es[0])) then Enough(es[0]) else Part(es[0])
  {
  }

  lemma {:induction false} ScanStops(es: seq<Entry>, p: RolePredicate, t: Entry)
    requires Genuine(es) && Stored(t) && EntrySlot(t).Divisible?
    ensures Scan(Select(es, p), [t]) == Stopped(es, p, EntrySlot(t), Share(t))
    decreases |es|
  {
    if es != [] {
      GenuineTail(es);
      ScanStops(es[1..], p, t);
      ComparedWith(es[0], t);
      ScanFirst(es, p, [t]);
      StoppedFirst(es, p, EntrySlot(t), Share(t));
    }
  }

  /** A divisible entry that is taken is removed by swapping in the last one. */
  lemma {:induction false} TakenOut(total: seq<Entry>, i: nat)
    requires Genuine(total) && i < |total| && EntrySlot(total[i]).Divisible?
    ensures Subtract(total, total[i]) == SwapRemove(total, i) && Genuine(SwapRemove(total, i))
  {
    var e := total[i];
    forall j | 0 <= j < |total| ensures Subtractable(total[j].resource, e.resource) <==> j == i {
      SlotMeaning(total[j].resource, e.resource);
    }
    assert FirstSubtractable(total, e) == i;
    SubtractSelf(e.resource.quantity);
    SubtractGenuine(total, e);
  }

  /** What remains of the target when a part is taken. */
  lemma {:induction false} RestOf(t: Entry, e: Entry) returns (t': Entry)
    requires Stored(t) && t.resource.reservations == [] && EntrySlot(t).Divisible? && Stored(e) && Validate(e.resource)
    requires Wanted(e, EntrySlot(t)) && Le(Share(e), Share(t)) && !Le(Share(t), Share(e))
    ensures SubtractAll([t], UnreservedForm(e)) == [t'] && Stored(t') && t'.resource.reservations == []
    ensures EntrySlot(t') == EntrySlot(t) && Share(t') == Minus(Share(t), Share(e))
  {
    var x := Bare(e);
    UnreservedFormIs(e);
    BareEntry(e);
    AddAllSingle([t], x);
    SlotMeaning(t.resource, x.resource);
    assert FirstSubtractable([t], x) == 0;
    t' := SubtractCases([t], 0, x);
    MinusPositive(Share(t), Share(e));
    assert [t][0 := t'] == [t'];
    assert EntryMinus(t, x).resource.reservations == [];
  }

  lemma {:induction false} MinusPositive(a: Amount, b: Amount)
    requires Le(b, a) && !Le(a, b)
    ensures Positive(Minus(a, b)) && Clip(Minus(a, b)) == Minus(a, b)
  {
    if Minus(a, b) == Zero {
      forall x | x in a.atoms ensures x in b.atoms { assert x in b.atoms || x in Minus(a, b).atoms; }
    }
  }

  // ------------------------------------------------------------ all rounds

  lemma {:induction false} OneRound(total: seq<Entry>, found: seq<Entry>, t: Entry, ps: seq<RolePredicate>, i: nat)
    requires Genuine(total) && Stored(t) && EntrySlot(t).Divisible? && ps != []
    requires i == FirstStop(total, ps[0], EntrySlot(t), Share(t))
    ensures i == |total| ==> FindIn(total, found, [t], ps) == FindIn(total, found, [t], ps[1..])
    ensures i < |total| && Le(Share(t), Share(total[i])) ==> FindIn(total, found, [t], ps).Some?
    ensures i < |total| && !Le(Share(t), Share(total[i])) ==>
              FindIn(total, found, [t], ps) ==
              FindIn(Subtract(total, total[i]), Add(found, total[i]), SubtractAll([t], UnreservedForm(total[i])), ps[1..])
  {
    FilterSelects([], total, ps[0]);
    assert [] + Select(total, ps[0]) == Select(total, ps[0]);
    ScanStops(total, ps[0], t);
  }

  lemma {:induction false} ReachesRound(total: seq<Entry>, s: Slot, need: Amount, ps: seq<RolePredicate>, i: nat)
    requires ps != [] && i == FirstStop(total, ps[0], s, need)
    ensures i == |total| ==> (Reaches(total, s, need, ps) <==> Reaches(total, s, need, ps[1..]))
    ensures i < |total| && Le(need, Share(total[i])) ==> Reaches(total, s, need, ps)
    ensures i < |total| && !Le(need, Share(total[i])) ==>
              (Reaches(total, s, need, ps) <==> Reaches(SwapRemove(total, i), s, Minus(need, Share(total[i])), ps[1..]))
  {
  }

  /** What is needed of a divisible target is found if and only if the rounds reach it. */
  lemma {:induction false} FindInExactly(total: seq<Entry>, found: seq<Entry>, t: Entry, ps: seq<RolePredicate>)
    requires Genuine(total) && Stored(t) && t.resource.reservations == [] && EntrySlot(t).Divisible?
    ensures FindIn(total, found, [t], ps).Some? <==> Reaches(total, EntrySlot(t), Share(t), ps)
    decreases |ps|
  {
    if ps != [] {
      var i := FirstStop(total, ps[0], EntrySlot(t), Share(t));
      OneRound(total, found, t, ps, i);
      ReachesRound(total, EntrySlot(t), Share(t), ps, i);
      if i == |total| {
        FindInExactly(total, found, t, ps[1..]);
      } else if !Le(Share(t), Share(total[i])) {
        PartTaken(total, found, t, ps, i);
      }
    }
  }

  lemma {:induction false} PartTaken(total: seq<Entry>, found: seq<Entry>, t: Entry, ps: seq<RolePredicate>, i: nat)
    requires Genuine(total) && Stored(t) && t.resource.reservations == [] && EntrySlot(t).Divisible? && ps != []
    requires i < |total| && Stops(total[i], ps[0], EntrySlot(t), Share(t)) && !Le(Share(t), Share(total[i]))
    ensures FindIn(Subtract(total, total[i]), Add(found, total[i]), SubtractAll([t], UnreservedForm(total[i])), ps[1..]).Some?
            <==> Reaches(SwapRemove(total, i), EntrySlot(t), Minus(Share(t), Share(total[i])), ps[1..])
    decreases |ps|, 0
  {
    TakenOut(total, i);
    var t' := RestOf(t, total[i]);
    FindInExactly(SwapRemove(total, i), Add(found, total[i]), t', ps[1..]);
  }

  // ------------------------------------------------------------ scalars

  ghost predicate Candidate(e: Entry, p: RolePredicate, s: Slot) { Matches(p, e.resource) && Wanted(e, s) }

  ghost function FirstCandidate(es: seq<Entry>, p: RolePredicate, s: Slot): (i: nat)
    ensures i <= |es| && (i < |es| ==> Candidate(es[i], p, s))
  {
    if es == [] || Candidate(es[0], p, s) then 0 else 1 + FirstCandidate(es[1..], p, s)
  }

  /** The sum of one entry for each round: the first candidate left. */
  ghost function Gathered(total: seq<Entry>, s: Slot, ps: seq<RolePredicate>): int
    decreases |ps|
  {
    if ps == [] then 0
    else
      var i := FirstCandidate(total, ps[0], s);
      if i == |total| then Gathered(total, s, ps[1..])
      else Share(total[i]).num + Gathered(SwapRemove(total, i), s, ps[1..])
  }

  ghost predicate ScalarSlot(s: Slot) { s.Divisible? && s.key.kind == SCALAR }

  lemma {:induction false} ScalarShare(e: Entry, s: Slot)
    requires Stored(e) && Wanted(e, s) && ScalarSlot(s)
    ensures EntrySlot(e).Divisible? && Share(e) == Units(Share(e).num) && Share(e).num > 0
  {
    assert EntrySlot(e).Divisible? && KindOf(e.resource.quantity) == SCALAR;
    SharePositive(e);
  }

  /** Two numbers can always be compared. */
  lemma {:induction false} ScalarStop(es: seq<Entry>, p: RolePredicate, s: Slot, n: int)
    requires Genuine(es) && ScalarSlot(s)
    ensures FirstStop(es, p, s, Units(n)) == FirstCandidate(es, p, s)
    decreases |es|
  {
    if es != [] {
      GenuineTail(es);
      ScalarStop(es[1..], p, s, n);
      if Wanted(es[0], s) { ScalarShare(es[0], s); }
    }
  }

  lemma {:induction false} GatheredNotNegative(total: seq<Entry>, s: Slot, ps: seq<RolePredicate>)
    requires Genuine(total) && ScalarSlot(s)
    ensures Gathered(total, s, ps) >= 0
    decreases |ps|
  {
    if ps != [] {
      var i := FirstCandidate(total, ps[0], s);
      if i == |total| {
        GatheredNotNegative(total, s, ps[1..]);
      } else {
        ScalarShare(total[i], s);
        TakenOut(total, i);
        GatheredNotNegative(SwapRemove(total, i), s, ps[1..]);
      }
    }
  }

  lemma {:induction false} GatheredRound(total: seq<Entry>, s: Slot, ps: seq<RolePredicate>, i: nat)
    requires ps != [] && i == FirstCandidate(total, ps[0], s)
    ensures i == |total| ==> Gathered(total, s, ps) == Gathered(total, s, ps[1..])
    ensures i < |total| ==> Gathered(total, s, ps) == Share(total[i]).num + Gathered(SwapRemove(total, i), s, ps[1..])
  {
  }

  /** A scalar target is found if and only if the first candidates of the rounds add up to it. */
  lemma {:induction false} FindInScalar(total: seq<Entry>, found: seq<Entry>, t: Entry, ps: seq<RolePredicate>)
    requires Genuine(total) && Stored(t) && t.resource.reservations == [] && ScalarSlot(EntrySlot(t))
    ensures FindIn(total, found, [t], ps).Some? <==> Share(t).num <= Gathered(total, EntrySlot(t), ps)
    decreases |ps|
  {
    ClearIdempotent(t);
    ScalarShare(t, EntrySlot(t));
    if ps != [] {
      var i := FirstCandidate(total, ps[0], EntrySlot(t));
      ScalarStop(total, ps[0], EntrySlot(t), Share(t).num);
      OneRound(total, found, t, ps, i);
      GatheredRound(total, EntrySlot(t), ps, i);
      if i == |total| {
        FindInScalar(total, found, t, ps[1..]);
      } else {
        ScalarShare(total[i], EntrySlot(t));
        TakenOut(total, i);
        if Le(Share(t), Share(total[i])) {
          GatheredNotNegative(SwapRemove(total, i), EntrySlot(t), ps[1..]);
        } else {
          ScalarTaken(total, found, t, ps, i);
        }
      }
    }
  }

  lemma {:induction false} ScalarTaken(total: seq<Entry>, found: seq<Entry>, t: Entry, ps: seq<RolePredicate>, i: nat)
    requires Genuine(total) && Stored(t) && t.resource.reservations == [] && ScalarSlot(EntrySlot(t)) && ps != []
    requires i < |total| && Stops(total[i], ps[0], EntrySlot(t), Share(t)) && !Le(Share(t), Share(total[i]))
    ensures FindIn(Subtract(total, total[i]), Add(found, total[i]), SubtractAll([t], UnreservedForm(total[i])), ps[1..]).Some?
            <==> Share(t).num - Share(total[i]).num <= Gathered(SwapRemove(total, i), EntrySlot(t), ps[1..])
    decreases |ps|, 0
  {
    ScalarShare(total[i], EntrySlot(t));
    TakenOut(total, i);
    var t' := RestOf(t, total[i]);
    FindInScalar(SwapRemove(total, i), Add(found, total[i]), t', ps[1..]);
  }

  // ------------------------------------------------------------ volumes and other indivisible targets

  lemma {:induction false} ComparedWhole(e: Entry, t: Entry)
    requires Stored(e) && Validate(e.resource) && Stored(t) && EntrySlot(t).Whole? && Share(t) == Units(1)
    ensures Contains(UnreservedForm(e), [t]) <==> Wanted(e, EntrySlot(t))
    ensures Contains([t], UnreservedForm(e)) ==> Wanted(e, EntrySlot(t))
  {
    UnreservedFormIs(e);
    BareEntry(e);
    ContainsSingle(Bare(e), t);
    ContainsSingle(t, Bare(e));
  }

  /** Some entry that passes the predicate is in the slot of the target. */
  ghost predicate Offers(es: seq<Entry>, p: RolePredicate, s: Slot) {
    exists i :: 0 <= i < |es| && Candidate(es[i], p, s)
  }

  lemma {:induction false} OffersCons(es: seq<Entry>, p: RolePredicate, s: Slot)
    requires es != []
    ensures Offers(es, p, s) <==> Candidate(es[0], p, s) || Offers(es[1..], p, s)
  {
    if i :| 0 <= i < |es| && Candidate(es[i], p, s) {
      if i > 0 { assert Candidate(es[1..][i - 1], p, s); }
    }
    if i :| 0 <= i < |es[1..]| && Candidate(es[1..][i], p, s) { assert Candidate(es[i + 1], p, s); }
  }

  lemma {:induction false} ScanWhole(es: seq<Entry>, p: RolePredicate, t: Entry)
    requires Genuine(es) && Stored(t) && EntrySlot(t).Whole? && Share(t) == Units(1)
    ensures !Scan(Select(es, p), [t]).Part? && (Scan(Select(es, p), [t]).Enough? <==> Offers(es, p, EntrySlot(t)))
    decreases |es|
  {
    if es != [] {
      GenuineTail(es);
      ScanWhole(es[1..], p, t);
      ComparedWhole(es[0], t);
      OffersCons(es, p, EntrySlot(t));
      ScanFirst(es, p, [t]);
    }
  }

  lemma {:induction false} FindInWhole(total: seq<Entry>, found: seq<Entry>, t: Entry, ps: seq<RolePredicate>)
    requires Genuine(total) && Stored(t) && EntrySlot(t).Whole? && Share(t) == Units(1)
    ensures FindIn(total, found, [t], ps).Some? <==> exists k :: 0 <= k < |ps| && Offers(total, ps[k], EntrySlot(t))
    decreases |ps|
  {
    if ps != [] {
      FilterSelects([], total, ps[0]);
      assert [] + Select(total, ps[0]) == Select(total, ps[0]);
      ScanWhole(total, ps[0], t);
      FindInWhole(total, found, t, ps[1..]);
      if k :| 0 <= k < |ps| && Offers(total, ps[k], EntrySlot(t)) {
        if k > 0 { assert Offers(total, ps[1..][k - 1], EntrySlot(t)); }
      }
      if k :| 0 <= k < |ps[1..]| && Offers(total, ps[1..][k], EntrySlot(t)) {
        assert Offers(total, ps[k + 1], EntrySlot(t));
      }
    }
  }

  // ------------------------------------------------------------ nothing to look for

  lemma {:induction false} SelectAll(es: seq<Entry>)
    ensures Select(es, AnyRole) == es
  {
    if es != [] { SelectAll(es[1..]); }
  }

  lemma {:induction false} ScanNothing(picked: seq<Entry>)
    ensures Scan(picked, []) == if picked == [] then Nothing else Enough(picked[0])
  {
    if picked != [] { assert Contains(UnreservedForm(picked[0]), []); }
  }

  lemma {:induction false} RoundForNothing(total: seq<Entry>, found: seq<Entry>, ps: seq<RolePredicate>)
    requires Valid(total) && ps != []
    ensures Select(total, ps[0]) != [] ==> FindIn(total, found, [], ps).Some? && total != []
    ensures Select(total, ps[0]) == [] ==> FindIn(total, found, [], ps) == FindIn(total, found, [], ps[1..])
  {
    FilterSelects([], total, ps[0]);
    assert [] + Select(total, ps[0]) == Select(total, ps[0]);
    ScanNothing(Select(total, ps[0]));
  }

  /** With nothing to look for the search ends at the first entry it meets. */
  lemma {:induction false} FindInNothing(total: seq<Entry>, found: seq<Entry>, ps: seq<RolePredicate>)
    requires Valid(total) && ps != [] && ps[|ps| - 1] == AnyRole
    ensures FindIn(total, found, [], ps).Some? <==> total != []
    decreases |ps|
  {
    RoundForNothing(total, found, ps);
    if Select(total, ps[0]) == [] {
      if |ps| > 1 {
        FindInNothing(total, found, ps[1..]);
      } else {
        SelectAll(total);
        assert ps[1..] == [];
      }
    }
  }

  // ------------------------------------------------------------ the theorem

  /**
   `find` succeeds if and only if: the target is empty or invalid and there is any entry; it is indivisible and some entry
   is like it but for its reservations; it is divisible and the rounds reach it, which for a scalar means that the first
   candidates of the rounds add up to it.
   */
  lemma {:induction false} FindExactly(es: seq<Entry>, target: Resource)
    requires Genuine(es) && Proper(target)
    ensures var s, ps := ClearSlot(SlotOf(target)), Predicates(target);
            Find(es, target).Some? <==>
            if !Validate(target) || IsEmpty(target.quantity) then es != []
            else if s.Whole? then exists i :: 0 <= i < |es| && Wanted(es[i], s)
            else if target.quantity.Scalar? then target.quantity.fixed <= Gathered(es, s, ps)
            else Reaches(es, s, AmountOf(target.quantity), ps)
  {
    var ps := Predicates(target);
    assert ps[|ps| - 1] == AnyRole;
    if !Validate(target) || IsEmpty(target.quantity) {
      NothingWanted(target);
      FindInNothing(es, [], ps);
    } else {
      var t := Bare(Wrap(target));
      WrapStored(target);
      UnreservedFormIs(Wrap(target));
      BareEntry(Wrap(target));
      if EntrySlot(t).Whole? {
        FindInWhole(es, [], t, ps);
        AnyOffer(es, EntrySlot(t), ps);
      } else {
        FindInExactly(es, [], t, ps);
        if target.quantity.Scalar? { FindInScalar(es, [], t, ps); }
      }
    }
  }

  lemma {:induction false} NothingWanted(target: Resource)
    requires !Validate(target) || IsEmpty(target.quantity)
    ensures ToUnreserved(FromList([], [target])) == []
  {
    assert [target][1..] == [];
    if Validate(target) { SingleMessage(target); }
    assert FromList([], [target]) == [];
  }

  /** The last predicate lets every entry through. */
  lemma {:induction false} AnyOffer(es: seq<Entry>, s: Slot, ps: seq<RolePredicate>)
    requires ps != [] && ps[|ps| - 1] == AnyRole
    ensures (exists k :: 0 <= k < |ps| && Offers(es, ps[k], s)) <==> exists i :: 0 <= i < |es| && Wanted(es[i], s)
  {
    if i :| 0 <= i < |es| && Wanted(es[i], s) {
      assert Candidate(es[i], AnyRole, s);
      assert Offers(es, ps[|ps| - 1], s);
    }
  }
}
