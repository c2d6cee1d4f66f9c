/** `applyCheckpointedResources` (liburb/source/resources_utils.cpp): re-applying what an agent had checkpointed. */
module Checkpoint {
  import opened Wrappers
  import opened Values
  import opened ResourceModel
  import opened Entries
  import opened Containment
  import opened Validation
  import opened Collections
  import opened Operations
  import opened Conservation
  import opened Search

  predicate NeedCheckpointing(r: Resource) { IsDynamicallyReserved(r) || IsPersistentVolume(r) }

  /** The agent resource that a checkpointed resource was made from. */
  function AgentResource(r: Resource): Resource {
    var unreserved :=
      if !IsDynamicallyReserved(r) then r
      else if Get(r.reservations[0].kind, UNKNOWN) == STATIC then r.(reservations := [r.reservations[0]])
      else r.(reservations := []);
    var plain := if IsPersistentVolume(r) then Strip(unreserved) else unreserved;
    plain.(shared := false)
  }

  /** The loop over the checkpointed messages. */
  function ApplyCheckpointed(es: seq<Entry>, checkpointed: seq<Entry>): Try<seq<Entry>>
    decreases |checkpointed|
  {
    if checkpointed == [] then Ok(es)
    else
      var r := checkpointed[0].resource;
      var stripped := AgentResource(r);
      if !NeedCheckpointing(r) || !ContainsResource(es, stripped) then Error
      else ApplyCheckpointed(AddResource(Subtract(es, Wrap(stripped)), r), checkpointed[1..])
  }

  // ------------------------------------------------------------ what was re-added is never taken again

  ghost predicate NeedsSlot(s: Slot) {
    || (s.key.reservations != [] && s.key.reservations[|s.key.reservations| - 1].kind == DYNAMIC)
    || (s.key.disk.Some? && s.key.disk.value.persistence.Some?)
  }

  lemma {:induction false} NeedsSlotMeaning(r: Resource)
    ensures NeedsSlot(SlotOf(r)) <==> NeedCheckpointing(r)
  {
    var n := |r.reservations|;
    if n > 0 { assert KeyOf(r).reservations[n - 1] == ReservationKeyOf(r.reservations[n - 1]); }
  }

  /** A stripped resource needs no checkpointing, so that it can never match one that was already put back. */
  lemma {:induction false} AgentResourceKeeps(r: Resource)
    requires Sound(r)
    ensures Sound(AgentResource(r)) && !NeedCheckpointing(AgentResource(r))
    ensures AgentResource(r).name == r.name && AgentResource(r).quantity == r.quantity && !AgentResource(r).shared
  {
  }

  lemma {:induction false} StoredSides(r: Resource)
    requires Sound(r) && !IsEmpty(r.quantity) && NeedCheckpointing(r)
    ensures Stored(Wrap(AgentResource(r))) && Stored(Wrap(r))
    ensures !NeedsSlot(SlotOf(AgentResource(r))) && NeedsSlot(SlotOf(r))
  {
    AgentResourceKeeps(r);
    NeedsSlotMeaning(r);
    NeedsSlotMeaning(AgentResource(r));
  }

  /** What the vector holds in the slots that need checkpointing only grows, by the checkpointed messages. */
  ghost predicate Grows(before: seq<Entry>, after: seq<Entry>) {
    forall s :: NeedsSlot(s) ==> Le(Holds(before, s), Holds(after, s))
  }

  // ------------------------------------------------------------ how far the totals move

  /** A shared scalar volume that is held already takes its size from the total. */
  ghost function LeakOfEntry(es: seq<Entry>, c: Entry): int {
    if c.resource.shared && c.resource.quantity.Scalar? && Holds(es, EntrySlot(c)) != Zero
    then -c.resource.quantity.fixed else 0
  }

  ghost function CheckpointLeaks(es: seq<Entry>, checkpointed: seq<Entry>): int
    decreases |checkpointed|
  {
    if checkpointed == [] then 0 else LeakOfEntry(es, checkpointed[0]) + CheckpointLeaks(es, checkpointed[1..])
  }

  /** No shared scalar volume among the checkpointed resources is held already. */
  ghost predicate FreshShared(es: seq<Entry>, checkpointed: seq<Entry>) {
    forall i :: 0 <= i < |checkpointed| && checkpointed[i].resource.shared && checkpointed[i].resource.quantity.Scalar? ==>
      Holds(es, EntrySlot(checkpointed[i])) == Zero
  }

  lemma {:induction false} LeaksMeaning(es: seq<Entry>, checkpointed: seq<Entry>)
    requires AllStored(checkpointed)
    ensures CheckpointLeaks(es, checkpointed) <= 0
    ensures CheckpointLeaks(es, checkpointed) == 0 <==> FreshShared(es, checkpointed)
    decreases |checkpointed|
  {
    if checkpointed != [] {
      var rest := checkpointed[1..];
      LeaksMeaning(es, rest);
      assert Stored(checkpointed[0]);
      assert forall i :: 0 <= i < |rest| ==> rest[i] == checkpointed[i + 1];
      if FreshShared(es, rest) && LeakOfEntry(es, checkpointed[0]) == 0 {
        forall i | 0 <= i < |checkpointed| && checkpointed[i].resource.shared && checkpointed[i].resource.quantity.Scalar?
          ensures Holds(es, EntrySlot(checkpointed[i])) == Zero
        {
          assert i > 0 ==> checkpointed[i] == rest[i - 1];
        }
      }
    }
  }

  /** The slots of the shared volumes in a list hold the same in both vectors. */
  ghost predicate SameShared(x: seq<Entry>, y: seq<Entry>, checkpointed: seq<Entry>) {
    forall i :: 0 <= i < |checkpointed| && checkpointed[i].resource.shared ==>
      Holds(x, EntrySlot(checkpointed[i])) == Holds(y, EntrySlot(checkpointed[i]))
  }

  lemma {:induction false} SameLeaks(x: seq<Entry>, y: seq<Entry>, checkpointed: seq<Entry>)
    requires SameShared(x, y, checkpointed)
    ensures CheckpointLeaks(x, checkpointed) == CheckpointLeaks(y, checkpointed)
    decreases |checkpointed|
  {
    if checkpointed != [] {
      assert forall i :: 0 <= i < |checkpointed[1..]| ==> checkpointed[1..][i] == checkpointed[i + 1];
      SameLeaks(x, y, checkpointed[1..]);
    }
  }

  lemma {:induction false} RoundGrows(es: seq<Entry>, out: Entry, into: Entry)
    requires Valid(es) && Stored(out) && Stored(into)
    requires !NeedsSlot(EntrySlot(out)) && NeedsSlot(EntrySlot(into))
    ensures Valid(Exchange(es, out, into)) && Grows(es, Exchange(es, out, into))
    ensures Le(Share(into), Holds(Exchange(es, out, into), EntrySlot(into)))
  {
    ExchangeLaw(es, out, into);
    SharePositive(into);
    HoldsPositive(es, EntrySlot(into));
    forall s | NeedsSlot(s) ensures Le(Holds(es, s), Holds(Exchange(es, out, into), s)) {}
  }

  lemma {:induction false} EntryLeak(es: seq<Entry>, out: Entry, into: Entry, a: Account)
    requires a.Named? && out.resource.name == into.resource.name && out.resource.quantity == into.resource.quantity
    requires !out.resource.shared && (into.resource.shared ==> into.resource.name == "disk")
    ensures Leak(es, out, into, a) == if a == DISK then LeakOfEntry(es, into) else 0
  {
    var own := Named(out.resource.name, KindOf(out.resource.quantity));
    if a == own && out.resource.quantity.Scalar? { LeakMeaning(es, out, into, a); } else { OtherAccounts(es, out, into, a); }
  }

  /** What one round, or all of them, do to the total of a name. */
  ghost predicate MovesTotal(before: seq<Entry>, after: seq<Entry>, a: Account, leak: int) {
    && Balance(after, a).atoms == Balance(before, a).atoms
    && Balance(after, a).num == Balance(before, a).num + (if a == DISK then leak else 0)
    && (Total(after, a).Some? <==> Total(before, a).Some?)
  }

  lemma {:induction false} RoundMoves(es: seq<Entry>, out: Entry, into: Entry, a: Account)
    requires Valid(es) && Stored(out) && Stored(into) && ContainsEntry(es, out) && a.Named?
    requires EntrySlot(out) != EntrySlot(into)
    requires out.resource.name == into.resource.name && out.resource.quantity == into.resource.quantity
    requires !out.resource.shared && (into.resource.shared ==> into.resource.name == "disk")
    ensures MovesTotal(es, Exchange(es, out, into), a, LeakOfEntry(es, into))
  {
    ExchangeTotals(es, out, into, a);
    EntryLeak(es, out, into, a);
    if a == Named(out.resource.name, KindOf(out.resource.quantity)) {
      ExchangePresence(es, out, into);
    } else {
      ExchangeElsewhere(es, out, into, a);
    }
  }

  /** The round of one checkpointed message. */
  ghost predicate IsRound(es: seq<Entry>, r: Resource, es': seq<Entry>) {
    && NeedCheckpointing(r) && ContainsResource(es, AgentResource(r))
    && es' == AddResource(Subtract(es, Wrap(AgentResource(r))), r)
  }

  lemma {:induction false} RoundTotals(es: seq<Entry>, c: Entry, es': seq<Entry>, a: Account)
    requires Valid(es) && Stored(c) && Validate(c.resource) && IsRound(es, c.resource, es') && a.Named?
    ensures MovesTotal(es, es', a, LeakOfEntry(es, c))
  {
    var r := c.resource;
    StoredSides(r);
    AgentResourceKeeps(r);
    RoundMoves(es, Wrap(AgentResource(r)), Wrap(r), a);
  }

  lemma {:induction false} RoundHolds(es: seq<Entry>, c: Entry, es': seq<Entry>)
    requires Valid(es) && Stored(c) && Validate(c.resource) && IsRound(es, c.resource, es')
    ensures Valid(es') && Grows(es, es') && Stored(Wrap(c.resource))
    ensures Le(Share(Wrap(c.resource)), Holds(es', EntrySlot(c)))
    ensures forall s :: NeedsSlot(s) && s != EntrySlot(c) ==> Holds(es', s) == Holds(es, s)
  {
    var r := c.resource;
    StoredSides(r);
    RoundGrows(es, Wrap(AgentResource(r)), Wrap(r));
    ExchangeLaw(es, Wrap(AgentResource(r)), Wrap(r));
  }

  /** A round leaves the slots of the later shared volumes alone. */
  lemma {:induction false} RoundLeavesShared(es: seq<Entry>, checkpointed: seq<Entry>, es': seq<Entry>)
    requires Genuine(checkpointed) && checkpointed != []
    requires forall s :: NeedsSlot(s) && s != EntrySlot(checkpointed[0]) ==> Holds(es', s) == Holds(es, s)
    ensures SameShared(es', es, checkpointed[1..])
  {
    var rest := checkpointed[1..];
    forall i | 0 <= i < |rest| && rest[i].resource.shared
      ensures Holds(es', EntrySlot(rest[i])) == Holds(es, EntrySlot(rest[i]))
    {
      assert rest[i] == checkpointed[i + 1];
      assert EntrySlot(checkpointed[0]) != EntrySlot(checkpointed[i + 1]);
      NeedsSlotMeaning(rest[i].resource);
    }
  }

  ghost predicate ContainsEach(es: seq<Entry>, checkpointed: seq<Entry>) {
    forall i :: 0 <= i < |checkpointed| ==> ContainsResource(es, checkpointed[i].resource)
  }

  lemma {:induction false} FirstContained(es: seq<Entry>, result: seq<Entry>, e: Entry)
    requires Valid(result) && Stored(e) && Grows(es, result) && NeedsSlot(EntrySlot(e))
    requires Le(Share(e), Holds(es, EntrySlot(e)))
    ensures ContainsEntry(result, e)
  {
    ContainsEntryMeaning(result, e);
    assert Le(Holds(es, EntrySlot(e)), Holds(result, EntrySlot(e)));
  }

  lemma {:induction false} ContainsFirst(result: seq<Entry>, checkpointed: seq<Entry>)
    requires checkpointed != [] && ContainsResource(result, checkpointed[0].resource)
    requires ContainsEach(result, checkpointed[1..])
    ensures ContainsEach(result, checkpointed)
  {
    forall i | 0 <= i < |checkpointed| ensures ContainsResource(result, checkpointed[i].resource) {
      assert i > 0 ==> checkpointed[i] == checkpointed[1..][i - 1];
    }
  }

  lemma {:induction false} GrowsThrough(x: seq<Entry>, y: seq<Entry>, z: seq<Entry>)
    requires Grows(x, y) && Grows(y, z)
    ensures Grows(x, z)
  {
    forall s | NeedsSlot(s) ensures Le(Holds(x, s), Holds(z, s)) {
      assert Le(Holds(x, s), Holds(y, s)) && Le(Holds(y, s), Holds(z, s));
    }
  }

  lemma {:induction false} MovesThrough(x: seq<Entry>, y: seq<Entry>, z: seq<Entry>, a: Account, m: int, n: int)
    requires MovesTotal(x, y, a, m) && MovesTotal(y, z, a, n)
    ensures MovesTotal(x, z, a, m + n)
  {
  }

  lemma {:induction false} FirstRound(es: seq<Entry>, checkpointed: seq<Entry>, result: seq<Entry>) returns (es': seq<Entry>)
    requires checkpointed != [] && ApplyCheckpointed(es, checkpointed) == Ok(result)
    ensures IsRound(es, checkpointed[0].resource, es') && ApplyCheckpointed(es', checkpointed[1..]) == Ok(result)
  {
    var r := checkpointed[0].resource;
    es' := AddResource(Subtract(es, Wrap(AgentResource(r))), r);
  }

  /** What is re-added stays, and each round moves the total by its own leak. */
  lemma {:induction false} RoundsMove(es: seq<Entry>, checkpointed: seq<Entry>, result: seq<Entry>, a: Account)
    requires Valid(es) && Genuine(checkpointed) && a.Named?
    requires ApplyCheckpointed(es, checkpointed) == Ok(result)
    ensures MovesTotal(es, result, a, CheckpointLeaks(es, checkpointed))
    decreases |checkpointed|
  {
    if checkpointed != [] {
      var es' := FirstRound(es, checkpointed, result);
      var rest := checkpointed[1..];
      RoundTotals(es, checkpointed[0], es', a);
      RoundHolds(es, checkpointed[0], es');
      RoundLeavesShared(es, checkpointed, es');
      SameLeaks(es', es, rest);
      GenuineTail(checkpointed);
      RoundsMove(es', rest, result, a);
      MovesThrough(es, es', result, a, LeakOfEntry(es, checkpointed[0]), CheckpointLeaks(es, rest));
    }
  }

  lemma {:induction false} RoundsKeep(es: seq<Entry>, checkpointed: seq<Entry>, result: seq<Entry>)
    requires Valid(es) && Genuine(checkpointed) && ApplyCheckpointed(es, checkpointed) == Ok(result)
    ensures Valid(result) && Grows(es, result) && ContainsEach(result, checkpointed)
    decreases |checkpointed|
  {
    if checkpointed != [] {
      var r := checkpointed[0].resource;
      var es' := FirstRound(es, checkpointed, result);
      RoundHolds(es, checkpointed[0], es');
      GenuineTail(checkpointed);
      RoundsKeep(es', checkpointed[1..], result);
      StoredSides(r);
      FirstContained(es', result, Wrap(r));
      ContainsFirst(result, checkpointed);
      GrowsThrough(es, es', result);
    }
  }

  /** On success the total of "disk" loses the sizes of the shared scalar volumes that were held already, and no other
      total moves. */
  lemma {:induction false} CheckpointLeak(es: seq<Entry>, checkpointed: seq<Entry>, result: seq<Entry>, a: Account)
    requires Valid(es) && Genuine(checkpointed) && ApplyCheckpointed(es, checkpointed) == Ok(result) && a.Named?
    ensures Total(result, a) == Shifted(Total(es, a), if a == DISK then CheckpointLeaks(es, checkpointed) else 0)
  {
    RoundsMove(es, checkpointed, result, a);
    MovedTotal(es, result, a, if a == DISK then CheckpointLeaks(es, checkpointed) else 0);
  }

  /** On success every checkpointed resource is contained in the result, and the total of every name is what it was if and
      only if no checkpointed shared scalar volume was among the agent's resources. */
  lemma {:induction false} CheckpointConserves(es: seq<Entry>, checkpointed: seq<Entry>, result: seq<Entry>)
    requires Valid(es) && Genuine(checkpointed) && ApplyCheckpointed(es, checkpointed) == Ok(result)
    ensures Valid(result) && forall i :: 0 <= i < |checkpointed| ==> ContainsResource(result, checkpointed[i].resource)
    ensures (forall a: Account :: a.Named? ==> Total(result, a) == Total(es, a)) <==> FreshShared(es, checkpointed)
  {
    RoundsKeep(es, checkpointed, result);
    LeaksMeaning(es, checkpointed);
    var leaks := CheckpointLeaks(es, checkpointed);
    forall a: Account | a.Named? ensures a != DISK || leaks == 0 ==> Total(result, a) == Total(es, a) {
      CheckpointLeak(es, checkpointed, result, a);
    }
    CheckpointLeak(es, checkpointed, result, DISK);
    if leaks != 0 { HeldAlready(es, checkpointed); }
  }

  lemma {:induction false} HeldAlready(es: seq<Entry>, checkpointed: seq<Entry>)
    requires Valid(es) && Genuine(checkpointed) && !FreshShared(es, checkpointed)
    ensures Total(es, DISK).Some?
  {
    var i :| 0 <= i < |checkpointed| && checkpointed[i].resource.shared && checkpointed[i].resource.quantity.Scalar?
             && Holds(es, EntrySlot(checkpointed[i])) != Zero;
    HeldIsPresent(es, checkpointed[i]);
  }
}
