/**
 An agent with some free disk and one shared volume, and what happens when the volume is created, reserved or checkpointed
 a second time (liburb/source/resources.cpp, liburb/source/resources_utils.cpp).
 */
module SharedVolumes {
  import opened Wrappers
  import opened Values
  import opened ResourceModel
  import opened Entries
  import opened Containment
  import opened Validation
  import opened Collections
  import opened Operations
  import opened Conservation
  import opened Search
  import opened Checkpoint
  import opened MesosResources
  import opened Roles

  function Free(size: int): Resource {
    Resource("disk", Scalar(size), None, [], None, false, None, false, None, None)
  }

  function Volume(size: int): Resource {
    Free(size).(disk := Some(Disk(None, Some(Persistence("volume", None)), Some("data"))), shared := true)
  }

  function Agent(free: int, size: int): seq<Entry> { [Wrap(Free(free)), Wrap(Volume(size))] }

  lemma {:induction false} MessagesValid(size: int)
    requires size > 0
    ensures Validate(Free(size)) && Proper(Free(size)) && Stored(Wrap(Free(size)))
    ensures Validate(Volume(size)) && Proper(Volume(size)) && Stored(Wrap(Volume(size)))
    ensures Strip(Volume(size)) == AgentResource(Volume(size)) == Free(size)
  {
  }

  lemma {:induction false} AgentGenuine(free: int, size: int)
    requires free > 0 && size > 0
    ensures Genuine(Agent(free, size))
    ensures Holds(Agent(free, size), SlotOf(Volume(size))) == Units(1)
    ensures Balance(Agent(free, size), DISK) == Units(free + size)
  {
    MessagesValid(free);
    MessagesValid(size);
    var es := Agent(free, size);
    assert es[1..] == [Wrap(Volume(size))] && es[1..][1..] == [];
    assert EntrySlot(es[0]) != EntrySlot(es[1]);
    HoldsOne(es, 1);
    assert Balance(es[1..][1..], DISK) == Zero;
    assert Balance(es[1..], DISK) == Plus(Units(size), Zero);
  }

  lemma {:induction false} FreeContained(free: int, size: int)
    requires 0 < size <= free
    ensures ContainsEntry(Agent(free, size), Wrap(Free(size)))
  {
    var es := Agent(free, size);
    assert SlotOf(Free(free)) == SlotOf(Free(size));
    SlotMeaning(Free(free), Free(size));
    assert EntryContains(es[0], Wrap(Free(size)));
  }

  /** A second CREATE of a shared volume is accepted, and a closing CHECK fails if and only if the free disk and the volume
      together have more whole megabytes than the free disk alone. */
  lemma {:induction false} SecondCreate(free: int, size: int)
    requires 0 < size <= free
    ensures var es, op := Agent(free, size), Change(CREATE, [Volume(size)]);
            && Apply(es, op).Ok?
            && (SameTotals(Apply(es, op).value, es) <==> (free + size) / 1000 == free / 1000)
  {
    var es, r := Agent(free, size), Volume(size);
    AgentGenuine(free, size);
    MessagesValid(size);
    FreeContained(free, size);
    StepIsExchange(CREATE, es, r);
    SingleOperation(CREATE, es, r);
    OneOperandAborts(CREATE, es, r, Step(CREATE, es, r).value);
  }

  /** Ten megabytes and five: the CHECK fails. Thirteen hundred kilobytes and five hundred: it does not notice. */
  lemma {:induction false} SecondCreateBothWays()
    ensures var es, op := Agent(10000, 5000), Change(CREATE, [Volume(5000)]);
            Apply(es, op).Ok? && !SameTotals(Apply(es, op).value, es)
    ensures var es, op := Agent(1300, 500), Change(CREATE, [Volume(500)]);
            Apply(es, op).Ok? && SameTotals(Apply(es, op).value, es)
  {
    SecondCreate(10000, 5000);
    SecondCreate(1300, 500);
  }

  /** Re-applying a checkpointed shared volume that the agent holds succeeds and takes its size from the total. */
  lemma {:induction false} SecondCheckpoint(free: int, size: int)
    requires 0 < size <= free
    ensures var es, c := Agent(free, size), [Wrap(Volume(size))];
            && Genuine(es) && Genuine(c) && ApplyCheckpointed(es, c).Ok?
            && Total(es, DISK) == Some(Units(free + size))
            && Total(ApplyCheckpointed(es, c).value, DISK) == Some(Units(free))
  {
    var es, c := Agent(free, size), [Wrap(Volume(size))];
    AgentGenuine(free, size);
    MessagesValid(size);
    FreeContained(free, size);
    assert c[1..] == [] && Genuine(c);
    var next := AddResource(Subtract(es, Wrap(Free(size))), Volume(size));
    assert ApplyCheckpointed(next, c[1..]) == Ok(next);
    assert ApplyCheckpointed(es, c) == Ok(next);
    CheckpointLeak(es, c, next, DISK);
    assert CheckpointLeaks(es, c) == -size + CheckpointLeaks(es, c[1..]);
    TotalMeaning(es, DISK);
  }

  // ------------------------------------------------------------ reserving one of two copies

  function ReservedVolume(size: int): Resource {
    Volume(size).(reservations := [Reservation(Some(DYNAMIC), Some("role"), None, None)])
  }

  function TwoCopies(size: int): seq<Entry> { [Entry(Volume(size), Some(2))] }

  lemma {:induction false} ReservedValid(size: int)
    requires size > 0
    ensures Validate(ReservedVolume(size)) && Proper(ReservedVolume(size)) && Pop(ReservedVolume(size)) == Volume(size)
    ensures Eligible(RESERVE, ReservedVolume(size))
  {
    ValidRoleMeaning("role");
    MessagesValid(size);
  }

  lemma {:induction false} TwoCopiesHeld(size: int)
    requires size > 0
    ensures Valid(TwoCopies(size)) && Balance(TwoCopies(size), DISK) == Units(size)
    ensures Holds(TwoCopies(size), SlotOf(Volume(size))) == Units(2)
    ensures Holds(TwoCopies(size), SlotOf(ReservedVolume(size))) == Zero
    ensures ContainsEntry(TwoCopies(size), Wrap(Volume(size)))
  {
    var es := TwoCopies(size);
    MessagesValid(size);
    assert es[1..] == [];
    HoldsOne(es, 0);
    assert |KeyOf(ReservedVolume(size)).reservations| == 1 && |KeyOf(Volume(size)).reservations| == 0;
    HoldsNothing(es, SlotOf(ReservedVolume(size)));
    ContainsEntryMeaning(es, Wrap(Volume(size)));
  }

  /** Reserving one of two copies of a volume is accepted and counts its size once more. */
  lemma {:induction false} ReserveOneOfTwo(size: int)
    requires size > 0
    ensures var es, op := TwoCopies(size), Change(RESERVE, [ReservedVolume(size)]);
            && Apply(es, op).Ok?
            && (SameTotals(Apply(es, op).value, es) <==> size / 1000 == (size + size) / 1000)
  {
    var es, r := TwoCopies(size), ReservedVolume(size);
    ReservedValid(size);
    TwoCopiesHeld(size);
    StepIsExchange(RESERVE, es, r);
    SingleOperation(RESERVE, es, r);
    OneOperandAborts(RESERVE, es, r, Step(RESERVE, es, r).value);
  }
}
