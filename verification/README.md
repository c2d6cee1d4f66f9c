# Verified models of the URB C++ core

A Dafny 4.11 model of the C++ core of URB (Universal Resource Broker), with proofs about it:

- the Mesos resource algebra (`Values`, `RangeValues`, `SetValues`, `ResourceModel`, `Entries`, `Containment`,
  `Collections`, `Operations`, `Conservation`, `Inverses`, `Search`, `Completeness`, `SharedVolumes`, and the class
  `MesosResources.Resources`): adding, subtracting, containment, greedy search, and the offer operations RESERVE,
  UNRESERVE, CREATE and DESTROY;
- roles, validation, format conversion and checkpointing (`Roles`, `Validation`, `Format`, `Checkpoint`);
- the executor protocol (`Executor`, `LinkedMap`) and the timer queue (`Timers`, `Cancellation`), as state machines over
  atomic steps with a class that takes these steps;
- the self-contained stout utilities: record-IO (`RecordIO`), the LRU cache (`LruCache`), Base64 (`Base64`), protobuf to
  JSON and back (`Protobuf`), version precedence and parsing (`Versions`), the process tree search (`ProcessTree`), string
  splitting (`Strings`) and number texts (`Numbers`).

`dafny verify dfyconfig.toml` checks the whole project.

## How the resource algebra is stated

A stored entry belongs to a *slot*: its normalized metadata key, together with its quantity where the entry is indivisible
(a persistent volume, a MOUNT disk or a shared volume). What an entry puts into its slot is an *amount*: a number (scalars,
copies of a volume) and a set of atoms (ports, items). `Holds` adds up a vector slot by slot, and every law of `add`,
`subtract`, `contains`, `==`, `find` and `apply` is proved in terms of it. `HoldingsDetermineEntries` shows that nothing is
lost: what a valid vector holds determines the slots and shares of its entries, up to their order.

The comparisons of labels and of disk sources in the code are not symmetric (`EqualityIsNotSymmetric`). For two messages
they are equalities of keys where labels have no duplicates and the left disk source has the submessage in which the right
one names a root (`SourcesAgree`). The laws about whole vectors assume *regular* messages, any two of which are of that
kind: labels without duplicates, and a disk source that carries the submessage of its type.

Where a promise does not hold in general, the exact condition is proved: `AddThenSubtract`, `ReserveUndone`, `CreateUndone`,
`ApplyConservesExactly`, `CreateConservesExactly`, `AbortsExactly`, `CheckpointConserves`, `FindExactly`, `PreRoundTrip`,
`UpgradeThenDowngrade`, `PopKeepsValid`, `FrozenExactly`, `CancelStops`, `CancelStopsForGood`, `CoalescedCanonical`,
`NoOverlapMeaning`, `SubtractThenAddQuantity` and `EncodeDecode` are equivalences.

## Where code and documentation differ

The model follows the code.

- `version.hpp` announces SemVer precedence. Its numeric identifiers are what `numify` reads as 32-bit numbers, so that
  a hexadecimal identifier such as `0x1F` counts as a number and a number that does not fit counts as a label. Two versions
  can tie without being equal (`TieIsNotEqual`), and then neither `<=` nor `>=` holds between them.
- `validate` rejects overlapping ranges only when the later one does not begin first.
- The totals that `apply` compares ignore how many copies of a shared volume are held, so that a second CREATE of a shared
  volume takes its size from the total of "disk". A closing CHECK fails if and only if that shows in the whole megabytes it
  compares (`AbortsExactly`, `OneOperandAborts`): it does for ten free megabytes and a volume of five, and does not for 1.3
  and 0.5 (`SecondCreateBothWays`).
- A timer's own `active_` is never set; only the inner timers are, so that a second `delay` does not replace the first and
  `cancel` reaches the latest one only. It stops the timer if and only if no earlier inner timer is still active and gets
  dispatched (`CancelStops`, `CancelStopsForGood`).
- `operator==` on ranges misses that two lists cover the same numbers where coalescing overflows at the largest 64-bit
  number (`RangesEqualMisses`); `operator<=` does not.

## Model

| member | source | states |
|---|---|---|
| `Values.AddMeaning` | urb-core/source/cpp/liburb/source/values.cpp:121-126 | `+=` on scalars, ranges and sets is well-formed again and adds the amounts: numbers add, ports and items are united |
| `Values.SubtractMeaning` | urb-core/source/cpp/liburb/source/values.cpp:129-134 | `-=` takes the amount away, and only a scalar can become ill-formed, exactly by going negative |
| `Values.AtMostMeaning` | urb-core/source/cpp/liburb/source/values.cpp:456-478 | `<=` decides inclusion of amounts; the length test on set values restricts nothing |
| `Values.EmptyMeaning` | urb-core/source/cpp/liburb/source/resources.cpp:1048-1064 | the emptiness test holds exactly of the zero amount, and every other well-formed amount is positive |
| `SetValues.AddThenSubtractQuantity` | urb-core/source/cpp/liburb/source/values.cpp:531-565 | `+=` and then `-=` restores the stored value, item lists position by position, if and only if none of the ports or items were there before |
| `SetValues.SubtractThenAddQuantity` | urb-core/source/cpp/liburb/source/values.cpp:531-565 | `-=` and then `+=` restores scalars always, ranges if and only if they held what was taken, and a set value if and only if the items were its last ones in their order, because `==` looks at positions |
| `SetValues.AddItemsList` | urb-core/source/cpp/liburb/source/values.cpp:531-549 | `+=` on set values appends the new items in their order |
| `SetValues.SubtractItemsList` | urb-core/source/cpp/liburb/source/values.cpp:552-565 | `-=` on set values keeps the order of what is left |
| `RangeValues.CoalesceInPlace` | urb-core/source/cpp/liburb/source/values.cpp:154-231 | the in-place pass over sorted ranges leaves exactly the coalesced list in the front of the array |
| `RangeValues.Coalesce` | urb-core/source/cpp/liburb/source/values.cpp:154-260 | sorting and the pass together compute the coalesced list |
| `RangeValues.CoalescedCovers` | urb-core/source/cpp/liburb/source/values.cpp:154-231 | coalescing covers exactly the same numbers, 64-bit overflow of the increment included |
| `RangeValues.CoalescedCanonical` | urb-core/source/cpp/liburb/source/values.cpp:154-231 | the result is in order with gaps between its ranges if and only if a range that ends at the largest 64-bit number is the last one in order, and is not repeated where the number before it is covered |
| `RangeValues.CoalescedPart` | urb-core/source/cpp/liburb/source/values.cpp:154-231 | a first part of the result always is in order with gaps and covers the same numbers, and it is the whole result if and only if that is |
| `RangeValues.CoalescedOverflows` | urb-core/source/cpp/liburb/source/values.cpp:154-231 | a range that ends at the largest 64-bit number defeats it: an inner range is kept beside it |
| `RangeValues.CanonicalUnique` | urb-core/source/cpp/liburb/source/values.cpp:323-352 | two coalesced lists that cover the same numbers are the same list |
| `RangeValues.RangesEqualMeaning` | urb-core/source/cpp/liburb/source/values.cpp:323-352 | equal lists cover the same numbers; if one of two lists is coalesced cleanly, they are equal if and only if the other one is too and covers the same numbers |
| `RangeValues.RangesEqualMisses` | urb-core/source/cpp/liburb/source/values.cpp:323-352 | the full range alone and with an inner range beside it cover the same numbers and are not equal |
| `RangeValues.RangesAtMostMeaning` | urb-core/source/cpp/liburb/source/values.cpp:355-379 | `<=` on ranges decides inclusion of the numbers covered (both directions), the largest 64-bit number included |
| `RangeValues.RangesSum` | urb-core/source/cpp/liburb/source/values.cpp:382-403 | `+` covers exactly what either side covers |
| `RangeValues.NoOverlapMeaning` | urb-core/source/cpp/liburb/source/resources.cpp:796-811 | the overlap test of `validate` misses exactly the overlaps whose later range begins first, and none on sorted lists |
| `ResourceModel.LabelsEqualMeaning` | urb-core/source/cpp/liburb/source/type_utils.cpp:277-298 | on labels without duplicates the one-directional search decides equality of label sets |
| `ResourceModel.SourceEqualBothWays` | urb-core/source/cpp/liburb/source/resources.cpp:169-186 | the comparison of disk sources is an equality exactly when asked both ways |
| `ResourceModel.SourceEqualMeaning` | urb-core/source/cpp/liburb/source/resources.cpp:169-186 | equal sources always compare equal, and the converse holds if the left one has the submessages the right one uses |
| `ResourceModel.EqualityIsNotSymmetric` | urb-core/source/cpp/liburb/source/resources.cpp:169-186 | concrete disk sources and labels on which the comparison holds one way only |
| `ResourceModel.SameMetadataMeaning` | urb-core/source/cpp/liburb/source/resources.cpp:309-393 | the field-by-field comparison decides equality of metadata keys, if labels have no duplicates and, of two sources of one type, the left one has the submessage in which the right one names a root |
| `ResourceModel.SlotMeaning` | urb-core/source/cpp/liburb/source/resources.cpp:309-471 | `subtractable` is equality of slots, `addable` is equality of slots that may not repeat, `==` is equality of key and quantity, on the same pairs of messages |
| `Entries.AddLaw` | urb-core/source/cpp/liburb/source/resources.cpp:1991-2010 | `add` keeps the class invariant, and every slot and every per-name total gains exactly the gain of the new entry |
| `Entries.AddHolds` | urb-core/source/cpp/liburb/source/resources.cpp:1991-2010 | `add` puts the share of the new entry into its own slot and changes no other slot |
| `Entries.SubtractLaw` | urb-core/source/cpp/liburb/source/resources.cpp:2065-2102 | `subtract`, with its swap-with-last removal, keeps the class invariant and changes only its own slot, which is cleared if it would go empty or negative |
| `Entries.SubtractNamed` | urb-core/source/cpp/liburb/source/resources.cpp:2065-2102 | taking out what is there, every per-name total loses exactly the loss of the entry |
| `Entries.BalanceSwapRemove` | urb-core/source/cpp/liburb/source/resources.cpp:2085-2096 | removing by swap with the last entry takes out that entry's share and nothing else |
| `Containment.ContainsEntryMeaning` | urb-core/source/cpp/liburb/source/resources.cpp:1883-1892 | an entry is contained if and only if its slot holds at least its share |
| `Containment.ContainsMeaning` | urb-core/source/cpp/liburb/source/resources.cpp:1282-1300 | the consuming loop decides inclusion slot by slot: quantities, multiset inclusion of volumes, membership of other MOUNT disks (both directions) |
| `Containment.EqualMeaning` | urb-core/source/cpp/liburb/source/resources.cpp:1955-1958 | `==` holds if and only if every counted slot holds the same and the same other slots are filled |
| `Containment.ContainsIsPreorder` | urb-core/source/cpp/liburb/source/resources.cpp:1282-1300 | `contains` is reflexive and transitive, and `==` is an equivalence |
| `Containment.EqualIsAlike` | urb-core/source/cpp/liburb/source/resources.cpp:1955-1958 | where no plain MOUNT disk is duplicated, `==` is the same as holding the same everywhere |
| `Containment.EqualIgnoresMountCopies` | urb-core/source/cpp/liburb/source/resources.cpp:1294-1296 | a duplicated plain MOUNT disk is not noticed by `==` |
| `Containment.SubtractThenAdd` | urb-core/source/cpp/liburb/source/resources.cpp:1991-2102 | (R - r) + r holds what R held in every slot whenever R contains r |
| `Containment.AddThenSubtract` | urb-core/source/cpp/liburb/source/resources.cpp:1991-2102 | (R + r) - r holds what R held if and only if the slot held none of the ports or items of r; scalars and volumes always cancel |
| `Containment.HoldingsDetermineEntries` | urb-core/source/cpp/liburb/source/resources.cpp:1991-2102 | two valid vectors that hold the same everywhere have the same multiset of slots with their shares: entries agree up to order, and up to what the comparisons do not look at |
| `Containment.SubtractThenAddRestores` | urb-core/source/cpp/liburb/source/resources.cpp:1991-2102 | (R - r) + r has the multiset of slots and shares that R had, whenever R contains r |
| `Collections.AddAllLaw` | urb-core/source/cpp/liburb/source/resources.cpp:2031-2038 | `+=` of a collection holds the sum in every slot |
| `Collections.SubtractAllLaw` | urb-core/source/cpp/liburb/source/resources.cpp:2123-2130 | `-=` of a collection holds the difference in every slot, and nothing where that is not positive |
| `Collections.SubtractThenAddAll` | urb-core/source/cpp/liburb/source/resources.cpp:2031-2130 | taking out a held collection and putting it back restores every slot |
| `Collections.FromListLaw` | urb-core/source/cpp/liburb/source/resources.cpp:1257-1279 | a `Resources` built from any list is valid and holds what its valid, non-empty messages hold |
| `Collections.FromListPermutation` | urb-core/source/cpp/liburb/source/resources.cpp:1257-1279 | building from any permutation of a list gives an equal `Resources` |
| `Roles.SubroleIsProperPrefix` | urb-core/source/cpp/liburb/source/roles.cpp:35-42 | `isStrictSubroleOf` is exactly proper prefix of paths, for all strings |
| `Roles.SubroleIsStrictOrder` | urb-core/source/cpp/liburb/source/roles.cpp:35-42 | hence a strict partial order in which the roles above a role form a chain |
| `Roles.ValidRoleMeaning` | urb-core/source/cpp/liburb/source/roles.cpp:71-127 | `validate` accepts exactly `*` and the paths all of whose components are good |
| `Roles.ValidRolePath` | urb-core/source/cpp/liburb/source/roles.cpp:71-127 | the components `validate` looked at are the whole path |
| `Strings.Split` | urb-core/source/cpp/3rdparty/stout/strings.hpp:180-211 | the offset loop computes the pieces between delimiters, with the remainder in the last one |
| `Strings.Tokenize` | urb-core/source/cpp/3rdparty/stout/strings.hpp:138-171 | tokenizing yields the non-empty pieces of splitting, or, with a maximum that is reached, the first ones and then the rest of the string from the next token on |
| `Strings.LimitedUnique` | urb-core/source/cpp/3rdparty/stout/strings.hpp:138-171 | only one list meets that description |
| `Strings.JoinFields` | urb-core/source/cpp/3rdparty/stout/strings.hpp:180-211 | joining the fields of a string gives the string back, and no field holds the separator |
| `Strings.FieldsJoin` | urb-core/source/cpp/3rdparty/stout/strings.hpp:343-358 | splitting a joined list gives the list back |
| `Validation.ValidIsSound` | urb-core/source/cpp/liburb/source/resources.cpp:769-1030 | what `validate` accepts in the new format meets the class invariant's demands on a message |
| `Validation.StackRefines` | urb-core/source/cpp/liburb/source/resources.cpp:921-940 | in a valid stack every later reservation role is a strict subrole of every earlier one |
| `Validation.AllocatableToSubroles` | urb-core/source/cpp/liburb/source/resources.cpp:1088-1098 | allocatability passes down to all subroles |
| `Validation.NotAllocatableToAncestors` | urb-core/source/cpp/liburb/source/resources.cpp:1088-1098 | a resource is not allocatable to a role above its current reservation |
| `Validation.PopKeepsValid` | urb-core/source/cpp/liburb/source/resources.cpp:1452-1463 | popping a reservation leaves a valid message, except in exactly one shape of stack |
| `Format.Convert` | urb-core/source/cpp/liburb/source/resources_utils.cpp:94-176 | the stepwise conversion of one message computes the converted message |
| `Format.ConvertAll` | urb-core/source/cpp/liburb/source/resources_utils.cpp:178-195 | the list is converted in place, message by message |
| `Format.Downgrade` | urb-core/source/cpp/liburb/source/resources_utils.cpp:408-428 | downgrading succeeds exactly when no message has more than one reservation, and otherwise changes nothing |
| `Format.EndpointRoundTrip` | urb-core/source/cpp/liburb/source/resources_utils.cpp:94-176 | ENDPOINT then POST is the identity on valid messages, and the endpoint form is valid |
| `Format.PreRoundTrip` | urb-core/source/cpp/liburb/source/resources_utils.cpp:94-176 | PRE then POST is the identity if and only if no static reservation carries a principal or labels |
| `Format.UpgradeKeepsValid` | urb-core/source/cpp/liburb/source/resources_utils.cpp:94-176 | upgrading any valid message is safe, valid and idempotent |
| `Format.UpgradeThenDowngrade` | urb-core/source/cpp/liburb/source/resources_utils.cpp:94-176 | an older message survives upgrade and downgrade if and only if it names its role |
| `Operations.StepIsExchange` | urb-core/source/cpp/liburb/source/resources.cpp:1542-1688 | an operand of RESERVE, UNRESERVE, CREATE or DESTROY is accepted exactly when it is eligible and what it takes is there, and then one entry is exchanged for another |
| `Operations.ExchangeLaw` | urb-core/source/cpp/liburb/source/resources.cpp:1542-1688 | an exchange moves a share from one slot to another and touches nothing else |
| `Operations.StepsTotals` | urb-core/source/cpp/liburb/source/resources.cpp:1542-1688 | the exact account of an operation: ranges and sets of every name are conserved, and a scalar total moves by the leaks of its operands alone |
| `Operations.StepLeakMeaning` | urb-core/source/cpp/liburb/source/resources.cpp:1709-1728 | an accepted operand changes a total if and only if its quantity is a scalar and copies of its shared volume stay behind on one side only; a further copy by CREATE takes its size from the total |
| `Operations.LastCopy` | urb-core/source/cpp/liburb/source/resources.cpp:1643-1689 | DESTROY is accepted only for the last copy of a volume |
| `Operations.TotalMeaning` | urb-core/source/cpp/liburb/source/resources.cpp:1709-1772 | a per-name total is absent exactly when nothing is held under the name |
| `Operations.ApplyConserves` | urb-core/source/cpp/liburb/source/resources.cpp:1529-1706 | whatever `apply` accepts of safe operands, the total of every name and type is unchanged (the exact condition is `ApplyConservesExactly`) |
| `Conservation.TotalsMove` | urb-core/source/cpp/liburb/source/resources.cpp:1542-1688 | over a whole accepted list of operands no total moves but that of "disk", and it moves by the sum of what each operand leaks, counted by the copies held before the list and moved within it |
| `Conservation.ApplyMoves` | urb-core/source/cpp/liburb/source/resources.cpp:1529-1706 | the same for every accepted operation |
| `Conservation.ApplyConservesExactly` | urb-core/source/cpp/liburb/source/resources.cpp:1529-1706 | an accepted operation leaves the total of every name and type unchanged if and only if the leaks of its operands add up to zero |
| `Conservation.CreateConservesExactly` | urb-core/source/cpp/liburb/source/resources.cpp:1600-1642 | an accepted CREATE list leaves every total unchanged if and only if it makes no further copy of a shared scalar volume, held before or made earlier in the list |
| `Conservation.DestroyConserves` | urb-core/source/cpp/liburb/source/resources.cpp:1643-1689 | an accepted DESTROY list leaves every total unchanged |
| `Inverses.ReserveUndone` | urb-core/source/cpp/liburb/source/resources.cpp:1542-1599 | UNRESERVE accepts what RESERVE has reserved, and restores what was held if and only if none of its ports or items were already reserved that way |
| `Inverses.CreateUndone` | urb-core/source/cpp/liburb/source/resources.cpp:1600-1689 | DESTROY accepts what CREATE has created if and only if the volume was not held before, and then restores what was held |
| `Inverses.ReserveListUndone` | urb-core/source/cpp/liburb/source/resources.cpp:1542-1599 | RESERVE of a list then UNRESERVE of the reversed list succeeds and restores an equal `Resources` |
| `Inverses.CreateListUndone` | urb-core/source/cpp/liburb/source/resources.cpp:1600-1689 | CREATE of new volumes then DESTROY of the reversed list succeeds and restores an equal `Resources` |
| `Search.FilterSelects` | urb-core/source/cpp/liburb/source/resources.cpp:1344-1354 | filtering a valid vector merges nothing: it picks a subsequence |
| `Search.ToUnreservedLaw` | urb-core/source/cpp/liburb/source/resources.cpp:1466-1476 | dropping reservations keeps what is held with reservations left aside, slot by slot |
| `Search.AddGenuine` | urb-core/source/cpp/liburb/source/resources.cpp:1991-2010 | adding a valid message keeps all stored messages valid |
| `Search.SubtractGenuine` | urb-core/source/cpp/liburb/source/resources.cpp:2065-2102 | subtracting keeps all stored messages valid and makes up no reservations |
| `Search.FindInSound` | urb-core/source/cpp/liburb/source/resources.cpp:1906-1934 | across predicates and partial takes, what is found so far and what remains make up the target, and what is found is taken from the total |
| `Search.FindSound` | urb-core/source/cpp/liburb/source/resources.cpp:1895-1937 | whenever `find` returns, the original contains what was found, and with reservations dropped it equals the target (when it returns is `FindExactly`) |
| `Search.FindGivesUp` | urb-core/source/cpp/liburb/source/resources.cpp:1917-1929 | a family of vectors that hold the target, on which the search finds nothing |
| `Completeness.FindExactly` | urb-core/source/cpp/liburb/source/resources.cpp:1895-1937 | `find` succeeds if and only if: an indivisible target has an entry like it but for reservations; the first candidates of the rounds add up to a scalar target; the rounds reach a target of ranges or items; there is any entry at all for an empty or invalid one |
| `Completeness.FindInExactly` | urb-core/source/cpp/liburb/source/resources.cpp:1906-1934 | for every divisible target the rounds over the predicates succeed if and only if the first entry in each that is the target's but for reservations, and shares something with what is still missing, together make it up |
| `Completeness.FindInScalar` | urb-core/source/cpp/liburb/source/resources.cpp:1906-1934 | for a scalar target that is: the first candidate of each round, one per predicate, add up to at least the target |
| `Completeness.FindInWhole` | urb-core/source/cpp/liburb/source/resources.cpp:1906-1934 | for an indivisible target: some predicate admits an entry of its slot |
| `Checkpoint.CheckpointConserves` | urb-core/source/cpp/liburb/source/resources_utils.cpp:43-91 | on success the result contains every checkpointed resource, and every per-name total is unchanged if and only if no checkpointed shared scalar volume was held already |
| `Checkpoint.CheckpointLeak` | urb-core/source/cpp/liburb/source/resources_utils.cpp:43-91 | on success, for a whole list, the total of "disk" loses the sizes of the shared scalar volumes that were held already, and no other total moves |
| `MesosResources.Resources.Add` | urb-core/source/cpp/liburb/source/resources.cpp:1991-2010 | the loop merges into the first addable entry or appends, as `Entries.Add`, and keeps the class invariant |
| `MesosResources.Resources.Subtract` | urb-core/source/cpp/liburb/source/resources.cpp:2065-2102 | the loop finds the first subtractable entry and swaps it out when used up, as `Entries.Subtract`, and keeps the class invariant |
| `MesosResources.Resources.AddAll` | urb-core/source/cpp/liburb/source/resources.cpp:2031-2038 | adds every entry in turn |
| `MesosResources.Resources.SubtractAll` | urb-core/source/cpp/liburb/source/resources.cpp:2123-2130 | subtracts every entry in turn |
| `MesosResources.Resources.Contains` | urb-core/source/cpp/liburb/source/resources.cpp:1282-1300 | the loop that consumes persistent volumes decides `Containment.Contains` |
| `MesosResources.Resources.Equals` | urb-core/source/cpp/liburb/source/resources.cpp:1955-1958 | containment both ways |
| `MesosResources.Resources.FilterBy` | urb-core/source/cpp/liburb/source/resources.cpp:1344-1354 | the loop that re-adds the matching entries |
| `MesosResources.Resources.Unreserve` | urb-core/source/cpp/liburb/source/resources.cpp:1466-1476 | the loop that clears reservations and adds up again |
| `MesosResources.Resources.PopReservations` | urb-core/source/cpp/liburb/source/resources.cpp:1452-1463 | the loop that pops every entry's last reservation |
| `MesosResources.Resources.FindMessage` | urb-core/source/cpp/liburb/source/resources.cpp:1895-1937 | the search over predicates and entries computes `Search.Find` |
| `MesosResources.Resources.OperateAll` | urb-core/source/cpp/liburb/source/resources.cpp:1542-1688 | the loop over the operands computes all steps or fails |
| `MesosResources.Resources.GetScalar` | urb-core/source/cpp/liburb/source/resources.cpp:1709-1728 | the loop over the entries computes the scalar total of a name |
| `MesosResources.Resources.GetRanges` | urb-core/source/cpp/liburb/source/resources.cpp:1754-1772 | the loop over the entries computes the port set of a name |
| `MesosResources.CheckTotals` | urb-core/source/cpp/liburb/source/resources.cpp:1699-1703 | the five closing comparisons hold exactly when the totals they look at agree |
| `MesosResources.ApplyOperation` | urb-core/source/cpp/liburb/source/resources.cpp:1529-1706 | `apply` on a copy: when it is rejected, when it succeeds and with what, and that a closing CHECK aborts if and only if the leaks of the operands, known before the call, show in the whole megabytes of the disk total |
| `MesosResources.ApplyNeverAborts` | urb-core/source/cpp/liburb/source/resources.cpp:1699-1703 | on safe operands no closing CHECK can fail (the exact condition is `AbortsExactly`) |
| `MesosResources.AbortsExactly` | urb-core/source/cpp/liburb/source/resources.cpp:1699-1703 | for every accepted operation the closing comparisons fail if and only if the disk total, cut to whole megabytes, differs with and without the drift of the operands |
| `MesosResources.OneOperandAborts` | urb-core/source/cpp/liburb/source/resources.cpp:1699-1703 | for one operand of RESERVE, UNRESERVE, CREATE or DESTROY the drift is spelled out: a further shared copy, or copies that stay behind on one side only |
| `SharedVolumes.SecondCreate` | urb-core/source/cpp/liburb/source/resources.cpp:1600-1703 | a second CREATE of a held shared volume is accepted, and a CHECK fails if and only if free disk and volume have more whole megabytes than the free disk |
| `SharedVolumes.SecondCreateBothWays` | urb-core/source/cpp/liburb/source/resources.cpp:1600-1703 | one agent on which the second CREATE fails a CHECK, and one on which it passes unnoticed |
| `SharedVolumes.ReserveOneOfTwo` | urb-core/source/cpp/liburb/source/resources.cpp:1542-1703 | reserving one of two copies counts the volume twice, and a CHECK fails if and only if that shows in whole megabytes |
| `SharedVolumes.SecondCheckpoint` | urb-core/source/cpp/liburb/source/resources_utils.cpp:43-91 | checkpointing a held shared volume succeeds and takes its size from the total |
| `MesosResources.ApplyCheckpointedResources` | urb-core/source/cpp/liburb/source/resources_utils.cpp:43-91 | the loop over checkpointed resources computes `Checkpoint.ApplyCheckpointed` |
| `LinkedMap.PutThenRemove` | urb-core/source/cpp/3rdparty/stout/linkedhashmap.hpp:36-82 | inserting a new key and erasing it restores the map, order included |
| `LinkedMap.LinkedHashMap.Index` | urb-core/source/cpp/3rdparty/stout/linkedhashmap.hpp:36-48 | looking up with `[]` inserts a default at the end if the key is missing, and keeps list and index in step |
| `LinkedMap.LinkedHashMap.Erase` | urb-core/source/cpp/3rdparty/stout/linkedhashmap.hpp:73-82 | erases the one entry of a key and keeps the order of the others |
| `LinkedMap.LinkedHashMap.Values` | urb-core/source/cpp/3rdparty/stout/linkedhashmap.hpp:97-106 | the values in insertion order |
| `Executor.UpdatesAreOutstanding` | urb-core/source/cpp/liburb/source/executor_process.cpp:415-447 | in every run with fresh uuids the updates on record are exactly those sent without an accepted acknowledgement, in send order |
| `Executor.ReregistrationIsComplete` | urb-core/source/cpp/liburb/source/executor_process.cpp:349-378 | every re-registration message carries exactly the outstanding updates and the live tasks |
| `Executor.TasksAreLive` | urb-core/source/cpp/liburb/source/executor_process.cpp:380-447 | the tasks on record are exactly the live launches, in launch order, each once |
| `Executor.AcknowledgedUpdates` | urb-core/source/cpp/liburb/source/executor_process.cpp:415-447 | an acknowledgement removes the update it names and nothing else; an unknown uuid changes nothing |
| `Executor.FrozenExactly` | urb-core/source/cpp/liburb/source/executor_process.cpp:504-549 | a process is untouched by everything that can happen if and only if it is aborted and its driver is not running |
| `Executor.DriverInvariant` | urb-core/source/cpp/liburb/source/exec.cpp:90-207 | an aborted driver has a frozen process, and the process exists from start on |
| `Executor.AbortIsFinal` | urb-core/source/cpp/liburb/source/exec.cpp:183-207 | after `abort` both records are frozen and no callback or message follows, in every continuation |
| `Executor.ExecutorDriver.StartDriver` | urb-core/source/cpp/liburb/source/exec.cpp:90-146 | `start` takes the protocol step |
| `Executor.ExecutorDriver.StopDriver` | urb-core/source/cpp/liburb/source/exec.cpp:149-180 | `stop` takes the protocol step |
| `Executor.ExecutorDriver.AbortDriver` | urb-core/source/cpp/liburb/source/exec.cpp:183-207 | `abort` takes the protocol step |
| `Executor.ExecutorDriver.SendUpdate` | urb-core/source/cpp/liburb/source/executor_process.cpp:517-549 | `sendStatusUpdate` of driver and process records and sends the update, as the protocol step |
| `Executor.ExecutorDriver.OnReconnect` | urb-core/source/cpp/liburb/source/executor_process.cpp:349-378 | `reconnect` sends the re-registration, as the protocol step |
| `Executor.ExecutorDriver.OnRunTask` | urb-core/source/cpp/liburb/source/executor_process.cpp:380-401 | `runTask` records a task and calls back, as the protocol step |
| `Executor.ExecutorDriver.OnKillTask` | urb-core/source/cpp/liburb/source/executor_process.cpp:403-413 | `killTask` calls back, as the protocol step |
| `Executor.ExecutorDriver.OnAcknowledgement` | urb-core/source/cpp/liburb/source/executor_process.cpp:415-447 | `statusUpdateAcknowledgement` erases the update and a finished task, as the protocol step |
| `Timers.RunKeeps` | urb-core/source/cpp/liburb/source/evhelper.cpp:32-70 | in every run each timer is exactly once pending, about to be dispatched or dispatched; it runs at most once, not before its fire time, in fire-time-then-scheduling order within a tick, and is active exactly until cancelled or run |
| `Timers.InactiveStaysInactive` | urb-core/source/cpp/liburb/source/timer.hpp:65-81 | a timer once inactive never runs again |
| `Timers.DispatchedRanOrCancelled` | urb-core/source/cpp/liburb/source/evhelper.cpp:56-67 | a dispatched timer ran unless a cancel reached it |
| `Timers.TickTakesDue` | urb-core/source/cpp/liburb/source/evhelper.cpp:45-54 | when a tick releases the lock no due timer is pending, and exactly the due ones were taken |
| `Timers.CancelReachesLatestOnly` | urb-core/source/cpp/liburb/source/timer.hpp:40-81 | after two delays a cancel leaves the first inner timer active and pending, so that it may still run (the exact condition is `CancelStops`) |
| `Cancellation.CancelStops` | urb-core/source/cpp/liburb/source/timer.hpp:40-81 | in every run, after a cancel and until the timer is started again, no inner timer of it runs if and only if no earlier one that was still active at the cancel is dispatched |
| `Cancellation.CancelStopsForGood` | urb-core/source/cpp/liburb/source/timer.hpp:40-81 | a cancel stops its timer in all continuations of a run if and only if every inner timer of it but the latest is inactive, or pending in a disabled helper |
| `Cancellation.OwnersKept` | urb-core/source/cpp/liburb/source/timer.hpp:40-63 | in every run each inner timer belongs to one outer timer, whose latest is that one or a later one |
| `Timers.InsertValid` | urb-core/source/cpp/liburb/source/evhelper.cpp:170-183 | scheduling keeps fire times ascending and each list in scheduling order |
| `Timers.EvHelper.ScheduleTimer` | urb-core/source/cpp/liburb/source/evhelper.cpp:170-183 | finds or makes the list of the fire time and appends |
| `Timers.EvHelper.Delay` | urb-core/source/cpp/liburb/source/timer.hpp:40-63 | `delay` makes a new inner timer and schedules it, as the model step |
| `Timers.EvHelper.Cancel` | urb-core/source/cpp/liburb/source/timer.hpp:76-81 | `cancel` deactivates the latest inner timer, as the model step |
| `Timers.EvHelper.TakeDue` | urb-core/source/cpp/liburb/source/evhelper.cpp:32-56 | the part of a tick under the lock, as the model step, and the wait: until the first pending timer, or a minute |
| `Timers.EvHelper.DispatchNext` | urb-core/source/cpp/liburb/source/evhelper.cpp:56-67 | one round of the callback loop, as the model step |
| `RecordIO.RoundTrip` | urb-core/source/cpp/3rdparty/stout/recordio.hpp:66-151 | however the encodings of any records are cut into chunks, all answers are good, they hold exactly the records in order, and the decoder ends at a header with an empty buffer |
| `RecordIO.ChunkingIsIrrelevant` | urb-core/source/cpp/3rdparty/stout/recordio.hpp:100-151 | for any data at all, the decoder's end state does not depend on the chunking |
| `RecordIO.AnswersHoldRecords` | urb-core/source/cpp/3rdparty/stout/recordio.hpp:100-151 | unless the decoder fails, no answer is an error and together the answers hold all records |
| `RecordIO.DecodeMeaning` | urb-core/source/cpp/3rdparty/stout/recordio.hpp:100-151 | whatever the data, it is frames whose bodies are the records, then the part of a frame the decoder is in or a bad header |
| `RecordIO.FailsExactly` | urb-core/source/cpp/3rdparty/stout/recordio.hpp:118-128 | decoding fails if and only if some frames are followed by a line that is not a length |
| `RecordIO.Feed` | urb-core/source/cpp/3rdparty/stout/recordio.hpp:108-147 | every character keeps the two CHECKs of the RECORD state true |
| `RecordIO.Decoder.Decode` | urb-core/source/cpp/3rdparty/stout/recordio.hpp:100-151 | the loop over a chunk moves the decoder and answers as specified, deserializing each record |
| `Numbers.NumifyDecimal` | urb-core/source/cpp/3rdparty/stout/numify.hpp:28-77 | `numify` reads back every number of the type that `stringify` wrote |
| `Numbers.ValueDecimal` | urb-core/source/cpp/3rdparty/stout/numify.hpp:28-77 | without leading zeros a number has one decimal text |
| `LruCache.Inclusion` | urb-core/source/cpp/3rdparty/stout/cache.hpp:49-129 | after every run of put, get and erase, the key list of a cache is that of a cache one larger with at most one key left out, with equal values |
| `LruCache.LargerNeverMissesMore` | urb-core/source/cpp/3rdparty/stout/cache.hpp:49-129 | any larger cache answers every lookup the smaller one answers, with the same value |
| `LruCache.RunValid` | urb-core/source/cpp/3rdparty/stout/cache.hpp:49-129 | list and index agree and the size stays within the capacity |
| `LruCache.KeysAreByRecency` | urb-core/source/cpp/3rdparty/stout/cache.hpp:113-129 | the list is in order of last use, so that the least recently used key is the one evicted |
| `LruCache.ValuesAreLatest` | urb-core/source/cpp/3rdparty/stout/cache.hpp:49-70 | a lookup finds the value last put |
| `LruCache.Cache.Put` | urb-core/source/cpp/3rdparty/stout/cache.hpp:49-58 | put with its insertion, use and eviction, as the model step |
| `LruCache.Cache.Get` | urb-core/source/cpp/3rdparty/stout/cache.hpp:60-70 | get, which counts as a use, as the model step, and its answer |
| `LruCache.Cache.Erase` | urb-core/source/cpp/3rdparty/stout/cache.hpp:72-84 | erase as the model step, and its answer |
| `Base64.DecodeEncode` | urb-core/source/cpp/3rdparty/stout/base64.hpp:43-148 | decoding undoes encoding for every byte string, with or without padding, in either alphabet |
| `Base64.EncodeDecode` | urb-core/source/cpp/3rdparty/stout/base64.hpp:43-148 | encoding undoes decoding, padded or not, if and only if the text before the padding has no lone last character and no stray low bits, and what follows is exactly the padding of its length |
| `Base64.EncodedLength` | urb-core/source/cpp/3rdparty/stout/base64.hpp:43-89 | the lengths of RFC 4648, padded and unpadded |
| `Base64.FillerIsDropped` | urb-core/source/cpp/3rdparty/stout/base64.hpp:129-144 | what fills up an incomplete group never reaches the output |
| `Base64.AlphabetsAreAlphabets` | urb-core/source/cpp/3rdparty/stout/base64.hpp:32-40 | both alphabets have 64 different characters, none of them the padding |
| `Base64.Encode` | urb-core/source/cpp/3rdparty/stout/base64.hpp:43-89 | the loop over bytes computes the encoding |
| `Base64.Decode` | urb-core/source/cpp/3rdparty/stout/base64.hpp:92-148 | the loop over characters computes the decoding, or rejects exactly the texts with a bad character before the padding |
| `Protobuf.RoundTrip` | urb-core/source/cpp/3rdparty/stout/protobuf.hpp:394-634 | parsing the JSON of any initialized message gives it back with its non-deprecated defaults filled in recursively, and that message prints to the same JSON |
| `Protobuf.ParsedIsTyped` | urb-core/source/cpp/3rdparty/stout/protobuf.hpp:580-634 | whatever JSON is accepted, the message fits its type and is initialized |
| `Protobuf.FillIsIdempotent` | urb-core/source/cpp/3rdparty/stout/protobuf.hpp:839-1000 | filling in twice is filling in once, so print and parse settle after one round |
| `Protobuf.MessageBack` | urb-core/source/cpp/3rdparty/stout/protobuf.hpp:580-601 | reading a printed object into an empty message gives the filled-in slots |
| `Protobuf.ScalarBack` | urb-core/source/cpp/3rdparty/stout/protobuf.hpp:424-563 | every scalar of every type is read back from its JSON, bytes by way of base64 and enums by name |
| `Protobuf.FillPrints` | urb-core/source/cpp/3rdparty/stout/protobuf.hpp:839-1000 | filling in defaults does not change the JSON |
| `Protobuf.PrintMessage` | urb-core/source/cpp/3rdparty/stout/protobuf.hpp:839-1000 | the loop that picks the fields and the loop that prints them compute the object |
| `Protobuf.PrintArray` | urb-core/source/cpp/3rdparty/stout/protobuf.hpp:867-934 | the loop over a repeated field computes the array |
| `Protobuf.ParseMembers` | urb-core/source/cpp/3rdparty/stout/protobuf.hpp:580-601 | the loop over the members of an object, in any order, computes the same message or error |
| `Protobuf.ApplyArray` | urb-core/source/cpp/3rdparty/stout/protobuf.hpp:529-546 | the loop over an array appends its elements or fails |
| `Versions.StrictWeakOrder` | urb-core/source/cpp/3rdparty/stout/version.hpp:198-257 | `<` is irreflexive and transitive, and two versions are incomparable if and only if their numbers and identifier keys agree |
| `Versions.LessThan` | urb-core/source/cpp/3rdparty/stout/version.hpp:198-257 | `operator<` computes the lexicographic order of section 11 of Semantic Versioning 2.0.0 on numeric-below-alphanumeric keys |
| `Versions.LabelsLess` | urb-core/source/cpp/3rdparty/stout/version.hpp:224-251 | the loop over the identifiers computes the lexicographic order on their keys |
| `Versions.EqualIsSameRank` | urb-core/source/cpp/3rdparty/stout/version.hpp:158-166 | equal versions are not distinguished by precedence |
| `Versions.TieIsNotEqual` | urb-core/source/cpp/3rdparty/stout/version.hpp:264-272 | the converse fails: two unequal versions neither of which precedes the other |
| `Versions.ParsePrint` | urb-core/source/cpp/3rdparty/stout/version.hpp:58-131 | parsing reads back every version that was printed |
| `Versions.ParsedIsValid` | urb-core/source/cpp/3rdparty/stout/version.hpp:135-156 | what is parsed meets the constructor's CHECKs, and printing and parsing it again changes nothing |
| `Versions.ReadVersion` | urb-core/source/cpp/3rdparty/stout/version.hpp:58-131 | the stepwise parse computes the parsed version or an error |
| `Versions.ReadLabel` | urb-core/source/cpp/3rdparty/stout/version.hpp:313-329 | the loop over the identifiers of a label computes the label or an error |
| `Versions.ReadNumbers` | urb-core/source/cpp/3rdparty/stout/version.hpp:113-124 | the loop over the components fills in the numbers, missing ones being zero, or fails |
| `ProcessTree.Children` | urb-core/source/cpp/3rdparty/stout/os.hpp:211-237 | on every process list, cycles and self-parents included, the search terminates with exactly the pids reachable by one or more steps, or exactly the direct children |
| `ProcessTree.Scan` | urb-core/source/cpp/3rdparty/stout/os.hpp:227-234 | the inner loop adds exactly the unseen children to the set and to the queue |

## Left out

- Values.AddMeaning: scalars are the fixed-point integers of `convertToFixed`; the conversion from and to floating point is not modelled.
- Values.SubtractMeaning: ranges are sets of numbers here; that `-=` on range lists (boost interval sets) computes the set difference is not modelled.
- RangeValues.RangesEqualMeaning: of two lists neither of which is coalesced cleanly it states only that equal ones cover the same numbers.
- Completeness.FindExactly: for ranges and items the condition follows the rounds; no form of it without them is given.
- Entries.AddLaw: for regular messages, as all laws about vectors; `validate` also accepts duplicate labels and a disk source without the submessage of its type, on which the comparisons are not symmetric.
- Executor.UpdatesAreOutstanding: uuids are assumed fresh; the code takes a binary uuid as a C string.
- LruCache.Cache.Put: for a capacity above zero, because the code takes the front of an empty list otherwise.
- Protobuf.ScalarBack: floating-point numbers are reals, as for `Protobuf.RoundTrip`.
- Protobuf.RoundTrip: floating-point numbers are reals, without rounding, infinities or NaN; casting an out-of-range one to an integer, undefined in C++, wraps here.
- Timers.RunKeeps: callbacks, schedulers and cancellers interleave as atomic steps; true data races on `active_` are not modelled.
- `find` of a collection of targets, `allocate` and `unallocate`, `pushReservation`, and the accessors that only filter.
- Text parsing and printing of resources, values, attributes and roles lists; error messages; logging.
- The executor's registration, heartbeat and shutdown timers, and `join`: waiting and I/O.
- Groups, oneofs, extensions and the streaming JSON writer of `protobuf.hpp`; `Parse` of repeated top-level messages.
- JNI bindings, the message broker, the event loop, the fetcher, the Python adapters: I/O and wrappers over other libraries.
- BoundedHashMap, Bytes, Duration and IP utilities: each is a thin layer over a library container or over arithmetic of one line; IntervalSet is the boost library.
