/**
 `Resources::validate` (liburb/source/resources.cpp) and what it guarantees about reservations:
 a valid stack refines role by role, and what one role may use its subroles may use.
 */
module Validation {
  import opened Wrappers
  import opened Values
  import opened ResourceModel
  import opened Entries
  import opened Roles

  predicate ValidDisk(r: Resource) {
    r.disk.Some? ==>
      && r.name == "disk"
      && (r.disk.value.source.Some? ==> r.disk.value.source.value.kind != UNKNOWN_SOURCE)
  }

  /** The "pre-reservation-refinement" format. */
  predicate ValidPreFormat(r: Resource) {
    && ValidRole(Get(r.role, "*"))
    && (r.reservation.Some? ==>
          r.reservation.value.kind.None? && r.reservation.value.role.None? && Get(r.role, "*") != "*")
  }

  predicate ValidReservation(v: Reservation) {
    v.kind.Some? && v.role.Some? && ValidRole(v.role.value) && v.role.value != "*"
  }

  predicate Refines(v: Reservation, ancestor: Reservation) {
    v.kind != Some(STATIC) && IsStrictSubroleOf(Get(v.role, ""), Get(ancestor.role, ""))
  }

  /** A single reservation, with the fields of the older format absent or in agreement with it. */
  predicate ValidSingle(r: Resource, v: Reservation) {
    && (r.role.Some? ==> r.role == v.role)
    && (match v.kind
        case Some(STATIC) => r.reservation.None?
        case Some(DYNAMIC) =>
          && r.role.Some? == r.reservation.Some?
          && (r.reservation.Some? ==>
                && Get(r.reservation.value.principal, "") == Get(v.principal, "")
                && LabelsEqual(Get(r.reservation.value.labels, []), Get(v.labels, [])))
        case _ => false)
  }

  /** The "post-reservation-refinement" and "endpoint" formats. */
  predicate ValidPostFormat(r: Resource) {
    && (forall i :: 0 <= i < |r.reservations| ==> ValidReservation(r.reservations[i]))
    && (forall i :: 1 <= i < |r.reservations| ==> Refines(r.reservations[i], r.reservations[i - 1]))
    && (if |r.reservations| == 1 then ValidSingle(r, r.reservations[0]) else r.role.None? && r.reservation.None?)
  }

  predicate ValidShared(r: Resource) {
    r.shared ==> r.name == "disk" && IsPersistentVolume(r)
  }

  /** `Resources::validate` finds no error. */
  predicate Validate(r: Resource) {
    && r.name != ""
    && WellFormed(r.quantity)
    && ValidDisk(r)
    && (if r.reservations == [] then ValidPreFormat(r) else ValidPostFormat(r))
    && ValidShared(r)
  }

  /** Neither field of the older format is set; every predicate of `Resources` CHECKs this. */
  predicate PostFormat(r: Resource) { r.role.None? && r.reservation.None? }

  predicate IsUnreserved(r: Resource) { r.reservations == [] }

  function ReservationRole(r: Resource): string
    requires !IsUnreserved(r)
  {
    Get(r.reservations[|r.reservations| - 1].role, "")
  }

  predicate IsReserved(r: Resource, role: Option<string>) {
    !IsUnreserved(r) && (role.None? || role.value == ReservationRole(r))
  }

  predicate IsDynamicallyReserved(r: Resource) {
    !IsUnreserved(r) && Get(r.reservations[|r.reservations| - 1].kind, UNKNOWN) == DYNAMIC
  }

  predicate IsAllocatableTo(r: Resource, role: string) {
    IsUnreserved(r) || role == ReservationRole(r) || IsStrictSubroleOf(role, ReservationRole(r))
  }

  lemma {:induction false} ValidIsSound(r: Resource)
    requires Validate(r) && PostFormat(r) && Regular(r)
    ensures Sound(r)
  {
  }

  /** In a valid stack every later reservation is for a strict subrole of every earlier one. */
  lemma {:induction false} StackRefines(r: Resource, i: nat, j: nat)
    requires Validate(r) && i < j < |r.reservations|
    ensures IsStrictSubroleOf(Get(r.reservations[j].role, ""), Get(r.reservations[i].role, ""))
    decreases j
  {
    assert Refines(r.reservations[j], r.reservations[j - 1]);
    if i < j - 1 {
      StackRefines(r, i, j - 1);
      SubroleIsStrictOrder(Get(r.reservations[j].role, ""), Get(r.reservations[j - 1].role, ""),
                           Get(r.reservations[i].role, ""));
    }
  }

  /** Hence the roles of a stack are pairwise different, and a resource that may be allocated to a role
      may be allocated to all its subroles, those of the stack included. */
  lemma {:induction false} AllocatableToSubroles(r: Resource, role: string, sub: string)
    requires Validate(r) && IsAllocatableTo(r, role) && IsStrictSubroleOf(sub, role)
    ensures IsAllocatableTo(r, sub)
  {
    if !IsUnreserved(r) { SubroleIsStrictOrder(sub, role, ReservationRole(r)); }
  }

  /** A resource is allocatable to no role above its current reservation. */
  lemma {:induction false} NotAllocatableToAncestors(r: Resource, i: nat)
    requires Validate(r) && i < |r.reservations| - 1
    ensures !IsAllocatableTo(r, Get(r.reservations[i].role, ""))
  {
    var last := |r.reservations| - 1;
    StackRefines(r, i, last);
    SubroleIsStrictOrder(Get(r.reservations[last].role, ""), Get(r.reservations[i].role, ""), "");
    SubroleIsStrictOrder(Get(r.reservations[i].role, ""), Get(r.reservations[last].role, ""), "");
  }

  /** Removing the latest reservation. */
  function Pop(r: Resource): Resource
    requires !IsUnreserved(r)
  {
    r.(reservations := r.reservations[..|r.reservations| - 1])
  }

  /** Popping leaves a valid message, except for a stack of two whose lower reservation has no known type:
      `validate` looks at that type only once the reservation stands alone. */
  lemma {:induction false} PopKeepsValid(r: Resource)
    requires Validate(r) && PostFormat(r) && !IsUnreserved(r)
    ensures Validate(Pop(r)) <==> !(|r.reservations| == 2 && r.reservations[0].kind == Some(UNKNOWN))
  {
    var p := Pop(r);
    if |r.reservations| == 1 {
      assert ValidRole("*");
    } else {
      assert ValidReservation(r.reservations[0]);
      assert forall i :: 0 <= i < |p.reservations| ==> p.reservations[i] == r.reservations[i];
    }
  }
}
