/**
 One `Resource` message (mesos.proto) and the comparisons of liburb/source/resources.cpp,
 field by field, with what they decide: two messages are interchangeable when they have the same `Key`.
 */
module ResourceModel {
  import opened Wrappers
  import opened Values

  datatype Label = Label(key: string, text: Option<string>)

  datatype ReservationKind = UNKNOWN | STATIC | DYNAMIC

  datatype Reservation = Reservation(
    kind: Option<ReservationKind>,
    role: Option<string>,
    principal: Option<string>,
    labels: Option<seq<Label>>)

  datatype SourceKind = UNKNOWN_SOURCE | PATH | MOUNT

  /** The inner option of `path` and `mount` is the optional `root` of the submessage. */
  datatype Source = Source(kind: SourceKind, path: Option<Option<string>>, mount: Option<Option<string>>)

  datatype Persistence = Persistence(id: string, principal: Option<string>)

  datatype Disk = Disk(source: Option<Source>, persistence: Option<Persistence>, volume: Option<string>)

  /** `allocation` is `allocation_info` with its optional role; `role` and `reservation` are the
      fields of the "pre-reservation-refinement" format. */
  datatype Resource = Resource(
    name: string,
    quantity: Quantity,
    allocation: Option<Option<string>>,
    reservations: seq<Reservation>,
    disk: Option<Disk>,
    revocable: bool,
    provider: Option<string>,
    shared: bool,
    role: Option<string>,
    reservation: Option<Reservation>)

  /** The protobuf getter: the stored value or the default. */
  function Get<T>(o: Option<T>, default: T): T {
    match o case Some(v) => v case None => default
  }

  // ------------------------------------------------------------ the comparisons

  predicate LabelsEqual(left: seq<Label>, right: seq<Label>) {
    && |left| == |right|
    && forall i :: 0 <= i < |left| ==> HasLabel(right, Pair(left[i]))
  }

  predicate HasLabel(labels: seq<Label>, p: (string, string)) {
    exists j :: 0 <= j < |labels| && Pair(labels[j]) == p
  }

  function Pair(l: Label): (string, string) { (l.key, Get(l.text, "")) }

  predicate ReservationEqual(left: Reservation, right: Reservation) {
    && Get(left.kind, UNKNOWN) == Get(right.kind, UNKNOWN)
    && Get(left.role, "") == Get(right.role, "")
    && left.principal == right.principal
    && left.labels.Some? == right.labels.Some?
    && (left.labels.Some? ==> LabelsEqual(left.labels.value, right.labels.value))
  }

  predicate SourceEqual(left: Source, right: Source) {
    && left.kind == right.kind
    && (left.path.Some? ==> left.path.value == Get(right.path, None))
    && (left.mount.Some? ==> left.mount.value == Get(right.mount, None))
  }

  /** Neither the volume nor the principal of a persistent volume is compared. */
  predicate DiskEqual(left: Disk, right: Disk) {
    && left.source.Some? == right.source.Some?
    && (left.source.Some? ==> SourceEqual(left.source.value, right.source.value))
    && left.persistence.Some? == right.persistence.Some?
    && (left.persistence.Some? ==> left.persistence.value.id == right.persistence.value.id)
  }

  /** The part that `==`, `addable` and `subtractable` have in common. */
  predicate SameMetadata(left: Resource, right: Resource) {
    && left.name == right.name
    && KindOf(left.quantity) == KindOf(right.quantity)
    && left.allocation == right.allocation
    && |left.reservations| == |right.reservations|
    && (forall i :: 0 <= i < |left.reservations| ==>
          ReservationEqual(left.reservations[i], right.reservations[i]))
    && left.disk.Some? == right.disk.Some?
    && (left.disk.Some? ==> DiskEqual(left.disk.value, right.disk.value))
    && left.revocable == right.revocable
    && left.provider == right.provider
  }

  /** `operator==(Resource, Resource)` */
  predicate ResourceEqual(left: Resource, right: Resource) {
    SameMetadata(left, right) && left.shared == right.shared && Same(left.quantity, right.quantity)
  }

  predicate IsPersistentVolume(r: Resource) {
    r.disk.Some? && r.disk.value.persistence.Some?
  }

  /** A MOUNT disk or a persistent volume: only ever handed out as a whole. */
  predicate IsExclusive(r: Resource) {
    r.disk.Some? &&
    ((r.disk.value.source.Some? && r.disk.value.source.value.kind == MOUNT) || r.disk.value.persistence.Some?)
  }

  /** `internal::addable` */
  predicate Addable(left: Resource, right: Resource) {
    left.shared == right.shared &&
    if left.shared then ResourceEqual(left, right)
    else SameMetadata(left, right) && !IsExclusive(left)
  }

  /** `internal::subtractable` */
  predicate Subtractable(left: Resource, right: Resource) {
    left.shared == right.shared &&
    if left.shared then ResourceEqual(left, right)
    else SameMetadata(left, right) && (IsExclusive(left) ==> ResourceEqual(left, right))
  }

  // ------------------------------------------------------------ what they decide

  datatype ReservationKey = ReservationKey(
    kind: ReservationKind, role: string, principal: Option<string>, labels: Option<set<(string, string)>>)

  datatype SourceKey = SourceKey(kind: SourceKind, path: Option<string>, mount: Option<string>)

  datatype DiskKey = DiskKey(source: Option<SourceKey>, persistence: Option<string>)

  datatype Key = Key(
    name: string,
    kind: Kind,
    allocation: Option<Option<string>>,
    reservations: seq<ReservationKey>,
    disk: Option<DiskKey>,
    revocable: bool,
    provider: Option<string>)

  ghost function LabelsKey(labels: seq<Label>): set<(string, string)> {
    set i | 0 <= i < |labels| :: Pair(labels[i])
  }

  ghost function ReservationKeyOf(r: Reservation): ReservationKey {
    ReservationKey(Get(r.kind, UNKNOWN), Get(r.role, ""), r.principal,
                   if r.labels.Some? then Some(LabelsKey(r.labels.value)) else None)
  }

  ghost function SourceKeyOf(s: Source): SourceKey {
    SourceKey(s.kind, Get(s.path, None), Get(s.mount, None))
  }

  ghost function DiskKeyOf(d: Disk): DiskKey {
    DiskKey(if d.source.Some? then Some(SourceKeyOf(d.source.value)) else None,
            if d.persistence.Some? then Some(d.persistence.value.id) else None)
  }

  ghost function KeyOf(r: Resource): Key {
    Key(r.name, KindOf(r.quantity), r.allocation,
        seq(|r.reservations|, i requires 0 <= i < |r.reservations| => ReservationKeyOf(r.reservations[i])),
        if r.disk.Some? then Some(DiskKeyOf(r.disk.value)) else None,
        r.revocable, r.provider)
  }

  /** Labels without duplicates, as mesos.proto asks for. */
  ghost predicate RegularLabels(labels: seq<Label>) {
    forall i, j :: 0 <= i < j < |labels| ==> Pair(labels[i]) != Pair(labels[j])
  }

  /** The submessage matching the type of the source is set, and no other. */
  predicate RegularSource(s: Source) {
    (s.path.Some? <==> s.kind == PATH) && (s.mount.Some? <==> s.kind == MOUNT)
  }

  ghost predicate RegularReservations(r: Resource) {
    forall i :: 0 <= i < |r.reservations| ==>
      r.reservations[i].labels.Some? ==> RegularLabels(r.reservations[i].labels.value)
  }

  /** The messages on which the comparisons of resources.cpp are an equivalence. */
  ghost predicate Regular(r: Resource) {
    && RegularReservations(r)
    && (r.disk.Some? && r.disk.value.source.Some? ==> RegularSource(r.disk.value.source.value))
  }

  /** Of two sources of the same type, the left one has the submessage in which the right one names a root. */
  predicate SourcesAgree(left: Source, right: Source) {
    left.kind == right.kind ==>
      && (Get(right.path, None).Some? ==> left.path.Some?)
      && (Get(right.mount, None).Some? ==> left.mount.Some?)
  }

  /** Two messages whose comparison is an equality, which two regular messages always are. */
  ghost predicate Commensurable(a: Resource, b: Resource) {
    && RegularReservations(a) && RegularReservations(b)
    && (a.disk.Some? && b.disk.Some? && a.disk.value.source.Some? && b.disk.value.source.Some? ==>
          SourcesAgree(a.disk.value.source.value, b.disk.value.source.value))
  }

  lemma {:induction false} RegularLabelsCount(labels: seq<Label>)
    requires RegularLabels(labels)
    ensures |LabelsKey(labels)| == |labels|
    decreases |labels|
  {
    if labels != [] {
      var n := |labels| - 1;
      var front := labels[..n];
      RegularLabelsCount(front);
      assert LabelsKey(labels) == LabelsKey(front) + {Pair(labels[n])} by {
        forall p | p in LabelsKey(labels) ensures p in LabelsKey(front) + {Pair(labels[n])} {
          var i :| 0 <= i < |labels| && Pair(labels[i]) == p;
          assert i < n ==> Pair(front[i]) == p;
        }
        forall p | p in LabelsKey(front) ensures p in LabelsKey(labels) {
          var i :| 0 <= i < n && Pair(front[i]) == p;
          assert Pair(labels[i]) == p;
        }
      }
      assert Pair(labels[n]) !in LabelsKey(front);
    }
  }

  lemma {:induction false} SubsetOfSameSize<T>(a: set<T>, b: set<T>)
    requires a <= b && |a| == |b|
    ensures a == b
  {
    assert |b - a| == |b| - |a|;
  }

  /** On duplicate-free labels the one-directional search decides equality of label sets. */
  lemma {:induction false} LabelsEqualMeaning(left: seq<Label>, right: seq<Label>)
    requires RegularLabels(left) && RegularLabels(right)
    ensures LabelsEqual(left, right) <==> LabelsKey(left) == LabelsKey(right)
  {
    RegularLabelsCount(left);
    RegularLabelsCount(right);
    if LabelsEqual(left, right) {
      forall p | p in LabelsKey(left) ensures p in LabelsKey(right) {
        var i :| 0 <= i < |left| && Pair(left[i]) == p;
        assert HasLabel(right, p);
      }
      SubsetOfSameSize(LabelsKey(left), LabelsKey(right));
    }
    if LabelsKey(left) == LabelsKey(right) {
      forall i | 0 <= i < |left| ensures HasLabel(right, Pair(left[i])) {
        assert Pair(left[i]) in LabelsKey(right);
      }
    }
  }

  /** The comparison of two disk sources is an equality only when it is asked both ways ... */
  lemma {:induction false} SourceEqualBothWays(a: Source, b: Source)
    ensures SourceEqual(a, b) && SourceEqual(b, a) <==> SourceKeyOf(a) == SourceKeyOf(b)
  {
  }

  /** ... or when the left side has the submessages that the right side uses ... */
  lemma {:induction false} SourceEqualMeaning(a: Source, b: Source)
    ensures SourceKeyOf(a) == SourceKeyOf(b) ==> SourceEqual(a, b)
    ensures SourcesAgree(a, b) ==> (SourceEqual(a, b) <==> SourceKeyOf(a) == SourceKeyOf(b))
  {
  }

  /** ... because a side that leaves its submessage out matches any root, and not the other way round.
      Labels with duplicates are compared just as unevenly. */
  lemma {:induction false} EqualityIsNotSymmetric(root: string, x: Label, y: Label)
    requires Pair(x) != Pair(y)
    ensures var bare, rooted := Source(PATH, None, None), Source(PATH, Some(Some(root)), None);
            SourceEqual(bare, rooted) && !SourceEqual(rooted, bare)
    ensures LabelsEqual([x, x], [x, y]) && !LabelsEqual([x, y], [x, x])
  {
    var twice, both := [x, x], [x, y];
    assert Pair(both[0]) == Pair(x);
    assert HasLabel(both, Pair(x)) && !HasLabel(twice, Pair(both[1]));
  }

  lemma {:induction false} ReservationEqualMeaning(a: Reservation, b: Reservation)
    requires a.labels.Some? ==> RegularLabels(a.labels.value)
    requires b.labels.Some? ==> RegularLabels(b.labels.value)
    ensures ReservationEqual(a, b) <==> ReservationKeyOf(a) == ReservationKeyOf(b)
  {
    if a.labels.Some? && b.labels.Some? { LabelsEqualMeaning(a.labels.value, b.labels.value); }
  }

  lemma {:induction false} RegularCommensurable(a: Resource, b: Resource)
    ensures Regular(a) && Regular(b) ==> Commensurable(a, b)
  {
  }

  lemma {:induction false} SameMetadataMeaning(a: Resource, b: Resource)
    requires Commensurable(a, b)
    ensures SameMetadata(a, b) <==> KeyOf(a) == KeyOf(b)
  {
    if |a.reservations| == |b.reservations| {
      forall i | 0 <= i < |a.reservations|
        ensures ReservationEqual(a.reservations[i], b.reservations[i]) <==>
                KeyOf(a).reservations[i] == KeyOf(b).reservations[i]
      {
        ReservationEqualMeaning(a.reservations[i], b.reservations[i]);
      }
      if SameMetadata(a, b) { assert KeyOf(a).reservations == KeyOf(b).reservations; }
    } else {
      assert |KeyOf(a).reservations| != |KeyOf(b).reservations|;
    }
  }

  // ------------------------------------------------------------ slots

  /** Where an entry of a `Resources` is accounted: divisible resources by key alone,
      exclusive and shared ones by key and quantity. */
  datatype Slot = Divisible(key: Key) | Whole(key: Key, quantity: Quantity, shared: bool)

  ghost function SlotOf(r: Resource): Slot {
    if r.shared || IsExclusive(r) then Whole(KeyOf(r), r.quantity, r.shared) else Divisible(KeyOf(r))
  }

  /** Only a copy that cannot be merged may occupy its slot more than once. */
  ghost predicate MayRepeat(s: Slot) { s.Whole? && !s.shared }

  lemma {:induction false} SlotMeaning(a: Resource, b: Resource)
    requires Commensurable(a, b) && !a.quantity.Unsupported? && !b.quantity.Unsupported?
    ensures Subtractable(a, b) <==> SlotOf(a) == SlotOf(b)
    ensures Addable(a, b) <==> SlotOf(a) == SlotOf(b) && !MayRepeat(SlotOf(a))
    ensures ResourceEqual(a, b) <==> KeyOf(a) == KeyOf(b) && a.shared == b.shared && a.quantity == b.quantity
  {
    SameMetadataMeaning(a, b);
    if KeyOf(a) == KeyOf(b) {
      assert IsExclusive(a) == IsExclusive(b);
    }
  }
}
