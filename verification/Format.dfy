/** Conversion between the three resource formats (liburb/source/resources_utils.cpp). */
module Format {
  import opened Wrappers
  import opened ResourceModel
  import opened Roles
  import opened Validation

  datatype ResourceFormat = PRE_RESERVATION_REFINEMENT | POST_RESERVATION_REFINEMENT | ENDPOINT

  /** What `convertResourceFormat` CHECKs before it converts. */
  predicate Convertible(r: Resource, format: ResourceFormat) {
    match format
    case PRE_RESERVATION_REFINEMENT => PostFormat(r) && |r.reservations| <= 1
    case ENDPOINT => PostFormat(r)
    case POST_RESERVATION_REFINEMENT => r.reservations == [] && Get(r.role, "*") == "*" ==> r.reservation.None?
  }

  /** The fields of the older format that describe at most one reservation. */
  function Downgraded(r: Resource): Resource {
    if r.reservations == [] then r.(role := Some("*"))
    else if |r.reservations| > 1 then r
    else
      var v := r.reservations[0];
      r.(role := Some(Get(v.role, "")),
         reservation := if v.kind == Some(DYNAMIC) then Some(Reservation(None, None, v.principal, v.labels))
                        else r.reservation)
  }

  function Upgraded(r: Resource): Resource {
    if r.reservations != [] || Get(r.role, "*") == "*" then r.(role := None, reservation := None)
    else
      var v := if r.reservation.None? then Reservation(Some(STATIC), r.role, None, None)
               else r.reservation.value.(kind := Some(DYNAMIC), role := r.role);
      r.(reservations := [v], role := None, reservation := None)
  }

  function Converted(r: Resource, format: ResourceFormat): Resource {
    match format
    case PRE_RESERVATION_REFINEMENT => Downgraded(r).(reservations := [])
    case ENDPOINT => Downgraded(r)
    case POST_RESERVATION_REFINEMENT => Upgraded(r)
  }

  /** `convertResourceFormat`, on one message, step by step. */
  method Convert(r: Resource, format: ResourceFormat) returns (resource: Resource)
    requires Convertible(r, format)
    ensures resource == Converted(r, format)
  {
    resource := r;
    match format {
      case PRE_RESERVATION_REFINEMENT | ENDPOINT =>
        if resource.reservations == [] {
          resource := resource.(role := Some("*"));
        } else if |resource.reservations| == 1 {
          var source := resource.reservations[0];
          if source.kind == Some(DYNAMIC) {
            var target := Reservation(None, None, None, None);
            if source.principal.Some? {
              target := target.(principal := source.principal);
            }
            if source.labels.Some? {
              target := target.(labels := source.labels);
            }
            resource := resource.(reservation := Some(target));
          }
          resource := resource.(role := Some(Get(source.role, "")));
          if format == PRE_RESERVATION_REFINEMENT {
            resource := resource.(reservations := []);
          }
        }
      case POST_RESERVATION_REFINEMENT =>
        if resource.reservations != [] {
          resource := resource.(role := None);
          resource := resource.(reservation := None);
          return;
        }
        if Get(resource.role, "*") == "*" {
          resource := resource.(role := None);
          return;
        }
        var reservation := Reservation(None, None, None, None);
        if resource.reservation.None? {
          reservation := reservation.(kind := Some(STATIC));
        } else {
          reservation := resource.reservation.value;
          resource := resource.(reservation := None);
          reservation := reservation.(kind := Some(DYNAMIC));
        }
        reservation := reservation.(role := resource.role);
        resource := resource.(reservations := [reservation], role := None);
    }
  }

  /** `convertResourceFormat` on a list, in place. */
  method ConvertAll(resources: array<Resource>, format: ResourceFormat)
    requires forall i :: 0 <= i < resources.Length ==> Convertible(resources[i], format)
    modifies resources
    ensures forall i :: 0 <= i < resources.Length ==> resources[i] == Converted(old(resources[i]), format)
  {
    for k := 0 to resources.Length
      invariant forall i :: 0 <= i < k ==> resources[i] == Converted(old(resources[i]), format)
      invariant forall i :: k <= i < resources.Length ==> resources[i] == old(resources[i])
    {
      resources[k] := Convert(resources[k], format);
    }
  }

  /** `downgradeResources`: all or nothing. */
  method Downgrade(resources: array<Resource>) returns (ok: bool)
    requires forall i :: 0 <= i < resources.Length ==> PostFormat(resources[i])
    modifies resources
    ensures ok <==> forall i :: 0 <= i < resources.Length ==> |old(resources[i].reservations)| <= 1
    ensures forall i :: 0 <= i < resources.Length ==>
              resources[i] == if ok then Converted(old(resources[i]), PRE_RESERVATION_REFINEMENT) else old(resources[i])
  {
    for k := 0 to resources.Length
      invariant forall i :: 0 <= i < k ==> |resources[i].reservations| <= 1
    {
      if |resources[k].reservations| > 1 {
        return false;
      }
    }
    ConvertAll(resources, PRE_RESERVATION_REFINEMENT);
    return true;
  }

  // ------------------------------------------------------------ round trips

  lemma {:induction false} LabelsEqualReflexive(labels: seq<Label>)
    ensures LabelsEqual(labels, labels)
  {
    forall i | 0 <= i < |labels| ensures HasLabel(labels, Pair(labels[i])) {}
  }

  /** The endpoint format loses nothing. */
  lemma {:induction false} EndpointRoundTrip(r: Resource)
    requires Validate(r) && PostFormat(r)
    ensures var e := Converted(r, ENDPOINT);
            Validate(e) && Convertible(e, POST_RESERVATION_REFINEMENT) && Converted(e, POST_RESERVATION_REFINEMENT) == r
  {
    if |r.reservations| == 1 {
      var v := r.reservations[0];
      assert ValidReservation(v);
      LabelsEqualReflexive(Get(v.labels, []));
      if v.kind == Some(DYNAMIC) {
        assert ValidSingle(Converted(r, ENDPOINT), v);
      }
    } else if r.reservations == [] {
      assert ValidRole("*");
    }
  }

  /** The older format keeps a single reservation, except for the principal and labels of a static one. */
  lemma {:induction false} PreRoundTrip(r: Resource)
    requires Validate(r) && PostFormat(r) && |r.reservations| <= 1
    ensures var p := Converted(r, PRE_RESERVATION_REFINEMENT);
            && Validate(p) && Convertible(p, POST_RESERVATION_REFINEMENT)
            && (Converted(p, POST_RESERVATION_REFINEMENT) == r <==>
                r.reservations == [] || r.reservations[0].kind == Some(DYNAMIC) ||
                (r.reservations[0].principal.None? && r.reservations[0].labels.None?))
  {
    if r.reservations != [] {
      assert ValidReservation(r.reservations[0]);
      assert r.reservations == [r.reservations[0]];
    } else {
      assert ValidRole("*");
    }
  }

  /** Whatever format a valid message is in, upgrading is safe, yields a valid message in the new format
      and changes nothing the second time. */
  lemma {:induction false} UpgradeKeepsValid(r: Resource)
    requires Validate(r)
    ensures Convertible(r, POST_RESERVATION_REFINEMENT)
    ensures var u := Converted(r, POST_RESERVATION_REFINEMENT);
            Validate(u) && PostFormat(u) && Converted(u, POST_RESERVATION_REFINEMENT) == u
  {
    var u := Upgraded(r);
    assert ValidRole("*");
    if r.reservations == [] && Get(r.role, "*") != "*" {
      assert ValidReservation(u.reservations[0]);
    }
  }

  /** A message of the older format survives being upgraded and downgraded if it names its role. */
  lemma {:induction false} UpgradeThenDowngrade(r: Resource)
    requires Validate(r) && r.reservations == []
    ensures Converted(Converted(r, POST_RESERVATION_REFINEMENT), PRE_RESERVATION_REFINEMENT) == r <==> r.role.Some?
  {
    var u := Upgraded(r);
    if Get(r.role, "*") != "*" { assert u.reservations[0].role == r.role; }
  }
}
