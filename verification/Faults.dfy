/** `Resources::validate` as the list of faults it reports. */
module Faults {
  import opened Common
  import opened Values
  import opened ResourceModel
  import opened Roles
  import opened Validation

  datatype Fault =
    | EMPTY_NAME
    | NEGATIVE_SCALAR
    | DUPLICATED_ELEMENTS
    | DISK_OF_OTHER_RESOURCE
    | UNSUPPORTED_SOURCE
    | INVALID_ROLE
    | TYPE_IN_OLD_RESERVATION
    | ROLE_IN_OLD_RESERVATION
    | STAR_DYNAMICALLY_RESERVED
    | MISSING_TYPE
    | MISSING_ROLE
    | INVALID_RESERVATION_ROLE
    | STAR_RESERVED
    | STATIC_REFINEMENT
    | NOT_A_REFINEMENT
    | ROLE_MISMATCH
    | STATIC_WITH_OLD_RESERVATION
    | HALF_OF_OLD_FIELDS
    | PRINCIPAL_MISMATCH
    | LABELS_MISMATCH
    | UNSUPPORTED_TYPE
    | OLD_ROLE_WITH_REFINEMENT
    | OLD_RESERVATION_WITH_REFINEMENT
    | SHARED_OTHER_RESOURCE
    | SHARED_WITHOUT_PERSISTENCE

  /** A role that starts with the other role and a slash. */
  ghost predicate Extends(role: string, other: string) {
    exists rest :: role == other + "/" + rest
  }

  predicate IsStar(role: Option<string>) {
    role == None || role == Some("*")
  }

  /** What each fault says of a resource. */
  ghost predicate Shows(f: Fault, r: Resource) {
    var rs := r.reservations;
    match f
    case EMPTY_NAME => |r.name| == 0
    case NEGATIVE_SCALAR => r.value.Scalar? && r.value.milli < 0
    case DUPLICATED_ELEMENTS =>
      r.value.Items? && exists i, j :: 0 <= i < j < |r.value.items| && r.value.items[i] == r.value.items[j]
    case DISK_OF_OTHER_RESOURCE => r.disk.Some? && r.name != "disk"
    case UNSUPPORTED_SOURCE =>
      r.disk.Some? && r.disk.value.source.Some? && r.disk.value.source.value.kind.UNKNOWN_SOURCE?
    case INVALID_ROLE => |rs| == 0 && r.role.Some? && !IsValidRole(r.role.value)
    case TYPE_IN_OLD_RESERVATION => |rs| == 0 && r.reservation.Some? && r.reservation.value.kind.Some?
    case ROLE_IN_OLD_RESERVATION => |rs| == 0 && r.reservation.Some? && r.reservation.value.role.Some?
    case STAR_DYNAMICALLY_RESERVED => |rs| == 0 && r.reservation.Some? && IsStar(r.role)
    case MISSING_TYPE => exists i :: 0 <= i < |rs| && rs[i].kind.None?
    case MISSING_ROLE => exists i :: 0 <= i < |rs| && rs[i].role.None?
    case INVALID_RESERVATION_ROLE => exists i :: 0 <= i < |rs| && rs[i].role.Some? && !IsValidRole(rs[i].role.value)
    case STAR_RESERVED => exists i :: 0 <= i < |rs| && rs[i].role == Some("*")
    case STATIC_REFINEMENT => exists i :: 1 <= i < |rs| && rs[i].kind == Some(STATIC)
    case NOT_A_REFINEMENT =>
      exists i :: 1 <= i < |rs| && rs[i].role.Some? && rs[i - 1].role.Some?
                  && !Extends(rs[i].role.value, rs[i - 1].role.value)
    case ROLE_MISMATCH => |rs| == 1 && r.role.Some? && r.role != rs[0].role
    case STATIC_WITH_OLD_RESERVATION => |rs| == 1 && rs[0].kind == Some(STATIC) && r.reservation.Some?
    case HALF_OF_OLD_FIELDS => |rs| == 1 && rs[0].kind == Some(DYNAMIC) && r.role.Some? != r.reservation.Some?
    case PRINCIPAL_MISMATCH =>
      |rs| == 1 && rs[0].kind == Some(DYNAMIC) && r.reservation.Some? && PrincipalOf(r.reservation.value) != PrincipalOf(rs[0])
    case LABELS_MISMATCH =>
      |rs| == 1 && rs[0].kind == Some(DYNAMIC) && r.reservation.Some? && LabelsOf(r.reservation.value) != LabelsOf(rs[0])
    case UNSUPPORTED_TYPE => |rs| == 1 && rs[0].kind == Some(UNKNOWN)
    case OLD_ROLE_WITH_REFINEMENT => |rs| > 1 && r.role.Some?
    case OLD_RESERVATION_WITH_REFINEMENT => |rs| > 1 && r.reservation.Some?
    case SHARED_OTHER_RESOURCE => r.shared && r.name != "disk"
    case SHARED_WITHOUT_PERSISTENCE => r.shared && !(r.disk.Some? && r.disk.value.persistence.Some?)
  }

  predicate AllReservationsValid(rs: seq<ReservationInfo>) {
    forall i :: 0 <= i < |rs| ==> ValidReservation(rs[i])
  }

  lemma RefinementMeans(rs: seq<ReservationInfo>, i: nat)
    requires AllReservationsValid(rs) && 1 <= i < |rs|
    ensures KindOf(rs[i]) == STATIC <==> rs[i].kind == Some(STATIC)
    ensures IsStrictSubroleOf(RoleOf(rs[i]), RoleOf(rs[i - 1])) <==> Extends(rs[i].role.value, rs[i - 1].role.value)
  {
    hide IsValidRole, IsStrictSubroleOf;
    assert ValidReservation(rs[i]) && ValidReservation(rs[i - 1]);
    SubroleMeans(RoleOf(rs[i]), RoleOf(rs[i - 1]));
  }

  predicate OnReservations(f: Fault) {
    f.MISSING_TYPE? || f.MISSING_ROLE? || f.INVALID_RESERVATION_ROLE? || f.STAR_RESERVED?
  }

  predicate OnRefinement(f: Fault) {
    f.STATIC_REFINEMENT? || f.NOT_A_REFINEMENT?
  }

  lemma ReservationFaults(r: Resource)
    ensures AllReservationsValid(r.reservations) <==> forall f :: OnReservations(f) ==> !Shows(f, r)
  {
    hide IsValidRole;
    var rs := r.reservations;
    if AllReservationsValid(rs) {
      forall f | OnReservations(f) ensures !Shows(f, r) {
        assert forall i :: 0 <= i < |rs| ==> ValidReservation(rs[i]);
      }
    }
    if forall f :: OnReservations(f) ==> !Shows(f, r) {
      assert !Shows(MISSING_TYPE, r) && !Shows(MISSING_ROLE, r);
      assert !Shows(INVALID_RESERVATION_ROLE, r) && !Shows(STAR_RESERVED, r);
    }
  }

  lemma RefinementFaults(r: Resource)
    requires AllReservationsValid(r.reservations)
    ensures CorrectlyRefined(r.reservations) <==> forall f :: OnRefinement(f) ==> !Shows(f, r)
  {
    hide IsValidRole, IsStrictSubroleOf, Extends, ValidReservation;
    var rs := r.reservations;
    forall i | 1 <= i < |rs|
      ensures KindOf(rs[i]) != STATIC && IsStrictSubroleOf(RoleOf(rs[i]), RoleOf(rs[i - 1])) <==>
              rs[i].kind != Some(STATIC) && rs[i].role.Some? && rs[i - 1].role.Some?
              && Extends(rs[i].role.value, rs[i - 1].role.value)
    {
      RefinementMeans(rs, i);
      RolesAreThere(rs, i);
    }
    if forall f :: OnRefinement(f) ==> !Shows(f, r) {
      assert !Shows(STATIC_REFINEMENT, r) && !Shows(NOT_A_REFINEMENT, r);
      forall i | 1 <= i < |rs| ensures KindOf(rs[i]) != STATIC && IsStrictSubroleOf(RoleOf(rs[i]), RoleOf(rs[i - 1])) {
        RolesAreThere(rs, i);
      }
    }
  }

  lemma RolesAreThere(rs: seq<ReservationInfo>, i: nat)
    requires AllReservationsValid(rs) && 1 <= i < |rs|
    ensures rs[i].role.Some? && rs[i - 1].role.Some?
  {
    assert ValidReservation(rs[i]) && ValidReservation(rs[i - 1]);
  }

  /** A valid resource shows no fault. */
  lemma ValidShowsNone(r: Resource, f: Fault)
    requires IsValid(r)
    ensures !Shows(f, r)
  {
    hide IsValidRole, IsStrictSubroleOf;
    ReservationFaults(r);
    if |r.reservations| > 0 {
      assert AllReservationsValid(r.reservations);
      RefinementFaults(r);
      if |r.reservations| == 1 {
        assert ValidReservation(r.reservations[0]);
      }
    }
  }

  method ValidateReservations(r: Resource) returns (fault: Option<Fault>)
    ensures fault.None? ==> AllReservationsValid(r.reservations)
    ensures fault.Some? ==> Shows(fault.value, r)
  {
    hide IsValidRole;
    var rs := r.reservations;
    for i := 0 to |rs|
      invariant forall j :: 0 <= j < i ==> ValidReservation(rs[j])
    {
      if rs[i].kind.None? {
        return Some(MISSING_TYPE);
      }
      if rs[i].role.None? {
        return Some(MISSING_ROLE);
      }
      if !IsValidRole(rs[i].role.value) {
        return Some(INVALID_RESERVATION_ROLE);
      }
      if rs[i].role.value == "*" {
        return Some(STAR_RESERVED);
      }
    }
    return None;
  }

  method ValidateRefinement(r: Resource) returns (fault: Option<Fault>)
    requires |r.reservations| > 0 && AllReservationsValid(r.reservations)
    ensures fault.None? ==> CorrectlyRefined(r.reservations)
    ensures fault.Some? ==> Shows(fault.value, r)
  {
    hide ValidReservation, IsStrictSubroleOf, Extends;
    var rs := r.reservations;
    var ancestor := RoleOf(rs[0]);
    for i := 1 to |rs|
      invariant ancestor == RoleOf(rs[i - 1])
      invariant forall j :: 1 <= j < i ==> KindOf(rs[j]) != STATIC && IsStrictSubroleOf(RoleOf(rs[j]), RoleOf(rs[j - 1]))
    {
      RefinementMeans(rs, i);
      RolesAreThere(rs, i);
      if KindOf(rs[i]) == STATIC {
        return Some(STATIC_REFINEMENT);
      }
      var descendant := RoleOf(rs[i]);
      if !IsStrictSubroleOf(descendant, ancestor) {
        return Some(NOT_A_REFINEMENT);
      }
      ancestor := descendant;
    }
    return None;
  }

  /** The checks on a list of reservations. */
  method ValidateStack(r: Resource) returns (fault: Option<Fault>)
    requires |r.reservations| > 0
    ensures fault.None? ==> ValidStack(r)
    ensures fault.Some? ==> Shows(fault.value, r)
  {
    hide ValidReservation, CorrectlyRefined, OldFieldsAgree;
    fault := ValidateReservations(r);
    if fault.Some? {
      return;
    }
    fault := ValidateRefinement(r);
    if fault.Some? {
      return;
    }
    if |r.reservations| == 1 {
      assert ValidReservation(r.reservations[0]);
      fault := ValidateOldFields(r);
    } else {
      if r.role.Some? {
        return Some(OLD_ROLE_WITH_REFINEMENT);
      }
      if r.reservation.Some? {
        return Some(OLD_RESERVATION_WITH_REFINEMENT);
      }
    }
  }

  /** The checks on the old fields beside a single reservation. */
  method ValidateOldFields(r: Resource) returns (fault: Option<Fault>)
    requires |r.reservations| == 1 && ValidReservation(r.reservations[0])
    ensures fault.None? ==> OldFieldsAgree(r)
    ensures fault.Some? ==> Shows(fault.value, r)
  {
    var reservation := r.reservations[0];
    if r.role.Some? && r.role.value != RoleOf(reservation) {
      return Some(ROLE_MISMATCH);
    }
    match KindOf(reservation) {
      case STATIC =>
        if r.reservation.Some? {
          return Some(STATIC_WITH_OLD_RESERVATION);
        }
      case DYNAMIC =>
        if r.role.Some? != r.reservation.Some? {
          return Some(HALF_OF_OLD_FIELDS);
        }
        if r.reservation.Some? && PrincipalOf(r.reservation.value) != PrincipalOf(reservation) {
          return Some(PRINCIPAL_MISMATCH);
        }
        if r.reservation.Some? && LabelsOf(r.reservation.value) != LabelsOf(reservation) {
          return Some(LABELS_MISMATCH);
        }
      case UNKNOWN =>
        return Some(UNSUPPORTED_TYPE);
    }
    return None;
  }

  /** `validate`: the first fault found, and none exactly for a valid resource. */
  method Validate(r: Resource) returns (fault: Option<Fault>)
    ensures fault.None? <==> IsValid(r)
    ensures fault.Some? ==> Shows(fault.value, r)
  {
    fault := FirstFault(r);
    if fault.Some? && IsValid(r) {
      ValidShowsNone(r, fault.value);
    }
  }

  method FirstFault(r: Resource) returns (fault: Option<Fault>)
    ensures fault.None? ==> IsValid(r)
    ensures fault.Some? ==> Shows(fault.value, r)
  {
    hide IsValidRole, ValidStack;
    StarIsValidRole();
    if r.name == "" {
      return Some(EMPTY_NAME);
    }
    match r.value {
      case Scalar(milli) =>
        if milli < 0 {
          return Some(NEGATIVE_SCALAR);
        }
      case Ranges(_) =>
      case Items(items) =>
        if !Distinct(items) {
          return Some(DUPLICATED_ELEMENTS);
        }
    }
    if r.disk.Some? {
      if r.name != "disk" {
        return Some(DISK_OF_OTHER_RESOURCE);
      }
      if r.disk.value.source.Some? && r.disk.value.source.value.kind == UNKNOWN_SOURCE {
        return Some(UNSUPPORTED_SOURCE);
      }
    }
    if |r.reservations| == 0 {
      if !IsValidRole(RoleField(r)) {
        return Some(INVALID_ROLE);
      }
      if r.reservation.Some? {
        if r.reservation.value.kind.Some? {
          return Some(TYPE_IN_OLD_RESERVATION);
        }
        if r.reservation.value.role.Some? {
          return Some(ROLE_IN_OLD_RESERVATION);
        }
        if RoleField(r) == "*" {
          return Some(STAR_DYNAMICALLY_RESERVED);
        }
      }
    } else {
      fault := ValidateStack(r);
      if fault.Some? {
        return;
      }
    }
    if r.shared {
      if r.name != "disk" {
        return Some(SHARED_OTHER_RESOURCE);
      }
      if !IsPersistentVolume(r) {
        return Some(SHARED_WITHOUT_PERSISTENCE);
      }
    }
    return None;
  }

  /** A resource is valid exactly when it shows none of the faults. */
  lemma ValidMeans(r: Resource)
    ensures IsValid(r) <==> forall f :: !Shows(f, r)
  {
    if IsValid(r) {
      forall f ensures !Shows(f, r) {
        ValidShowsNone(r, f);
      }
    }
    if forall f :: !Shows(f, r) {
      NoFaultIsValid(r);
    }
  }

  lemma NoFaultIsValid(r: Resource)
    requires forall f :: !Shows(f, r)
    ensures IsValid(r)
  {
    hide IsValidRole;
    StarIsValidRole();
    assert !Shows(EMPTY_NAME, r) && !Shows(NEGATIVE_SCALAR, r) && !Shows(DUPLICATED_ELEMENTS, r);
    assert !Shows(DISK_OF_OTHER_RESOURCE, r) && !Shows(UNSUPPORTED_SOURCE, r);
    assert !Shows(SHARED_OTHER_RESOURCE, r) && !Shows(SHARED_WITHOUT_PERSISTENCE, r);
    if |r.reservations| == 0 {
      assert !Shows(INVALID_ROLE, r) && !Shows(TYPE_IN_OLD_RESERVATION, r) && !Shows(ROLE_IN_OLD_RESERVATION, r);
      assert !Shows(STAR_DYNAMICALLY_RESERVED, r);
    } else {
      NoFaultIsStack(r);
    }
  }

  lemma NoFaultIsStack(r: Resource)
    requires |r.reservations| > 0 && forall f :: !Shows(f, r)
    ensures ValidStack(r)
  {
    hide ValidReservation, CorrectlyRefined;
    ReservationFaults(r);
    RefinementFaults(r);
    if |r.reservations| == 1 {
      NoFaultInOldFields(r);
    } else {
      assert !Shows(OLD_ROLE_WITH_REFINEMENT, r) && !Shows(OLD_RESERVATION_WITH_REFINEMENT, r);
    }
  }

  lemma NoFaultInOldFields(r: Resource)
    requires |r.reservations| == 1 && AllReservationsValid(r.reservations) && forall f :: !Shows(f, r)
    ensures OldFieldsAgree(r)
  {
    hide IsValidRole;
    assert ValidReservation(r.reservations[0]);
    assert !Shows(ROLE_MISMATCH, r) && !Shows(STATIC_WITH_OLD_RESERVATION, r) && !Shows(HALF_OF_OLD_FIELDS, r);
    assert !Shows(PRINCIPAL_MISMATCH, r) && !Shows(LABELS_MISMATCH, r) && !Shows(UNSUPPORTED_TYPE, r);
  }
}
