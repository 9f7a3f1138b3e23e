/** The `Resource` message, the comparisons the program makes between two of
    them, and the identity key those comparisons amount to. */
module ResourceModel {
  import opened Common
  import opened Values

  /** Labels are compared without regard to order; they hold no duplicates. */
  datatype Label = Label(key: string, text: Option<string>)

  datatype ReservationType = UNKNOWN | STATIC | DYNAMIC

  datatype ReservationInfo = ReservationInfo(
    kind: Option<ReservationType>,
    role: Option<string>,
    principal: Option<string>,
    labels: Option<set<Label>>)

  datatype SourceType = UNKNOWN_SOURCE | PATH | MOUNT

  /** The `Path` and `Mount` messages: both hold just an optional root. */
  datatype Location = Location(root: Option<string>)

  datatype Source = Source(kind: SourceType, path: Option<Location>, mount: Option<Location>)

  datatype Persistence = Persistence(id: string, principal: Option<string>)

  datatype DiskInfo = DiskInfo(
    source: Option<Source>,
    persistence: Option<Persistence>,
    volume: Option<string>)

  datatype Resource = Resource(
    name: string,
    value: Value,
    allocation: Option<Option<string>>,
    role: Option<string>,
    reservation: Option<ReservationInfo>,
    reservations: seq<ReservationInfo>,
    disk: Option<DiskInfo>,
    revocable: bool,
    provider: Option<string>,
    shared: bool)

  // ---------------------------------------------------------------------
  // Equality
  // ---------------------------------------------------------------------

  function KindOf(r: ReservationInfo): ReservationType {
    if r.kind.Some? then r.kind.value else UNKNOWN
  }

  function RoleOf(r: ReservationInfo): string {
    if r.role.Some? then r.role.value else ""
  }

  predicate ReservationEq(left: ReservationInfo, right: ReservationInfo) {
    && KindOf(left) == KindOf(right)
    && RoleOf(left) == RoleOf(right)
    && left.principal == right.principal
    && left.labels == right.labels
  }

  predicate ReservationsEq(left: seq<ReservationInfo>, right: seq<ReservationInfo>) {
    && |left| == |right|
    && forall i :: 0 <= i < |left| ==> ReservationEq(left[i], right[i])
  }

  function LocationOf(l: Option<Location>): Location {
    if l.Some? then l.value else Location(None)
  }

  /** Only the left operand's presence bits are consulted. */
  predicate SourceEq(left: Source, right: Source) {
    && left.kind == right.kind
    && (left.path.Some? ==> left.path.value == LocationOf(right.path))
    && (left.mount.Some? ==> left.mount.value == LocationOf(right.mount))
  }

  /** The volume and the principal of the persistence are ignored. */
  predicate DiskEq(left: DiskInfo, right: DiskInfo) {
    && left.source.Some? == right.source.Some?
    && (left.source.Some? ==> SourceEq(left.source.value, right.source.value))
    && left.persistence.Some? == right.persistence.Some?
    && (left.persistence.Some? ==> left.persistence.value.id == right.persistence.value.id)
  }

  /** The checks on metadata that equality, addability and subtractability share. */
  predicate SameIdentity(left: Resource, right: Resource) {
    && left.name == right.name
    && SameKind(left.value, right.value)
    && left.allocation == right.allocation
    && ReservationsEq(left.reservations, right.reservations)
    && left.disk.Some? == right.disk.Some?
    && (left.disk.Some? ==> DiskEq(left.disk.value, right.disk.value))
    && left.revocable == right.revocable
    && left.provider == right.provider
    && left.shared == right.shared
  }

  predicate ResourceEq(left: Resource, right: Resource) {
    SameIdentity(left, right) && ValueEq(left.value, right.value)
  }

  // ---------------------------------------------------------------------
  // Addable, subtractable, contains
  // ---------------------------------------------------------------------

  predicate IsMount(r: Resource) {
    r.disk.Some? && r.disk.value.source.Some? && r.disk.value.source.value.kind == MOUNT
  }

  predicate IsPersistentVolume(r: Resource) {
    r.disk.Some? && r.disk.value.persistence.Some?
  }

  predicate Addable(left: Resource, right: Resource) {
    if left.shared != right.shared then false
    else if left.shared then ResourceEq(left, right)
    else SameIdentity(left, right) && !IsMount(left) && !IsPersistentVolume(left)
  }

  predicate Subtractable(left: Resource, right: Resource) {
    if left.shared != right.shared then false
    else if left.shared then ResourceEq(left, right)
    else
      && SameIdentity(left, right)
      && (IsMount(left) ==> ResourceEq(left, right))
      && (IsPersistentVolume(left) ==> ResourceEq(left, right))
  }

  predicate Includes(left: Resource, right: Resource) {
    Subtractable(left, right) && LessEq(right.value, left.value)
  }

  // ---------------------------------------------------------------------
  // Identity keys
  // ---------------------------------------------------------------------

  predicate SourceMatchesType(s: Source) {
    match s.kind
    case PATH => s.path.Some? && s.mount.None?
    case MOUNT => s.path.None? && s.mount.Some?
    case UNKNOWN_SOURCE => s.path.None? && s.mount.None?
  }

  predicate HasTypeAndRole(r: ReservationInfo) {
    r.kind.Some? && r.role.Some?
  }

  /** What every resource inside a pool satisfies: it is in the
      post-reservation-refinement format, its reservations carry type and role,
      its disk source holds the sub-message of its type, its value is sound. */
  predicate WellFormed(r: Resource) {
    && r.role.None? && r.reservation.None?
    && (forall i :: 0 <= i < |r.reservations| ==> HasTypeAndRole(r.reservations[i]))
    && (r.disk.Some? && r.disk.value.source.Some? ==> SourceMatchesType(r.disk.value.source.value))
    && WellFormedValue(r.value)
  }

  /** A resource counted in whole units: shared, or on an exclusive disk. */
  predicate IsUnit(r: Resource) {
    r.shared || IsMount(r) || IsPersistentVolume(r)
  }

  function NormalDisk(d: DiskInfo): DiskInfo {
    DiskInfo(
      d.source,
      if d.persistence.Some? then Some(Persistence(d.persistence.value.id, None)) else None,
      None)
  }

  function Normal(r: Resource): Resource {
    r.(disk := if r.disk.Some? then Some(NormalDisk(r.disk.value)) else None)
  }

  /** The key of a resource: its metadata, and for units its value too. */
  function KeyOf(r: Resource): Resource {
    if IsUnit(r) then Normal(r) else Normal(r).(value := ZeroLike(r.value))
  }

  ghost function ZeroAt(key: Resource): Quantity {
    if IsUnit(key) then Count(0) else ZeroOf(Measure(key.value))
  }

  lemma ReservationsEqIsIdentity(left: seq<ReservationInfo>, right: seq<ReservationInfo>)
    requires forall i :: 0 <= i < |left| ==> HasTypeAndRole(left[i])
    requires forall i :: 0 <= i < |right| ==> HasTypeAndRole(right[i])
    ensures ReservationsEq(left, right) <==> left == right
  {
    if ReservationsEq(left, right) {
      forall i | 0 <= i < |left| ensures left[i] == right[i] {
        assert ReservationEq(left[i], right[i]);
      }
    }
  }

  /** On sources that hold the sub-message of their type, `==` is identity. */
  lemma SourceEqIsIdentity(left: Source, right: Source)
    requires SourceMatchesType(left) && SourceMatchesType(right)
    ensures SourceEq(left, right) <==> left == right
  {
  }

  /** A sub-message with a root that only the right operand has. */
  predicate OnlyRight(left: Option<Location>, right: Option<Location>) {
    left.None? && right.Some? && right.value != LocationOf(None)
  }

  /** Where `==` holds, it holds the other way round exactly when the right operand
      has no root that the left one lacks. */
  lemma SourceEqReversed(left: Source, right: Source)
    requires SourceEq(left, right)
    ensures SourceEq(right, left) <==> !OnlyRight(left.path, right.path) && !OnlyRight(left.mount, right.mount)
  {
  }

  /** In general `==` on sources is not symmetric. */
  lemma SourceEqNotSymmetric() returns (left: Source, right: Source)
    ensures SourceEq(left, right) && !SourceEq(right, left)
  {
    left := Source(PATH, None, None);
    right := Source(PATH, Some(Location(Some("/data"))), None);
  }

  lemma SameIdentityIsNormal(left: Resource, right: Resource)
    requires WellFormed(left) && WellFormed(right)
    ensures SameIdentity(left, right) <==>
            Normal(left).(value := ZeroLike(left.value)) == Normal(right).(value := ZeroLike(right.value))
  {
    ReservationsEqIsIdentity(left.reservations, right.reservations);
    if left.disk.Some? && right.disk.Some? && left.disk.value.source.Some? && right.disk.value.source.Some? {
      SourceEqIsIdentity(left.disk.value.source.value, right.disk.value.source.value);
    }
  }

  /** The code's `==` compares resources up to volume and persistence principal. */
  lemma ResourceEqIsNormal(left: Resource, right: Resource)
    requires WellFormed(left) && WellFormed(right)
    ensures ResourceEq(left, right) <==> Normal(left) == Normal(right)
  {
    SameIdentityIsNormal(left, right);
    ValueEqIsIdentity(left.value, right.value);
  }

  /** Two resources can be subtracted exactly when they have one key, and added
      exactly when they have one key that is not an exclusive disk's. */
  lemma KeysDecide(left: Resource, right: Resource)
    requires WellFormed(left) && WellFormed(right)
    ensures Subtractable(left, right) <==> KeyOf(left) == KeyOf(right)
    ensures Addable(left, right) <==> KeyOf(left) == KeyOf(right) && (left.shared || !IsUnit(left))
    ensures KeyOf(left) == KeyOf(right) ==>
              SameKind(left.value, right.value) && IsUnit(left) == IsUnit(right) && left.shared == right.shared
  {
    SameIdentityIsNormal(left, right);
    ResourceEqIsNormal(left, right);
  }

  lemma KeyIsFixed(r: Resource)
    ensures KeyOf(KeyOf(r)) == KeyOf(r)
    ensures IsUnit(KeyOf(r)) == IsUnit(r) && KeyOf(r).shared == r.shared
    ensures IsMount(KeyOf(r)) == IsMount(r) && IsPersistentVolume(KeyOf(r)) == IsPersistentVolume(r)
    ensures WellFormed(r) ==> WellFormed(KeyOf(r))
  {
  }
}
