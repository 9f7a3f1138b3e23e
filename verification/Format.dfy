/** The three formats of a resource message and the conversions between them. */
module Format {
  import opened Common
  import opened ResourceModel
  import opened Validation

  datatype ResourceFormat = PRE_RESERVATION_REFINEMENT | POST_RESERVATION_REFINEMENT | ENDPOINT

  /** The old fields a single reservation is written to. */
  function OldReservation(source: ReservationInfo): Option<ReservationInfo> {
    if KindOf(source) == DYNAMIC then Some(ReservationInfo(None, None, source.principal, source.labels)) else None
  }

  /** The reservation the old fields stand for. */
  function NewReservation(role: string, reservation: Option<ReservationInfo>): ReservationInfo {
    if reservation.None? then ReservationInfo(Some(STATIC), Some(role), None, None)
    else reservation.value.(kind := Some(DYNAMIC), role := Some(role))
  }

  /** `convertResourceFormat`; nothing is returned when a `CHECK` fails. */
  function Convert(r: Resource, format: ResourceFormat): Option<Resource> {
    match format
    case POST_RESERVATION_REFINEMENT =>
      if r.reservations != [] then Some(r.(role := None, reservation := None))
      else if RoleField(r) == "*" then
        if r.reservation.Some? then None else Some(r.(role := None))
      else
        Some(r.(reservations := [NewReservation(RoleField(r), r.reservation)], role := None, reservation := None))
    case _ =>
      if r.role.Some? || r.reservation.Some? then None
      else if r.reservations == [] then Some(r.(role := Some("*")))
      else if |r.reservations| == 1 then
        var source := r.reservations[0];
        var converted := r.(reservation := OldReservation(source), role := Some(RoleOf(source)));
        Some(if format == PRE_RESERVATION_REFINEMENT then converted.(reservations := []) else converted)
      else if format == PRE_RESERVATION_REFINEMENT then None
      else Some(r)
  }

  // ---------------------------------------------------------------------
  // Conversions of one resource
  // ---------------------------------------------------------------------

  predicate HasOldFields(r: Resource) {
    r.role.Some? || r.reservation.Some?
  }

  /** Which resources no `CHECK` stops, and that only the fields of the reservation change. */
  lemma ConvertChecks(r: Resource, format: ResourceFormat)
    ensures Convert(r, format).None? <==>
            match format
            case PRE_RESERVATION_REFINEMENT => HasOldFields(r) || |r.reservations| > 1
            case ENDPOINT => HasOldFields(r)
            case POST_RESERVATION_REFINEMENT =>
              |r.reservations| == 0 && r.reservation.Some? && (r.role == None || r.role == Some("*"))
    ensures Convert(r, format).Some? ==>
              var c := Convert(r, format).value;
              c == r.(role := c.role, reservation := c.reservation, reservations := c.reservations)
  {
  }

  /** What the old fields say after a conversion: the star for an unreserved resource,
      the role of a single reservation and, when that is dynamic, its principal and
      labels; nothing for a refined reservation. */
  lemma OldFieldsMean(r: Resource, format: ResourceFormat)
    requires format != POST_RESERVATION_REFINEMENT && Convert(r, format).Some?
    requires forall i :: 0 <= i < |r.reservations| ==> HasTypeAndRole(r.reservations[i])
    ensures var c, rs := Convert(r, format).value, r.reservations;
            && c.reservations == (if format == ENDPOINT then rs else [])
            && c.role == (match |rs| case 0 => Some("*") case 1 => rs[0].role case _ => None)
            && (c.reservation.Some? <==> |rs| == 1 && rs[0].kind == Some(DYNAMIC))
            && (c.reservation.Some? ==>
                  && c.reservation.value.principal == rs[0].principal && c.reservation.value.labels == rs[0].labels
                  && c.reservation.value.kind == None && c.reservation.value.role == None)
  {
  }

  /** What the new field says: the same list if there was one; otherwise nothing for
      the star, and for another role one reservation, dynamic if the old field was set. */
  lemma NewFieldMeans(r: Resource)
    requires Convert(r, POST_RESERVATION_REFINEMENT).Some?
    ensures var c := Convert(r, POST_RESERVATION_REFINEMENT).value;
            && c.role == None && c.reservation == None
            && (|r.reservations| > 0 ==> c.reservations == r.reservations)
            && (|r.reservations| == 0 && (r.role == None || r.role == Some("*")) ==> c.reservations == [])
            && (|r.reservations| == 0 && r.role != None && r.role != Some("*") ==>
                  && |c.reservations| == 1 && c.reservations[0].role == r.role
                  && c.reservations[0].kind == Some(if r.reservation.Some? then DYNAMIC else STATIC)
                  && c.reservations[0].principal == (if r.reservation.Some? then r.reservation.value.principal else None)
                  && c.reservations[0].labels == (if r.reservation.Some? then r.reservation.value.labels else None))
  {
  }

  /** A valid resource converts to the post format without a failing `CHECK`, and
      the result is valid. */
  lemma ConvertToPost(r: Resource)
    requires IsValid(r)
    ensures Convert(r, POST_RESERVATION_REFINEMENT).Some?
    ensures var post := Convert(r, POST_RESERVATION_REFINEMENT).value;
            IsValid(post) && InPostFormat(post) && post.value == r.value && post.name == r.name
  {
    StarIsValidRole();
    var post := Convert(r, POST_RESERVATION_REFINEMENT).value;
    if r.reservations != [] {
      if |r.reservations| == 1 {
        assert OldFieldsAgree(post);
      }
    } else if RoleField(r) != "*" {
      assert ValidReservation(post.reservations[0]);
      assert OldFieldsAgree(post);
    }
  }

  /** Post to endpoint and back is the identity, and the endpoint form is valid. */
  lemma EndpointRoundTrip(r: Resource)
    requires IsValid(r) && InPostFormat(r)
    ensures Convert(r, ENDPOINT).Some? && IsValid(Convert(r, ENDPOINT).value)
    ensures Convert(Convert(r, ENDPOINT).value, POST_RESERVATION_REFINEMENT) == Some(r)
  {
    StarIsValidRole();
    var e := Convert(r, ENDPOINT).value;
    if |r.reservations| == 1 {
      assert ValidReservation(r.reservations[0]);
      assert OldFieldsAgree(r);
      assert OldFieldsAgree(e);
    }
  }

  /** The old format loses nothing: at most one reservation, and a static one bare. */
  predicate FitsOldFormat(r: Resource) {
    && |r.reservations| <= 1
    && (|r.reservations| == 1 && KindOf(r.reservations[0]) == STATIC ==>
          r.reservations[0].principal.None? && r.reservations[0].labels.None?)
  }

  /** Post to pre and back is the identity exactly on those resources. */
  lemma PreRoundTrip(r: Resource)
    requires IsValid(r) && InPostFormat(r)
    ensures Convert(r, PRE_RESERVATION_REFINEMENT).Some? <==> |r.reservations| <= 1
    ensures |r.reservations| <= 1 ==>
              var pre := Convert(r, PRE_RESERVATION_REFINEMENT).value;
              && IsValid(pre)
              && (Convert(pre, POST_RESERVATION_REFINEMENT) == Some(r) <==> FitsOldFormat(r))
  {
    StarIsValidRole();
    if |r.reservations| == 1 {
      var s := r.reservations[0];
      var pre := Convert(r, PRE_RESERVATION_REFINEMENT).value;
      assert ValidReservation(s);
      assert OldFieldsAgree(r);
      var back := Convert(pre, POST_RESERVATION_REFINEMENT).value;
      assert back.reservations == [NewReservation(RoleOf(s), OldReservation(s))];
      assert r.reservations == [s];
      if FitsOldFormat(r) {
        assert NewReservation(RoleOf(s), OldReservation(s)) == s;
        assert back == r;
      } else {
        assert back.reservations[0] != s;
      }
    }
  }

  // ---------------------------------------------------------------------
  // Lists of resources, converted in place
  // ---------------------------------------------------------------------

  predicate Convertible(rs: seq<Resource>, format: ResourceFormat) {
    forall i :: 0 <= i < |rs| ==> Convert(rs[i], format).Some?
  }

  function ConvertAll(rs: seq<Resource>, format: ResourceFormat): (out: seq<Resource>)
    requires Convertible(rs, format)
    ensures |out| == |rs| && forall i :: 0 <= i < |rs| ==> Some(out[i]) == Convert(rs[i], format)
  {
    seq(|rs|, i requires 0 <= i < |rs| => Convert(rs[i], format).value)
  }

  predicate AllPost(rs: seq<Resource>) {
    forall i :: 0 <= i < |rs| ==> InPostFormat(rs[i])
  }

  /** A resource message edited in place. */
  class ResourceCell {
    var message: Resource

    constructor (r: Resource)
      ensures message == r
    {
      message := r;
    }

    method ConvertFormat(format: ResourceFormat)
      requires Convert(message, format).Some?
      modifies this
      ensures Some(message) == Convert(old(message), format)
    {
      if format == POST_RESERVATION_REFINEMENT {
        if |message.reservations| > 0 {
          message := message.(role := None);
          message := message.(reservation := None);
          return;
        }
        if RoleField(message) == "*" {
          assert message.reservation.None?;
          message := message.(role := None);
          return;
        }
        var reservation := ReservationInfo(None, None, None, None);
        if message.reservation.None? {
          reservation := reservation.(kind := Some(STATIC));
        } else {
          reservation := message.reservation.value;
          message := message.(reservation := None);
          reservation := reservation.(kind := Some(DYNAMIC));
        }
        reservation := reservation.(role := Some(RoleField(message)));
        message := message.(reservations := [reservation]);
        message := message.(role := None);
      } else {
        assert message.role.None? && message.reservation.None?;
        if |message.reservations| == 0 {
          message := message.(role := Some("*"));
        } else if |message.reservations| == 1 {
          var source := message.reservations[0];
          if KindOf(source) == DYNAMIC {
            var target := ReservationInfo(None, None, None, None);
            if source.principal.Some? {
              target := target.(principal := source.principal);
            }
            if source.labels.Some? {
              target := target.(labels := source.labels);
            }
            message := message.(reservation := Some(target));
          }
          message := message.(role := Some(RoleOf(source)));
          if format == PRE_RESERVATION_REFINEMENT {
            message := message.(reservations := []);
          }
        } else {
          assert format != PRE_RESERVATION_REFINEMENT;
        }
      }
    }
  }

  method ConvertArray(rs: array<Resource>, format: ResourceFormat)
    requires Convertible(rs[..], format)
    modifies rs
    ensures rs[..] == ConvertAll(old(rs[..]), format)
  {
    for k := 0 to rs.Length
      invariant forall j :: 0 <= j < k ==> Some(rs[j]) == Convert(old(rs[j]), format)
      invariant forall j :: k <= j < rs.Length ==> rs[j] == old(rs[j])
    {
      assert Convert(old(rs[..])[k], format).Some?;
      var cell := new ResourceCell(rs[k]);
      cell.ConvertFormat(format);
      rs[k] := cell.message;
    }
    forall j | 0 <= j < rs.Length ensures rs[..][j] == ConvertAll(old(rs[..]), format)[j] {
      assert old(rs[..])[j] == old(rs[j]);
    }
  }

  /** `downgradeResources`: all of them to the old format, or none. */
  method Downgrade(rs: array<Resource>) returns (ok: bool)
    requires AllPost(rs[..])
    modifies rs
    ensures ok <==> forall j :: 0 <= j < rs.Length ==> |old(rs[j]).reservations| <= 1
    ensures ok ==> Convertible(old(rs[..]), PRE_RESERVATION_REFINEMENT)
                   && rs[..] == ConvertAll(old(rs[..]), PRE_RESERVATION_REFINEMENT)
    ensures !ok ==> rs[..] == old(rs[..])
  {
    for i := 0 to rs.Length
      invariant forall j :: 0 <= j < i ==> |rs[j].reservations| <= 1
    {
      if |rs[i].reservations| > 1 {
        return false;
      }
    }
    forall i | 0 <= i < |rs[..]| ensures Convert(rs[..][i], PRE_RESERVATION_REFINEMENT).Some? {
      assert InPostFormat(rs[..][i]);
    }
    ConvertArray(rs, PRE_RESERVATION_REFINEMENT);
    ok := true;
  }

  // ---------------------------------------------------------------------
  // Offer operations
  // ---------------------------------------------------------------------

  datatype OperationType = RESERVE | UNRESERVE | CREATE | DESTROY | LAUNCH | LAUNCH_GROUP | UNKNOWN_OPERATION

  datatype Task = Task(resources: seq<Resource>, executor: Option<seq<Resource>>)

  datatype Group = Group(executor: Option<seq<Resource>>, tasks: seq<Task>)

  datatype Offer = Offer(
    kind: OperationType,
    reserve: Option<seq<Resource>>,
    unreserve: Option<seq<Resource>>,
    create: Option<seq<Resource>>,
    destroy: Option<seq<Resource>>,
    launch: Option<seq<Task>>,
    launchGroup: Option<Group>)

  function OrNone(rs: Option<seq<Resource>>): seq<Resource> {
    if rs.Some? then rs.value else []
  }

  function TaskLists(tasks: seq<Task>): seq<seq<Resource>> {
    if tasks == [] then []
    else [tasks[0].resources, OrNone(tasks[0].executor)] + TaskLists(tasks[1..])
  }

  /** The resource lists the operation carries in the field its type names; nothing
      when that field is missing or the type is unknown. */
  function Lists(o: Offer): Option<seq<seq<Resource>>> {
    match o.kind
    case RESERVE => if o.reserve.Some? then Some([o.reserve.value]) else None
    case UNRESERVE => if o.unreserve.Some? then Some([o.unreserve.value]) else None
    case CREATE => if o.create.Some? then Some([o.create.value]) else None
    case DESTROY => if o.destroy.Some? then Some([o.destroy.value]) else None
    case LAUNCH => if o.launch.Some? then Some(TaskLists(o.launch.value)) else None
    case LAUNCH_GROUP =>
      if o.launchGroup.Some? then Some([OrNone(o.launchGroup.value.executor)] + TaskLists(o.launchGroup.value.tasks))
      else None
    case UNKNOWN_OPERATION => None
  }

  predicate AllListsValid(lists: seq<seq<Resource>>) {
    forall i :: 0 <= i < |lists| ==> AllValid(lists[i])
  }

  predicate AllListsPost(lists: seq<seq<Resource>>) {
    forall i :: 0 <= i < |lists| ==> AllPost(lists[i])
  }

  lemma ValidConvertible(rs: seq<Resource>)
    requires AllValid(rs)
    ensures Convertible(rs, POST_RESERVATION_REFINEMENT)
    ensures AllValid(ConvertAll(rs, POST_RESERVATION_REFINEMENT)) && AllPost(ConvertAll(rs, POST_RESERVATION_REFINEMENT))
  {
    hide IsValid, Convert, InPostFormat;
    forall i | 0 <= i < |rs| ensures Convert(rs[i], POST_RESERVATION_REFINEMENT).Some? {
      ConvertToPost(rs[i]);
    }
    var out := ConvertAll(rs, POST_RESERVATION_REFINEMENT);
    forall i | 0 <= i < |rs| ensures IsValid(out[i]) && InPostFormat(out[i]) {
      ConvertToPost(rs[i]);
    }
  }

  function Normalized(rs: seq<Resource>): seq<Resource>
    requires AllValid(rs)
  {
    ValidConvertible(rs);
    ConvertAll(rs, POST_RESERVATION_REFINEMENT)
  }

  predicate ValidTask(t: Task) {
    AllValid(t.resources) && (t.executor.Some? ==> AllValid(t.executor.value))
  }

  function NormalizedTask(t: Task): Task
    requires ValidTask(t)
  {
    Task(Normalized(t.resources), if t.executor.Some? then Some(Normalized(t.executor.value)) else None)
  }

  predicate ValidTasks(ts: seq<Task>) {
    forall i :: 0 <= i < |ts| ==> ValidTask(ts[i])
  }

  function NormalizedTasks(ts: seq<Task>): (out: seq<Task>)
    requires ValidTasks(ts)
    ensures |out| == |ts| && forall i :: 0 <= i < |ts| ==> out[i] == NormalizedTask(ts[i])
  {
    seq(|ts|, i requires 0 <= i < |ts| => NormalizedTask(ts[i]))
  }

  function NormalizedLists(lists: seq<seq<Resource>>): seq<seq<Resource>>
    requires AllListsValid(lists)
  {
    seq(|lists|, i requires 0 <= i < |lists| => Normalized(lists[i]))
  }

  /** Everything but the field that its type names. */
  function Cleared(o: Offer): Offer {
    match o.kind
    case RESERVE => o.(reserve := None)
    case UNRESERVE => o.(unreserve := None)
    case CREATE => o.(create := None)
    case DESTROY => o.(destroy := None)
    case LAUNCH => o.(launch := None)
    case LAUNCH_GROUP => o.(launchGroup := None)
    case UNKNOWN_OPERATION => o
  }

  predicate IsNormalized(was: Option<seq<Resource>>, now: Option<seq<Resource>>) {
    was.Some? && AllValid(was.value) && now == Some(Normalized(was.value))
  }

  predicate AreNormalized(was: seq<Task>, now: seq<Task>) {
    ValidTasks(was) && now == NormalizedTasks(was)
  }

  /** An offer operation message edited in place. */
  class OfferCell {
    var message: Offer

    /** `validateAndNormalizeResources`: everything is validated before anything is
        changed; on success each list the operation carries is converted, on error
        the message is untouched. */
    method ValidateAndNormalize() returns (ok: bool)
      modifies this
      ensures ok <==> Lists(old(message)).Some? && AllListsValid(Lists(old(message)).value)
      ensures !ok ==> message == old(message)
      ensures ok ==> Lists(message) == Some(NormalizedLists(Lists(old(message)).value))
      ensures message.kind == old(message).kind && Cleared(message) == Cleared(old(message))
      ensures ok ==>
                var was := old(message);
                match message.kind
                case RESERVE => IsNormalized(was.reserve, message.reserve)
                case UNRESERVE => IsNormalized(was.unreserve, message.unreserve)
                case CREATE => IsNormalized(was.create, message.create)
                case DESTROY => IsNormalized(was.destroy, message.destroy)
                case LAUNCH => was.launch.Some? && message.launch.Some? && AreNormalized(was.launch.value, message.launch.value)
                case LAUNCH_GROUP =>
                  && was.launchGroup.Some? && message.launchGroup.Some?
                  && was.launchGroup.value.executor.Some? == message.launchGroup.value.executor.Some?
                  && (was.launchGroup.value.executor.Some? ==>
                        IsNormalized(was.launchGroup.value.executor, message.launchGroup.value.executor))
                  && AreNormalized(was.launchGroup.value.tasks, message.launchGroup.value.tasks)
                case UNKNOWN_OPERATION => false
    {
      match message.kind {
        case RESERVE =>
          if message.reserve.None? {
            return false;
          }
          OneList(message.reserve.value);
          if !AllValid(message.reserve.value) {
            return false;
          }
          message := message.(reserve := Some(Normalized(message.reserve.value)));
        case UNRESERVE =>
          if message.unreserve.None? {
            return false;
          }
          OneList(message.unreserve.value);
          if !AllValid(message.unreserve.value) {
            return false;
          }
          message := message.(unreserve := Some(Normalized(message.unreserve.value)));
        case CREATE =>
          if message.create.None? {
            return false;
          }
          OneList(message.create.value);
          if !AllValid(message.create.value) {
            return false;
          }
          message := message.(create := Some(Normalized(message.create.value)));
        case DESTROY =>
          if message.destroy.None? {
            return false;
          }
          OneList(message.destroy.value);
          if !AllValid(message.destroy.value) {
            return false;
          }
          message := message.(destroy := Some(Normalized(message.destroy.value)));
        case LAUNCH =>
          if message.launch.None? {
            return false;
          }
          TasksNormalize(message.launch.value);
          if !ValidTasks(message.launch.value) {
            return false;
          }
          message := message.(launch := Some(NormalizedTasks(message.launch.value)));
        case LAUNCH_GROUP =>
          if message.launchGroup.None? {
            return false;
          }
          var group := message.launchGroup.value;
          TasksNormalize(group.tasks);
          MoreLists([OrNone(group.executor)], TaskLists(group.tasks));
          OneList(OrNone(group.executor));
          if (group.executor.Some? && !AllValid(group.executor.value)) || !ValidTasks(group.tasks) {
            return false;
          }
          if group.executor.Some? {
            group := group.(executor := Some(Normalized(group.executor.value)));
          }
          group := group.(tasks := NormalizedTasks(group.tasks));
          message := message.(launchGroup := Some(group));
        case UNKNOWN_OPERATION =>
          return false;
      }
      ok := true;
    }
  }

  /** After a successful normalization every resource is valid and in post format. */
  lemma NormalizedIsValidPost(lists: seq<seq<Resource>>)
    requires AllListsValid(lists)
    ensures AllListsValid(NormalizedLists(lists)) && AllListsPost(NormalizedLists(lists))
  {
    hide AllValid, AllPost, ConvertAll;
    forall i | 0 <= i < |lists| ensures AllValid(NormalizedLists(lists)[i]) && AllPost(NormalizedLists(lists)[i]) {
      ValidConvertible(lists[i]);
    }
  }

  lemma OneList(rs: seq<Resource>)
    ensures AllListsValid([rs]) <==> AllValid(rs)
    ensures AllValid(rs) ==> NormalizedLists([rs]) == [Normalized(rs)]
  {
    hide AllValid, ConvertAll;
    assert [rs][0] == rs;
  }

  lemma MoreLists(first: seq<seq<Resource>>, rest: seq<seq<Resource>>)
    ensures AllListsValid(first + rest) <==> AllListsValid(first) && AllListsValid(rest)
    ensures AllListsValid(first + rest) ==>
              NormalizedLists(first + rest) == NormalizedLists(first) + NormalizedLists(rest)
  {
    hide AllValid, ConvertAll;
    var all := first + rest;
    assert forall i :: 0 <= i < |first| ==> all[i] == first[i];
    assert forall i :: 0 <= i < |rest| ==> all[|first| + i] == rest[i];
    if AllListsValid(first) && AllListsValid(rest) {
      forall i | 0 <= i < |all| ensures AllValid(all[i]) {
        assert i >= |first| ==> all[i] == rest[i - |first|];
      }
    }
  }

  lemma TaskNormalizes(t: Task)
    ensures var lists := [t.resources, OrNone(t.executor)];
            && (ValidTask(t) <==> AllListsValid(lists))
            && (ValidTask(t) ==>
                  [NormalizedTask(t).resources, OrNone(NormalizedTask(t).executor)] == NormalizedLists(lists))
  {
    hide AllValid, Convert;
    var lists := [t.resources, OrNone(t.executor)];
    assert lists[0] == t.resources && lists[1] == OrNone(t.executor);
    assert AllValid([]) by {
      NothingIsValid();
    }
  }

  lemma NothingIsValid()
    ensures AllValid([])
  {
  }

  lemma {:induction false} TasksNormalize(ts: seq<Task>)
    ensures ValidTasks(ts) <==> AllListsValid(TaskLists(ts))
    ensures ValidTasks(ts) ==> TaskLists(NormalizedTasks(ts)) == NormalizedLists(TaskLists(ts))
  {
    hide AllValid, ConvertAll, NormalizedTask, ValidTask;
    if ts != [] {
      var t, rest := ts[0], ts[1..];
      TasksNormalize(rest);
      TaskNormalizes(t);
      MoreLists([t.resources, OrNone(t.executor)], TaskLists(rest));
      assert ValidTasks(ts) <==> ValidTask(t) && ValidTasks(rest) by {
        assert ts == [t] + rest;
      }
      if ValidTasks(ts) {
        var out := NormalizedTasks(ts);
        assert out[0] == NormalizedTask(t) && out[1..] == NormalizedTasks(rest);
      }
    }
  }
}
