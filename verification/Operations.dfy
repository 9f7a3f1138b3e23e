/** `Resources::apply`: RESERVE, UNRESERVE, CREATE and DESTROY on a pool. */
module Operations {
  import opened Common
  import opened Values
  import opened ResourceModel
  import opened Validation
  import opened Pool
  import opened PoolMap
  import opened Totals

  datatype Action = RESERVE | UNRESERVE | CREATE | DESTROY

  datatype Operation =
    | Launch
    | LaunchGroup
    | Change(action: Action, resources: seq<Resource>)
    | UnknownOperation

  /** An operation is applied, refused with an error, or stopped by a failing `CHECK`. */
  datatype Outcome = Applied(pool: seq<Entry>) | Rejected | Aborted

  // ---------------------------------------------------------------------
  // The code
  // ---------------------------------------------------------------------

  /** The `Resources(Resource)` constructor. */
  function FromResource(r: Resource): seq<Entry> {
    if IsValid(r) then Add([], ToEntry(r)) else []
  }

  /** `Resources::contains(Resource)` */
  predicate ContainsResource(pool: seq<Entry>, r: Resource) {
    IsValid(r) && Holds(pool, ToEntry(r))
  }

  predicate AllReserved(pool: seq<Entry>) {
    forall i :: 0 <= i < |pool| ==> IsReserved(pool[i].resource)
  }

  function PopInto(result: seq<Entry>, pool: seq<Entry>): seq<Entry>
    requires AllReserved(pool)
    decreases pool
  {
    if pool == [] then result
    else PopInto(Add(result, pool[0].(resource := Pop(pool[0].resource))), pool[1..])
  }

  /** `Resources::popReservation` */
  function PopReservation(pool: seq<Entry>): seq<Entry>
    requires AllReserved(pool)
  {
    PopInto([], pool)
  }

  lemma FromResourceReserved(r: Resource)
    requires IsReserved(r)
    ensures AllReserved(FromResource(r))
  {
  }

  function Step(action: Action, pool: seq<Entry>, r: Resource): Try<seq<Entry>> {
    match action
    case RESERVE =>
      if !IsReserved(r) || !IsDynamicallyReserved(r) then Error
      else
        FromResourceReserved(r);
        var popped := PopReservation(FromResource(r));
        if !Contains(pool, popped) then Error
        else Ok(Add(SubtractAll(pool, popped), ToEntry(r)))
    case UNRESERVE =>
      if !IsReserved(r) || !IsDynamicallyReserved(r) then Error
      else if !ContainsResource(pool, r) then Error
      else
        FromResourceReserved(r);
        Ok(AddAll(Subtract(pool, ToEntry(r)), PopReservation(FromResource(r))))
    case CREATE =>
      if !IsPersistentVolume(r) then Error
      else
        var stripped := StripVolume(r);
        if !ContainsResource(pool, stripped) then Error
        else Ok(Add(Subtract(pool, ToEntry(stripped)), ToEntry(r)))
    case DESTROY =>
      if !IsPersistentVolume(r) then Error
      else if !ContainsResource(pool, r) then Error
      else
        var rest := Subtract(pool, ToEntry(r));
        if ContainsResource(rest, r) then Error
        else Ok(Add(rest, ToEntry(StripVolume(r))))
  }

  function Steps(action: Action, pool: seq<Entry>, rs: seq<Resource>): Try<seq<Entry>>
    decreases rs
  {
    if rs == [] then Ok(pool)
    else
      var next := Step(action, pool, rs[0]);
      if next.Error? then Error else Steps(action, next.value, rs[1..])
  }

  /** Whole megabytes, as `mem()` and `disk()` report them. */
  function Megabytes(total: Option<Value>): Option<int> {
    if total.Some? && total.value.Scalar? then Some(total.value.milli / 1000) else None
  }

  /** The sanity checks on the totals at the end of `apply`. */
  predicate ChecksPass(before: seq<Entry>, after: seq<Entry>) {
    && Get(after, "cpus", Scalar(0)) == Get(before, "cpus", Scalar(0))
    && Get(after, "gpus", Scalar(0)) == Get(before, "gpus", Scalar(0))
    && Megabytes(Get(after, "mem", Scalar(0))) == Megabytes(Get(before, "mem", Scalar(0)))
    && Megabytes(Get(after, "disk", Scalar(0))) == Megabytes(Get(before, "disk", Scalar(0)))
    && Get(after, "ports", Ranges({})) == Get(before, "ports", Ranges({}))
  }

  function Checked(before: seq<Entry>, after: seq<Entry>): Outcome {
    if ChecksPass(before, after) then Applied(after) else Aborted
  }

  function Apply(pool: seq<Entry>, op: Operation): Outcome {
    match op
    case Launch => Checked(pool, pool)
    case LaunchGroup => Checked(pool, pool)
    case UnknownOperation => Rejected
    case Change(action, rs) =>
      if !AllValid(rs) then Rejected
      else
        var result := Steps(action, pool, rs);
        if result.Error? then Rejected else Checked(pool, result.value)
  }

  /** `apply` over a list of operations. */
  function ApplyAll(pool: seq<Entry>, ops: seq<Operation>): Outcome
    decreases ops
  {
    if ops == [] then Applied(pool)
    else
      var first := Apply(pool, ops[0]);
      if first.Applied? then ApplyAll(first.pool, ops[1..]) else first
  }

  // ---------------------------------------------------------------------
  // Every step moves one resource from one key to another
  // ---------------------------------------------------------------------

  /** What a step takes out of the pool, and what it puts in. */
  function Outgoing(action: Action, r: Resource): Entry {
    match action
    case RESERVE => ToEntry(if IsReserved(r) then Pop(r) else r)
    case UNRESERVE => ToEntry(r)
    case CREATE => ToEntry(StripVolume(r))
    case DESTROY => ToEntry(r)
  }

  function Incoming(action: Action, r: Resource): Entry {
    match action
    case RESERVE => ToEntry(r)
    case UNRESERVE => ToEntry(if IsReserved(r) then Pop(r) else r)
    case CREATE => ToEntry(r)
    case DESTROY => ToEntry(StripVolume(r))
  }

  function Move(pool: seq<Entry>, out: Entry, added: Entry): seq<Entry> {
    Add(Subtract(pool, out), added)
  }

  lemma EntriesWellFormed(action: Action, r: Resource)
    requires Usable(r)
    ensures WellFormedEntry(Outgoing(action, r)) && WellFormedEntry(Incoming(action, r))
    ensures Outgoing(action, r).resource.value == r.value == Incoming(action, r).resource.value
    ensures Outgoing(action, r).resource.name == r.name == Incoming(action, r).resource.name
    ensures IsEmpty(Outgoing(action, r)) <==> IsZero(r.value)
    ensures IsEmpty(Incoming(action, r)) <==> IsZero(r.value)
  {
    UsableIsWellFormed(r);
    StripVolumeIsUsable(r);
    UsableIsWellFormed(StripVolume(r));
    if IsReserved(r) {
      forall i | 0 <= i < |Pop(r).reservations| ensures HasTypeAndRole(Pop(r).reservations[i]) {
        assert Pop(r).reservations[i] == r.reservations[i];
      }
    }
  }

  lemma PopOne(r: Resource)
    requires IsValid(r) && IsReserved(r) && AllReserved(FromResource(r))
    ensures PopReservation(FromResource(r)) == if IsZero(r.value) then [] else [ToEntry(Pop(r))]
  {
    if !IsZero(r.value) {
      var pool := FromResource(r);
      assert pool == [ToEntry(r)] && pool[1..] == [];
      var popped := ToEntry(r).(resource := Pop(r));
      assert PopInto([], pool) == PopInto(Add([], popped), []);
    }
  }

  lemma StepIsMove(action: Action, pool: seq<Entry>, r: Resource)
    requires Pool.Valid(pool) && Usable(r)
    requires Step(action, pool, r).Ok?
    ensures var out, added := Outgoing(action, r), Incoming(action, r);
            if IsZero(r.value) then Step(action, pool, r).value == pool && action != DESTROY
            else
              && Holds(pool, out)
              && Step(action, pool, r).value == Move(pool, out, added)
              && (action == DESTROY ==> !Holds(Subtract(pool, out), out))
              && (action == RESERVE || action == UNRESERVE ==> IsReserved(r))
              && (action == CREATE || action == DESTROY ==> IsPersistentVolume(r))
  {
    hide Holds, Subtract, Insert, IsValid, StripVolume;
    match action
    case RESERVE =>
      FromResourceReserved(r);
      PopOne(r);
      var popped := PopReservation(FromResource(r));
      if !IsZero(r.value) {
        assert popped[1..] == [];
        assert Contains(pool, popped) == Holds(pool, popped[0]);
        assert SubtractAll(pool, popped) == SubtractAll(Subtract(pool, popped[0]), popped[1..]);
      }
    case UNRESERVE =>
      FromResourceReserved(r);
      PopOne(r);
      var popped := PopReservation(FromResource(r));
      if IsZero(r.value) {
        assert IsEmpty(ToEntry(r));
        SubtractEmpty(pool, ToEntry(r));
      } else {
        var rest := Subtract(pool, ToEntry(r));
        assert popped[1..] == [];
        assert AddAll(rest, popped) == AddAll(Add(rest, popped[0]), popped[1..]);
      }
    case CREATE =>
      if IsZero(r.value) {
        EntriesWellFormed(action, r);
        SubtractEmpty(pool, ToEntry(StripVolume(r)));
      }
    case DESTROY =>
      if IsZero(r.value) {
        EntriesWellFormed(action, r);
        SubtractEmpty(pool, ToEntry(r));
      }
  }

  lemma SubtractEmpty(pool: seq<Entry>, e: Entry)
    requires IsEmpty(e)
    ensures Subtract(pool, e) == pool
  {
  }

  lemma MoveQty(pool: seq<Entry>, out: Entry, added: Entry)
    requires Pool.Valid(pool) && WellFormedEntry(out) && WellFormedEntry(added)
    ensures Pool.Valid(Move(pool, out, added))
    ensures forall key :: Qty(Move(pool, out, added), key) == Sum(Take(Qty(pool, key), At(out, key)), At(added, key))
  {
    SubtractIsTake(pool, out);
    AddIsSum(Subtract(pool, out), added);
  }
}
