/** When an operation succeeds and what it does then, told on the map of the pool
    alone: the amounts under each key. */
module Outcomes {
  import opened Common
  import opened Values
  import opened ResourceModel
  import opened Validation
  import opened Pool
  import opened PoolMap
  import opened Totals
  import opened Operations
  import opened Conservation

  // ---------------------------------------------------------------------
  // The operations on a map from key to amount
  // ---------------------------------------------------------------------

  type Amounts = Resource -> Quantity

  ghost predicate Describes(q: Amounts, pool: seq<Entry>) {
    forall key :: Qty(pool, key) == q(key)
  }

  /** Without its last reservation. */
  function Lowered(r: Resource): Resource {
    if |r.reservations| == 0 then r else r.(reservations := r.reservations[..|r.reservations| - 1])
  }

  /** As plain disk space: the source is all that is left of the disk. */
  function Plain(r: Resource): Resource {
    var disk := match r.disk
                case Some(DiskInfo(Some(source), _, _)) => Some(DiskInfo(Some(source), None, None))
                case _ => None;
    r.(disk := disk, shared := false)
  }

  function Taken(action: Action, r: Resource): Resource {
    match action
    case RESERVE => Lowered(r)
    case CREATE => Plain(r)
    case _ => r
  }

  function Given(action: Action, r: Resource): Resource {
    match action
    case UNRESERVE => Lowered(r)
    case DESTROY => Plain(r)
    case _ => r
  }

  /** The last reservation is dynamic, or the disk is persistent. */
  predicate Suits(action: Action, r: Resource) {
    match action
    case RESERVE => |r.reservations| > 0 && r.reservations[|r.reservations| - 1].kind == Some(DYNAMIC)
    case UNRESERVE => |r.reservations| > 0 && r.reservations[|r.reservations| - 1].kind == Some(DYNAMIC)
    case CREATE => r.disk.Some? && r.disk.value.persistence.Some?
    case DESTROY => r.disk.Some? && r.disk.value.persistence.Some?
  }

  /** Of nothing there is enough where the pool has something under the same key,
      and never of an exclusive disk or a shared resource. */
  ghost predicate Enough(q: Amounts, r: Resource) {
    if IsZero(r.value) then !IsUnit(r) && q(KeyOf(r)) != ZeroAt(KeyOf(r))
    else AtMost(Amount(ToEntry(r)), q(KeyOf(r)))
  }

  ghost predicate Enabled(action: Action, q: Amounts, r: Resource) {
    && Suits(action, r)
    && match action
       case RESERVE => IsZero(r.value) || Enough(q, Lowered(r))
       case UNRESERVE => Enough(q, r)
       case CREATE => Enough(q, Plain(r))
       case DESTROY => !IsZero(r.value) && q(KeyOf(r)) == Count(1)
  }

  ghost function Moved(action: Action, q: Amounts, r: Resource): Amounts {
    if IsZero(r.value) then q
    else key => Sum(Take(q(key), At(ToEntry(Taken(action, r)), key)), At(ToEntry(Given(action, r)), key))
  }

  ghost predicate AllEnabled(action: Action, q: Amounts, rs: seq<Resource>)
    decreases rs
  {
    rs == [] || (Enabled(action, q, rs[0]) && AllEnabled(action, Moved(action, q, rs[0]), rs[1..]))
  }

  ghost function AllMoved(action: Action, q: Amounts, rs: seq<Resource>): Amounts
    decreases rs
  {
    if rs == [] then q else AllMoved(action, Moved(action, q, rs[0]), rs[1..])
  }

  // ---------------------------------------------------------------------
  // One step
  // ---------------------------------------------------------------------

  lemma FormsAgree(action: Action, r: Resource)
    requires Usable(r) && Suits(action, r)
    ensures Outgoing(action, r) == ToEntry(Taken(action, r)) && Incoming(action, r) == ToEntry(Given(action, r))
    ensures StripVolume(r) == Plain(r)
  {
  }

  lemma SuitsMeans(action: Action, r: Resource)
    requires Usable(r)
    ensures (action == RESERVE || action == UNRESERVE) ==> (Suits(action, r) <==> IsReserved(r) && IsDynamicallyReserved(r))
    ensures (action == CREATE || action == DESTROY) ==> (Suits(action, r) <==> IsPersistentVolume(r))
  {
    UsableIsWellFormed(r);
  }

  /** The search for an empty entry finds any entry of its key that is not a unit. */
  lemma HoldsNothing(pool: seq<Entry>, r: Resource)
    requires Pool.Valid(pool) && WellFormed(r) && IsZero(r.value)
    ensures Holds(pool, ToEntry(r)) <==> !IsUnit(r) && Qty(pool, KeyOf(r)) != ZeroAt(KeyOf(r))
  {
    hide NoTwoAddable, WellFormed, KeyOf, Amount, Qty, ZeroAt, Sum, Subtractable, ResourceEq;
    var e, key := ToEntry(r), KeyOf(r);
    forall i | 0 <= i < |pool| ensures EntryIncludes(pool[i], e) <==> !IsUnit(r) && Key(pool[i]) == key {
      IncludesNothing(pool[i], r);
    }
    if i :| 0 <= i < |pool| && EntryIncludes(pool[i], e) {
      QtySplit(pool, i, key);
      QtyIsNatural(RemoveAt(pool, i), key);
      AmountIsNatural(pool[i], key);
      PositivePart(At(pool[i], key), Qty(RemoveAt(pool, i), key), key);
    } else if !IsUnit(r) {
      QtyAbsent(pool, key);
    }
  }

  lemma PositivePart(a: Quantity, b: Quantity, key: Resource)
    requires Natural(a) && Natural(b) && SameUnit(a, ZeroAt(key)) && SameUnit(b, ZeroAt(key)) && a != ZeroAt(key)
    ensures Sum(a, b) != ZeroAt(key)
  {
  }

  lemma IncludesNothing(e: Entry, r: Resource)
    requires WellFormedEntry(e) && !IsEmpty(e) && WellFormed(r) && IsZero(r.value)
    ensures EntryIncludes(e, ToEntry(r)) <==> !IsUnit(r) && Key(e) == KeyOf(r)
  {
    KeysDecide(e.resource, r);
    ResourceEqIsNormal(e.resource, r);
    if Key(e) == KeyOf(r) {
      OperatorsMeasure(r.value, e.resource.value);
      OperatorsMeasure(e.resource.value, e.resource.value);
    }
  }

  lemma EnoughMeans(pool: seq<Entry>, q: Amounts, r: Resource)
    requires Pool.Valid(pool) && Describes(q, pool) && WellFormed(r)
    ensures Enough(q, r) <==> Holds(pool, ToEntry(r))
  {
    hide NoTwoAddable, WellFormed, KeyOf, Qty, Holds;
    if IsZero(r.value) {
      HoldsNothing(pool, r);
    } else {
      HoldsMeans(pool, ToEntry(r));
    }
    assert Qty(pool, KeyOf(r)) == q(KeyOf(r));
  }

  lemma ReserveEnabled(pool: seq<Entry>, q: Amounts, r: Resource)
    requires Pool.Valid(pool) && Describes(q, pool) && Usable(r)
    ensures Step(RESERVE, pool, r).Ok? <==> Enabled(RESERVE, q, r)
  {
    hide Enough, Holds, Qty, Pool.Valid, Usable;
    SuitsMeans(RESERVE, r);
    UsableIsValid(r);
    if Suits(RESERVE, r) {
      EntriesWellFormed(RESERVE, r);
      EnoughMeans(pool, q, Lowered(r));
      FromResourceReserved(r);
      PopOne(r);
      var popped := PopReservation(FromResource(r));
      if !IsZero(r.value) {
        assert popped[1..] == [];
        assert Contains(pool, popped) == Holds(pool, popped[0]);
      }
    }
  }

  lemma UnreserveEnabled(pool: seq<Entry>, q: Amounts, r: Resource)
    requires Pool.Valid(pool) && Describes(q, pool) && Usable(r)
    ensures Step(UNRESERVE, pool, r).Ok? <==> Enabled(UNRESERVE, q, r)
  {
    hide Enough, Holds, Qty, Pool.Valid, Usable, Subtract, AddAll;
    SuitsMeans(UNRESERVE, r);
    UsableIsValid(r);
    UsableIsWellFormed(r);
    EnoughMeans(pool, q, r);
  }

  lemma CreateEnabled(pool: seq<Entry>, q: Amounts, r: Resource)
    requires Pool.Valid(pool) && Describes(q, pool) && Usable(r)
    ensures Step(CREATE, pool, r).Ok? <==> Enabled(CREATE, q, r)
  {
    hide Enough, Holds, Qty, Pool.Valid, Usable, Subtract, Insert;
    SuitsMeans(CREATE, r);
    StripVolumeIsUsable(r);
    UsableIsValid(StripVolume(r));
    UsableIsWellFormed(StripVolume(r));
    assert StripVolume(r) == Plain(r);
    EnoughMeans(pool, q, Plain(r));
  }

  lemma DestroyEnabled(pool: seq<Entry>, q: Amounts, r: Resource)
    requires Pool.Valid(pool) && Describes(q, pool) && Usable(r)
    ensures Step(DESTROY, pool, r).Ok? <==> Enabled(DESTROY, q, r)
  {
    hide Enough, Holds, Qty, NoTwoAddable, NoneEmpty, AllWellFormed, Usable, Subtract, Insert, KeyOf;
    SuitsMeans(DESTROY, r);
    UsableIsValid(r);
    UsableIsWellFormed(r);
    if Suits(DESTROY, r) {
      var e := ToEntry(r);
      var rest := Subtract(pool, e);
      assert Qty(pool, KeyOf(r)) == q(KeyOf(r));
      if IsZero(r.value) {
        HoldsNothing(pool, r);
      } else {
        SubtractIsTake(pool, e);
        HoldsMeans(pool, e);
        HoldsMeans(rest, e);
        QtyIsNatural(pool, KeyOf(r));
        assert Amount(e) == Count(1);
        assert Qty(rest, Key(e)) == Take(Qty(pool, Key(e)), At(e, Key(e)));
        KeyIsFixed(r);
      }
    }
  }

  /** A step succeeds exactly when it is enabled on the map, and then moves the
      amount of the operand from the one key to the other. */
  lemma StepOutcome(action: Action, pool: seq<Entry>, q: Amounts, r: Resource)
    requires Pool.Valid(pool) && Describes(q, pool) && Usable(r)
    ensures Step(action, pool, r).Ok? <==> Enabled(action, q, r)
    ensures Step(action, pool, r).Ok? ==>
              Pool.Valid(Step(action, pool, r).value) && Describes(Moved(action, q, r), Step(action, pool, r).value)
  {
    hide Step, Enabled, Usable, NoTwoAddable, NoneEmpty, AllWellFormed, KeyOf, Qty, Amount, Move, Sum, Take;
    match action {
      case RESERVE => ReserveEnabled(pool, q, r);
      case UNRESERVE => UnreserveEnabled(pool, q, r);
      case CREATE => CreateEnabled(pool, q, r);
      case DESTROY => DestroyEnabled(pool, q, r);
    }
    if Step(action, pool, r).Ok? && !IsZero(r.value) {
      assert Suits(action, r) by {
        assert Enabled(action, q, r);
        EnabledSuits(action, q, r);
      }
      StepIsMove(action, pool, r);
      EntriesWellFormed(action, r);
      FormsAgree(action, r);
      MoveQty(pool, Outgoing(action, r), Incoming(action, r));
    } else if Step(action, pool, r).Ok? {
      StepIsMove(action, pool, r);
    }
  }

  lemma EnabledSuits(action: Action, q: Amounts, r: Resource)
    requires Enabled(action, q, r)
    ensures Suits(action, r)
  {
  }

  // ---------------------------------------------------------------------
  // Whole operations
  // ---------------------------------------------------------------------

  lemma {:induction false} StepsOutcome(action: Action, pool: seq<Entry>, q: Amounts, rs: seq<Resource>)
    requires Pool.Valid(pool) && Describes(q, pool) && AllValid(rs) && AllUsable(rs)
    ensures Steps(action, pool, rs).Ok? <==> AllEnabled(action, q, rs)
    ensures Steps(action, pool, rs).Ok? ==>
              Pool.Valid(Steps(action, pool, rs).value) && Describes(AllMoved(action, q, rs), Steps(action, pool, rs).value)
    decreases rs
  {
    hide Step, Enabled, Moved, IsValid, SourceComplete, Pool.Valid, Describes;
    if rs != [] {
      assert Usable(rs[0]);
      StepOutcome(action, pool, q, rs[0]);
      if Step(action, pool, rs[0]).Ok? {
        StepsOutcome(action, Step(action, pool, rs[0]).value, Moved(action, q, rs[0]), rs[1..]);
      }
    }
  }

  /** Equal in whole megabytes, and both or neither nothing at all. */
  predicate SameMegabytes(a: Quantity, b: Quantity) {
    a.Count? && b.Count? && a.n / 1000 == b.n / 1000 && (a.n == 0 <==> b.n == 0)
  }

  ghost predicate SameChecked(before: seq<Entry>, after: seq<Entry>) {
    && Total(before, "cpus", Scalar(0)) == Total(after, "cpus", Scalar(0))
    && Total(before, "gpus", Scalar(0)) == Total(after, "gpus", Scalar(0))
    && SameMegabytes(Total(before, "mem", Scalar(0)), Total(after, "mem", Scalar(0)))
    && SameMegabytes(Total(before, "disk", Scalar(0)), Total(after, "disk", Scalar(0)))
    && Total(before, "ports", Ranges({})) == Total(after, "ports", Ranges({}))
  }

  lemma GetMeans(pool: seq<Entry>, name: string, kind: Value)
    requires Pool.Valid(pool) && !kind.Items?
    ensures Get(pool, name, kind).Some? <==> Total(pool, name, kind) != ZeroOf(Measure(kind))
    ensures Get(pool, name, kind).Some? ==> Measure(Get(pool, name, kind).value) == Total(pool, name, kind)
    ensures SameUnit(Total(pool, name, kind), ZeroOf(Measure(kind)))
  {
    FoundMeans(pool, name, kind);
    GetMeasures(pool, name, kind);
    TotalUnit(pool, name, kind);
  }

  lemma SameGetMeans(before: seq<Entry>, after: seq<Entry>, name: string, kind: Value)
    requires Pool.Valid(before) && Pool.Valid(after) && !kind.Items?
    ensures Get(before, name, kind) == Get(after, name, kind) <==> Total(before, name, kind) == Total(after, name, kind)
    ensures kind.Scalar? ==>
              (Megabytes(Get(before, name, kind)) == Megabytes(Get(after, name, kind)) <==>
               SameMegabytes(Total(before, name, kind), Total(after, name, kind)))
  {
    hide Pool.Valid, Total, Get;
    GetMeans(before, name, kind);
    GetMeans(after, name, kind);
  }

  /** The sanity checks compare five totals, memory and disk in whole megabytes. */
  lemma ChecksMean(before: seq<Entry>, after: seq<Entry>)
    requires Pool.Valid(before) && Pool.Valid(after)
    ensures ChecksPass(before, after) <==> SameChecked(before, after)
  {
    hide Pool.Valid, Total, Get, SameMegabytes, Megabytes;
    SameGetMeans(before, after, "cpus", Scalar(0));
    SameGetMeans(before, after, "gpus", Scalar(0));
    SameGetMeans(before, after, "mem", Scalar(0));
    SameGetMeans(before, after, "disk", Scalar(0));
    SameGetMeans(before, after, "ports", Ranges({}));
  }

  lemma SameAsItself(pool: seq<Entry>)
    requires Pool.Valid(pool)
    ensures ChecksPass(pool, pool)
  {
    SameTotalsPassChecks(pool, pool);
  }

  /** Launches leave the pool alone. Unknown operations and invalid operands are
      refused. A change is refused exactly when one of its steps is not enabled on
      the map that the steps before it left; otherwise that map is the result,
      unless a checked total differs. */
  lemma ApplyOutcome(pool: seq<Entry>, q: Amounts, op: Operation)
    requires Pool.Valid(pool) && Describes(q, pool) && (op.Change? ==> AllUsable(op.resources))
    ensures op.Launch? || op.LaunchGroup? ==> Apply(pool, op) == Applied(pool)
    ensures op.UnknownOperation? ==> Apply(pool, op) == Rejected
    ensures op.Change? && (exists i :: 0 <= i < |op.resources| && !IsValid(op.resources[i])) ==> Apply(pool, op) == Rejected
    ensures op.Change? && (forall i :: 0 <= i < |op.resources| ==> IsValid(op.resources[i])) ==>
              && (Apply(pool, op) == Rejected <==> !AllEnabled(op.action, q, op.resources))
              && (AllEnabled(op.action, q, op.resources) ==>
                    exists after :: Pool.Valid(after) && Describes(AllMoved(op.action, q, op.resources), after)
                                    && Apply(pool, op) == if SameChecked(pool, after) then Applied(after) else Aborted)
  {
    hide NoTwoAddable, NoneEmpty, AllWellFormed, ChecksPass, Steps, IsValid, SameChecked, AllUsable, Describes, AllEnabled;
    match op
    case Launch => SameAsItself(pool);
    case LaunchGroup => SameAsItself(pool);
    case UnknownOperation =>
    case Change(action, rs) =>
      if AllValid(rs) {
        StepsOutcome(action, pool, q, rs);
        var result := Steps(action, pool, rs);
        if result.Ok? {
          ChecksMean(pool, result.value);
        }
      }
  }
}
