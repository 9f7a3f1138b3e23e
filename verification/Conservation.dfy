/** `apply` neither loses nor invents resources: over every sequence of
    operations the total under every name stays the same, exactly as long as no
    step merges or splits copies of a shared resource. */
module Conservation {
  import opened Common
  import opened Values
  import opened ResourceModel
  import opened Validation
  import opened Pool
  import opened PoolMap
  import opened Totals
  import opened Operations

  ghost predicate SameTotals(left: seq<Entry>, right: seq<Entry>) {
    forall name, kind :: Total(left, name, kind) == Total(right, name, kind)
  }

  lemma SumIsZero(a: Quantity, b: Quantity)
    requires SameUnit(a, b) && Natural(a) && Natural(b)
    ensures Sum(a, b) == ZeroOf(a) <==> a == ZeroOf(a) && b == ZeroOf(b)
  {
  }

  lemma CountedIsNotZero(e: Entry, name: string, kind: Value)
    requires WellFormedEntry(e) && !IsEmpty(e)
    ensures Share(e, name, kind) == ZeroOf(Measure(kind)) <==> !Counts(e, name, kind)
  {
    OperatorsMeasure(e.resource.value, e.resource.value);
  }

  /** In a pool an entry counts under a name exactly when the total there is not zero. */
  lemma {:induction false} FoundMeans(pool: seq<Entry>, name: string, kind: Value)
    requires AllWellFormed(pool) && NoneEmpty(pool)
    ensures Found(pool, name, kind) <==> Total(pool, name, kind) != ZeroOf(Measure(kind))
  {
    hide Sum, Share, Counts, WellFormedEntry, IsEmpty;
    if pool != [] {
      var tail := pool[1..];
      FoundMeans(tail, name, kind);
      ShareUnit(pool[0], name, kind);
      TotalUnit(tail, name, kind);
      CountedIsNotZero(pool[0], name, kind);
      SumIsZero(Share(pool[0], name, kind), Total(tail, name, kind));
      if i :| 0 <= i < |pool| && Counts(pool[i], name, kind) {
        assert i > 0 ==> Counts(tail[i - 1], name, kind);
      }
      if i :| 0 <= i < |tail| && Counts(tail[i], name, kind) {
        assert Counts(pool[i + 1], name, kind);
      }
    }
  }

  /** Equal totals are what `get` reports: same presence, same amount. */
  lemma SameTotalsSameGet(left: seq<Entry>, right: seq<Entry>, name: string, kind: Value)
    requires Pool.Valid(left) && Pool.Valid(right) && SameTotals(left, right)
    ensures var l, r := Get(left, name, kind), Get(right, name, kind);
            && l.Some? == r.Some?
            && (l.Some? ==> Measure(l.value) == Measure(r.value))
            && (!kind.Items? ==> l == r)
  {
    FoundMeans(left, name, kind);
    FoundMeans(right, name, kind);
    GetMeasures(left, name, kind);
    GetMeasures(right, name, kind);
    TotalUnit(left, name, kind);
  }

  lemma SameTotalsPassChecks(before: seq<Entry>, after: seq<Entry>)
    requires Pool.Valid(before) && Pool.Valid(after) && SameTotals(before, after)
    ensures ChecksPass(before, after)
  {
    SameTotalsSameGet(before, after, "cpus", Scalar(0));
    SameTotalsSameGet(before, after, "gpus", Scalar(0));
    SameTotalsSameGet(before, after, "mem", Scalar(0));
    SameTotalsSameGet(before, after, "disk", Scalar(0));
    SameTotalsSameGet(before, after, "ports", Ranges({}));
  }

  // ---------------------------------------------------------------------
  // One move
  // ---------------------------------------------------------------------

  /** The value of an entry in the pool is part of the total. */
  lemma ShareWithinTotal(pool: seq<Entry>, i: nat, name: string, kind: Value)
    requires AllWellFormed(pool) && i < |pool|
    ensures AtMost(Share(pool[i], name, kind), Total(pool, name, kind))
    ensures !kind.Scalar? ==> Sum(Total(pool, name, kind), Share(pool[i], name, kind)) == Total(pool, name, kind)
  {
    hide Total, Share, Sum;
    TotalSplit(pool, i, name, kind);
    ShareUnit(pool[i], name, kind);
    TotalUnit(RemoveAt(pool, i), name, kind);
    PartOfSum(Share(pool[i], name, kind), Total(RemoveAt(pool, i), name, kind));
  }

  lemma PartOfSum(a: Quantity, b: Quantity)
    requires SameUnit(a, b) && Natural(a) && Natural(b)
    ensures AtMost(a, Sum(a, b))
    ensures a.Points? || a.Names? ==> Sum(Sum(a, b), a) == Sum(a, b)
  {
  }

  /** So is the value of a shared resource the pool has copies of. */
  lemma SharedShareWithinTotal(pool: seq<Entry>, e: Entry, name: string, kind: Value)
    requires Pool.Valid(pool) && WellFormedEntry(e) && e.resource.shared
    requires Qty(pool, Key(e)) != Count(0) && !kind.Scalar?
    ensures Sum(Total(pool, name, kind), Share(e, name, kind)) == Total(pool, name, kind)
  {
    hide NoTwoAddable, KeyOf, Total, Sum;
    SharedIsThere(pool, e);
    var i :| 0 <= i < |pool| && Addable(pool[i].resource, e.resource);
    ResourceEqIsNormal(pool[i].resource, e.resource);
    assert Share(pool[i], name, kind) == Share(e, name, kind);
    ShareWithinTotal(pool, i, name, kind);
  }

  /** How a move changes a total. */
  lemma MoveTotals(pool: seq<Entry>, out: Entry, added: Entry, name: string, kind: Value)
    requires Pool.Valid(pool) && WellFormedEntry(out) && WellFormedEntry(added)
    requires !IsEmpty(out) && !IsEmpty(added) && Holds(pool, out)
    requires out.resource.value == added.resource.value && out.resource.name == added.resource.name
    ensures var rest, v := Subtract(pool, out), Share(out, name, kind);
            var before, after := Total(pool, name, kind), Total(Move(pool, out, added), name, kind);
            if Departs(pool, out) == Arrives(rest, added) then after == before
            else if kind.Scalar? then
              if Departs(pool, out) then Sum(after, v) == before else after == Sum(before, v)
            else after == before
  {
    hide NoTwoAddable, KeyOf, Holds, Subtract, Total, Sum, Share, IsEmpty, Insert;
    var rest := Subtract(pool, out);
    var v := Share(out, name, kind);
    assert v == Share(added, name, kind) by {
      SameShare(out, added, name, kind);
    }
    SubtractTotals(pool, out, name, kind);
    SubtractIsTake(pool, out);
    InsertTotals(rest, added, name, kind);
    assert Move(pool, out, added) == Insert(rest, added);
    if !kind.Scalar? {
      if Departs(pool, out) && !Arrives(rest, added) {
        SharedShareWithinTotal(rest, added, name, kind);
      } else if !Departs(pool, out) && Arrives(rest, added) {
        SharedStays(pool, out);
        SharedShareWithinTotal(rest, out, name, kind);
      }
    }
  }

  lemma SameShare(a: Entry, b: Entry, name: string, kind: Value)
    requires a.resource.value == b.resource.value && a.resource.name == b.resource.name
    ensures Share(a, name, kind) == Share(b, name, kind)
  {
  }

  lemma SharedStays(pool: seq<Entry>, out: Entry)
    requires Pool.Valid(pool) && WellFormedEntry(out) && !IsEmpty(out) && Holds(pool, out) && !Departs(pool, out)
    ensures Qty(Subtract(pool, out), Key(out)) != Count(0)
  {
    hide NoTwoAddable, KeyOf, Holds, Subtract, IsEmpty;
    HoldsMeans(pool, out);
    SubtractTakesAt(pool, out, Key(out));
    QtyIsNatural(pool, Key(out));
    AmountIsNatural(out, Key(out));
  }

  // ---------------------------------------------------------------------
  // One step
  // ---------------------------------------------------------------------

  /** Copies of a shared scalar are neither split off nor merged: the last copy
      leaves one key exactly when the first copy arrives under the other. */
  ghost predicate Balanced(action: Action, pool: seq<Entry>, r: Resource) {
    || IsZero(r.value)
    || !r.value.Scalar?
    || Departs(pool, Outgoing(action, r)) == Arrives(Subtract(pool, Outgoing(action, r)), Incoming(action, r))
  }

  /** A step keeps all totals exactly when it is balanced. */
  lemma StepConserves(action: Action, pool: seq<Entry>, r: Resource)
    requires Pool.Valid(pool) && Usable(r) && Step(action, pool, r).Ok?
    ensures Pool.Valid(Step(action, pool, r).value)
    ensures SameTotals(pool, Step(action, pool, r).value) <==> Balanced(action, pool, r)
  {
    hide NoTwoAddable, KeyOf, Holds, Subtract, Insert, Total, Step, Sum, Outgoing, Incoming, Usable, Share, Move;
    StepIsMove(action, pool, r);
    if !IsZero(r.value) {
      var out, added, after := Outgoing(action, r), Incoming(action, r), Step(action, pool, r).value;
      EntriesWellFormed(action, r);
      MoveQty(pool, out, added);
      forall name, kind ensures Balanced(action, pool, r) ==> Total(pool, name, kind) == Total(after, name, kind) {
        MoveTotals(pool, out, added, name, kind);
        if kind.Scalar? && !r.value.Scalar? {
          NoShare(out, name, kind, pool);
          NoShare(out, name, kind, after);
        }
      }
      if !Balanced(action, pool, r) {
        MoveTotals(pool, out, added, r.name, r.value);
        ScalarShareCounts(out, pool, after);
        assert Total(pool, r.name, r.value) != Total(after, r.name, r.value);
      }
    }
  }

  lemma NoShare(e: Entry, name: string, kind: Value, pool: seq<Entry>)
    requires AllWellFormed(pool) && !SameKind(e.resource.value, kind)
    ensures Sum(Total(pool, name, kind), Share(e, name, kind)) == Total(pool, name, kind)
  {
    TotalUnit(pool, name, kind);
  }

  lemma ScalarShareCounts(e: Entry, before: seq<Entry>, after: seq<Entry>)
    requires WellFormedEntry(e) && e.resource.value.Scalar? && !IsZero(e.resource.value)
    requires AllWellFormed(before) && AllWellFormed(after)
    ensures var name, kind := e.resource.name, e.resource.value;
            && Total(before, name, kind) != Sum(Total(before, name, kind), Share(e, name, kind))
            && Total(after, name, kind) != Sum(Total(after, name, kind), Share(e, name, kind))
  {
    hide Total, WellFormed;
    TotalUnit(before, e.resource.name, e.resource.value);
    TotalUnit(after, e.resource.name, e.resource.value);
  }

  /** Sufficient conditions a caller can see: RESERVE and UNRESERVE of non-shared
      resources, CREATE of a volume that is not there yet if it is shared, and any
      DESTROY. */
  ghost predicate Unshared(action: Action, pool: seq<Entry>, r: Resource) {
    match action
    case RESERVE => !r.shared
    case UNRESERVE => !r.shared
    case CREATE => r.shared ==> Qty(pool, KeyOf(r)) == Count(0)
    case DESTROY => true
  }

  lemma UnsharedIsBalanced(action: Action, pool: seq<Entry>, r: Resource)
    requires Pool.Valid(pool) && Usable(r) && Step(action, pool, r).Ok? && Unshared(action, pool, r)
    ensures Balanced(action, pool, r)
  {
    hide NoTwoAddable, KeyOf, Holds, Subtract, Insert, Step, Usable, Move;
    if !IsZero(r.value) {
      StepIsMove(action, pool, r);
      EntriesWellFormed(action, r);
      var out := Outgoing(action, r);
      if action == CREATE && r.shared {
        VolumeKeysDiffer(r);
        SubtractTakesAt(pool, out, KeyOf(r));
        QtyIsNatural(pool, KeyOf(r));
      } else if action == DESTROY && r.shared {
        HoldsMeans(pool, out);
        SubtractIsTake(pool, out);
        HoldsMeans(Subtract(pool, out), out);
        SubtractTakesAt(pool, out, Key(out));
        QtyIsNatural(pool, Key(out));
      }
    }
  }

  lemma VolumeKeysDiffer(r: Resource)
    requires IsPersistentVolume(r)
    ensures KeyOf(StripVolume(r)) != KeyOf(r)
    ensures r.shared ==> ZeroAt(KeyOf(r)) == Count(0)
  {
    KeyIsFixed(r);
    KeyIsFixed(StripVolume(r));
  }

  // ---------------------------------------------------------------------
  // Whole runs
  // ---------------------------------------------------------------------

  predicate AllUsable(rs: seq<Resource>) {
    forall i :: 0 <= i < |rs| ==> InPostFormat(rs[i]) && SourceComplete(rs[i])
  }

  predicate UsableOperations(ops: seq<Operation>) {
    forall i :: 0 <= i < |ops| ==> ops[i].Change? ==> AllUsable(ops[i].resources)
  }

  /** Every step an operation gets to is balanced. */
  ghost predicate StepsBalanced(action: Action, pool: seq<Entry>, rs: seq<Resource>)
    decreases rs
  {
    rs == [] ||
    (Step(action, pool, rs[0]).Ok? ==>
       && Balanced(action, pool, rs[0])
       && StepsBalanced(action, Step(action, pool, rs[0]).value, rs[1..]))
  }

  ghost predicate RunBalanced(pool: seq<Entry>, ops: seq<Operation>)
    decreases ops
  {
    ops == [] ||
    (&& (ops[0].Change? && AllValid(ops[0].resources) ==> StepsBalanced(ops[0].action, pool, ops[0].resources))
     && (Apply(pool, ops[0]).Applied? ==> RunBalanced(Apply(pool, ops[0]).pool, ops[1..])))
  }

  lemma {:induction false} StepsConserve(action: Action, pool: seq<Entry>, rs: seq<Resource>)
    requires Pool.Valid(pool) && AllValid(rs) && AllUsable(rs) && StepsBalanced(action, pool, rs)
    requires Steps(action, pool, rs).Ok?
    ensures Pool.Valid(Steps(action, pool, rs).value) && SameTotals(pool, Steps(action, pool, rs).value)
    decreases rs
  {
    hide Step, NoTwoAddable, NoneEmpty, AllWellFormed, Total, IsValid, SourceComplete, Balanced;
    if rs != [] {
      assert Usable(rs[0]);
      var next := Step(action, pool, rs[0]).value;
      StepConserves(action, pool, rs[0]);
      StepsConserve(action, next, rs[1..]);
      assert forall name, kind :: Total(pool, name, kind) == Total(next, name, kind);
    }
  }

  lemma ApplyConserves(pool: seq<Entry>, op: Operation)
    requires Pool.Valid(pool) && UsableOperations([op])
    requires op.Change? && AllValid(op.resources) ==> StepsBalanced(op.action, pool, op.resources)
    ensures Apply(pool, op) != Aborted
    ensures Apply(pool, op).Applied? ==> Pool.Valid(Apply(pool, op).pool) && SameTotals(pool, Apply(pool, op).pool)
  {
    hide NoTwoAddable, NoneEmpty, AllWellFormed, Total, StepsBalanced, ChecksPass, Steps, AllValid;
    match op
    case Launch => SameTotalsPassChecks(pool, pool);
    case LaunchGroup => SameTotalsPassChecks(pool, pool);
    case UnknownOperation =>
    case Change(action, rs) =>
      assert AllUsable(rs) by {
        assert [op][0].Change?;
      }
      var result := Steps(action, pool, rs);
      if AllValid(rs) && result.Ok? {
        StepsConserve(action, pool, rs);
        SameTotalsPassChecks(pool, result.value);
      }
  }

  /** The main theorem: over every balanced run no `CHECK` fails, and the final
      pool is well-formed and has the totals of the first. */
  lemma {:induction false} RunConserves(pool: seq<Entry>, ops: seq<Operation>)
    requires Pool.Valid(pool) && UsableOperations(ops) && RunBalanced(pool, ops)
    ensures ApplyAll(pool, ops) != Aborted
    ensures ApplyAll(pool, ops).Applied? ==>
              Pool.Valid(ApplyAll(pool, ops).pool) && SameTotals(pool, ApplyAll(pool, ops).pool)
    decreases ops
  {
    hide Apply, NoTwoAddable, NoneEmpty, AllWellFormed, Total, StepsBalanced, AllUsable;
    if ops != [] {
      assert UsableOperations([ops[0]]);
      ApplyConserves(pool, ops[0]);
      var first := Apply(pool, ops[0]);
      if first.Applied? {
        RunConserves(first.pool, ops[1..]);
        assert forall name, kind :: Total(pool, name, kind) == Total(first.pool, name, kind);
      }
    }
  }

  /** The operands of RESERVE and UNRESERVE are not shared, and a shared volume is
      not there yet when it is created. */
  ghost predicate StepsUnshared(action: Action, pool: seq<Entry>, rs: seq<Resource>)
    decreases rs
  {
    rs == [] ||
    (Step(action, pool, rs[0]).Ok? ==>
       && Unshared(action, pool, rs[0])
       && StepsUnshared(action, Step(action, pool, rs[0]).value, rs[1..]))
  }

  ghost predicate RunUnshared(pool: seq<Entry>, ops: seq<Operation>)
    decreases ops
  {
    ops == [] ||
    (&& (ops[0].Change? ==> StepsUnshared(ops[0].action, pool, ops[0].resources))
     && (Apply(pool, ops[0]).Applied? ==> RunUnshared(Apply(pool, ops[0]).pool, ops[1..])))
  }

  lemma {:induction false} StepsUnsharedBalance(action: Action, pool: seq<Entry>, rs: seq<Resource>)
    requires Pool.Valid(pool) && AllValid(rs) && AllUsable(rs) && StepsUnshared(action, pool, rs)
    ensures StepsBalanced(action, pool, rs)
    decreases rs
  {
    hide Step, NoTwoAddable, NoneEmpty, AllWellFormed, IsValid, SourceComplete, Balanced, Unshared;
    if rs != [] && Step(action, pool, rs[0]).Ok? {
      assert Usable(rs[0]);
      UnsharedIsBalanced(action, pool, rs[0]);
      StepConserves(action, pool, rs[0]);
      StepsUnsharedBalance(action, Step(action, pool, rs[0]).value, rs[1..]);
    }
  }

  /** Over every such run totals are conserved and no `CHECK` fails. */
  lemma {:induction false} UnsharedRunConserves(pool: seq<Entry>, ops: seq<Operation>)
    requires Pool.Valid(pool) && UsableOperations(ops) && RunUnshared(pool, ops)
    ensures RunBalanced(pool, ops)
    ensures ApplyAll(pool, ops) != Aborted
    ensures ApplyAll(pool, ops).Applied? ==>
              Pool.Valid(ApplyAll(pool, ops).pool) && SameTotals(pool, ApplyAll(pool, ops).pool)
    decreases ops
  {
    hide Apply, ApplyAll, NoTwoAddable, NoneEmpty, AllWellFormed, Total, StepsBalanced, StepsUnshared, AllValid;
    if ops != [] {
      var op := ops[0];
      assert UsableOperations([op]);
      if op.Change? && AllValid(op.resources) {
        StepsUnsharedBalance(op.action, pool, op.resources);
      }
      ApplyConserves(pool, op);
      if Apply(pool, op).Applied? {
        UnsharedRunConserves(Apply(pool, op).pool, ops[1..]);
      }
    }
    RunConserves(pool, ops);
  }
}
