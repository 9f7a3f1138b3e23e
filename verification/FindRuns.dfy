/** Which operations keep every entry of a pool valid, and `find` on the pools
    they lead to. */
module FindRuns {
  import opened Common
  import opened Values
  import opened ResourceModel
  import opened Validation
  import opened Pool
  import opened PoolMap
  import opened Operations
  import opened Conservation
  import opened Find
  import opened FindProof
  import opened FindOrder

  // ---------------------------------------------------------------------
  // One step
  // ---------------------------------------------------------------------

  /** Validity depends on the key and the value alone. */
  lemma UsableByKey(a: Resource, b: Resource)
    requires Usable(a) && WellFormed(b) && KeyOf(a) == KeyOf(b)
    ensures Usable(b)
  {
    assert a.reservations == b.reservations && a.name == b.name && a.shared == b.shared;
    if |a.reservations| == 1 {
      assert OldFieldsAgree(a) == OldFieldsAgree(b);
    }
  }

  /** The entries after an insertion: those of the pool up to their value, and
      the new one when nothing took it up. */
  lemma {:induction false} InsertEntries(pool: seq<Entry>, e: Entry)
    requires AllWellFormed(pool) && NoneEmpty(pool) && WellFormedEntry(e) && !IsEmpty(e)
    requires forall i :: 0 <= i < |pool| ==> Usable(pool[i].resource)
    requires Usable(e.resource)
    ensures forall i :: 0 <= i < |Insert(pool, e)| ==> Usable(Insert(pool, e)[i].resource)
  {
    hide Usable, WellFormed, Addable, KeyOf;
    if pool != [] {
      if Addable(pool[0].resource, e.resource) {
        CombineAdds(pool[0], e);
        UsableByKey(pool[0].resource, Combine(pool[0], e).resource);
      } else {
        InsertEntries(pool[1..], e);
      }
    }
  }

  lemma InsertKeepsSound(pool: seq<Entry>, e: Entry)
    requires Sound(pool) && WellFormedEntry(e) && !IsEmpty(e)
    ensures Sound(Insert(pool, e)) <==> Usable(e.resource)
  {
    hide Usable, WellFormed, Addable, KeyOf, NoTwoAddable;
    AddIsSum(pool, e);
    if Usable(e.resource) {
      InsertEntries(pool, e);
    } else {
      forall i | 0 <= i < |pool| ensures !Addable(pool[i].resource, e.resource) {
        KeysDecide(pool[i].resource, e.resource);
        if Addable(pool[i].resource, e.resource) {
          UsableByKey(pool[i].resource, e.resource);
        }
      }
      InsertAppends(pool, e);
      assert (pool + [e])[|pool|] == e;
    }
  }

  /** A pool built from resource messages: those that fail validation are skipped. */
  function Collected(rs: seq<Resource>): seq<Entry> {
    if rs == [] then []
    else
      var before, r := Collected(rs[..|rs| - 1]), rs[|rs| - 1];
      if IsValid(r) then Add(before, ToEntry(r)) else before
  }

  /** Every entry of a pool that was built so is valid. */
  lemma {:induction false} CollectedIsSound(rs: seq<Resource>)
    requires AllUsable(rs)
    ensures Sound(Collected(rs))
  {
    hide IsValid, SourceComplete, Insert;
    if rs != [] {
      var before, r := rs[..|rs| - 1], rs[|rs| - 1];
      CollectedIsSound(before);
      if IsValid(r) && !IsEmpty(ToEntry(r)) {
        assert Usable(r);
        UsableIsWellFormed(r);
        InsertKeepsSound(Collected(before), ToEntry(r));
      }
    }
  }

  /** The one operand whose operation leaves an invalid entry in the pool. */
  predicate Spoils(action: Action, r: Resource) {
    action == UNRESERVE && !IsZero(r.value) && ExposesUnknown(r)
  }

  /** A step keeps every entry valid exactly unless it unreserves such an operand. */
  lemma StepKeepsSound(action: Action, pool: seq<Entry>, r: Resource)
    requires Sound(pool) && Usable(r) && Step(action, pool, r).Ok?
    ensures Sound(Step(action, pool, r).value) <==> !Spoils(action, r)
  {
    hide Usable, WellFormed, KeyOf, NoTwoAddable, NoneEmpty, AllWellFormed, Step, Holds, Insert, Subtract, StripVolume,
      ExposesUnknown, Pop;
    StepIsMove(action, pool, r);
    EntriesWellFormed(action, r);
    StripVolumeIsUsable(r);
    if IsReserved(r) {
      PopIsUsable(r);
    }
    if !IsZero(r.value) {
      var gone, come := Outgoing(action, r), Incoming(action, r);
      SubtractKeepsSound(pool, gone);
      InsertKeepsSound(Subtract(pool, gone), come);
    }
  }

  // ---------------------------------------------------------------------
  // Whole runs
  // ---------------------------------------------------------------------

  /** Every pool an operation goes through is sound. */
  ghost predicate SoundThrough(action: Action, pool: seq<Entry>, rs: seq<Resource>)
    decreases rs
  {
    && Sound(pool)
    && (rs == [] || (Step(action, pool, rs[0]).Ok? ==> SoundThrough(action, Step(action, pool, rs[0]).value, rs[1..])))
  }

  ghost predicate RunIsSound(pool: seq<Entry>, ops: seq<Operation>)
    decreases ops
  {
    && Sound(pool)
    && (ops == [] ||
        (&& (ops[0].Change? && AllValid(ops[0].resources) ==> SoundThrough(ops[0].action, pool, ops[0].resources))
         && (Apply(pool, ops[0]).Applied? ==> RunIsSound(Apply(pool, ops[0]).pool, ops[1..]))))
  }

  predicate NoneSpoils(action: Action, rs: seq<Resource>) {
    forall i :: 0 <= i < |rs| ==> !Spoils(action, rs[i])
  }

  predicate NoOperationSpoils(ops: seq<Operation>) {
    forall i :: 0 <= i < |ops| && ops[i].Change? ==> NoneSpoils(ops[i].action, ops[i].resources)
  }

  lemma {:induction false} StepsKeepSound(action: Action, pool: seq<Entry>, rs: seq<Resource>)
    requires Sound(pool) && AllValid(rs) && AllUsable(rs) && Steps(action, pool, rs).Ok?
    ensures SoundThrough(action, pool, rs) <==> NoneSpoils(action, rs)
    ensures NoneSpoils(action, rs) ==> Sound(Steps(action, pool, rs).value)
    decreases rs
  {
    hide Step, Sound, Spoils, IsValid, SourceComplete;
    if rs != [] {
      var next, tail := Step(action, pool, rs[0]).value, rs[1..];
      assert Usable(rs[0]);
      StepKeepsSound(action, pool, rs[0]);
      assert NoneSpoils(action, rs) <==> !Spoils(action, rs[0]) && NoneSpoils(action, tail) by {
        assert forall i :: 0 <= i < |tail| ==> tail[i] == rs[i + 1];
        if !Spoils(action, rs[0]) && NoneSpoils(action, tail) {
          forall i | 0 <= i < |rs| ensures !Spoils(action, rs[i]) {
            assert i > 0 ==> rs[i] == tail[i - 1];
          }
        }
        if NoneSpoils(action, rs) {
          forall i | 0 <= i < |tail| ensures !Spoils(action, tail[i]) {
            assert tail[i] == rs[i + 1];
          }
        }
      }
      if Sound(next) {
        StepsKeepSound(action, next, tail);
      }
    }
  }

  lemma ApplyKeepsSound(pool: seq<Entry>, op: Operation)
    requires Sound(pool) && UsableOperations([op]) && Apply(pool, op).Applied?
    ensures op.Change? ==> AllValid(op.resources)
    ensures op.Change? ==>
              (SoundThrough(op.action, pool, op.resources) <==> NoneSpoils(op.action, op.resources))
    ensures (op.Change? ==> NoneSpoils(op.action, op.resources)) ==> Sound(Apply(pool, op).pool)
  {
    hide Sound, ChecksPass, Steps, AllValid, NoneSpoils, SoundThrough;
    if op.Change? {
      assert AllUsable(op.resources) by {
        assert [op][0].Change?;
      }
      StepsKeepSound(op.action, pool, op.resources);
    }
  }

  /** A run of operations that are all applied goes through sound pools only
      exactly when no operand spoils one. */
  lemma {:induction false} RunKeepsSound(pool: seq<Entry>, ops: seq<Operation>)
    requires Sound(pool) && UsableOperations(ops) && ApplyAll(pool, ops).Applied?
    ensures RunIsSound(pool, ops) <==> NoOperationSpoils(ops)
    ensures NoOperationSpoils(ops) ==> Sound(ApplyAll(pool, ops).pool)
    decreases ops
  {
    hide Sound, Apply, NoneSpoils, SoundThrough, AllValid;
    if ops != [] {
      var op, tail := ops[0], ops[1..];
      assert UsableOperations([op]);
      ApplyKeepsSound(pool, op);
      FirstSpoils(ops);
      var next := Apply(pool, op).pool;
      if Sound(next) {
        RunKeepsSound(next, tail);
      }
    }
  }

  lemma FirstSpoils(ops: seq<Operation>)
    requires ops != []
    ensures NoOperationSpoils(ops) <==>
            (ops[0].Change? ==> NoneSpoils(ops[0].action, ops[0].resources)) && NoOperationSpoils(ops[1..])
  {
    hide NoneSpoils;
    var tail := ops[1..];
    if NoOperationSpoils(ops) {
      forall i | 0 <= i < |tail| && tail[i].Change? ensures NoneSpoils(tail[i].action, tail[i].resources) {
        assert tail[i] == ops[i + 1];
      }
    }
    if (ops[0].Change? ==> NoneSpoils(ops[0].action, ops[0].resources)) && NoOperationSpoils(tail) {
      forall i | 0 <= i < |ops| && ops[i].Change? ensures NoneSpoils(ops[i].action, ops[i].resources) {
        assert i > 0 ==> ops[i] == tail[i - 1];
      }
    }
  }

  /** `find` on every pool that such a run leads to. */
  lemma FindAfterRun(pool: seq<Entry>, ops: seq<Operation>, target: Resource)
    requires Sound(pool) && UsableOperations(ops) && NoOperationSpoils(ops) && ApplyAll(pool, ops).Applied?
    requires Usable(target)
    ensures var reached := ApplyAll(pool, ops).pool;
            var found := FindTarget(reached, target);
            found.Some? ==>
              && Pool.Valid(found.value)
              && Contains(reached, found.value)
              && PoolEq(ToUnreserved(found.value), ToUnreserved(FromResource(target)))
  {
    hide Sound, ApplyAll, FindTarget, NoOperationSpoils, Usable, ToUnreserved, FromResource, PoolEq;
    RunKeepsSound(pool, ops);
    if FindTarget(ApplyAll(pool, ops).pool, target).Some? {
      FoundIsContained(ApplyAll(pool, ops).pool, target);
    }
  }

  // ---------------------------------------------------------------------
  // A spoiled pool
  // ---------------------------------------------------------------------

  function Hidden(m: nat): Entry {
    ToEntry(Cpus(m, [Reservation(UNKNOWN, "a"), Reservation(DYNAMIC, "a/b")]))
  }

  function Bare(m: nat): Entry {
    ToEntry(Cpus(m, [Reservation(UNKNOWN, "a")]))
  }

  function Plain(n: nat): Entry {
    ToEntry(Cpus(n, []))
  }

  lemma HiddenIsSound(m: nat, n: nat)
    requires m > 0 && n > 0
    ensures Sound([Hidden(m), Plain(n)]) && Usable(Plain(n).resource) && Usable(Hidden(m).resource)
  {
    NestedRolesAreValid();
    StarIsValidRole();
    UnknownIsExposed(m);
  }

  /** Unreserving the hidden entry brings the reservation of unknown type to light. */
  lemma UnreserveSpoils(m: nat, n: nat)
    requires m > 0 && n > 0
    ensures Step(UNRESERVE, [Hidden(m), Plain(n)], Hidden(m).resource) == Ok([Plain(n), Bare(m)])
    ensures Pool.Valid([Plain(n), Bare(m)]) && !Sound([Plain(n), Bare(m)])
  {
    hide IsValid, Usable;
    var pool, r := [Hidden(m), Plain(n)], Hidden(m).resource;
    HiddenIsSound(m, n);
    assert IsValid(r) && Step(UNRESERVE, pool, r).Ok? by {
      UsableIsValid(r);
      assert EntryIncludes(pool[0], Hidden(m));
    }
    StepIsMove(UNRESERVE, pool, r);
    StepKeepsSound(UNRESERVE, pool, r);
    EntriesWellFormed(UNRESERVE, r);
    MoveQty(pool, Hidden(m), Bare(m));
    assert Pop(r).reservations == [Reservation(UNKNOWN, "a")];
    assert FirstSubtractable(pool, Hidden(m)) == 0;
    assert Subtract(pool, Hidden(m)) == [Plain(n)];
    assert [Plain(n)][1..] == [];
    assert Pop(r) == Bare(m).resource && Incoming(UNRESERVE, r) == Bare(m);
    assert Insert([Plain(n)], Bare(m)) == [Plain(n)] + Insert([], Bare(m)) == [Plain(n), Bare(m)];
  }

  /** The invalid entry counts as nothing, so it is taken along with the target. */
  lemma FirstPassTakesBare(m: nat, n: nat)
    requires m > 0 && n > 0
    ensures Scan(Searching([], [Plain(n), Bare(m)], [Plain(n)]), [Bare(m)]) ==
            Searching([Bare(m)], [Plain(n)], [Plain(n)])
  {
    assert !IsValid(Bare(m).resource);
    var pool := [Plain(n), Bare(m)];
    assert ToUnreserved(FromResource(Bare(m).resource)) == [];
    assert !Contains([], [Plain(n)]);
    assert pool[1..] == [Bare(m)];
    assert FirstSubtractable(pool, Bare(m)) == 1;
    assert Subtract(pool, Bare(m)) == [Plain(n)];
  }

  lemma SecondPassFinishes(m: nat, n: nat)
    requires m > 0 && n > 0
    ensures Scan(Searching([Bare(m)], [Plain(n)], [Plain(n)]), [Plain(n)]) == Finished([Bare(m), Plain(n)])
  {
    hide Contains;
    HiddenIsSound(m, n);
    Candidate(Plain(n));
    SingleContains(Plain(n), Plain(n));
    assert [Plain(n)][1..] == [] && [Bare(m)][1..] == [];
    assert WithReservations(Plain(n), []) == Plain(n);
    assert Insert([Bare(m)], Plain(n)) == [Bare(m)] + Insert([], Plain(n));
    assert AddReserved([Bare(m)], [Plain(n)], []) == AddReserved(Add([Bare(m)], Plain(n)), [], []);
  }

  lemma FiltersOfSpoiled(m: nat, n: nat)
    requires m > 0 && n > 0
    ensures Filter([Plain(n), Bare(m)], TargetRole("a")) == [Bare(m)]
    ensures Filter([Plain(n)], UnreservedOnly) == [Plain(n)]
  {
    var pool := [Plain(n), Bare(m)];
    assert pool[1..] == [Bare(m)] && [Bare(m)][1..] == [] && [Plain(n)][1..] == [];
    assert Select([Bare(m)], TargetRole("a")) == [Bare(m)];
    assert Select(pool, TargetRole("a")) == [Bare(m)];
    assert Select([Plain(n)], UnreservedOnly) == [Plain(n)];
    AddOne(Bare(m));
    AddOne(Plain(n));
  }

  lemma AddOne(e: Entry)
    requires !IsEmpty(e)
    ensures AddAll([], [e]) == [e]
  {
    assert [e][1..] == [];
    assert AddAll([], [e]) == AddAll(Add([], e), [e][1..]);
  }

  /** On a spoiled pool `find` returns more than the target: m units too many. */
  lemma FindOnSpoiledPool(m: nat, n: nat)
    requires m > 0 && n > 0
    ensures var target := Cpus(n, [Reservation(STATIC, "a")]);
            var found := [Bare(m), Plain(n)];
            && Usable(target)
            && FindTarget([Plain(n), Bare(m)], target) == Some(found)
            && !PoolEq(ToUnreserved(found), ToUnreserved(FromResource(target)))
  {
    hide Scan, Filter, Usable, FromResource, ToUnreserved;
    var target := Cpus(n, [Reservation(STATIC, "a")]);
    assert Usable(target) by {
      StaticIsUsable(n);
    }
    Candidate(ToEntry(target));
    assert Unreserve(ToEntry(target)) == Plain(n);
    var pool, goal := [Plain(n), Bare(m)], [Plain(n)];
    FiltersOfSpoiled(m, n);
    FirstPassTakesBare(m, n);
    SecondPassFinishes(m, n);
    var s0, s1 := Searching([], pool, goal), Searching([Bare(m)], [Plain(n)], goal);
    var passes := Passes(target);
    assert passes == [TargetRole("a"), UnreservedOnly, AnyRole];
    assert passes[1..] == [UnreservedOnly, AnyRole];
    assert Search(s0, passes) == Search(s1, passes[1..]);
    assert Search(s1, passes[1..]) == Search(Finished([Bare(m), Plain(n)]), passes[1..][1..]);
    FoundIsTooMuch(m, n);
  }

  lemma StaticIsUsable(n: nat)
    ensures Usable(Cpus(n, [Reservation(STATIC, "a")]))
  {
    NestedRolesAreValid();
  }

  lemma FoundIsTooMuch(m: nat, n: nat)
    requires m > 0 && n > 0
    ensures !PoolEq(ToUnreserved([Bare(m), Plain(n)]), [Plain(n)])
  {
    hide Contains;
    var found := [Bare(m), Plain(n)];
    assert found[1..] == [Plain(n)] && [Plain(n)][1..] == [];
    assert Unreserve(Bare(m)) == Plain(m) && Unreserve(Plain(n)) == Plain(n) && UnreserveEach([]) == [];
    assert UnreserveEach([Plain(n)]) == [Plain(n)];
    assert UnreserveEach(found) == [Plain(m)] + [Plain(n)] == [Plain(m), Plain(n)];
    assert [Plain(m), Plain(n)][1..] == [Plain(n)];
    assert Add([Plain(m)], Plain(n)) == [Plain(m + n)] by {
      assert [Plain(m)][1..] == [];
    }
    assert AddAll([], [Plain(m), Plain(n)]) == AddAll(Add([], Plain(m)), [Plain(n)]);
    assert AddAll([Plain(m)], [Plain(n)]) == AddAll([Plain(m + n)], []);
    SingleContains(Plain(n), Plain(m + n));
  }
}
