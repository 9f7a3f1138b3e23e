/** Which entries `find` takes: the first that serves of the target's own role,
    then an unreserved one, then the first of any role. */
module FindOrder {
  import opened Common
  import opened Values
  import opened ResourceModel
  import opened Validation
  import opened Pool
  import opened PoolMap
  import opened Operations
  import opened Find
  import opened FindProof

  // ---------------------------------------------------------------------
  // The choice of entries
  // ---------------------------------------------------------------------

  type Test = Resource -> bool

  function LastRole(r: Resource): Option<string> {
    if |r.reservations| == 0 then None else r.reservations[|r.reservations| - 1].role
  }

  function Stripped(r: Resource): Resource {
    r.(reservations := [])
  }

  /** How much one copy of a resource is. */
  ghost function Size(r: Resource): Quantity {
    Amount(ToEntry(r))
  }

  /** But for its reservations it is what is wanted, and one of the two is part of the other. */
  ghost predicate Serves(r: Resource, wanted: Resource) {
    && KeyOf(Stripped(r)) == KeyOf(Stripped(wanted))
    && (AtMost(Size(wanted), Size(r)) || AtMost(Size(r), Size(wanted)))
  }

  /** The first entry that passes the test and serves, or the length. */
  ghost function First(pool: seq<Entry>, test: Test, wanted: Resource): (i: nat)
    ensures i <= |pool|
    ensures i < |pool| ==> test(pool[i].resource) && Serves(pool[i].resource, wanted)
    ensures forall j :: 0 <= j < i ==> !(test(pool[j].resource) && Serves(pool[j].resource, wanted))
  {
    if pool == [] then 0
    else if test(pool[0].resource) && Serves(pool[0].resource, wanted) then 0
    else 1 + First(pool[1..], test, wanted)
  }

  /** What was found, what is left to take from, and what is still wanted. */
  datatype Stage =
    | Open(found: seq<Entry>, total: seq<Entry>, wanted: Resource)
    | Done(found: seq<Entry>)

  /** What is taken from an entry bears the reservations of that entry. */
  function Bearing(wanted: Resource, e: Entry): Entry {
    ToEntry(wanted.(reservations := e.resource.reservations))
  }

  ghost function Next(s: Stage, test: Test): Stage {
    if s.Done? then s
    else
      var i := First(s.total, test, s.wanted);
      if i == |s.total| then s
      else
        var e := s.total[i];
        if AtMost(Size(s.wanted), Size(e.resource)) then Done(Add(s.found, Bearing(s.wanted, e)))
        else
          Open(Add(s.found, e), Subtract(s.total, e),
               s.wanted.(value := Minus(s.wanted.value, e.resource.value)))
  }

  function OfRoleOf(target: Resource): Test {
    r => LastRole(r) == LastRole(target)
  }

  const UNRESERVED: Test := (r: Resource) => |r.reservations| == 0

  const ANYONE: Test := (r: Resource) => true

  ghost function OwnStage(pool: seq<Entry>, target: Resource): Stage {
    var start := Open([], pool, Stripped(target));
    if target.reservations == [] then start else Next(start, OfRoleOf(target))
  }

  ghost function FreeStage(pool: seq<Entry>, target: Resource): Stage {
    Next(OwnStage(pool, target), UNRESERVED)
  }

  ghost function LastStage(pool: seq<Entry>, target: Resource): Stage {
    Next(FreeStage(pool, target), ANYONE)
  }

  // ---------------------------------------------------------------------
  // One pass makes one choice
  // ---------------------------------------------------------------------

  /** A state of the search with something left to find. */
  ghost predicate Stands(s: State, t: Stage) {
    && s.Searching? && t.Open? && s.found == t.found && s.total == t.total && Sound(s.total)
    && s.remaining == [ToEntry(t.wanted)] && WellFormed(t.wanted) && !IsZero(t.wanted.value)
    && t.wanted.reservations == []
  }

  lemma ServesMeans(e: Entry, wanted: Resource)
    requires WellFormedEntry(e) && !IsEmpty(e) && WellFormed(wanted) && !IsZero(wanted.value) && wanted.reservations == []
    ensures var u, w := Unreserve(ToEntry(e.resource)), ToEntry(wanted);
            && (Contains([u], [w]) <==>
                KeyOf(Stripped(e.resource)) == KeyOf(Stripped(wanted)) && AtMost(Size(wanted), Size(e.resource)))
            && (Contains([w], [u]) <==>
                KeyOf(Stripped(e.resource)) == KeyOf(Stripped(wanted)) && AtMost(Size(e.resource), Size(wanted)))
  {
    hide KeyOf, WellFormed, Amount, EntryIncludes;
    var t := ToEntry(e.resource);
    var u, w := Unreserve(t), ToEntry(wanted);
    UnreserveKeeps(t);
    assert Stripped(wanted) == wanted && u.resource == Stripped(e.resource);
    SingleContains(u, w);
    SingleContains(w, u);
    EntryIncludesMeans(u, w);
    EntryIncludesMeans(w, u);
  }

  ghost predicate Agrees(pass: Pass, test: Test) {
    forall r :: WellFormed(r) ==> Accepts(pass, r) == test(r)
  }

  /** What the scan makes of the first entry that serves. */
  ghost function Outcome(s: State, wanted: Resource, e: Entry): State
    requires s.Searching?
  {
    if AtMost(Size(wanted), Size(e.resource)) then
      Finished(AddReserved(s.found, s.remaining, e.resource.reservations))
    else
      Searching(Add(s.found, e), Subtract(s.total, e), SubtractAll(s.remaining, [Unreserve(ToEntry(e.resource))]))
  }

  /** One candidate: the scan stops there exactly if it serves. */
  lemma ScanOne(s: State, t: Stage, e: Entry, rest: seq<Entry>)
    requires Stands(s, t) && WellFormedEntry(e) && Usable(e.resource) && !IsEmpty(e)
    ensures s.Searching? && t.Open?
    ensures Scan(s, [e] + rest) == if Serves(e.resource, t.wanted) then Outcome(s, t.wanted, e) else Scan(s, rest)
  {
    hide Serves, Size, KeyOf, WellFormed, Usable, Contains, ToUnreserved, FromResource, AddReserved, SubtractAll, Subtract,
      Insert, IsEmpty;
    Candidate(e);
    ServesMeans(e, t.wanted);
    ServesIs(e.resource, t.wanted);
    assert ([e] + rest)[0] == e && ([e] + rest)[1..] == rest;
  }

  lemma {:induction false} ScanChooses(s: State, t: Stage, pool: seq<Entry>, pass: Pass, test: Test)
    requires Stands(s, t) && Sound(pool) && Agrees(pass, test)
    ensures s.Searching? && t.Open?
    ensures var i := First(pool, test, t.wanted);
            Scan(s, Select(pool, pass)) == if i == |pool| then s else Outcome(s, t.wanted, pool[i])
    decreases pool
  {
    hide Serves, WellFormed, Usable, Accepts, IsEmpty, Scan, Outcome, Stands, NoTwoAddable, Sound;
    StandsSearching(s, t);
    if pool == [] {
      NothingToScan(s);
    } else {
      var e, rest := pool[0], pool[1..];
      TailIsSound(pool);
      HeadIsSound(pool);
      ScanChooses(s, t, rest, pass, test);
      assert Accepts(pass, e.resource) == test(e.resource);
      if test(e.resource) {
        ScanOne(s, t, e, Select(rest, pass));
      } else {
        assert Select(pool, pass) == Select(rest, pass);
      }
    }
  }

  lemma NothingToScan(s: State)
    requires s.Searching?
    ensures Scan(s, []) == s
  {
  }

  lemma HeadIsSound(pool: seq<Entry>)
    requires Sound(pool) && pool != []
    ensures WellFormedEntry(pool[0]) && WellFormed(pool[0].resource) && Usable(pool[0].resource) && !IsEmpty(pool[0])
  {
  }

  lemma ServesIs(r: Resource, wanted: Resource)
    ensures Serves(r, wanted) <==>
            KeyOf(Stripped(r)) == KeyOf(Stripped(wanted)) && (AtMost(Size(wanted), Size(r)) || AtMost(Size(r), Size(wanted)))
  {
  }

  lemma TailIsSound(pool: seq<Entry>)
    requires Sound(pool) && pool != []
    ensures Sound(pool[1..])
  {
    hide Usable;
    ValidTail(pool);
  }

  /** When an entry is used up, what is left of the target is not empty. */
  lemma LeftOver(w: Resource, e: Entry)
    requires WellFormed(w) && !IsZero(w.value) && w.reservations == [] && WellFormedEntry(e) && !IsEmpty(e)
    requires KeyOf(Stripped(e.resource)) == KeyOf(w)
    requires !AtMost(Size(w), Size(e.resource)) && AtMost(Size(e.resource), Size(w))
    ensures var left := w.(value := Minus(w.value, e.resource.value));
            && WellFormed(left) && !IsZero(left.value)
            && SubtractAll([ToEntry(w)], [Unreserve(ToEntry(e.resource))]) == [ToEntry(left)]
            && KeyOf(left) == KeyOf(w)
  {
    var u, t := Unreserve(ToEntry(e.resource)), ToEntry(w);
    KeysDecide(w, u.resource);
    OperatorsMeasure(w.value, e.resource.value);
    OperatorsMeasure(e.resource.value, e.resource.value);
    assert !IsUnit(w);
    var left := w.(value := Minus(w.value, e.resource.value));
    OnlyProperPart(w.value, e.resource.value);
    assert Difference(t, u) == ToEntry(left);
    assert FirstSubtractable([t], u) == 0;
    assert [t][0 := ToEntry(left)] == [ToEntry(left)];
    assert Subtract([t], u) == [ToEntry(left)];
    assert [u][1..] == [];
    assert SubtractAll([t], [u]) == SubtractAll(Subtract([t], u), [u][1..]);
  }

  lemma OnlyProperPart(w: Value, v: Value)
    requires WellFormedValue(w) && WellFormedValue(v) && SameKind(w, v)
    requires AtMost(Measure(v), Measure(w)) && !AtMost(Measure(w), Measure(v))
    ensures WellFormedValue(Minus(w, v)) && !IsZero(Minus(w, v)) && SameKind(Minus(w, v), w)
    ensures w.Scalar? ==> Minus(w, v).milli > 0
  {
    OperatorsMeasure(w, v);
    if !w.Scalar? {
      OperatorsMeasure(Minus(w, v), Minus(w, v));
      SomethingLeft(Measure(w), Measure(v));
    }
  }

  lemma SomethingLeft(q: Quantity, r: Quantity)
    requires SameUnit(q, r) && !q.Count? && !AtMost(q, r)
    ensures Take(q, r) != ZeroOf(q)
  {
    if q.Points? {
      var x :| x in q.points && x !in r.points;
      assert x in Take(q, r).points;
    } else {
      var x :| x in q.names && x !in r.names;
      assert x in Take(q, r).names;
    }
  }

  lemma PassIsNext(s: State, t: Stage, pass: Pass, test: Test)
    requires Stands(s, t) && Agrees(pass, test)
    ensures var s', t' := Scan(s, Filter(s.total, pass)), Next(t, test);
            if t'.Done? then s' == Finished(t'.found) else Stands(s', t')
  {
    hide Serves, Size, KeyOf, WellFormed, Usable, Accepts, NoTwoAddable, IsEmpty, Insert, Subtract, Select, Filter, Scan,
      SubtractAll, Minus;
    FilterSelects(s.total, pass);
    ScanChooses(s, t, s.total, pass, test);
    var i := First(s.total, test, t.wanted);
    if i < |s.total| {
      var e := s.total[i];
      ServesIs(e.resource, t.wanted);
      assert Stripped(t.wanted) == t.wanted;
      if AtMost(Size(t.wanted), Size(e.resource)) {
        var w := ToEntry(t.wanted);
        assert s.remaining[1..] == [] && s.remaining[0] == w;
        assert WithReservations(w, e.resource.reservations) == Bearing(t.wanted, e);
        assert AddReserved(s.found, s.remaining, e.resource.reservations) ==
               AddReserved(Add(s.found, Bearing(t.wanted, e)), [], e.resource.reservations);
      } else {
        LeftOver(t.wanted, e);
        SubtractKeepsSound(s.total, e);
      }
    }
  }

  // ---------------------------------------------------------------------
  // The whole search
  // ---------------------------------------------------------------------

  lemma TestsAgree(target: Resource)
    requires Usable(target)
    ensures IsReserved(target) ==> Agrees(TargetRole(ReservationRole(target)), OfRoleOf(target))
    ensures Agrees(UnreservedOnly, UNRESERVED) && Agrees(AnyRole, ANYONE)
  {
    UsableIsWellFormed(target);
    if IsReserved(target) {
      forall r | WellFormed(r)
        ensures Accepts(TargetRole(ReservationRole(target)), r) == OfRoleOf(target)(r)
      {
        if |r.reservations| > 0 {
          assert HasTypeAndRole(r.reservations[|r.reservations| - 1]);
        }
      }
    }
  }

  lemma StartStands(pool: seq<Entry>, target: Resource)
    requires Sound(pool) && Usable(target) && !IsZero(target.value)
    ensures var start := Open([], pool, Stripped(target));
            Stands(Searching([], pool, ToUnreserved(FromResource(target))), start)
  {
    UsableIsWellFormed(target);
    Candidate(ToEntry(target));
    assert Unreserve(ToEntry(target)) == ToEntry(Stripped(target));
  }

  lemma SearchStep(s: State, t: Stage, pass: Pass, test: Test, rest: seq<Pass>)
    requires if t.Done? then s == Finished(t.found) else Stands(s, t)
    requires Agrees(pass, test)
    ensures var s' := if s.Finished? then s else Scan(s, Filter(s.total, pass));
            && Search(s, [pass] + rest) == Search(s', rest)
            && (var t' := Next(t, test); if t'.Done? then s' == Finished(t'.found) else Stands(s', t'))
  {
    hide Scan, Filter, Stands, Next, Agrees;
    assert ([pass] + rest)[1..] == rest;
    if t.Done? {
      NextOfDone(t, test);
    } else {
      StandsSearching(s, t);
      PassIsNext(s, t, pass, test);
    }
  }

  lemma NextOfDone(t: Stage, test: Test)
    requires t.Done?
    ensures Next(t, test) == t
  {
  }

  lemma StandsSearching(s: State, t: Stage)
    requires Stands(s, t)
    ensures s.Searching? && t.Open?
  {
  }

  /** The main theorem on the order of `find`: three choices in turn, the first of
      them only for a reserved target; nothing is found when all three leave the
      target wanting. */
  lemma FindIsStaged(pool: seq<Entry>, target: Resource)
    requires Sound(pool) && Usable(target) && !IsZero(target.value)
    ensures FindTarget(pool, target) ==
            match LastStage(pool, target)
            case Done(found) => Some(found)
            case Open(_, _, _) => None
  {
    hide Scan, Filter, Stands, Next, Agrees, Sound, Usable, ToUnreserved, FromResource, Search;
    TestsAgree(target);
    StartStands(pool, target);
    var s0, t0 := Searching([], pool, ToUnreserved(FromResource(target))), Open([], pool, Stripped(target));
    var s1, t1 := s0, t0;
    if IsReserved(target) {
      var own := TargetRole(ReservationRole(target));
      SearchStep(s0, t0, own, OfRoleOf(target), [UnreservedOnly, AnyRole]);
      s1, t1 := Scan(s0, Filter(pool, own)), Next(t0, OfRoleOf(target));
      assert [own] + [UnreservedOnly, AnyRole] == Passes(target);
    } else {
      assert Passes(target) == [UnreservedOnly, AnyRole];
    }
    assert [UnreservedOnly] + [AnyRole] == [UnreservedOnly, AnyRole] && [AnyRole] + [] == [AnyRole];
    SearchStep(s1, t1, UnreservedOnly, UNRESERVED, [AnyRole]);
    var s2, t2 := if s1.Finished? then s1 else Scan(s1, Filter(s1.total, UnreservedOnly)), Next(t1, UNRESERVED);
    SearchStep(s2, t2, AnyRole, ANYONE, []);
    var s3, t3 := if s2.Finished? then s2 else Scan(s2, Filter(s2.total, AnyRole)), Next(t2, ANYONE);
    SearchEnds(s3, t3);
  }

  lemma SearchEnds(s: State, t: Stage)
    requires if t.Done? then s == Finished(t.found) else Stands(s, t)
    ensures Search(s, []) == if t.Done? then Some(t.found) else None
  {
  }

  /** In particular a target comes whole from the first entry of its own role that
      serves, if that covers it; when none of its role serves, from the unreserved
      entry; when that does not serve either, from the first of any role. Nothing is
      found when nothing serves. */
  lemma FindPrefers(pool: seq<Entry>, target: Resource)
    requires Sound(pool) && Usable(target) && !IsZero(target.value)
    ensures var wanted, result := Stripped(target), FindTarget(pool, target);
            var own := if target.reservations == [] then |pool| else First(pool, OfRoleOf(target), wanted);
            var free, any := First(pool, UNRESERVED, wanted), First(pool, ANYONE, wanted);
            if own < |pool| then
              AtMost(Size(wanted), Size(pool[own].resource)) ==> result == Some([Bearing(wanted, pool[own])])
            else if free < |pool| then
              AtMost(Size(wanted), Size(pool[free].resource)) ==> result == Some([Bearing(wanted, pool[free])])
            else if any < |pool| then
              AtMost(Size(wanted), Size(pool[any].resource)) <==> result == Some([Bearing(wanted, pool[any])])
            else result == None
  {
    hide Serves, Size, Subtract, Sound, Usable, FindTarget;
    FindIsStaged(pool, target);
  }

  /** Of a scalar, how much a choice finds; nothing once the search is done. */
  ghost function Offer(s: Stage, test: Test): int {
    if s.Done? then 0
    else
      var i := First(s.total, test, s.wanted);
      if i < |s.total| && s.total[i].resource.value.Scalar? then s.total[i].resource.value.milli else 0
  }

  lemma OfferCounts(s: Stage, test: Test)
    requires s.Open? ==> s.wanted.value.Scalar? && !IsUnit(s.wanted) && s.wanted.value.milli > 0
    ensures var t := Next(s, test);
            && (s.Open? && t.Done? ==> Offer(s, test) >= s.wanted.value.milli)
            && (t.Open? ==>
                  && s.Open? && t.wanted == s.wanted.(value := Scalar(s.wanted.value.milli - Offer(s, test)))
                  && t.wanted.value.milli > 0)
  {
    hide Add, Subtract;
    if s.Open? {
      var i := First(s.total, test, s.wanted);
      if i < |s.total| {
        SameSort(s.total[i].resource, s.wanted);
      }
    }
  }

  lemma SameSort(r: Resource, wanted: Resource)
    requires Serves(r, wanted) && wanted.value.Scalar? && !IsUnit(wanted) && wanted.value.milli > 0
    ensures r.value.Scalar? && Size(r) == Count(r.value.milli) && Size(wanted) == Count(wanted.value.milli)
  {
    KeyIsFixed(Stripped(r));
    KeyIsFixed(Stripped(wanted));
  }

  /** A scalar is not found exactly when the three choices together fall short of it. */
  lemma ScalarFallsShort(pool: seq<Entry>, target: Resource)
    requires Sound(pool) && Usable(target) && !IsZero(target.value) && target.value.Scalar? && !IsUnit(target)
    ensures var start := Open([], pool, Stripped(target));
            var own := if target.reservations == [] then 0 else Offer(start, OfRoleOf(target));
            var free, any := Offer(OwnStage(pool, target), UNRESERVED), Offer(FreeStage(pool, target), ANYONE);
            FindTarget(pool, target) == None <==> own + free + any < target.value.milli
  {
    hide Next, Offer, Sound, FindTarget;
    UsableIsWellFormed(target);
    FindIsStaged(pool, target);
    var start := Open([], pool, Stripped(target));
    if target.reservations != [] {
      OfferCounts(start, OfRoleOf(target));
    }
    OfferCounts(OwnStage(pool, target), UNRESERVED);
    OfferCounts(FreeStage(pool, target), ANYONE);
    NoOffer(OwnStage(pool, target), UNRESERVED);
    NoOffer(FreeStage(pool, target), ANYONE);
  }

  lemma NoOffer(s: Stage, test: Test)
    ensures s.Done? ==> Offer(s, test) == 0 && Next(s, test) == s
  {
  }

  /** A target of nothing is found, as nothing, wherever there is an entry at all. */
  lemma NothingIsFound(pool: seq<Entry>, target: Resource)
    requires Sound(pool) && Usable(target) && IsZero(target.value)
    ensures FindTarget(pool, target) == if pool == [] then None else Some([])
  {
    hide Usable, NoTwoAddable, WellFormed, Filter;
    assert FromResource(target) == [];
    var s := Searching([], pool, []);
    if IsReserved(target) {
      var own := TargetRole(ReservationRole(target));
      NothingSearched(s, own, [UnreservedOnly, AnyRole]);
      assert [own] + [UnreservedOnly, AnyRole] == Passes(target);
    } else {
      assert Passes(target) == [UnreservedOnly, AnyRole];
    }
    NothingSearched(s, UnreservedOnly, [AnyRole]);
    NothingSearched(s, AnyRole, []);
    assert [UnreservedOnly] + [AnyRole] == [UnreservedOnly, AnyRole] && [AnyRole] + [] == [AnyRole];
    if pool != [] {
      assert pool[0] in Filter(pool, AnyRole);
    }
  }

  lemma NothingSearched(s: State, pass: Pass, rest: seq<Pass>)
    requires s.Searching? && s.found == [] && s.remaining == [] && Sound(s.total)
    ensures var candidates := Filter(s.total, pass);
            && Search(s, [pass] + rest) == (if candidates == [] then Search(s, rest) else Some([]))
            && (s.total == [] ==> candidates == [])
            && forall e :: e in candidates <==> e in s.total && Accepts(pass, e.resource)
  {
    hide Accepts;
    FilterSelects(s.total, pass);
    assert ([pass] + rest)[1..] == rest;
  }

  // ---------------------------------------------------------------------
  // Shared resources and exclusive disks
  // ---------------------------------------------------------------------

  lemma UnitSize(r: Resource, wanted: Resource)
    requires IsUnit(wanted) && !IsZero(wanted.value) && KeyOf(Stripped(r)) == KeyOf(Stripped(wanted))
    ensures Size(r) == Count(1) == Size(wanted) && IsUnit(r) && r.shared == wanted.shared && r.value == wanted.value
  {
    KeyIsFixed(Stripped(r));
    KeyIsFixed(Stripped(wanted));
  }

  /** A shared resource or an exclusive disk is found exactly when the pool has one,
      in whatever role, and then comes from one entry. */
  lemma UnitIsFound(pool: seq<Entry>, target: Resource)
    requires Sound(pool) && Usable(target) && !IsZero(target.value) && IsUnit(target)
    ensures FindTarget(pool, target).Some? <==>
            exists e :: e in pool && KeyOf(Stripped(e.resource)) == KeyOf(Stripped(target))
    ensures FindTarget(pool, target).Some? ==>
            exists e :: e in pool && KeyOf(Stripped(e.resource)) == KeyOf(Stripped(target))
                        && FindTarget(pool, target).value == [Bearing(Stripped(target), e)]
  {
    hide Size, KeyOf, Sound, Usable, FindTarget, Bearing;
    var wanted := Stripped(target);
    forall e | e in pool && KeyOf(Stripped(e.resource)) == KeyOf(wanted) ensures Serves(e.resource, wanted) {
      UnitSize(e.resource, wanted);
    }
    forall e | e in pool && Serves(e.resource, wanted) ensures AtMost(Size(wanted), Size(e.resource)) {
      UnitSize(e.resource, wanted);
    }
    FindPrefers(pool, target);
    if e :| e in pool && KeyOf(Stripped(e.resource)) == KeyOf(wanted) {
      var j :| 0 <= j < |pool| && pool[j] == e;
      assert First(pool, ANYONE, wanted) <= j;
    }
  }

  /** A copy taken from an entry is contained in the pool, and is the target again
      once its reservations are cleared. */
  lemma BearingIsContained(pool: seq<Entry>, e: Entry, wanted: Resource)
    requires Pool.Valid(pool) && e in pool && WellFormed(wanted) && !IsZero(wanted.value) && wanted.reservations == []
    requires KeyOf(Stripped(e.resource)) == KeyOf(wanted) && AtMost(Size(wanted), Amount(e))
    ensures var found := [Bearing(wanted, e)];
            Pool.Valid(found) && Contains(pool, found) && ToUnreserved(found) == [ToEntry(wanted)]
  {
    hide KeyOf, Amount, EntryIncludes;
    var w, b := ToEntry(wanted), Bearing(wanted, e);
    UnreserveKeeps(e);
    ReservingBack(e, w);
    assert b == WithReservations(w, e.resource.reservations);
    assert WellFormedEntry(e) && !IsEmpty(e);
    EntryIncludesMeans(e, b);
    assert [b][1..] == [];
    assert UnreserveEach([b]) == [w] && [w][1..] == [];
    assert AddAll([], [w]) == AddAll(Add([], w), [w][1..]);
  }

  lemma SharedIsSound(pool: seq<Entry>, target: Resource)
    requires Sound(pool) && Usable(target) && target.shared && FindTarget(pool, target).Some?
    ensures var found := FindTarget(pool, target).value;
            && Pool.Valid(found) && Contains(pool, found)
            && PoolEq(ToUnreserved(found), ToUnreserved(FromResource(target)))
  {
    hide KeyOf, Usable, WellFormed, FindTarget;
    var wanted := Stripped(target);
    UsableIsWellFormed(target);
    if IsZero(target.value) {
      NothingIsFound(pool, target);
      assert FromResource(target) == [];
      assert Contains(pool, []) && Contains([], []);
    } else {
      UnitIsFound(pool, target);
      var e :| e in pool && KeyOf(Stripped(e.resource)) == KeyOf(Stripped(target))
               && FindTarget(pool, target).value == [Bearing(wanted, e)];
      UnitSize(e.resource, wanted);
      assert WellFormedEntry(e) && !IsEmpty(e);
      assert WellFormed(wanted) by {
        StrippedWellFormed(target);
      }
      BearingIsContained(pool, e, wanted);
      Candidate(ToEntry(target));
      assert Unreserve(ToEntry(target)) == ToEntry(wanted);
      SingleContains(ToEntry(wanted), ToEntry(wanted));
      EntryIncludesMeans(ToEntry(wanted), ToEntry(wanted));
    }
  }

  lemma StrippedWellFormed(r: Resource)
    requires WellFormed(r)
    ensures WellFormed(Stripped(r))
  {
  }

  /** What `find` returns is contained in the pool and, with the reservations
      cleared, equals the target, shared or not. */
  lemma FoundIsContained(pool: seq<Entry>, target: Resource)
    requires Sound(pool) && Usable(target) && FindTarget(pool, target).Some?
    ensures var found := FindTarget(pool, target).value;
            && Pool.Valid(found) && Contains(pool, found)
            && PoolEq(ToUnreserved(found), ToUnreserved(FromResource(target)))
  {
    if target.shared {
      SharedIsSound(pool, target);
    } else {
      FindIsSound(pool, target);
    }
  }
}
