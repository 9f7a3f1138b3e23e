/** What `find` returns is contained in the pool and, with the reservations
    cleared, equals the target. */
module FindProof {
  import opened Common
  import opened Values
  import opened ResourceModel
  import opened Validation
  import opened Pool
  import opened PoolMap
  import opened PoolLaws
  import opened Operations
  import opened Find

  // ---------------------------------------------------------------------
  // Clearing reservations
  // ---------------------------------------------------------------------

  lemma UnreserveKeeps(e: Entry)
    requires WellFormedEntry(e)
    ensures WellFormedEntry(Unreserve(e)) && IsEmpty(Unreserve(e)) == IsEmpty(e)
    ensures Key(Unreserve(e)) == Key(e).(reservations := [])
    ensures Amount(Unreserve(e)) == Amount(e)
  {
    KeyIsFixed(e.resource);
  }

  /** Entries that agree once unreserved, given the same reservations, have one key. */
  lemma ReservingBack(e: Entry, r: Entry)
    requires WellFormedEntry(e) && WellFormedEntry(r)
    requires Key(Unreserve(e)) == Key(r)
    ensures var back := WithReservations(r, e.resource.reservations);
            && WellFormedEntry(back) && Key(back) == Key(e) && Amount(back) == Amount(r)
            && Unreserve(back) == r && IsEmpty(back) == IsEmpty(r)
  {
    UnreserveKeeps(e);
    KeyIsFixed(r.resource);
    KeyIsFixed(e.resource);
    assert Key(r).reservations == r.resource.reservations;
    var back := WithReservations(r, e.resource.reservations);
    assert Key(back) == Key(r).(reservations := e.resource.reservations);
    assert Key(e).reservations == e.resource.reservations;
    KeyIsFixed(back.resource);
  }

  lemma {:induction false} UnreserveEachWellFormed(pool: seq<Entry>)
    requires AllWellFormed(pool)
    ensures AllWellFormed(UnreserveEach(pool)) && |UnreserveEach(pool)| == |pool|
  {
    if pool != [] {
      UnreserveKeeps(pool[0]);
      UnreserveEachWellFormed(pool[1..]);
    }
  }

  lemma ToUnreservedQty(pool: seq<Entry>)
    requires AllWellFormed(pool)
    ensures Pool.Valid(ToUnreserved(pool))
    ensures forall key :: Qty(ToUnreserved(pool), key) == Qty(UnreserveEach(pool), key)
  {
    hide NoTwoAddable, WellFormed, KeyOf;
    UnreserveEachWellFormed(pool);
    AddAllIsSum([], UnreserveEach(pool));
    forall key ensures Qty(ToUnreserved(pool), key) == Qty(UnreserveEach(pool), key) {
      QtyIsNatural(UnreserveEach(pool), key);
      ZeroIsNeutral(Qty(UnreserveEach(pool), key), key);
    }
  }

  lemma UnreserveCombined(a: Entry, b: Entry, key: Resource)
    requires WellFormedEntry(a) && WellFormedEntry(b) && !IsEmpty(a) && !IsEmpty(b)
    requires Addable(a.resource, b.resource)
    ensures At(Unreserve(Combine(a, b)), key) == Sum(At(Unreserve(a), key), At(Unreserve(b), key))
  {
    hide Addable, KeyOf, WellFormed, Amount;
    CombineAdds(a, b);
    UnreserveKeeps(a);
    UnreserveKeeps(b);
    UnreserveKeeps(Combine(a, b));
    AmountIsNatural(Unreserve(a), key);
    ZeroIsNeutral(At(Unreserve(a), key), key);
  }

  /** Clearing reservations turns merging into addition, as merging itself does. */
  lemma {:induction false} UnreserveInsert(pool: seq<Entry>, e: Entry, key: Resource)
    requires AllWellFormed(pool) && NoneEmpty(pool) && WellFormedEntry(e) && !IsEmpty(e)
    ensures Qty(UnreserveEach(Insert(pool, e)), key) == Sum(Qty(UnreserveEach(pool), key), At(Unreserve(e), key))
  {
    hide Sum, Addable, WellFormedEntry, IsEmpty, Key, Amount, Combine, Unreserve;
    UnreserveKeeps(e);
    AmountIsNatural(Unreserve(e), key);
    var u := At(Unreserve(e), key);
    if pool == [] {
      SumLaws(u, ZeroAt(key), ZeroAt(key));
      assert UnreserveEach([e]) == [Unreserve(e)];
      assert [Unreserve(e)][1..] == [];
    } else {
      var head, tail := pool[0], pool[1..];
      UnreserveKeeps(head);
      AmountIsNatural(Unreserve(head), key);
      UnreserveEachWellFormed(tail);
      QtyIsNatural(UnreserveEach(tail), key);
      var h, t := At(Unreserve(head), key), Qty(UnreserveEach(tail), key);
      SumLaws(h, t, u);
      SumLaws(h, u, t);
      SumLaws(t, u, h);
      assert UnreserveEach(pool)[1..] == UnreserveEach(tail);
      if Addable(head.resource, e.resource) {
        UnreserveCombined(head, e, key);
        var after := [Combine(head, e)] + tail;
        assert after[1..] == tail;
        assert UnreserveEach(after)[1..] == UnreserveEach(tail);
      } else {
        UnreserveInsert(tail, e, key);
        var after := [head] + Insert(tail, e);
        assert after[1..] == Insert(tail, e);
        assert UnreserveEach(after)[1..] == UnreserveEach(Insert(tail, e));
      }
    }
  }

  // ---------------------------------------------------------------------
  // The invariant of the search
  // ---------------------------------------------------------------------

  /** At most one entry, non-shared and unreserved: what is left of a target. */
  predicate IsRemainder(remaining: seq<Entry>) {
    && Pool.Valid(remaining) && |remaining| <= 1
    && (remaining != [] ==> !remaining[0].resource.shared)
  }

  ghost predicate Invariant(pool: seq<Entry>, goal: seq<Entry>, s: State)
    requires s.Searching?
  {
    && Sound(s.total) && Pool.Valid(s.found) && IsRemainder(s.remaining)
    && (forall key :: Qty(pool, key) == Sum(Qty(s.total, key), Qty(s.found, key)))
    && (forall key :: Qty(goal, key) == Sum(Qty(UnreserveEach(s.found), key), Qty(s.remaining, key)))
  }

  ghost predicate Answers(pool: seq<Entry>, goal: seq<Entry>, found: seq<Entry>) {
    && Pool.Valid(found)
    && (forall key :: AtMost(Qty(found, key), Qty(pool, key)))
    && (forall key :: Qty(UnreserveEach(found), key) == Qty(goal, key))
  }

  /** The candidate, as a pool of its own with the reservations cleared. */
  lemma Candidate(e: Entry)
    requires WellFormedEntry(e) && Usable(e.resource) && !IsEmpty(e)
    ensures ToUnreserved(FromResource(e.resource)) == [Unreserve(ToEntry(e.resource))]
  {
    var t := ToEntry(e.resource);
    assert FromResource(e.resource) == [t];
    assert [t][1..] == [];
    assert UnreserveEach([t]) == [Unreserve(t)];
    var u := Unreserve(t);
    assert AddAll([], [u]) == AddAll(Add([], u), [u][1..]);
    assert [u][1..] == [];
  }

  lemma SingleContains(a: Entry, b: Entry)
    ensures Contains([a], [b]) <==> EntryIncludes(a, b)
  {
    assert [b][1..] == [];
    if EntryIncludes(a, b) {
      assert EntryIncludes([a][0], b);
    }
  }

  lemma SingleQty(e: Entry, key: Resource)
    requires WellFormedEntry(e)
    ensures Qty([e], key) == At(e, key)
  {
    AmountIsNatural(e, key);
    ZeroIsNeutral(At(e, key), key);
    assert [e][1..] == [];
  }

  /** An entry is at most what the pool holds under its key. */
  lemma EntryWithin(pool: seq<Entry>, e: Entry, key: Resource)
    requires AllWellFormed(pool) && e in pool
    ensures AtMost(At(e, key), Qty(pool, key))
  {
    hide WellFormed, KeyOf, Amount, ZeroAt;
    var i :| 0 <= i < |pool| && pool[i] == e;
    QtySplit(pool, i, key);
    AmountIsNatural(e, key);
    QtyIsNatural(RemoveAt(pool, i), key);
  }

  lemma FinishedAnswersAt(pool: seq<Entry>, goal: seq<Entry>, s: State, e: Entry, key: Resource)
    requires s.Searching? && Invariant(pool, goal, s) && e in s.total && s.remaining != []
    requires Key(Unreserve(e)) == Key(s.remaining[0]) && AtMost(Amount(s.remaining[0]), Amount(e))
    ensures var back := WithReservations(s.remaining[0], e.resource.reservations);
            var found := Add(s.found, back);
            && AtMost(Qty(found, key), Qty(pool, key))
            && Qty(UnreserveEach(found), key) == Qty(goal, key)
  {
    hide NoTwoAddable, WellFormed, KeyOf, Amount, ZeroAt, Usable, UnreserveEach, Insert;
    var r := s.remaining[0];
    var back := WithReservations(r, e.resource.reservations);
    ReservingBack(e, r);
    AddIsSum(s.found, back);
    UnreserveInsert(s.found, back, key);
    assert s.remaining == [r];
    SingleQty(r, key);
    EntryWithin(s.total, e, key);
    AmountIsNatural(back, key);
    QtyIsNatural(s.found, key);
    QtyIsNatural(s.total, key);
    AmountIsNatural(e, key);
    ZeroIsNeutral(Qty(s.total, key), key);
  }

  lemma FinishedAnswers(pool: seq<Entry>, goal: seq<Entry>, s: State, e: Entry)
    requires s.Searching? && Invariant(pool, goal, s) && e in s.total
    requires Contains([Unreserve(ToEntry(e.resource))], s.remaining)
    ensures Answers(pool, goal, AddReserved(s.found, s.remaining, e.resource.reservations))
  {
    hide NoTwoAddable, WellFormed, KeyOf, Amount, Usable, UnreserveEach, Insert;
    if s.remaining == [] {
      assert Invariant(pool, goal, s);
      forall key ensures AtMost(Qty(s.found, key), Qty(pool, key))
                         && Qty(UnreserveEach(s.found), key) == Qty(goal, key)
      {
        QtyIsNatural(s.found, key);
        QtyIsNatural(s.total, key);
        UnreserveEachWellFormed(s.found);
        QtyIsNatural(UnreserveEach(s.found), key);
        ZeroIsNeutral(Qty(UnreserveEach(s.found), key), key);
      }
    } else {
      var r := s.remaining[0];
      var back := WithReservations(r, e.resource.reservations);
      MatchesRemainder(s, e);
      assert s.remaining == [r];
      SingleContains(Unreserve(ToEntry(e.resource)), r);
      UnreserveKeeps(e);
      EntryIncludesMeans(Unreserve(e), r);
      ReservingBack(e, r);
      AddIsSum(s.found, back);
      var found := Add(s.found, back);
      assert AddReserved(s.found, s.remaining, e.resource.reservations) == found by {
        assert s.remaining[1..] == [];
      }
      forall key ensures AtMost(Qty(found, key), Qty(pool, key)) && Qty(UnreserveEach(found), key) == Qty(goal, key) {
        FinishedAnswersAt(pool, goal, s, e, key);
      }
    }
  }

  /** A candidate compared with a non-shared remainder is non-shared when they match. */
  lemma MatchesRemainder(s: State, e: Entry)
    requires s.Searching? && IsRemainder(s.remaining) && s.remaining != [] && WellFormedEntry(e) && !IsEmpty(e)
    requires var u := Unreserve(ToEntry(e.resource));
             EntryIncludes(u, s.remaining[0]) || EntryIncludes(s.remaining[0], u)
             || Contains([u], s.remaining)
    ensures ToEntry(e.resource) == e && !e.resource.shared
  {
    var u := Unreserve(ToEntry(e.resource));
    if Contains([u], s.remaining) {
      assert s.remaining == [s.remaining[0]];
      SingleContains(u, s.remaining[0]);
    }
  }

  lemma PartialKeepsAt(pool: seq<Entry>, goal: seq<Entry>, s: State, e: Entry, key: Resource)
    requires s.Searching? && Invariant(pool, goal, s) && e in s.total && s.remaining != []
    requires EntryIncludes(s.remaining[0], Unreserve(e))
    ensures Qty(pool, key) == Sum(Qty(Subtract(s.total, e), key), Qty(Add(s.found, e), key))
    ensures Qty(goal, key) ==
            Sum(Qty(UnreserveEach(Add(s.found, e)), key), Qty(Subtract(s.remaining, Unreserve(e)), key))
  {
    hide NoTwoAddable, WellFormed, KeyOf, Amount, ZeroAt, Usable, UnreserveEach, Insert, Subtract;
    var r, u := s.remaining[0], Unreserve(e);
    UnreserveKeeps(e);
    EntryIncludesMeans(r, u);
    AddIsSum(s.found, e);
    SubtractIsTake(s.total, e);
    SubtractIsTake(s.remaining, u);
    UnreserveInsert(s.found, e, key);
    assert s.remaining == [r];
    SingleQty(r, key);
    EntryWithin(s.total, e, key);
    AmountIsNatural(e, key);
    AmountIsNatural(u, key);
    AmountIsNatural(r, key);
    QtyIsNatural(s.found, key);
    QtyIsNatural(s.total, key);
    UnreserveEachWellFormed(s.found);
    QtyIsNatural(UnreserveEach(s.found), key);
    PutBack(Qty(s.total, key), At(e, key), Qty(s.found, key));
    if key == Key(u) {
      PutBack(At(r, key), At(u, key), Qty(UnreserveEach(s.found), key));
    } else {
      ZeroIsNeutral(At(r, key), key);
      ZeroIsNeutral(Qty(UnreserveEach(s.found), key), key);
    }
  }

  /** What is taken from one side and added to the other leaves the sum alone. */
  lemma PutBack(q: Quantity, a: Quantity, f: Quantity)
    requires SameUnit(q, a) && SameUnit(a, f) && Natural(q) && Natural(a) && Natural(f) && AtMost(a, q)
    ensures Sum(Take(q, a), Sum(f, a)) == Sum(q, f)
    ensures Sum(Sum(f, a), Take(q, a)) == Sum(f, q)
  {
  }

  lemma SubtractKeepsSound(pool: seq<Entry>, e: Entry)
    requires Sound(pool) && WellFormedEntry(e) && !IsEmpty(e)
    ensures Sound(Subtract(pool, e))
  {
    hide NoTwoAddable, KeyOf;
    SubtractKeepsValid(pool, e);
    var i := FirstSubtractable(pool, e);
    if i < |pool| {
      var rest := Difference(pool[i], e);
      DifferenceTakes(pool[i], e);
      if !(IsNegative(rest) || IsEmpty(rest)) {
        SameBarValue(pool[i].resource, rest.resource);
      }
    }
  }

  lemma SameBarValue(a: Resource, b: Resource)
    requires Usable(a) && b == a.(value := b.value) && WellFormedValue(b.value)
    ensures Usable(b)
  {
    if |a.reservations| == 1 {
      assert OldFieldsAgree(a) == OldFieldsAgree(b);
    }
  }

  lemma PartialKeeps(pool: seq<Entry>, goal: seq<Entry>, s: State, e: Entry)
    requires s.Searching? && Invariant(pool, goal, s) && e in s.total
    requires var u := Unreserve(ToEntry(e.resource)); !Contains([u], s.remaining) && Contains(s.remaining, [u])
    ensures Invariant(pool, goal,
              Searching(Add(s.found, e), Subtract(s.total, e), SubtractAll(s.remaining, [Unreserve(ToEntry(e.resource))])))
  {
    hide NoTwoAddable, WellFormed, KeyOf, Amount, Usable, UnreserveEach, Insert, Subtract;
    var u := Unreserve(ToEntry(e.resource));
    var r := s.remaining[0];
    assert s.remaining == [r];
    SingleContains(r, u);
    MatchesRemainder(s, e);
    UnreserveKeeps(e);
    AddIsSum(s.found, e);
    SubtractKeepsSound(s.total, e);
    SubtractIsTake(s.remaining, u);
    assert SubtractAll(s.remaining, [u]) == Subtract(s.remaining, u) by {
      assert [u][1..] == [];
      assert SubtractAll(s.remaining, [u]) == SubtractAll(Subtract(s.remaining, u), [u][1..]);
    }
    RemainderShrinks(s.remaining, u);
    forall key
      ensures Qty(pool, key) == Sum(Qty(Subtract(s.total, e), key), Qty(Add(s.found, e), key))
      ensures Qty(goal, key) ==
              Sum(Qty(UnreserveEach(Add(s.found, e)), key), Qty(Subtract(s.remaining, u), key))
    {
      PartialKeepsAt(pool, goal, s, e, key);
    }
  }

  lemma RemainderShrinks(remaining: seq<Entry>, u: Entry)
    requires IsRemainder(remaining) && WellFormedEntry(u)
    ensures IsRemainder(Subtract(remaining, u))
  {
    SubtractKeepsValid(remaining, u);
  }

  lemma {:induction false} ScanKeeps(pool: seq<Entry>, goal: seq<Entry>, s: State, candidates: seq<Entry>)
    requires s.Searching? && Invariant(pool, goal, s) && Within(candidates, s.total)
    ensures var t := Scan(s, candidates);
            if t.Finished? then Answers(pool, goal, t.found) else Invariant(pool, goal, t)
    decreases candidates
  {
    hide NoTwoAddable, WellFormed, KeyOf, Usable, UnreserveEach, Insert, Subtract, Contains, ToUnreserved, FromResource,
      Invariant, Answers, AddReserved, SubtractAll;
    if candidates != [] {
      var e := candidates[0];
      var u := Unreserve(ToEntry(e.resource));
      InTotal(pool, goal, s, e);
      Candidate(e);
      if Contains([u], s.remaining) {
        FinishedAnswers(pool, goal, s, e);
      } else if Contains(s.remaining, [u]) {
        PartialKeeps(pool, goal, s, e);
      } else {
        ScanKeeps(pool, goal, s, candidates[1..]);
      }
    }
  }

  lemma InTotal(pool: seq<Entry>, goal: seq<Entry>, s: State, e: Entry)
    requires s.Searching? && Invariant(pool, goal, s) && e in s.total
    ensures WellFormedEntry(e) && Usable(e.resource) && !IsEmpty(e)
    ensures Pool.Valid(s.total)
  {
  }

  lemma {:induction false} SearchAnswers(pool: seq<Entry>, goal: seq<Entry>, s: State, passes: seq<Pass>)
    requires if s.Searching? then Invariant(pool, goal, s) else Answers(pool, goal, s.found)
    ensures Search(s, passes).Some? ==> Answers(pool, goal, Search(s, passes).value)
    decreases passes
  {
    hide Scan, Invariant, Answers, Filter;
    if s.Searching? && passes != [] {
      var candidates := Filter(s.total, passes[0]);
      assert Pool.Valid(s.total) by {
        TotalIsValid(pool, goal, s);
      }
      FilterSelects(s.total, passes[0]);
      ScanKeeps(pool, goal, s, candidates);
      SearchAnswers(pool, goal, Scan(s, candidates), passes[1..]);
    }
  }

  lemma TotalIsValid(pool: seq<Entry>, goal: seq<Entry>, s: State)
    requires s.Searching? && Invariant(pool, goal, s)
    ensures Pool.Valid(s.total)
  {
  }

  lemma StartsInvariant(pool: seq<Entry>, target: Resource)
    requires Sound(pool) && Usable(target) && !target.shared
    ensures var goal := ToUnreserved(FromResource(target));
            Invariant(pool, goal, Searching([], pool, goal))
  {
    hide KeyOf;
    var goal := ToUnreserved(FromResource(target));
    var t := ToEntry(target);
    UsableIsWellFormed(target);
    ToUnreservedQty(FromResource(target));
    if IsZero(target.value) {
      assert FromResource(target) == [];
    } else {
      Candidate(t);
    }
    assert IsRemainder(goal);
    forall key
      ensures Qty(pool, key) == Sum(Qty(pool, key), Qty([], key))
      ensures Qty(goal, key) == Sum(Qty(UnreserveEach([]), key), Qty(goal, key))
    {
      QtyIsNatural(pool, key);
      QtyIsNatural(goal, key);
      ZeroIsNeutral(Qty(pool, key), key);
      ZeroIsNeutral(Qty(goal, key), key);
    }
  }

  /** The main theorem on `find`. */
  lemma FindIsSound(pool: seq<Entry>, target: Resource)
    requires Sound(pool) && Usable(target) && !target.shared
    ensures var found := FindTarget(pool, target);
            found.Some? ==>
              && Pool.Valid(found.value)
              && Contains(pool, found.value)
              && PoolEq(ToUnreserved(found.value), ToUnreserved(FromResource(target)))
  {
    hide NoTwoAddable, WellFormed, KeyOf, Usable, UnreserveEach, ToUnreserved, FromResource, Contains, Search, Passes;
    var goal := ToUnreserved(FromResource(target));
    var start := Searching([], pool, goal);
    StartsInvariant(pool, target);
    SearchAnswers(pool, goal, start, Passes(target));
    var found := FindTarget(pool, target);
    if found.Some? {
      var f := found.value;
      ContainsMeans(pool, f);
      forall key ensures Covers(key, Qty(pool, key), Qty(f, key)) {
        assert AtMost(Qty(f, key), Qty(pool, key));
        QtyIsNatural(pool, key);
        QtyIsNatural(f, key);
      }
      ToUnreservedQty(f);
      SameMapIsEq(ToUnreserved(f), goal);
    }
  }
}
