/** `Resources::get<T>(name)`: the total held under a name, over all roles, and
    how the pool operations change it. */
module Totals {
  import opened Common
  import opened Values
  import opened ResourceModel
  import opened Pool
  import opened PoolMap

  predicate Counts(e: Entry, name: string, kind: Value) {
    e.resource.name == name && SameKind(e.resource.value, kind)
  }

  /** The running total of `get`: a shared resource counts once, whatever its copies. */
  function TotalFrom(total: Value, pool: seq<Entry>, name: string): Value
    decreases pool
  {
    if pool == [] then total
    else TotalFrom(if Counts(pool[0], name, total) then Plus(total, pool[0].resource.value) else total,
                   pool[1..], name)
  }

  predicate Found(pool: seq<Entry>, name: string, kind: Value) {
    exists i :: 0 <= i < |pool| && Counts(pool[i], name, kind)
  }

  function Get(pool: seq<Entry>, name: string, kind: Value): Option<Value> {
    if Found(pool, name, kind) then Some(TotalFrom(ZeroLike(kind), pool, name)) else None
  }

  /** The same total as a quantity, entry by entry. */
  ghost function Share(e: Entry, name: string, kind: Value): Quantity {
    if Counts(e, name, kind) then Measure(e.resource.value) else ZeroOf(Measure(kind))
  }

  ghost function Total(pool: seq<Entry>, name: string, kind: Value): Quantity {
    if pool == [] then ZeroOf(Measure(kind))
    else Sum(Share(pool[0], name, kind), Total(pool[1..], name, kind))
  }

  lemma ShareUnit(e: Entry, name: string, kind: Value)
    requires WellFormedEntry(e)
    ensures SameUnit(Share(e, name, kind), ZeroOf(Measure(kind))) && Natural(Share(e, name, kind))
  {
  }

  lemma {:induction false} TotalUnit(pool: seq<Entry>, name: string, kind: Value)
    requires AllWellFormed(pool)
    ensures SameUnit(Total(pool, name, kind), ZeroOf(Measure(kind))) && Natural(Total(pool, name, kind))
  {
    if pool != [] {
      ShareUnit(pool[0], name, kind);
      TotalUnit(pool[1..], name, kind);
    }
  }

  lemma {:induction false} TotalFromMeasures(total: Value, pool: seq<Entry>, name: string)
    requires WellFormedValue(total) && AllWellFormed(pool)
    ensures WellFormedValue(TotalFrom(total, pool, name))
    ensures Measure(TotalFrom(total, pool, name)) == Sum(Measure(total), Total(pool, name, total))
    decreases pool
  {
    if pool != [] {
      var next := if Counts(pool[0], name, total) then Plus(total, pool[0].resource.value) else total;
      if Counts(pool[0], name, total) {
        OperatorsMeasure(total, pool[0].resource.value);
      }
      TotalFromMeasures(next, pool[1..], name);
      TotalSameKind(pool[1..], name, total, next);
      TotalUnit(pool[1..], name, total);
      ShareUnit(pool[0], name, total);
      SumLaws(Measure(total), Share(pool[0], name, total), Total(pool[1..], name, total));
    }
  }

  lemma {:induction false} TotalSameKind(pool: seq<Entry>, name: string, a: Value, b: Value)
    requires SameKind(a, b)
    ensures Total(pool, name, a) == Total(pool, name, b)
  {
    hide Sum, Share;
    SameKindSameZero(a, b);
    if pool != [] {
      ShareSameKind(pool[0], name, a, b);
      TotalSameKind(pool[1..], name, a, b);
    }
  }

  lemma SameKindSameZero(a: Value, b: Value)
    requires SameKind(a, b)
    ensures ZeroOf(Measure(a)) == ZeroOf(Measure(b))
  {
  }

  lemma ShareSameKind(e: Entry, name: string, a: Value, b: Value)
    requires SameKind(a, b)
    ensures Share(e, name, a) == Share(e, name, b)
  {
  }

  lemma ZeroOfKind(kind: Value)
    ensures SameKind(ZeroLike(kind), kind) && WellFormedValue(ZeroLike(kind))
    ensures Measure(ZeroLike(kind)) == ZeroOf(Measure(kind))
  {
  }

  lemma ZeroAdds(q: Quantity, kind: Value)
    requires SameUnit(q, ZeroOf(Measure(kind)))
    ensures Sum(ZeroOf(Measure(kind)), q) == q
  {
  }

  /** `get` returns the total quantity, and nothing only when no entry has the name and type. */
  lemma GetMeasures(pool: seq<Entry>, name: string, kind: Value)
    requires AllWellFormed(pool)
    ensures Get(pool, name, kind).Some? ==> Measure(Get(pool, name, kind).value) == Total(pool, name, kind)
    ensures Get(pool, name, kind).None? ==> Total(pool, name, kind) == ZeroOf(Measure(kind))
  {
    hide TotalFrom, Total, AllWellFormed, Found, Sum;
    var zero := ZeroLike(kind);
    ZeroOfKind(kind);
    TotalFromMeasures(zero, pool, name);
    TotalSameKind(pool, name, zero, kind);
    TotalUnit(pool, name, kind);
    ZeroAdds(Total(pool, name, kind), kind);
    if !Found(pool, name, kind) {
      TotalOfNone(pool, name, kind);
    }
  }

  lemma {:induction false} TotalOfNone(pool: seq<Entry>, name: string, kind: Value)
    requires !Found(pool, name, kind)
    ensures Total(pool, name, kind) == ZeroOf(Measure(kind))
  {
    if pool != [] {
      assert !Counts(pool[0], name, kind);
      forall i | 0 <= i < |pool[1..]| ensures !Counts(pool[1..][i], name, kind) {
        assert pool[1..][i] == pool[i + 1];
      }
      TotalOfNone(pool[1..], name, kind);
    }
  }

  // ---------------------------------------------------------------------
  // Splitting
  // ---------------------------------------------------------------------

  lemma {:induction false} TotalConcat(left: seq<Entry>, right: seq<Entry>, name: string, kind: Value)
    requires AllWellFormed(left) && AllWellFormed(right)
    ensures Total(left + right, name, kind) == Sum(Total(left, name, kind), Total(right, name, kind))
  {
    TotalUnit(right, name, kind);
    if left == [] {
      assert left + right == right;
    } else {
      assert (left + right)[1..] == left[1..] + right;
      TotalConcat(left[1..], right, name, kind);
      ShareUnit(left[0], name, kind);
      TotalUnit(left[1..], name, kind);
      SumLaws(Share(left[0], name, kind), Total(left[1..], name, kind), Total(right, name, kind));
    }
  }

  lemma TotalSplit(pool: seq<Entry>, i: nat, name: string, kind: Value)
    requires AllWellFormed(pool) && i < |pool|
    ensures Total(pool, name, kind) == Sum(Share(pool[i], name, kind), Total(RemoveAt(pool, i), name, kind))
  {
    hide Sum, Share, WellFormedEntry;
    ShareUnit(pool[i], name, kind);
    TotalUnit(pool[..i], name, kind);
    TotalUnit(pool[i + 1..], name, kind);
    assert pool == pool[..i] + pool[i..];
    assert pool[i..][1..] == pool[i + 1..];
    TotalConcat(pool[..i], pool[i..], name, kind);
    TotalConcat(pool[..i], pool[i + 1..], name, kind);
    SumLaws(Total(pool[..i], name, kind), Share(pool[i], name, kind), Total(pool[i + 1..], name, kind));
    SumLaws(Share(pool[i], name, kind), Total(pool[..i], name, kind), Total(pool[i + 1..], name, kind));
  }

  lemma TotalSwapRemove(pool: seq<Entry>, i: nat, name: string, kind: Value)
    requires AllWellFormed(pool) && i < |pool|
    ensures Total(SwapRemove(pool, i), name, kind) == Total(RemoveAt(pool, i), name, kind)
  {
    hide Sum, Share, WellFormedEntry;
    var n := |pool| - 1;
    if i == n {
      assert SwapRemove(pool, i) == RemoveAt(pool, i);
    } else {
      var last, middle := pool[n], pool[..i] + pool[i + 1..n];
      assert RemoveAt(SwapRemove(pool, i), i) == middle;
      TotalSplit(SwapRemove(pool, i), i, name, kind);
      assert RemoveAt(pool, i) == middle + [last];
      assert RemoveAt(middle + [last], n - 1) == middle;
      TotalSplit(middle + [last], n - 1, name, kind);
    }
  }

  // ---------------------------------------------------------------------
  // add and subtract
  // ---------------------------------------------------------------------

  /** Adding an entry adds its value to the totals, unless it is one more copy of
      a shared resource that is there already. */
  ghost predicate Arrives(pool: seq<Entry>, e: Entry) {
    !e.resource.shared || Qty(pool, Key(e)) == Count(0)
  }

  /** Subtracting an entry takes its value out of the totals, unless further
      copies of a shared resource stay behind. */
  ghost predicate Departs(pool: seq<Entry>, e: Entry) {
    !e.resource.shared || Qty(pool, Key(e)) == Amount(e)
  }

  /** Either an addable entry is found, or the entry is appended. */
  lemma {:induction false} InsertCases(pool: seq<Entry>, e: Entry)
    ensures (exists i :: 0 <= i < |pool| && Addable(pool[i].resource, e.resource)
                         && Insert(pool, e) == pool[i := Combine(pool[i], e)])
            || ((forall i :: 0 <= i < |pool| ==> !Addable(pool[i].resource, e.resource))
                && Insert(pool, e) == pool + [e])
  {
    if pool != [] && !Addable(pool[0].resource, e.resource) {
      InsertCases(pool[1..], e);
      var tail := pool[1..];
      if i :| 0 <= i < |tail| && Addable(tail[i].resource, e.resource)
              && Insert(tail, e) == tail[i := Combine(tail[i], e)] {
        assert pool[i + 1] == tail[i];
        assert Insert(pool, e) == pool[i + 1 := Combine(pool[i + 1], e)];
      } else {
        assert Insert(pool, e) == pool + [e];
        forall i | 0 <= i < |pool| ensures !Addable(pool[i].resource, e.resource) {
          assert i > 0 ==> pool[i] == tail[i - 1];
        }
      }
    } else if pool != [] {
      assert Insert(pool, e) == pool[0 := Combine(pool[0], e)];
    }
  }

  lemma CombinedShare(held: Entry, e: Entry, name: string, kind: Value)
    requires WellFormedEntry(held) && WellFormedEntry(e) && !IsEmpty(held) && !IsEmpty(e)
    requires Addable(held.resource, e.resource)
    ensures Share(Combine(held, e), name, kind) ==
              if e.resource.shared then Share(held, name, kind)
              else Sum(Share(held, name, kind), Share(e, name, kind))
  {
    KeysDecide(held.resource, e.resource);
    OperatorsMeasure(held.resource.value, e.resource.value);
  }

  /** A shared entry merges exactly when the pool has copies of it. */
  lemma SharedIsThere(pool: seq<Entry>, e: Entry)
    requires Pool.Valid(pool) && WellFormedEntry(e) && e.resource.shared
    ensures (exists i :: 0 <= i < |pool| && Addable(pool[i].resource, e.resource))
            <==> Qty(pool, Key(e)) != Count(0)
  {
    hide NoTwoAddable, KeyOf;
    if i :| 0 <= i < |pool| && Addable(pool[i].resource, e.resource) {
      KeysDecide(pool[i].resource, e.resource);
      QtyUnique(pool, i);
      AmountIsNatural(pool[i], Key(e));
      KeyIsFixed(e.resource);
    } else {
      forall i | 0 <= i < |pool| ensures Key(pool[i]) != Key(e) {
        KeysDecide(pool[i].resource, e.resource);
      }
      QtyAbsent(pool, Key(e));
      KeyIsFixed(e.resource);
    }
  }

  lemma InsertTotals(pool: seq<Entry>, e: Entry, name: string, kind: Value)
    requires Pool.Valid(pool) && WellFormedEntry(e) && !IsEmpty(e)
    ensures Total(Insert(pool, e), name, kind) ==
              if Arrives(pool, e) then Sum(Total(pool, name, kind), Share(e, name, kind))
              else Total(pool, name, kind)
  {
    hide NoTwoAddable, KeyOf, Sum, Share, Insert;
    InsertCases(pool, e);
    InsertAdds(pool, e, e.resource);
    var after := Insert(pool, e);
    ShareUnit(e, name, kind);
    if e.resource.shared {
      SharedIsThere(pool, e);
    }
    if i :| 0 <= i < |pool| && Addable(pool[i].resource, e.resource) && after == pool[i := Combine(pool[i], e)] {
      var rest := RemoveAt(pool, i);
      CombinedShare(pool[i], e, name, kind);
      TotalSplit(pool, i, name, kind);
      TotalSplit(after, i, name, kind);
      assert RemoveAt(after, i) == rest;
      ShareUnit(pool[i], name, kind);
      TotalUnit(rest, name, kind);
      SumLaws(Share(pool[i], name, kind), Share(e, name, kind), Total(rest, name, kind));
      SumLaws(Share(pool[i], name, kind), Total(rest, name, kind), Share(e, name, kind));
      SumLaws(Share(e, name, kind), Total(rest, name, kind), Total(rest, name, kind));
    } else {
      TotalConcat(pool, [e], name, kind);
      assert [e][1..] == [];
      SumLaws(Share(e, name, kind), ZeroOf(Measure(kind)), ZeroOf(Measure(kind)));
    }
  }

  /** Subtracting what is included and adding it back gives the value back. */
  lemma MinusThenPlus(left: Value, right: Value)
    requires WellFormedValue(left) && WellFormedValue(right) && SameKind(left, right) && LessEq(right, left)
    ensures WellFormedValue(Minus(left, right)) && SameKind(Minus(left, right), left)
    ensures Sum(Measure(Minus(left, right)), Measure(right)) == Measure(left)
    ensures IsZero(Minus(left, right)) ==> Measure(left) == Measure(right)
  {
    hide ItemSet;
    OperatorsMeasure(left, right);
    OperatorsMeasure(right, left);
    TakeLaws(Measure(left), Measure(right), Measure(right));
    OperatorsMeasure(Minus(left, right), right);
  }

  lemma DifferenceShare(held: Entry, e: Entry, name: string, kind: Value)
    requires WellFormedEntry(held) && WellFormedEntry(e) && !IsEmpty(held) && !IsEmpty(e)
    requires EntryIncludes(held, e)
    ensures var rest := Difference(held, e);
            if held.resource.shared then
              && Share(rest, name, kind) == Share(held, name, kind)
              && (IsNegative(rest) || IsEmpty(rest) <==> Amount(held) == Amount(e))
              && Share(e, name, kind) == Share(held, name, kind)
            else if IsNegative(rest) || IsEmpty(rest) then
              Share(held, name, kind) == Share(e, name, kind)
            else Sum(Share(rest, name, kind), Share(e, name, kind)) == Share(held, name, kind)
  {
    hide Minus, KeyOf, Measure, SameIdentity;
    ResourceEqIsNormal(held.resource, e.resource);
    if !held.resource.shared {
      assert SameKind(held.resource.value, e.resource.value) by {
        KeysDecide(held.resource, e.resource);
      }
      MinusThenPlus(held.resource.value, e.resource.value);
      assert held.resource.name == e.resource.name by {
        SameIdentityIsNormal(held.resource, e.resource);
      }
      ZeroShare(kind);
    }
  }

  lemma ZeroShare(kind: Value)
    ensures Sum(ZeroOf(Measure(kind)), ZeroOf(Measure(kind))) == ZeroOf(Measure(kind))
  {
  }

  lemma SubtractTotals(pool: seq<Entry>, e: Entry, name: string, kind: Value)
    requires Pool.Valid(pool) && WellFormedEntry(e) && !IsEmpty(e) && Holds(pool, e)
    ensures if Departs(pool, e)
            then Sum(Total(Subtract(pool, e), name, kind), Share(e, name, kind)) == Total(pool, name, kind)
            else Total(Subtract(pool, e), name, kind) == Total(pool, name, kind)
  {
    hide NoTwoAddable, KeyOf, Sum, Share, IsNegative, IsEmpty, Difference;
    var i := SubtractsWhereHeld(pool, e);
    var rest, others, after := Difference(pool[i], e), RemoveAt(pool, i), Subtract(pool, e);
    DifferenceShare(pool[i], e, name, kind);
    DifferenceTakes(pool[i], e);
    TotalSplit(pool, i, name, kind);
    ShareUnit(pool[i], name, kind);
    ShareUnit(e, name, kind);
    TotalUnit(others, name, kind);
    SumLaws(Share(e, name, kind), Total(others, name, kind), Total(others, name, kind));
    if IsNegative(rest) || IsEmpty(rest) {
      TotalSwapRemove(pool, i, name, kind);
    } else {
      assert RemoveAt(after, i) == others;
      TotalSplit(after, i, name, kind);
      ShareUnit(rest, name, kind);
      SumLaws(Share(rest, name, kind), Total(others, name, kind), Share(e, name, kind));
      SumLaws(Share(rest, name, kind), Share(e, name, kind), Total(others, name, kind));
    }
  }

  /** The entry found to subtract from is one that includes what is subtracted. */
  lemma SubtractsWhereHeld(pool: seq<Entry>, e: Entry) returns (i: nat)
    requires Pool.Valid(pool) && WellFormedEntry(e) && !IsEmpty(e) && Holds(pool, e)
    ensures i == FirstSubtractable(pool, e) && i < |pool| && EntryIncludes(pool[i], e)
    ensures pool[i].resource.shared == e.resource.shared
    ensures e.resource.shared ==> Qty(pool, Key(e)) == Amount(pool[i])
  {
    hide NoTwoAddable, KeyOf;
    i := FirstSubtractable(pool, e);
    var j :| 0 <= j < |pool| && EntryIncludes(pool[j], e);
    EntryIncludesMeans(pool[j], e);
    KeysDecide(pool[j].resource, e.resource);
    assert i <= j;
    KeysDecide(pool[i].resource, e.resource);
    if pool[i].resource.shared || !IsUnit(pool[i].resource) {
      if i != j {
        KeysApart(pool, i, j);
      }
      QtyUnique(pool, i);
    } else {
      EntryIncludesMeans(pool[i], e);
    }
  }
}
