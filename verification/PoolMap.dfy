/** The list operations of a pool compute, key by key, sum, truncated
    difference and comparison of quantities. */
module PoolMap {
  import opened Common
  import opened Values
  import opened ResourceModel
  import opened Pool

  // ---------------------------------------------------------------------
  // Quantities of lists
  // ---------------------------------------------------------------------

  lemma {:induction false} QtyIsNatural(pool: seq<Entry>, key: Resource)
    requires AllWellFormed(pool)
    ensures Natural(Qty(pool, key)) && SameUnit(Qty(pool, key), ZeroAt(key))
  {
    if pool != [] {
      AmountIsNatural(pool[0], key);
      QtyIsNatural(pool[1..], key);
    }
  }

  lemma {:induction false} QtyConcat(left: seq<Entry>, right: seq<Entry>, key: Resource)
    requires AllWellFormed(left) && AllWellFormed(right)
    ensures Qty(left + right, key) == Sum(Qty(left, key), Qty(right, key))
  {
    QtyIsNatural(right, key);
    if left == [] {
      assert left + right == right;
    } else {
      AmountIsNatural(left[0], key);
      QtyIsNatural(left[1..], key);
      assert (left + right)[1..] == left[1..] + right;
      QtyConcat(left[1..], right, key);
    }
  }

  lemma QtySplit(pool: seq<Entry>, i: nat, key: Resource)
    requires AllWellFormed(pool) && i < |pool|
    ensures Qty(pool, key) == Sum(At(pool[i], key), Qty(RemoveAt(pool, i), key))
  {
    hide Sum, At, WellFormedEntry;
    AmountIsNatural(pool[i], key);
    QtyIsNatural(pool[..i], key);
    QtyIsNatural(pool[i + 1..], key);
    assert pool == pool[..i] + pool[i..];
    assert pool[i..][1..] == pool[i + 1..];
    QtyConcat(pool[..i], pool[i..], key);
    QtyConcat(pool[..i], pool[i + 1..], key);
    SumLaws(Qty(pool[..i], key), At(pool[i], key), Qty(pool[i + 1..], key));
    SumLaws(At(pool[i], key), Qty(pool[..i], key), Qty(pool[i + 1..], key));
  }

  lemma QtySwapRemove(pool: seq<Entry>, i: nat, key: Resource)
    requires AllWellFormed(pool) && i < |pool|
    ensures Qty(SwapRemove(pool, i), key) == Qty(RemoveAt(pool, i), key)
  {
    hide Sum, At, WellFormedEntry;
    var n := |pool| - 1;
    if i == n {
      assert SwapRemove(pool, i) == RemoveAt(pool, i);
    } else {
      var last, middle := pool[n], pool[..i] + pool[i + 1..n];
      assert RemoveAt(SwapRemove(pool, i), i) == middle;
      QtySplit(SwapRemove(pool, i), i, key);
      assert RemoveAt(pool, i) == middle + [last];
      assert RemoveAt(middle + [last], n - 1) == middle;
      QtySplit(middle + [last], n - 1, key);
    }
  }

  lemma {:induction false} QtyAbsent(pool: seq<Entry>, key: Resource)
    requires forall i :: 0 <= i < |pool| ==> Key(pool[i]) != key
    ensures Qty(pool, key) == ZeroAt(key)
  {
    if pool != [] {
      QtyAbsent(pool[1..], key);
    }
  }

  lemma KeysApart(pool: seq<Entry>, i: nat, j: nat)
    requires Pool.Valid(pool) && i < |pool| && j < |pool| && i != j
    requires pool[i].resource.shared || !IsUnit(pool[i].resource)
    ensures Key(pool[i]) != Key(pool[j])
  {
    KeysDecide(pool[i].resource, pool[j].resource);
    KeysDecide(pool[j].resource, pool[i].resource);
  }

  /** A key that can be merged has at most one entry, which then holds all of it. */
  lemma QtyUnique(pool: seq<Entry>, i: nat)
    requires Pool.Valid(pool) && i < |pool|
    requires pool[i].resource.shared || !IsUnit(pool[i].resource)
    ensures Qty(RemoveAt(pool, i), Key(pool[i])) == ZeroAt(Key(pool[i]))
    ensures Qty(pool, Key(pool[i])) == Amount(pool[i])
  {
    hide NoTwoAddable, WellFormedEntry, KeyOf, Amount, Sum;
    var key := Key(pool[i]);
    var rest := RemoveAt(pool, i);
    forall j | 0 <= j < |rest| ensures Key(rest[j]) != key {
      KeysApart(pool, i, if j < i then j else j + 1);
    }
    QtyAbsent(rest, key);
    QtySplit(pool, i, key);
    AmountIsNatural(pool[i], key);
    SumLaws(At(pool[i], key), ZeroAt(key), ZeroAt(key));
  }

  // ---------------------------------------------------------------------
  // add
  // ---------------------------------------------------------------------

  lemma {:induction false} InsertAdds(pool: seq<Entry>, e: Entry, key: Resource)
    requires AllWellFormed(pool) && NoneEmpty(pool) && WellFormedEntry(e) && !IsEmpty(e)
    ensures AllWellFormed(Insert(pool, e)) && NoneEmpty(Insert(pool, e))
    ensures Qty(Insert(pool, e), key) == Sum(Qty(pool, key), At(e, key))
  {
    hide Sum, Addable, WellFormedEntry, IsEmpty, Key, Amount, Combine;
    AmountIsNatural(e, key);
    if pool == [] {
      SumLaws(At(e, key), ZeroAt(key), ZeroAt(key));
    } else {
      var head, tail := pool[0], pool[1..];
      AmountIsNatural(head, key);
      QtyIsNatural(tail, key);
      SumLaws(At(head, key), Qty(tail, key), At(e, key));
      SumLaws(At(head, key), At(e, key), Qty(tail, key));
      SumLaws(Qty(tail, key), At(e, key), At(head, key));
      if Addable(head.resource, e.resource) {
        CombineAdds(head, e);
        assert ([Combine(head, e)] + tail)[1..] == tail;
      } else {
        InsertAdds(tail, e, key);
        assert ([head] + Insert(tail, e))[1..] == Insert(tail, e);
      }
    }
  }

  /** The keys present after an insertion are those of the pool and of the entry. */
  lemma {:induction false} InsertKeys(pool: seq<Entry>, e: Entry)
    requires AllWellFormed(pool) && NoneEmpty(pool) && WellFormedEntry(e) && !IsEmpty(e)
    ensures |pool| <= |Insert(pool, e)| <= |pool| + 1
    ensures forall i :: 0 <= i < |pool| ==> Key(Insert(pool, e)[i]) == Key(pool[i])
    ensures |Insert(pool, e)| > |pool| ==>
              Insert(pool, e)[|pool|] == e
              && forall i :: 0 <= i < |pool| ==> !Addable(pool[i].resource, e.resource)
  {
    hide Addable, Combine, WellFormedEntry, IsEmpty, Key;
    if pool != [] {
      var head, tail := pool[0], pool[1..];
      if Addable(head.resource, e.resource) {
        CombineAdds(head, e);
        assert Insert(pool, e) == [Combine(head, e)] + tail;
      } else {
        InsertKeys(tail, e);
        assert Insert(pool, e) == [head] + Insert(tail, e);
        assert forall i :: 1 <= i < |pool| ==> pool[i] == tail[i - 1] && Insert(pool, e)[i] == Insert(tail, e)[i - 1];
      }
    }
  }

  lemma AddIsSum(pool: seq<Entry>, e: Entry)
    requires Pool.Valid(pool) && WellFormedEntry(e)
    ensures Pool.Valid(Add(pool, e))
    ensures forall key :: Qty(Add(pool, e), key) == Sum(Qty(pool, key), At(e, key))
  {
    forall key ensures Qty(Add(pool, e), key) == Sum(Qty(pool, key), At(e, key)) {
      if IsEmpty(e) {
        QtyIsNatural(pool, key);
      } else {
        InsertAdds(pool, e, key);
      }
    }
    if !IsEmpty(e) {
      InsertKeys(pool, e);
      InsertAdds(pool, e, e.resource);
      var after := Insert(pool, e);
      forall i, j | 0 <= i < j < |after| ensures !Addable(after[i].resource, after[j].resource) {
        KeysDecide(after[i].resource, after[j].resource);
        if j < |pool| {
          KeysDecide(pool[i].resource, pool[j].resource);
        } else {
          KeysDecide(pool[i].resource, e.resource);
        }
      }
    }
  }

  // ---------------------------------------------------------------------
  // subtract
  // ---------------------------------------------------------------------

  lemma NothingToSubtract(pool: seq<Entry>, e: Entry)
    requires AllWellFormed(pool) && WellFormedEntry(e) && FirstSubtractable(pool, e) == |pool|
    ensures Qty(pool, Key(e)) == ZeroAt(Key(e))
  {
    forall j | 0 <= j < |pool| ensures Key(pool[j]) != Key(e) {
      KeysDecide(pool[j].resource, e.resource);
    }
    QtyAbsent(pool, Key(e));
  }

  /** What changes in the list when an entry is found to subtract from. */
  lemma SubtractSplits(pool: seq<Entry>, e: Entry, key: Resource)
    requires Pool.Valid(pool) && WellFormedEntry(e) && !IsEmpty(e)
    requires FirstSubtractable(pool, e) < |pool|
    ensures var i := FirstSubtractable(pool, e);
            var left := if key == Key(e) then Take(Amount(pool[i]), Amount(e)) else At(pool[i], key);
            && Key(pool[i]) == Key(e)
            && Qty(Subtract(pool, e), key) == Sum(left, Qty(RemoveAt(pool, i), key))
  {
    hide NoTwoAddable, KeyOf, Amount, Sum, Difference, IsNegative;
    var i := FirstSubtractable(pool, e);
    var rest := Difference(pool[i], e);
    KeysDecide(pool[i].resource, e.resource);
    DifferenceTakes(pool[i], e);
    if IsNegative(rest) || IsEmpty(rest) {
      QtySwapRemove(pool, i, key);
      QtyIsNatural(RemoveAt(pool, i), key);
      ZeroIsNeutral(Qty(RemoveAt(pool, i), key), key);
    } else {
      assert RemoveAt(pool[i := rest], i) == RemoveAt(pool, i);
      QtySplit(pool[i := rest], i, key);
    }
  }

  /** Taking from one part is taking from the whole, if the rest is nothing or the
      part has enough. */
  lemma TakeFromPart(a: Quantity, b: Quantity, rest: Quantity)
    requires SameUnit(a, b) && SameUnit(a, rest) && Natural(a) && Natural(b) && Natural(rest)
    requires rest == ZeroOf(a) || (a.Count? && AtMost(b, a))
    ensures Sum(Take(a, b), rest) == Take(Sum(a, rest), b)
  {
  }

  lemma TakeNothing(a: Quantity, zero: Quantity)
    requires SameUnit(a, zero) && Natural(a) && zero == ZeroOf(a)
    ensures Take(a, zero) == a && Take(zero, a) == zero
  {
  }

  /** An exclusive disk is one unit, whatever its size. */
  lemma ExclusiveIsOne(e: Entry)
    requires WellFormedEntry(e) && !IsEmpty(e) && IsUnit(e.resource) && !e.resource.shared
    ensures Amount(e) == Count(1)
  {
  }

  lemma SubtractTakesAt(pool: seq<Entry>, e: Entry, key: Resource)
    requires Pool.Valid(pool) && WellFormedEntry(e)
    ensures Qty(Subtract(pool, e), key) == Take(Qty(pool, key), At(e, key))
  {
    hide NoTwoAddable, WellFormed, KeyOf, Difference, IsNegative, Amount, Sum, Take, Qty, IsUnit;
    QtyIsNatural(pool, key);
    AmountIsNatural(e, key);
    var i := FirstSubtractable(pool, e);
    if IsEmpty(e) || i == |pool| {
      SubtractsNothing(pool, e, key);
    } else {
      SubtractSplits(pool, e, key);
      QtySplit(pool, i, key);
      QtyIsNatural(RemoveAt(pool, i), key);
      AmountIsNatural(pool[i], key);
      KeysDecide(pool[i].resource, e.resource);
      if key != Key(e) {
        TakeNothing(Qty(pool, key), At(e, key));
      } else {
        if pool[i].resource.shared || !IsUnit(pool[i].resource) {
          QtyUnique(pool, i);
        } else {
          ExclusiveIsOne(pool[i]);
          ExclusiveIsOne(e);
        }
        TakeFromPart(Amount(pool[i]), Amount(e), Qty(RemoveAt(pool, i), key));
      }
    }
  }

  lemma SubtractsNothing(pool: seq<Entry>, e: Entry, key: Resource)
    requires Pool.Valid(pool) && WellFormedEntry(e) && (IsEmpty(e) || FirstSubtractable(pool, e) == |pool|)
    ensures Subtract(pool, e) == pool && Qty(pool, key) == Take(Qty(pool, key), At(e, key))
  {
    hide NoTwoAddable, WellFormed, KeyOf, Qty;
    QtyIsNatural(pool, key);
    AmountIsNatural(e, key);
    if !IsEmpty(e) {
      NothingToSubtract(pool, e);
    }
  }

  lemma SubtractKeepsValid(pool: seq<Entry>, e: Entry)
    requires Pool.Valid(pool) && WellFormedEntry(e)
    ensures Pool.Valid(Subtract(pool, e))
  {
    if !IsEmpty(e) && FirstSubtractable(pool, e) < |pool| {
      var i := FirstSubtractable(pool, e);
      var rest := Difference(pool[i], e);
      var after := Subtract(pool, e);
      DifferenceTakes(pool[i], e);
      if IsNegative(rest) || IsEmpty(rest) {
        forall a, b | 0 <= a < b < |after| ensures !Addable(after[a].resource, after[b].resource) {
          var a' := if a == i then |pool| - 1 else a;
          var b' := if b == i then |pool| - 1 else b;
          assert after[a] == pool[a'] && after[b] == pool[b'];
          KeysDecide(pool[a'].resource, pool[b'].resource);
          KeysDecide(pool[b'].resource, pool[a'].resource);
        }
      } else {
        forall a, b | 0 <= a < b < |after| ensures !Addable(after[a].resource, after[b].resource) {
          KeysDecide(after[a].resource, after[b].resource);
          KeysDecide(pool[a].resource, pool[b].resource);
        }
      }
    }
  }

  lemma SubtractIsTake(pool: seq<Entry>, e: Entry)
    requires Pool.Valid(pool) && WellFormedEntry(e)
    ensures Pool.Valid(Subtract(pool, e))
    ensures forall key :: Qty(Subtract(pool, e), key) == Take(Qty(pool, key), At(e, key))
  {
    SubtractKeepsValid(pool, e);
    forall key ensures Qty(Subtract(pool, e), key) == Take(Qty(pool, key), At(e, key)) {
      SubtractTakesAt(pool, e, key);
    }
  }

  // ---------------------------------------------------------------------
  // The order of the entries
  // ---------------------------------------------------------------------

  /** The first entry under a key. */
  predicate IsFirstOf(pool: seq<Entry>, i: nat, key: Resource) {
    i < |pool| && Key(pool[i]) == key && forall j :: 0 <= j < i ==> Key(pool[j]) != key
  }

  /** Adding appends, or adds to the entry of the key where that can be merged, in its place. */
  lemma {:induction false} AddPlaces(pool: seq<Entry>, e: Entry, i: nat)
    requires AllWellFormed(pool) && NoneEmpty(pool) && WellFormedEntry(e) && !IsEmpty(e)
    requires IsFirstOf(pool, i, Key(e)) || (i == |pool| && forall j :: 0 <= j < i ==> Key(pool[j]) != Key(e))
    ensures var after := Add(pool, e);
            if i < |pool| && (e.resource.shared || !IsUnit(e.resource)) then
              && |after| == |pool| && (forall j :: 0 <= j < |pool| && j != i ==> after[j] == pool[j])
              && Key(after[i]) == Key(e) && Amount(after[i]) == Sum(Amount(pool[i]), Amount(e))
            else after == pool + [e]
  {
    hide Addable, KeyOf, Amount, WellFormed, IsEmpty, Combine;
    if pool != [] {
      KeysDecide(pool[0].resource, e.resource);
      if Addable(pool[0].resource, e.resource) {
        CombineAdds(pool[0], e);
      } else if Key(pool[0]) == Key(e) {
        ExclusiveAppends(pool, e);
      } else {
        AddPlaces(pool[1..], e, i - 1);
        assert pool == [pool[0]] + pool[1..];
      }
    }
  }

  lemma {:induction false} ExclusiveAppends(pool: seq<Entry>, e: Entry)
    requires AllWellFormed(pool) && WellFormedEntry(e) && !e.resource.shared && IsUnit(e.resource)
    ensures Insert(pool, e) == pool + [e]
  {
    hide Addable, KeyOf, WellFormed;
    if pool != [] {
      KeysDecide(pool[0].resource, e.resource);
      ExclusiveAppends(pool[1..], e);
      assert pool == [pool[0]] + pool[1..];
    }
  }

  /** Subtracting takes from the first entry of the key, in its place; when nothing is
      left of it, the last entry moves there. */
  lemma SubtractPlaces(pool: seq<Entry>, e: Entry, i: nat)
    requires AllWellFormed(pool) && NoneEmpty(pool) && WellFormedEntry(e) && !IsEmpty(e) && IsFirstOf(pool, i, Key(e))
    ensures var after, left := Subtract(pool, e), Take(Amount(pool[i]), Amount(e));
            if left == ZeroAt(Key(e)) then
              && |after| == |pool| - 1
              && forall j :: 0 <= j < |after| ==> after[j] == if j == i then pool[|pool| - 1] else pool[j]
            else
              && |after| == |pool| && (forall j :: 0 <= j < |pool| && j != i ==> after[j] == pool[j])
              && Key(after[i]) == Key(e) && Amount(after[i]) == left
  {
    hide Subtractable, KeyOf, Amount, WellFormed, IsEmpty, Difference, IsNegative, Take, ZeroAt;
    forall j | 0 <= j <= i ensures Subtractable(pool[j].resource, e.resource) <==> Key(pool[j]) == Key(e) {
      KeysDecide(pool[j].resource, e.resource);
    }
    assert FirstSubtractable(pool, e) == i;
    DifferenceTakes(pool[i], e);
    var rest := Difference(pool[i], e);
    if !(IsNegative(rest) || IsEmpty(rest)) {
      AmountIsNatural(rest, Key(rest));
    }
  }

  /** With nothing under the key, subtracting changes nothing. */
  lemma SubtractNowhere(pool: seq<Entry>, e: Entry)
    requires AllWellFormed(pool) && WellFormedEntry(e) && forall j :: 0 <= j < |pool| ==> Key(pool[j]) != Key(e)
    ensures Subtract(pool, e) == pool
  {
    hide KeyOf, WellFormed, IsEmpty;
    if FirstSubtractable(pool, e) < |pool| {
      KeysDecide(pool[FirstSubtractable(pool, e)].resource, e.resource);
    }
  }

  // ---------------------------------------------------------------------
  // contains
  // ---------------------------------------------------------------------

  /** A pool holds a non-empty entry exactly when it has that much under its key. */
  lemma HoldsMeans(pool: seq<Entry>, e: Entry)
    requires Pool.Valid(pool) && WellFormedEntry(e) && !IsEmpty(e)
    ensures Holds(pool, e) <==> AtMost(Amount(e), Qty(pool, Key(e)))
  {
    var key := Key(e);
    AmountIsNatural(e, key);
    QtyIsNatural(pool, key);
    if Holds(pool, e) {
      var i :| 0 <= i < |pool| && EntryIncludes(pool[i], e);
      EntryIncludesMeans(pool[i], e);
      QtySplit(pool, i, key);
      QtyIsNatural(RemoveAt(pool, i), key);
    } else {
      var i := FirstSubtractable(pool, e);
      if i == |pool| {
        forall j | 0 <= j < |pool| ensures Key(pool[j]) != key {
          KeysDecide(pool[j].resource, e.resource);
        }
        QtyAbsent(pool, key);
        KeyIsFixed(e.resource);
        assert Amount(e) != ZeroAt(key);
      } else {
        KeysDecide(pool[i].resource, e.resource);
        EntryIncludesMeans(pool[i], e);
        assert !EntryIncludes(pool[i], e);
        if pool[i].resource.shared || !IsUnit(pool[i].resource) {
          QtyUnique(pool, i);
        }
      }
    }
  }

  lemma ValidTail(pool: seq<Entry>)
    requires Pool.Valid(pool) && pool != []
    ensures Pool.Valid(pool[1..])
    ensures pool[0].resource.shared || !IsUnit(pool[0].resource) ==>
              Qty(pool[1..], Key(pool[0])) == ZeroAt(Key(pool[0]))
  {
    if pool[0].resource.shared || !IsUnit(pool[0].resource) {
      QtyUnique(pool, 0);
      assert RemoveAt(pool, 0) == pool[1..];
    }
  }

  ghost predicate CoversAll(pool: seq<Entry>, that: seq<Entry>) {
    forall key :: Covers(key, Qty(pool, key), Qty(that, key))
  }

  /** At the head's own key: what the head needs, then what the tail needs. */
  lemma CoversHead(pool: seq<Entry>, that: seq<Entry>)
    requires Pool.Valid(pool) && Pool.Valid(that) && that != []
    requires AtMost(Amount(that[0]), Qty(pool, Key(that[0])))
    ensures var key := Key(that[0]);
            var rest := if IsPersistentVolume(that[0].resource) then Subtract(pool, that[0]) else pool;
            Covers(key, Qty(pool, key), Qty(that, key)) <==> Covers(key, Qty(rest, key), Qty(that[1..], key))
  {
    hide NoTwoAddable, WellFormed, KeyOf, Subtract, IsMount, IsPersistentVolume;
    var e := that[0];
    var key := Key(e);
    ValidTail(that);
    KeyIsFixed(e.resource);
    AmountIsNatural(e, key);
    QtyIsNatural(pool, key);
    QtyIsNatural(that[1..], key);
    if IsPersistentVolume(e.resource) {
      SubtractTakesAt(pool, e, key);
      assert Amount(e).Count?;
    }
  }

  /** At any other key the head asks for nothing. */
  lemma CoversElsewhere(pool: seq<Entry>, that: seq<Entry>, key: Resource)
    requires Pool.Valid(pool) && Pool.Valid(that) && that != [] && key != Key(that[0])
    ensures Qty(that, key) == Qty(that[1..], key)
    ensures Qty(Subtract(pool, that[0]), key) == Qty(pool, key)
  {
    hide NoTwoAddable, WellFormed, KeyOf, Subtract, Sum, Take, Amount, ZeroAt;
    QtyIsNatural(pool, key);
    QtyIsNatural(that[1..], key);
    SubtractTakesAt(pool, that[0], key);
    ZeroIsNeutral(Qty(pool, key), key);
    ZeroIsNeutral(Qty(that[1..], key), key);
  }

  /** `contains` compares the two maps key by key; only for MOUNT disks without
      persistence does it ask no more than that one be there. */
  lemma {:induction false} ContainsMeans(pool: seq<Entry>, that: seq<Entry>)
    requires Pool.Valid(pool) && Pool.Valid(that)
    ensures Contains(pool, that) <==> CoversAll(pool, that)
    decreases that
  {
    if that == [] {
      forall key ensures Covers(key, Qty(pool, key), Qty(that, key)) {
        QtyIsNatural(pool, key);
      }
    } else {
      var e := that[0];
      var key := Key(e);
      HoldsMeans(pool, e);
      ValidTail(that);
      SubtractKeepsValid(pool, e);
      var rest := if IsPersistentVolume(e.resource) then Subtract(pool, e) else pool;
      ContainsMeans(rest, that[1..]);
      if Holds(pool, e) {
        forall k ensures Covers(k, Qty(pool, k), Qty(that, k)) <==> Covers(k, Qty(rest, k), Qty(that[1..], k)) {
          if k == key {
            CoversHead(pool, that);
          } else {
            CoversElsewhere(pool, that, k);
          }
        }
      } else {
        KeyIsFixed(e.resource);
        AmountIsNatural(e, key);
        QtyIsNatural(that[1..], key);
        QtyIsNatural(pool, key);
        assert !Covers(key, Qty(pool, key), Qty(that, key));
      }
    }
  }
}
