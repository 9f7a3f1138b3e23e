/** The algebra of pools: `+`, `-`, `contains` and `==` on whole pools. */
module PoolLaws {
  import opened Values
  import opened ResourceModel
  import opened Pool
  import opened PoolMap

  lemma {:induction false} AddAllIsSum(pool: seq<Entry>, that: seq<Entry>)
    requires Pool.Valid(pool) && AllWellFormed(that)
    ensures Pool.Valid(AddAll(pool, that))
    ensures forall key :: Qty(AddAll(pool, that), key) == Sum(Qty(pool, key), Qty(that, key))
    decreases that
  {
    if that != [] {
      AddIsSum(pool, that[0]);
      AddAllIsSum(Add(pool, that[0]), that[1..]);
    }
    forall key ensures Qty(AddAll(pool, that), key) == Sum(Qty(pool, key), Qty(that, key)) {
      QtyIsNatural(pool, key);
      if that == [] {
        ZeroIsNeutral(Qty(pool, key), key);
      } else {
        AmountIsNatural(that[0], key);
        QtyIsNatural(that[1..], key);
        SumLaws(Qty(pool, key), At(that[0], key), Qty(that[1..], key));
      }
    }
  }

  lemma {:induction false} SubtractAllIsTake(pool: seq<Entry>, that: seq<Entry>)
    requires Pool.Valid(pool) && AllWellFormed(that)
    ensures Pool.Valid(SubtractAll(pool, that))
    ensures forall key :: Qty(SubtractAll(pool, that), key) == Take(Qty(pool, key), Qty(that, key))
    decreases that
  {
    if that != [] {
      SubtractIsTake(pool, that[0]);
      SubtractAllIsTake(Subtract(pool, that[0]), that[1..]);
    }
    forall key ensures Qty(SubtractAll(pool, that), key) == Take(Qty(pool, key), Qty(that, key)) {
      QtyIsNatural(pool, key);
      if that == [] {
        ZeroIsNeutral(Qty(pool, key), key);
      } else {
        AmountIsNatural(that[0], key);
        QtyIsNatural(that[1..], key);
        TakeLaws(Qty(pool, key), At(that[0], key), Qty(that[1..], key));
      }
    }
  }

  /** What `==` compares at one key. */
  ghost predicate Agrees(key: Resource, q: Quantity, r: Quantity) {
    if IsUncounted(key) then q == Count(0) <==> r == Count(0) else q == r
  }

  ghost predicate AgreeAll(left: seq<Entry>, right: seq<Entry>) {
    forall key :: Agrees(key, Qty(left, key), Qty(right, key))
  }

  lemma CoversBothWays(left: seq<Entry>, right: seq<Entry>, key: Resource)
    requires AllWellFormed(left) && AllWellFormed(right)
    ensures Covers(key, Qty(left, key), Qty(right, key)) && Covers(key, Qty(right, key), Qty(left, key))
            <==> Agrees(key, Qty(left, key), Qty(right, key))
  {
    hide Qty, WellFormedEntry;
    QtyIsNatural(left, key);
    QtyIsNatural(right, key);
  }

  /** `==` is agreement of the two maps, up to the number of equal MOUNT disks. */
  lemma PoolEqMeans(left: seq<Entry>, right: seq<Entry>)
    requires Pool.Valid(left) && Pool.Valid(right)
    ensures PoolEq(left, right) <==> AgreeAll(left, right)
  {
    hide Qty, Contains, Covers, Agrees, NoTwoAddable, WellFormedEntry, NoneEmpty;
    ContainsMeans(left, right);
    ContainsMeans(right, left);
    forall key
      ensures Covers(key, Qty(left, key), Qty(right, key)) && Covers(key, Qty(right, key), Qty(left, key))
              <==> Agrees(key, Qty(left, key), Qty(right, key))
    {
      CoversBothWays(left, right, key);
    }
  }

  /** No MOUNT disk without persistence is in the pool twice. */
  ghost predicate NoTwinMounts(pool: seq<Entry>) {
    forall key :: IsUncounted(key) ==> AtMost(Qty(pool, key), Count(1))
  }

  /** RemoveAt twin MOUNT disks, `==` is equality of the maps. */
  lemma PoolEqIsSameMap(left: seq<Entry>, right: seq<Entry>)
    requires Pool.Valid(left) && Pool.Valid(right)
    requires NoTwinMounts(left) && NoTwinMounts(right)
    ensures PoolEq(left, right) <==> SameMap(left, right)
  {
    hide Qty, Contains, NoTwoAddable, WellFormedEntry, NoneEmpty, IsUncounted;
    PoolEqMeans(left, right);
    if AgreeAll(left, right) {
      forall key ensures Qty(left, key) == Qty(right, key) {
        assert Agrees(key, Qty(left, key), Qty(right, key));
        QtyIsNatural(left, key);
        QtyIsNatural(right, key);
        assert IsUncounted(key) ==> AtMost(Qty(left, key), Count(1)) && AtMost(Qty(right, key), Count(1));
      }
    }
  }

  lemma SameMapIsEq(left: seq<Entry>, right: seq<Entry>)
    requires Pool.Valid(left) && Pool.Valid(right) && SameMap(left, right)
    ensures PoolEq(left, right)
  {
    PoolEqMeans(left, right);
  }

  lemma OneAndTwo(e: Entry, two: seq<Entry>, key: Resource)
    requires WellFormedEntry(e) && |two| == 2 && two[0] == e && two[1] == e
    ensures Qty(two[1..], key) == At(e, key)
    ensures Qty(two, key) == Sum(At(e, key), At(e, key))
  {
    hide WellFormedEntry, Amount, Key;
    AmountIsNatural(e, key);
    ZeroIsNeutral(At(e, key), key);
    assert two[1..][1..] == [];
  }

  /** With twin MOUNT disks it is not: one disk and two equal disks compare equal,
      though the second holds twice as many. */
  lemma TwinMountsCompareEqual(e: Entry, two: seq<Entry>)
    requires WellFormedEntry(e) && !IsEmpty(e) && IsUncounted(e.resource)
    requires |two| == 2 && two[0] == e && two[1] == e
    ensures Pool.Valid(two) && Pool.Valid(two[1..])
    ensures PoolEq(two[1..], two) && !SameMap(two[1..], two)
  {
    var one := two[1..];
    KeyIsFixed(e.resource);
    assert !Addable(e.resource, e.resource) && Amount(e) == Count(1) && IsUncounted(Key(e));
    assert Pool.Valid(one) && Pool.Valid(two);
    assert PoolEq(one, two) by {
      PoolEqMeans(one, two);
      forall key ensures Agrees(key, Qty(one, key), Qty(two, key)) {
        hide Contains, WellFormed, NoTwoAddable, Qty, KeyOf, IsUncounted, Amount;
        OneAndTwo(e, two, key);
        AmountIsNatural(e, key);
        ZeroIsNeutral(At(e, key), key);
      }
    }
    OneAndTwo(e, two, Key(e));
    assert Qty(one, Key(e)) != Qty(two, Key(e));
  }

  // ---------------------------------------------------------------------
  // Laws
  // ---------------------------------------------------------------------

  lemma ContainsReflexive(pool: seq<Entry>)
    requires Pool.Valid(pool)
    ensures Contains(pool, pool)
  {
    ContainsMeans(pool, pool);
    forall key ensures Covers(key, Qty(pool, key), Qty(pool, key)) {
      QtyIsNatural(pool, key);
    }
  }

  lemma ContainsTransitive(a: seq<Entry>, b: seq<Entry>, c: seq<Entry>)
    requires Pool.Valid(a) && Pool.Valid(b) && Pool.Valid(c)
    requires Contains(a, b) && Contains(b, c)
    ensures Contains(a, c)
  {
    ContainsMeans(a, b);
    ContainsMeans(b, c);
    ContainsMeans(a, c);
    forall key ensures Covers(key, Qty(a, key), Qty(c, key)) {
      assert Covers(key, Qty(a, key), Qty(b, key)) && Covers(key, Qty(b, key), Qty(c, key));
      QtyIsNatural(a, key);
      QtyIsNatural(b, key);
      QtyIsNatural(c, key);
    }
  }

  lemma AdditionCommutes(a: seq<Entry>, b: seq<Entry>)
    requires Pool.Valid(a) && Pool.Valid(b)
    ensures PoolEq(AddAll(a, b), AddAll(b, a))
  {
    AddAllIsSum(a, b);
    AddAllIsSum(b, a);
    forall key ensures Qty(AddAll(a, b), key) == Qty(AddAll(b, a), key) {
      QtyIsNatural(a, key);
      QtyIsNatural(b, key);
      SumLaws(Qty(a, key), Qty(b, key), Qty(b, key));
    }
    SameMapIsEq(AddAll(a, b), AddAll(b, a));
  }

  lemma AdditionAssociates(a: seq<Entry>, b: seq<Entry>, c: seq<Entry>)
    requires Pool.Valid(a) && Pool.Valid(b) && Pool.Valid(c)
    ensures PoolEq(AddAll(AddAll(a, b), c), AddAll(a, AddAll(b, c)))
  {
    AddAllIsSum(a, b);
    AddAllIsSum(AddAll(a, b), c);
    AddAllIsSum(b, c);
    AddAllIsSum(a, AddAll(b, c));
    forall key ensures Qty(AddAll(AddAll(a, b), c), key) == Qty(AddAll(a, AddAll(b, c)), key) {
      QtyIsNatural(a, key);
      QtyIsNatural(b, key);
      QtyIsNatural(c, key);
      SumLaws(Qty(a, key), Qty(b, key), Qty(c, key));
    }
    SameMapIsEq(AddAll(AddAll(a, b), c), AddAll(a, AddAll(b, c)));
  }

  /** What a pool contains can be taken out and put back. */
  lemma SubtractThenAdd(a: seq<Entry>, b: seq<Entry>)
    requires Pool.Valid(a) && Pool.Valid(b) && Contains(a, b)
    ensures PoolEq(AddAll(SubtractAll(a, b), b), a)
  {
    SubtractAllIsTake(a, b);
    AddAllIsSum(SubtractAll(a, b), b);
    ContainsMeans(a, b);
    PoolEqMeans(AddAll(SubtractAll(a, b), b), a);
    forall key ensures Agrees(key, Qty(AddAll(SubtractAll(a, b), b), key), Qty(a, key)) {
      assert Covers(key, Qty(a, key), Qty(b, key));
      QtyIsNatural(a, key);
      QtyIsNatural(b, key);
      TakeLaws(Qty(a, key), Qty(b, key), Qty(b, key));
    }
  }
}
