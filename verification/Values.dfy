/** Values of a resource and the operators `+=`, `-=`, `<=` and `==` on them.

    Scalars are held in thousandths, the fixed-point form every scalar operator
    converts to.  Ranges are the set of points they cover (module Coalescing
    proves that the interval lists of the program behave as those sets).  Sets
    are kept as item lists, because the program's `==` on sets compares them
    position by position. */
module Values {

  datatype Value =
    | Scalar(milli: int)
    | Ranges(points: set<nat>)
    | Items(items: seq<string>)

  predicate SameKind(left: Value, right: Value) {
    left.Scalar? == right.Scalar? && left.Ranges? == right.Ranges?
  }

  predicate Distinct(items: seq<string>) {
    forall i, j :: 0 <= i < j < |items| ==> items[i] != items[j]
  }

  predicate WellFormedValue(v: Value) {
    match v
    case Scalar(n) => n >= 0
    case Ranges(_) => true
    case Items(items) => Distinct(items)
  }

  /** `operator+=` on sets: append the items not yet present. */
  function AppendMissing(left: seq<string>, right: seq<string>): seq<string>
    decreases right
  {
    if right == [] then left
    else AppendMissing(if right[0] in left then left else left + [right[0]], right[1..])
  }

  /** Delete the first occurrence of an item. */
  function RemoveFirst(left: seq<string>, item: string): seq<string> {
    if left == [] then []
    else if left[0] == item then left[1..]
    else [left[0]] + RemoveFirst(left[1..], item)
  }

  /** `operator-=` on sets: delete each right item from the left list once. */
  function RemoveEach(left: seq<string>, right: seq<string>): seq<string>
    decreases right
  {
    if right == [] then left else RemoveEach(RemoveFirst(left, right[0]), right[1..])
  }

  function Plus(left: Value, right: Value): Value {
    match (left, right)
    case (Scalar(a), Scalar(b)) => Scalar(a + b)
    case (Ranges(a), Ranges(b)) => Ranges(a + b)
    case (Items(a), Items(b)) => Items(AppendMissing(a, b))
    case _ => left
  }

  function Minus(left: Value, right: Value): Value {
    match (left, right)
    case (Scalar(a), Scalar(b)) => Scalar(a - b)
    case (Ranges(a), Ranges(b)) => Ranges(a - b)
    case (Items(a), Items(b)) => Items(RemoveEach(a, b))
    case _ => left
  }

  predicate LessEq(left: Value, right: Value) {
    match (left, right)
    case (Scalar(a), Scalar(b)) => a <= b
    case (Ranges(a), Ranges(b)) => a <= b
    case (Items(a), Items(b)) => |a| <= |b| && forall i :: 0 <= i < |a| ==> a[i] in b
    case _ => false
  }

  /** `operator==` on sets: its search over `j` compares `left.item(i)` with
      `right.item(i)` every time, so item `i` is found only at position `i`. */
  predicate SameItems(left: seq<string>, right: seq<string>) {
    |left| == |right| && forall i :: 0 <= i < |left| ==> left[i] == right[i]
  }

  predicate ValueEq(left: Value, right: Value) {
    match (left, right)
    case (Scalar(a), Scalar(b)) => a == b
    case (Ranges(a), Ranges(b)) => a == b
    case (Items(a), Items(b)) => SameItems(a, b)
    case _ => false
  }

  predicate IsZero(v: Value) {
    match v
    case Scalar(n) => n == 0
    case Ranges(p) => p == {}
    case Items(s) => s == []
  }

  function ZeroLike(v: Value): Value {
    match v
    case Scalar(_) => Scalar(0)
    case Ranges(_) => Ranges({})
    case Items(_) => Items([])
  }

  // ---------------------------------------------------------------------
  // Quantities: what a value amounts to, whatever its representation.
  // ---------------------------------------------------------------------

  datatype Quantity =
    | Count(n: int)
    | Points(points: set<nat>)
    | Names(names: set<string>)

  predicate SameUnit(q: Quantity, r: Quantity) {
    q.Count? == r.Count? && q.Points? == r.Points?
  }

  predicate Natural(q: Quantity) {
    q.Count? ==> q.n >= 0
  }

  function Sum(q: Quantity, r: Quantity): Quantity {
    match (q, r)
    case (Count(a), Count(b)) => Count(a + b)
    case (Points(a), Points(b)) => Points(a + b)
    case (Names(a), Names(b)) => Names(a + b)
    case _ => q
  }

  /** Truncated difference. */
  function Take(q: Quantity, r: Quantity): Quantity {
    match (q, r)
    case (Count(a), Count(b)) => Count(if a <= b then 0 else a - b)
    case (Points(a), Points(b)) => Points(a - b)
    case (Names(a), Names(b)) => Names(a - b)
    case _ => q
  }

  predicate AtMost(q: Quantity, r: Quantity) {
    match (q, r)
    case (Count(a), Count(b)) => a <= b
    case (Points(a), Points(b)) => a <= b
    case (Names(a), Names(b)) => a <= b
    case _ => false
  }

  /** Nothing of `q` is already in `r`; always true of counts, which simply add up. */
  predicate Fresh(q: Quantity, r: Quantity) {
    match (q, r)
    case (Count(a), Count(b)) => true
    case (Points(a), Points(b)) => a !! b
    case (Names(a), Names(b)) => a !! b
    case _ => true
  }

  function ZeroOf(q: Quantity): Quantity {
    match q
    case Count(_) => Count(0)
    case Points(_) => Points({})
    case Names(_) => Names({})
  }

  ghost function ItemSet(items: seq<string>): set<string> {
    set x | x in items
  }

  ghost function Measure(v: Value): Quantity {
    match v
    case Scalar(n) => Count(n)
    case Ranges(p) => Points(p)
    case Items(s) => Names(ItemSet(s))
  }

  /** `+=` on sets is union, and makes no duplicates. */
  lemma {:induction false} AppendMissingMeans(left: seq<string>, right: seq<string>)
    ensures ItemSet(AppendMissing(left, right)) == ItemSet(left) + ItemSet(right)
    ensures Distinct(left) <==> Distinct(AppendMissing(left, right))
    decreases right
  {
    if right != [] {
      var next := if right[0] in left then left else left + [right[0]];
      assert ItemSet(right) == {right[0]} + ItemSet(right[1..]) by {
        assert right == [right[0]] + right[1..];
      }
      assert Distinct(next) ==> Distinct(left) by {
        assert forall i :: 0 <= i < |left| ==> next[i] == left[i];
      }
      AppendMissingMeans(next, right[1..]);
    }
  }

  lemma {:induction false} RemoveFirstMeans(left: seq<string>, item: string)
    ensures multiset(RemoveFirst(left, item)) == multiset(left) - multiset{item}
  {
    if left != [] {
      assert left == [left[0]] + left[1..];
      RemoveFirstMeans(left[1..], item);
    }
  }

  /** `-=` on sets takes away one occurrence for each right item, so it is
      difference of sets when the left list has no duplicates. */
  lemma {:induction false} RemoveEachMeans(left: seq<string>, right: seq<string>)
    ensures multiset(RemoveEach(left, right)) == multiset(left) - multiset(right)
    ensures Distinct(left) ==> Distinct(RemoveEach(left, right))
    ensures Distinct(left) ==> ItemSet(RemoveEach(left, right)) == ItemSet(left) - ItemSet(right)
    decreases right
  {
    if right != [] {
      var next := RemoveFirst(left, right[0]);
      RemoveFirstMeans(left, right[0]);
      assert right == [right[0]] + right[1..];
      RemoveEachMeans(next, right[1..]);
    }
    SingleOccurrences(left, right, RemoveEach(left, right));
  }

  lemma SingleOccurrences(left: seq<string>, right: seq<string>, rest: seq<string>)
    requires multiset(rest) == multiset(left) - multiset(right)
    ensures Distinct(left) ==> Distinct(rest) && ItemSet(rest) == ItemSet(left) - ItemSet(right)
  {
    if Distinct(left) {
      DistinctCounts(left);
      CountsDistinct(rest);
      forall x ensures x in ItemSet(rest) <==> x in ItemSet(left) - ItemSet(right) {
        assert x in rest <==> x in multiset(rest);
        assert x in left <==> x in multiset(left);
        assert x in right <==> x in multiset(right);
      }
    }
  }

  lemma {:induction false} DistinctCounts(s: seq<string>)
    requires Distinct(s)
    ensures forall x :: multiset(s)[x] <= 1
  {
    if s != [] {
      assert s == [s[0]] + s[1..];
      DistinctCounts(s[1..]);
      assert s[0] !in s[1..];
      assert multiset(s[1..])[s[0]] == 0;
    }
  }

  lemma {:induction false} CountsDistinct(s: seq<string>)
    requires forall x :: multiset(s)[x] <= 1
    ensures Distinct(s)
  {
    if s != [] {
      var tail := s[1..];
      assert s == [s[0]] + tail;
      forall x ensures multiset(s)[x] == multiset{s[0]}[x] + multiset(tail)[x] {
        assert multiset(s) == multiset{s[0]} + multiset(tail);
      }
      CountsDistinct(tail);
      assert multiset(s)[s[0]] <= 1;
      assert s[0] !in multiset(tail);
      forall i, j | 0 <= i < j < |s| ensures s[i] != s[j] {
        assert s[j] == s[1..][j - 1];
      }
    }
  }

  /** A duplicate-free list is never longer than a list holding all its items. */
  lemma {:induction false} DistinctIsShorter(left: seq<string>, right: seq<string>)
    requires Distinct(left) && ItemSet(left) <= ItemSet(right)
    ensures |left| <= |right|
    decreases left
  {
    if left != [] {
      var x := left[0];
      assert x in ItemSet(left);
      var i :| 0 <= i < |right| && right[i] == x;
      var without := right[..i] + right[i + 1..];
      forall y | y in left[1..] ensures y in without {
        assert y in ItemSet(left);
        var j :| 0 <= j < |right| && right[j] == y;
        assert y != x;
        assert y == if j < i then without[j] else without[j - 1];
      }
      DistinctIsShorter(left[1..], without);
    }
  }

  /** The operators on values compute sum, difference and inclusion of quantities. */
  lemma OperatorsMeasure(left: Value, right: Value)
    requires WellFormedValue(left) && WellFormedValue(right) && SameKind(left, right)
    ensures WellFormedValue(Plus(left, right)) && SameKind(Plus(left, right), left)
    ensures Measure(Plus(left, right)) == Sum(Measure(left), Measure(right))
    ensures SameKind(Minus(left, right), left)
    ensures left.Scalar? || WellFormedValue(Minus(left, right))
    ensures left.Scalar? || Measure(Minus(left, right)) == Take(Measure(left), Measure(right))
    ensures left.Scalar? ==> Minus(left, right) == Scalar(left.milli - right.milli)
                             && Take(Measure(left), Measure(right)) ==
                                  Count(if left.milli <= right.milli then 0 else Minus(left, right).milli)
    ensures LessEq(left, right) <==> AtMost(Measure(left), Measure(right))
    ensures IsZero(left) <==> Measure(left) == ZeroOf(Measure(left))
  {
    if left.Items? {
      AppendMissingMeans(left.items, right.items);
      RemoveEachMeans(left.items, right.items);
      if ItemSet(left.items) <= ItemSet(right.items) {
        DistinctIsShorter(left.items, right.items);
        forall i | 0 <= i < |left.items| ensures left.items[i] in right.items {
          assert left.items[i] in ItemSet(left.items);
        }
      }
      if left.items != [] {
        assert left.items[0] in ItemSet(left.items);
      }
    }
  }

  /** Value equality is equality of the lists, not of the sets they stand for. */
  lemma ValueEqIsIdentity(left: Value, right: Value)
    ensures ValueEq(left, right) <==> left == right
  {
  }

  /** Addition of quantities of one unit is a commutative monoid. */
  lemma SumLaws(a: Quantity, b: Quantity, c: Quantity)
    requires SameUnit(a, b) && SameUnit(b, c)
    ensures Sum(a, b) == Sum(b, a)
    ensures Sum(Sum(a, b), c) == Sum(a, Sum(b, c))
    ensures Sum(a, ZeroOf(a)) == a && Sum(ZeroOf(a), a) == a
    ensures SameUnit(Sum(a, b), a)
  {
  }

  /** Subtracting in two steps is subtracting the sum; what fits can be put back. */
  lemma TakeLaws(a: Quantity, b: Quantity, c: Quantity)
    requires SameUnit(a, b) && SameUnit(b, c)
    requires Natural(a) && Natural(b) && Natural(c)
    ensures Take(Take(a, b), c) == Take(a, Sum(b, c))
    ensures AtMost(b, a) ==> Sum(Take(a, b), b) == a
    ensures AtMost(Sum(b, c), a) ==> AtMost(b, a) && AtMost(c, a)
    ensures Take(Sum(a, b), b) == a <==> Fresh(b, a)
    ensures Natural(Take(a, b)) && SameUnit(Take(a, b), a)
  {
  }
}
