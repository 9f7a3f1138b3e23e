/** The value part of `Resources::validate`: the union of scalar, ranges and set
    as it comes in a message, checked and decoded. */
module Decoding {
  import opened Common
  import opened Values
  import C = Coalescing

  type Interval = C.Interval

  datatype WireKind = SCALAR | RANGES | SET | TEXT

  datatype WireValue = WireValue(
    kind: WireKind,
    scalar: Option<int>,
    ranges: Option<seq<Interval>>,
    items: Option<seq<string>>)

  /** What the overlap check looks at: does a later range begin inside this one? */
  predicate BeginsInside(range: Interval, later: Interval) {
    range.start <= later.start <= range.end
  }

  /** The check on ranges accepts the list. */
  predicate RangesAccepted(rs: seq<Interval>) {
    && (forall i :: 0 <= i < |rs| ==> rs[i].start <= rs[i].end)
    && (forall i, j :: 0 <= i < j < |rs| ==> !BeginsInside(rs[i], rs[j]))
  }

  predicate Overlap(a: Interval, b: Interval) {
    a.start <= b.end && b.start <= a.end
  }

  predicate Disjoint(rs: seq<Interval>) {
    forall i, j :: 0 <= i < j < |rs| ==> !Overlap(rs[i], rs[j])
  }

  predicate Ascending(rs: seq<Interval>) {
    forall i, j :: 0 <= i < j < |rs| ==> rs[i].start <= rs[j].start
  }

  method CheckRanges(rs: seq<Interval>) returns (ok: bool)
    ensures ok <==> RangesAccepted(rs)
  {
    for i := 0 to |rs|
      invariant forall k :: 0 <= k < i ==> rs[k].start <= rs[k].end
      invariant forall k, j :: 0 <= k < i && k < j < |rs| ==> !BeginsInside(rs[k], rs[j])
    {
      if rs[i].start > rs[i].end {
        return false;
      }
      for j := i + 1 to |rs|
        invariant forall l :: i < l < j ==> !BeginsInside(rs[i], rs[l])
      {
        if rs[i].start <= rs[j].start && rs[j].start <= rs[i].end {
          assert BeginsInside(rs[i], rs[j]);
          return false;
        }
      }
    }
    return true;
  }

  ghost predicate CoversSome(range: Interval) {
    exists x: nat :: C.Covers([range], x)
  }

  ghost predicate Apart(rs: seq<Interval>) {
    && (forall i :: 0 <= i < |rs| ==> CoversSome(rs[i]))
    && (forall i, j :: 0 <= i < j < |rs| ==> !C.Covers([rs[i]], rs[j].start))
  }

  /** Accepted are just those lists in which every range covers a point and no range
      covers the first point of a later one. */
  lemma AcceptedMeans(rs: seq<Interval>)
    ensures RangesAccepted(rs) <==> Apart(rs)
  {
    if RangesAccepted(rs) {
      forall i | 0 <= i < |rs| ensures CoversSome(rs[i]) {
        CoversAlone(rs[i], rs[i].start);
      }
      forall i, j | 0 <= i < j < |rs| ensures !C.Covers([rs[i]], rs[j].start) {
        CoversAlone(rs[i], rs[j].start);
        assert !BeginsInside(rs[i], rs[j]);
      }
    }
    if Apart(rs) {
      forall i | 0 <= i < |rs| ensures rs[i].start <= rs[i].end {
        assert CoversSome(rs[i]);
        var x: nat :| C.Covers([rs[i]], x);
        CoversAlone(rs[i], x);
      }
      forall i, j | 0 <= i < j < |rs| ensures !BeginsInside(rs[i], rs[j]) {
        CoversAlone(rs[i], rs[j].start);
      }
    }
  }

  lemma CoversAlone(range: Interval, x: nat)
    ensures C.Covers([range], x) <==> range.start <= x <= range.end
  {
    assert [range][0] == range;
  }

  method CheckItems(items: seq<string>) returns (ok: bool)
    ensures ok <==> Distinct(items)
  {
    for i := 0 to |items|
      invariant forall k, j :: 0 <= k < i && k < j < |items| ==> items[k] != items[j]
    {
      for j := i + 1 to |items|
        invariant forall l :: i < l < j ==> items[i] != items[l]
      {
        if items[i] == items[j] {
          return false;
        }
      }
    }
    return true;
  }

  /** A later range that begins before an earlier one and reaches into it. */
  predicate ReachesBack(rs: seq<Interval>) {
    exists i, j :: 0 <= i < j < |rs| && rs[j].start < rs[i].start <= rs[j].end
  }

  /** The check never refuses disjoint ranges, and what it accepts is disjoint
      exactly when no later range reaches back into an earlier one; a list in
      ascending order never does. */
  lemma OverlapCheckIsExact(rs: seq<Interval>)
    requires forall i :: 0 <= i < |rs| ==> rs[i].start <= rs[i].end
    ensures Disjoint(rs) ==> RangesAccepted(rs)
    ensures RangesAccepted(rs) ==> (Disjoint(rs) <==> !ReachesBack(rs))
    ensures Ascending(rs) ==> !ReachesBack(rs) && (RangesAccepted(rs) <==> Disjoint(rs))
  {
    if Disjoint(rs) {
      forall i, j | 0 <= i < j < |rs| ensures !BeginsInside(rs[i], rs[j]) {
        assert !Overlap(rs[i], rs[j]);
      }
    }
    if RangesAccepted(rs) {
      if ReachesBack(rs) {
        var i, j :| 0 <= i < j < |rs| && rs[j].start < rs[i].start <= rs[j].end;
        assert Overlap(rs[i], rs[j]);
      } else {
        forall i, j | 0 <= i < j < |rs| ensures !Overlap(rs[i], rs[j]) {
          assert !BeginsInside(rs[i], rs[j]);
          assert !(rs[j].start < rs[i].start <= rs[j].end);
        }
      }
    }
    if Ascending(rs) {
      assert forall i, j :: 0 <= i < j < |rs| ==> rs[i].start <= rs[j].start;
    }
  }

  /** Overlapping ranges that are accepted, because the second begins first. */
  lemma OverlapAccepted()
    ensures var rs := [C.Interval(5, 10), C.Interval(1, 7)];
            RangesAccepted(rs) && !Disjoint(rs)
  {
    var rs := [C.Interval(5, 10), C.Interval(1, 7)];
    assert Overlap(rs[0], rs[1]);
  }

  ghost function PointsOf(rs: seq<Interval>): set<nat> {
    set x: nat | x < C.TWO_64 && C.Covers(rs, x)
  }

  /** The checks of `validate` on the value fields; the value they stand for. */
  ghost function Decode(w: WireValue): Try<Value> {
    match w.kind
    case SCALAR =>
      if w.scalar.None? || w.ranges.Some? || w.items.Some? || w.scalar.value < 0 then Error
      else Ok(Scalar(w.scalar.value))
    case RANGES =>
      if w.scalar.Some? || w.ranges.None? || w.items.Some? || !RangesAccepted(w.ranges.value) then Error
      else Ok(Ranges(PointsOf(w.ranges.value)))
    case SET =>
      if w.scalar.Some? || w.ranges.Some? || w.items.None? || !Distinct(w.items.value) then Error
      else Ok(Items(w.items.value))
    case TEXT => Error
  }

  /** The branches of `validate` on the value fields. */
  method CheckValue(w: WireValue) returns (ok: bool)
    ensures ok <==> Decode(w).Ok?
  {
    match w.kind
    case SCALAR =>
      return w.scalar.Some? && w.ranges.None? && w.items.None? && w.scalar.value >= 0;
    case RANGES =>
      if w.scalar.Some? || w.ranges.None? || w.items.Some? {
        return false;
      }
      ok := CheckRanges(w.ranges.value);
    case SET =>
      if w.scalar.Some? || w.ranges.Some? || w.items.None? {
        return false;
      }
      ok := CheckItems(w.items.value);
    case TEXT =>
      return false;
  }

  predicate BelowLimit(v: Value) {
    v.Ranges? ==> forall x :: x in v.points ==> x < C.TWO_64
  }

  /** What passes the checks is a well-formed value of 64-bit points, and every such
      value comes from a message that passes them. */
  lemma DecodedValues(v: Value)
    ensures WellFormedValue(v) && BelowLimit(v) <==> exists w :: Decode(w) == Ok(v)
  {
    if w :| Decode(w) == Ok(v) {
      assert WellFormedValue(v) && BelowLimit(v);
    }
    if WellFormedValue(v) && BelowLimit(v) {
      var w := Encoded(v);
    }
  }

  lemma Encoded(v: Value) returns (w: WireValue)
    requires WellFormedValue(v) && BelowLimit(v)
    ensures Decode(w) == Ok(v)
  {
    match v
    case Scalar(n) => w := WireValue(SCALAR, Some(n), None, None);
    case Items(items) => w := WireValue(SET, None, None, Some(items));
    case Ranges(points) =>
      var rs := Singletons(points);
      w := WireValue(RANGES, None, Some(rs), None);
      assert PointsOf(rs) == points;
  }

  lemma {:induction false} Singletons(points: set<nat>) returns (rs: seq<Interval>)
    ensures RangesAccepted(rs)
    ensures forall i :: 0 <= i < |rs| ==> rs[i].start == rs[i].end && rs[i].start in points
    ensures forall x: nat :: C.Covers(rs, x) <==> x in points
  {
    hide RangesAccepted, C.Covers;
    if points == {} {
      rs := [];
      NoRanges();
    } else {
      var p :| p in points;
      var rest := Singletons(points - {p});
      var one := C.Interval(p, p);
      rs := [one] + rest;
      SingletonAccepted(p, rest);
      forall x: nat ensures C.Covers(rs, x) <==> x in points {
        C.CoversCons(one, rest, x);
      }
    }
  }

  lemma NoRanges()
    ensures RangesAccepted([]) && forall x: nat :: !C.Covers([], x)
  {
  }

  lemma SingletonAccepted(p: nat, rest: seq<Interval>)
    requires RangesAccepted(rest) && forall i :: 0 <= i < |rest| ==> rest[i].start != p
    ensures RangesAccepted([C.Interval(p, p)] + rest)
  {
    var all := [C.Interval(p, p)] + rest;
    assert forall i :: 1 <= i < |all| ==> all[i] == rest[i - 1];
    forall i, j | 0 <= i < j < |all| ensures !BeginsInside(all[i], all[j]) {
      if i > 0 {
        assert !BeginsInside(rest[i - 1], rest[j - 1]);
      }
    }
  }

  /** Comparing ranges, which coalesces them first, is comparing the sets of their
      points; for `==`, when the same ranges lie behind the largest number. */
  lemma ComparisonsAreSets(left: seq<Interval>, right: seq<Interval>)
    requires C.AllWellFormed(left) && C.AllWellFormed(right)
    ensures C.EachWithin(C.Coalesced(left), C.Coalesced(right)) <==>
            LessEq(Ranges(PointsOf(left)), Ranges(PointsOf(right)))
    ensures C.EachFound(C.Coalesced(left), C.Coalesced(right)) <==>
            ValueEq(Ranges(PointsOf(left)), Ranges(PointsOf(right)))
            && C.Beyond(C.Coalesced(left)) == C.Beyond(C.Coalesced(right))
  {
    hide C.EachWithin, C.EachFound, C.Layered, PointsOf, C.Covers, C.AllWellFormed, C.Coalesced, C.Beyond, C.Sort,
      C.MaximumIsLast, C.Canonical;
    C.CoalescedIsRight(left);
    C.CoalescedIsRight(right);
    C.WithinMeansSubset(C.Coalesced(left), C.Coalesced(right));
    C.EqualityMeans(left, right);
    SubsetIsSet(left, right);
    SubsetIsSet(right, left);
    assert C.SamePoints(left, right) <==> C.Subset(left, right) && C.Subset(right, left);
    assert C.Subset(C.Coalesced(left), C.Coalesced(right)) <==> C.Subset(left, right);
  }

  /** Adding ranges, which coalesces both lists into one, is union; an empty set of
      points has no interval. */
  lemma UnionIsConcat(left: seq<Interval>, right: seq<Interval>)
    requires C.AllWellFormed(left) && C.AllWellFormed(right)
    ensures Ranges(PointsOf(C.Coalesced(left + right))) == Plus(Ranges(PointsOf(left)), Ranges(PointsOf(right)))
    ensures IsZero(Ranges(PointsOf(left))) <==> left == []
  {
    hide C.Coalesced, C.Layered, C.Canonical, C.MaximumIsLast, C.Sort;
    C.CoalescedIsRight(left + right);
    forall x: nat ensures C.Covers(C.Coalesced(left + right), x) <==> C.Covers(left, x) || C.Covers(right, x) {
      CoversConcat(left, right, x);
      assert C.Covers(C.Coalesced(left + right), x) <==> C.Covers(left + right, x);
    }
    assert PointsOf(C.Coalesced(left + right)) == PointsOf(left) + PointsOf(right);
    if left != [] {
      assert left[0].start <= left[0].start <= left[0].end;
      assert left[0].start in PointsOf(left);
    }
  }

  lemma SubsetIsSet(left: seq<Interval>, right: seq<Interval>)
    requires C.AllWellFormed(left) && C.AllWellFormed(right)
    ensures C.Subset(left, right) <==> PointsOf(left) <= PointsOf(right)
  {
    if PointsOf(left) <= PointsOf(right) {
      forall x: nat | C.Covers(left, x) ensures C.Covers(right, x) {
        assert x in PointsOf(left);
        assert x in PointsOf(right);
      }
    }
  }

  lemma CoversConcat(left: seq<Interval>, right: seq<Interval>, x: nat)
    ensures C.Covers(left + right, x) <==> C.Covers(left, x) || C.Covers(right, x)
  {
    var all := left + right;
    if i :| 0 <= i < |left| && left[i].start <= x <= left[i].end {
      assert all[i] == left[i];
    }
    if i :| 0 <= i < |right| && right[i].start <= x <= right[i].end {
      assert all[|left| + i] == right[i];
    }
    if i :| 0 <= i < |all| && all[i].start <= x <= all[i].end {
      assert i < |left| ==> all[i] == left[i];
      assert i >= |left| ==> all[i] == right[i - |left|];
    }
  }
}
