/** Ranges as lists of intervals: `coalesce`, and the comparisons built on it.
    This is what justifies treating ranges as sets of points. */
module Coalescing {
  const TWO_64: nat := 0x1_0000_0000_0000_0000

  /** An interval of 64-bit numbers, both ends included. */
  datatype Interval = Interval(start: nat, end: nat)

  predicate WellFormed(r: Interval) {
    r.start <= r.end < TWO_64
  }

  predicate AllWellFormed(rs: seq<Interval>) {
    forall i :: 0 <= i < |rs| ==> WellFormed(rs[i])
  }

  ghost predicate Covers(rs: seq<Interval>, x: nat) {
    exists i :: 0 <= i < |rs| && rs[i].start <= x <= rs[i].end
  }

  ghost predicate SamePoints(left: seq<Interval>, right: seq<Interval>) {
    forall x: nat :: Covers(left, x) <==> Covers(right, x)
  }

  /** Order of `std::tie(start, end)`. */
  predicate Before(left: Interval, right: Interval) {
    left.start < right.start || (left.start == right.start && left.end <= right.end)
  }

  predicate Sorted(rs: seq<Interval>) {
    forall i, j :: 0 <= i < j < |rs| ==> Before(rs[i], rs[j])
  }

  /** Ascending, with at least one point missing between neighbours. */
  predicate Canonical(rs: seq<Interval>) {
    forall i, j :: 0 <= i < j < |rs| ==> rs[i].end + 1 < rs[j].start
  }

  // ---------------------------------------------------------------------
  // Sorting
  // ---------------------------------------------------------------------

  function InsertSorted(rs: seq<Interval>, r: Interval): seq<Interval> {
    if rs == [] then [r]
    else if Before(r, rs[0]) then [r] + rs
    else [rs[0]] + InsertSorted(rs[1..], r)
  }

  /** What `std::sort` leaves: a sorted permutation. */
  function Sort(rs: seq<Interval>): seq<Interval> {
    if rs == [] then [] else InsertSorted(Sort(rs[1..]), rs[0])
  }

  lemma {:induction false} InsertSortedSorts(rs: seq<Interval>, r: Interval)
    requires Sorted(rs)
    ensures Sorted(InsertSorted(rs, r)) && multiset(InsertSorted(rs, r)) == multiset(rs) + multiset{r}
  {
    if rs != [] && !Before(r, rs[0]) {
      InsertSortedSorts(rs[1..], r);
      var tail := InsertSorted(rs[1..], r);
      assert rs == [rs[0]] + rs[1..];
      forall j | 0 <= j < |tail| ensures Before(rs[0], tail[j]) {
        assert tail[j] in multiset(tail);
        if tail[j] != r {
          assert tail[j] in multiset(rs[1..]);
          var k :| 0 <= k < |rs[1..]| && rs[1..][k] == tail[j];
          assert rs[k + 1] == tail[j];
        }
      }
    }
  }

  lemma {:induction false} SortSorts(rs: seq<Interval>)
    ensures Sorted(Sort(rs)) && multiset(Sort(rs)) == multiset(rs)
  {
    if rs != [] {
      SortSorts(rs[1..]);
      InsertSortedSorts(Sort(rs[1..]), rs[0]);
      assert rs == [rs[0]] + rs[1..];
    }
  }

  lemma SortKeepsMembers(rs: seq<Interval>)
    ensures |Sort(rs)| == |rs|
    ensures forall r :: r in Sort(rs) <==> r in rs
  {
    SortSorts(rs);
    assert |multiset(Sort(rs))| == |multiset(rs)|;
    forall r ensures r in Sort(rs) <==> r in rs {
      assert r in Sort(rs) <==> r in multiset(Sort(rs));
      assert r in rs <==> r in multiset(rs);
    }
  }

  lemma SameMembersSamePoints(left: seq<Interval>, right: seq<Interval>)
    requires forall r :: r in left <==> r in right
    ensures SamePoints(left, right)
  {
    forall x: nat ensures Covers(left, x) <==> Covers(right, x) {
      if i :| 0 <= i < |left| && left[i].start <= x <= left[i].end {
        assert left[i] in right;
      }
      if i :| 0 <= i < |right| && right[i].start <= x <= right[i].end {
        assert right[i] in left;
      }
    }
  }

  // ---------------------------------------------------------------------
  // The single pass over the sorted intervals
  // ---------------------------------------------------------------------

  function Longer(a: Interval, b: Interval): Interval {
    a.(end := if a.end >= b.end then a.end else b.end)
  }

  /** The finished intervals, given the current one and those still to be read.
      The addition `current.end + 1` is a 64-bit one. */
  function Pass(current: Interval, rest: seq<Interval>): (out: seq<Interval>)
    ensures out != []
    decreases rest
  {
    if rest == [] then [current]
    else
      var range := rest[0];
      if range == current then Pass(current, rest[1..])
      else if range.start == current.start && range.end > current.end then Pass(Longer(current, range), rest[1..])
      else if range.start > current.start then
        if range.start <= (current.end + 1) % TWO_64 then Pass(Longer(current, range), rest[1..])
        else [current] + Pass(range, rest[1..])
      else Pass(current, rest[1..])
  }

  lemma CoversCons(r: Interval, rs: seq<Interval>, x: nat)
    ensures Covers([r] + rs, x) <==> r.start <= x <= r.end || Covers(rs, x)
  {
    var all := [r] + rs;
    assert all[0] == r;
    if i :| 0 <= i < |all| && all[i].start <= x <= all[i].end {
      assert i > 0 ==> all[i] == rs[i - 1];
    }
    if i :| 0 <= i < |rs| && rs[i].start <= x <= rs[i].end {
      assert all[i + 1] == rs[i];
    }
  }

  /** The pass covers the same points as its inputs. */
  lemma {:induction false} PassKeepsPoints(current: Interval, rest: seq<Interval>)
    requires WellFormed(current) && AllWellFormed(rest) && Sorted(rest)
    requires rest != [] ==> current.start <= rest[0].start
    ensures AllWellFormed(Pass(current, rest))
    ensures SamePoints(Pass(current, rest), [current] + rest)
    decreases rest
  {
    if rest != [] {
      var range, tail := rest[0], rest[1..];
      var grown := Longer(current, range);
      assert tail != [] ==> Before(rest[0], rest[1]);
      if range.start > current.start && range.start > (current.end + 1) % TWO_64 {
        PassKeepsPoints(range, tail);
        assert [range] + tail == rest;
        forall x: nat ensures Covers(Pass(current, rest), x) <==> Covers([current] + rest, x) {
          CoversCons(current, Pass(range, tail), x);
          CoversCons(current, rest, x);
        }
      } else {
        PassKeepsPoints(grown, tail);
        assert Pass(current, rest) == Pass(grown, tail);
        forall x: nat ensures Covers([grown] + tail, x) <==> Covers([current] + rest, x) {
          assert rest == [range] + tail;
          CoversCons(grown, tail, x);
          CoversCons(current, rest, x);
          CoversCons(range, tail, x);
        }
      }
    } else {
      assert [current] + rest == [current];
    }
  }

  predicate AtMaximum(r: Interval) {
    r.end + 1 == TWO_64
  }

  /** An interval that starts before `x` and reaches up to it. */
  predicate ReachesUpTo(r: Interval, x: nat) {
    r.start < x <= r.end + 1
  }

  ghost predicate Joined(rs: seq<Interval>, k: nat, x: nat)
    requires k <= |rs|
  {
    exists i :: 0 <= i < k && ReachesUpTo(rs[i], x)
  }

  /** In sorted intervals, one that ends at the largest number is followed only by
      its own copies, and then no earlier one reaches up to it. */
  ghost predicate SafeAt(rs: seq<Interval>, k: nat)
    requires k < |rs|
  {
    AtMaximum(rs[k]) && k + 1 < |rs| ==> rs[k + 1].start == rs[k].start && !Joined(rs, k, rs[k].start)
  }

  ghost predicate MaximumIsLast(rs: seq<Interval>) {
    forall k :: 0 <= k < |rs| ==> SafeAt(rs, k)
  }

  lemma JoinedCons(r: Interval, rs: seq<Interval>, k: nat, x: nat)
    requires k <= |rs|
    ensures Joined([r] + rs, k + 1, x) <==> ReachesUpTo(r, x) || Joined(rs, k, x)
  {
    var all := [r] + rs;
    assert all[0] == r;
    if i :| 0 <= i < k + 1 && ReachesUpTo(all[i], x) {
      assert i > 0 ==> all[i] == rs[i - 1];
    }
    if i :| 0 <= i < k && ReachesUpTo(rs[i], x) {
      assert all[i + 1] == rs[i];
    }
  }

  /** Two neighbours that touch may be replaced by their union. */
  lemma MergedIsAsSafe(c: Interval, r: Interval, t: seq<Interval>)
    requires WellFormed(c) && WellFormed(r) && AllWellFormed(t) && Sorted([c, r] + t)
    requires c == r || (c.start <= r.start <= c.end + 1 && !AtMaximum(c))
    ensures MaximumIsLast([c, r] + t) <==> MaximumIsLast([Longer(c, r)] + t)
  {
    var g := Longer(c, r);
    var all, merged := [c, r] + t, [g] + t;
    assert all == [c] + ([r] + t);
    assert all[0] == c && all[1] == r && merged[0] == g;
    forall k | 1 <= k < |merged| ensures SafeAt(all, k + 1) <==> SafeAt(merged, k) {
      MergedElsewhere(c, r, t, k);
    }
    JoinedCons(c, [r] + t, 0, r.start);
    assert SafeAt(all, 0) && SafeAt(all, 1) <==> SafeAt(merged, 0) by {
      assert t != [] ==> all[2] == t[0] && merged[1] == t[0] && Before(all[1], all[2]);
      assert Before(all[0], all[1]);
    }
    if MaximumIsLast(all) {
      forall k | 0 <= k < |merged| ensures SafeAt(merged, k) {
        assert SafeAt(all, k + 1) && SafeAt(all, 0);
      }
    }
    if MaximumIsLast(merged) {
      forall k | 0 <= k < |all| ensures SafeAt(all, k) {
        assert SafeAt(merged, if k == 0 then 0 else k - 1);
      }
    }
  }

  lemma MergedElsewhere(c: Interval, r: Interval, t: seq<Interval>, k: nat)
    requires WellFormed(c) && WellFormed(r) && Sorted([c, r] + t) && 1 <= k <= |t|
    requires c == r || c.start <= r.start <= c.end + 1
    ensures SafeAt([c, r] + t, k + 1) <==> SafeAt([Longer(c, r)] + t, k)
  {
    var all, merged, x := [c, r] + t, [Longer(c, r)] + t, t[k - 1].start;
    assert all == [c] + ([r] + t);
    assert all[k + 1] == merged[k] == t[k - 1];
    assert k < |t| ==> all[k + 2] == merged[k + 1] == t[k];
    assert Before(all[1], all[k + 1]);
    JoinedCons(c, [r] + t, k, x);
    JoinedCons(r, t, k - 1, x);
    JoinedCons(Longer(c, r), t, k - 1, x);
  }

  /** An interval well before all others does not matter. */
  lemma ApartIsAsSafe(c: Interval, rs: seq<Interval>)
    requires rs != [] && Sorted(rs) && c.end + 1 < rs[0].start && !AtMaximum(c)
    ensures MaximumIsLast([c] + rs) <==> MaximumIsLast(rs)
  {
    var all := [c] + rs;
    assert all[0] == c && SafeAt(all, 0);
    forall k | 0 <= k < |rs| ensures SafeAt(all, k + 1) <==> SafeAt(rs, k) {
      assert all[k + 1] == rs[k] && (k + 1 < |rs| ==> all[k + 2] == rs[k + 1]);
      assert k > 0 ==> Before(rs[0], rs[k]);
      JoinedCons(c, rs, k, rs[k].start);
    }
    if MaximumIsLast(all) {
      forall k | 0 <= k < |rs| ensures SafeAt(rs, k) {
        assert SafeAt(all, k + 1);
      }
    }
    if MaximumIsLast(rs) {
      forall k | 0 <= k < |all| ensures SafeAt(all, k) {
        assert k > 0 ==> SafeAt(rs, k - 1);
      }
    }
  }

  /** The pass is canonical exactly when no interval follows one that ends at the
      largest number, copies of a lone one apart. */
  lemma {:induction false} PassIsCanonical(current: Interval, rest: seq<Interval>)
    requires WellFormed(current) && AllWellFormed(rest) && Sorted([current] + rest)
    ensures Pass(current, rest)[0].start == current.start
    ensures Canonical(Pass(current, rest)) <==> MaximumIsLast([current] + rest)
    decreases rest
  {
    hide MaximumIsLast;
    if rest == [] {
      AloneIsSafe(current);
      assert [current] + rest == [current];
    } else {
      var range, tail := rest[0], rest[1..];
      assert [current] + rest == [current, range] + tail && rest == [range] + tail;
      SortedParts(current, range, tail);
      if range == current || range.start == current.start || range.start <= (current.end + 1) % TWO_64 {
        assert range != current ==> current.end < range.end || range.start > current.start;
        assert Pass(current, rest) == Pass(Longer(current, range), tail);
        PassIsCanonical(Longer(current, range), tail);
        MergedIsAsSafe(current, range, tail);
      } else {
        PassIsCanonical(range, tail);
        PassKeepsPoints(range, tail);
        var later := Pass(range, tail);
        assert Pass(current, rest) == [current] + later;
        if AtMaximum(current) {
          FollowedIsUnsafe(current, range, tail);
          assert !Canonical([current] + later) by {
            assert ([current] + later)[0] == current && ([current] + later)[1] == later[0];
          }
        } else {
          ApartIsAsSafe(current, rest);
          ConsIsCanonical(current, later);
        }
      }
    }
  }

  lemma AloneIsSafe(r: Interval)
    ensures MaximumIsLast([r]) && Canonical([r])
  {
  }

  lemma FollowedIsUnsafe(c: Interval, r: Interval, t: seq<Interval>)
    requires AtMaximum(c) && c.start < r.start
    ensures !MaximumIsLast([c, r] + t)
  {
    assert ([c, r] + t)[0] == c && ([c, r] + t)[1] == r;
    assert !SafeAt([c, r] + t, 0);
  }

  lemma SortedParts(c: Interval, r: Interval, t: seq<Interval>)
    requires Sorted([c, r] + t)
    ensures Before(c, r) && Sorted([r] + t) && Sorted([Longer(c, r)] + t)
  {
    var all := [c, r] + t;
    assert all[0] == c && all[1] == r && forall i :: 0 <= i < |t| ==> all[i + 2] == t[i];
    forall i, j | 0 <= i < j < |t| + 1 ensures Before(([r] + t)[i], ([r] + t)[j]) {
      assert Before(all[i + 1], all[j + 1]);
    }
    forall i, j | 0 <= i < j < |t| + 1 ensures Before(([Longer(c, r)] + t)[i], ([Longer(c, r)] + t)[j]) {
      assert Before(all[0], all[1]) && Before(all[i + 1], all[j + 1]);
    }
  }

  lemma ConsIsCanonical(r: Interval, rs: seq<Interval>)
    requires rs != [] && AllWellFormed(rs) && r.end + 1 < rs[0].start
    ensures Canonical([r] + rs) <==> Canonical(rs)
  {
    if Canonical(rs) {
      CanonicalCons(r, rs);
    }
    if Canonical([r] + rs) {
      forall i, j | 0 <= i < j < |rs| ensures rs[i].end + 1 < rs[j].start {
        assert ([r] + rs)[i + 1] == rs[i] && ([r] + rs)[j + 1] == rs[j];
      }
    }
  }

  /** What the pass leaves in any case: gaps, except behind an interval that ends
      at the largest number, where only the starts ascend. */
  predicate Layered(rs: seq<Interval>) {
    forall i, j :: 0 <= i < j < |rs| ==>
      if AtMaximum(rs[i]) then rs[i].start < rs[j].start else rs[i].end + 1 < rs[j].start
  }

  lemma LayeredCons(r: Interval, rs: seq<Interval>)
    requires rs != [] && Layered(rs) && AllWellFormed(rs)
    requires if AtMaximum(r) then r.start < rs[0].start else r.end + 1 < rs[0].start
    ensures Layered([r] + rs)
  {
    var all := [r] + rs;
    forall i, j | 0 <= i < j < |all|
      ensures if AtMaximum(all[i]) then all[i].start < all[j].start else all[i].end + 1 < all[j].start
    {
      assert all[j] == rs[j - 1];
      if i > 0 {
        assert all[i] == rs[i - 1];
      } else if j > 1 {
        assert rs[0].start < rs[j - 1].start;
      }
    }
  }

  lemma {:induction false} PassIsLayered(current: Interval, rest: seq<Interval>)
    requires WellFormed(current) && AllWellFormed(rest) && Sorted([current] + rest)
    ensures Layered(Pass(current, rest)) && AllWellFormed(Pass(current, rest))
    ensures Pass(current, rest)[0].start == current.start
    decreases rest
  {
    hide Layered;
    if rest == [] {
      OneIsLayered(current);
    } else {
      var range, tail := rest[0], rest[1..];
      assert [current] + rest == [current, range] + tail;
      SortedParts(current, range, tail);
      if range == current || range.start == current.start || range.start <= (current.end + 1) % TWO_64 {
        assert range != current ==> current.end < range.end || range.start > current.start;
        assert Pass(current, rest) == Pass(Longer(current, range), tail);
        PassIsLayered(Longer(current, range), tail);
      } else {
        PassIsLayered(range, tail);
        LayeredCons(current, Pass(range, tail));
      }
    }
  }

  lemma OneIsLayered(r: Interval)
    ensures Layered([r])
  {
  }

  /** Every such list is a result of the pass: the pass leaves it alone. */
  lemma {:induction false} LayeredIsFixed(rs: seq<Interval>)
    requires rs != [] && Layered(rs) && AllWellFormed(rs)
    ensures Pass(rs[0], rs[1..]) == rs
  {
    if |rs| > 1 {
      var tail := rs[1..];
      assert Layered(tail) by {
        assert forall i :: 0 <= i < |tail| ==> tail[i] == rs[i + 1];
      }
      LayeredIsFixed(tail);
      assert tail[0] == rs[1] && tail[1..] == rs[2..];
      assert if AtMaximum(rs[0]) then rs[0].start < rs[1].start else rs[0].end + 1 < rs[1].start;
      assert Pass(rs[0], tail) == [rs[0]] + Pass(tail[0], tail[1..]);
    }
  }

  lemma CanonicalCons(r: Interval, rs: seq<Interval>)
    requires rs != [] && Canonical(rs) && AllWellFormed(rs) && r.end + 1 < rs[0].start
    ensures Canonical([r] + rs)
  {
    var all := [r] + rs;
    forall i, j | 0 <= i < j < |all| ensures all[i].end + 1 < all[j].start {
      assert all[j] == rs[j - 1];
      if i > 0 {
        assert all[i] == rs[i - 1];
      } else if j > 1 {
        assert rs[0].end + 1 < rs[j - 1].start;
      }
    }
  }

  /** With a range that ends at the largest 64-bit number the addition wraps to
      zero, and a range inside it is kept as one of its own. */
  lemma WrapKeepsOverlap(start: nat, end: nat)
    requires 0 < start <= end < TWO_64
    ensures var whole, part := Interval(0, TWO_64 - 1), Interval(start, end);
            Pass(whole, [whole, part]) == [whole, part] && !Canonical([whole, part])
  {
    var whole, part := Interval(0, TWO_64 - 1), Interval(start, end);
    assert [whole, part][1..] == [part] && [part][1..] == [];
    assert Pass(whole, [whole, part]) == Pass(whole, [part]);
    assert (whole.end + 1) % TWO_64 == 0;
    assert Pass(whole, [part]) == [whole] + Pass(part, []);
    assert [whole, part][0].end + 1 >= [whole, part][1].start;
  }

  /** `internal::coalesce` after the sort. The array is overwritten from the front
      while it is still being read; `count` never passes the reader. */
  method CoalesceSorted(a: array<Interval>) returns (count: nat)
    requires a.Length > 0 && Sorted(a[..])
    modifies a
    ensures 0 < count <= a.Length
    ensures a[..count] == Pass(old(a[0]), old(a[..]))
  {
    ghost var input := a[..];
    count := 1;
    var current := a[0];
    var i := 0;
    while i < a.Length
      invariant 0 <= i <= a.Length && 1 <= count && (count <= i || (i == 0 && count == 1))
      invariant forall k :: i <= k < a.Length ==> a[k] == input[k]
      invariant i == 0 ==> current == input[0]
      invariant Pass(input[0], input) == a[..count - 1] + Pass(current, input[i..])
    {
      var range := a[i];
      assert input[i..][0] == range && input[i..][1..] == input[i + 1..];
      i := i + 1;
      if range.start == current.start && range.end == current.end {
        continue;
      }
      if range.start == current.start && range.end > current.end {
        current := current.(end := range.end);
      } else if range.start > current.start {
        if range.start <= (current.end + 1) % TWO_64 {
          current := current.(end := if current.end >= range.end then current.end else range.end);
        } else {
          ghost var done := a[..count - 1];
          a[count - 1] := current;
          count := count + 1;
          assert a[..count - 1] == done + [current];
          current := range;
        }
      }
    }
    ghost var done := a[..count - 1];
    a[count - 1] := current;
    assert a[..count] == done + [current];
  }

  lemma PassSkipsFirst(rs: seq<Interval>)
    requires rs != []
    ensures Pass(rs[0], rs) == Pass(rs[0], rs[1..])
  {
  }

  lemma SortedIsWellFormed(rs: seq<Interval>)
    requires AllWellFormed(rs)
    ensures var sorted := Sort(rs);
            |sorted| == |rs| && Sorted(sorted) && AllWellFormed(sorted) && SamePoints(sorted, rs)
  {
    hide Sort, SamePoints;
    var sorted := Sort(rs);
    SortSorts(rs);
    SortKeepsMembers(rs);
    forall i | 0 <= i < |sorted| ensures WellFormed(sorted[i]) {
      assert sorted[i] in rs;
    }
    SameMembersSamePoints(sorted, rs);
  }

  lemma PassIsRight(sorted: seq<Interval>)
    requires sorted != [] && Sorted(sorted) && AllWellFormed(sorted)
    ensures var result := Pass(sorted[0], sorted);
            && SamePoints(result, sorted) && AllWellFormed(result) && Layered(result)
            && (Canonical(result) <==> MaximumIsLast(sorted))
  {
    hide Layered, Canonical, MaximumIsLast;
    var first := sorted[0];
    PassSkipsFirst(sorted);
    assert |sorted| > 1 ==> Before(sorted[0], sorted[1]);
    PassKeepsPoints(first, sorted[1..]);
    assert [first] + sorted[1..] == sorted;
    PassIsCanonical(first, sorted[1..]);
    PassIsLayered(first, sorted[1..]);
  }

  function Coalesced(rs: seq<Interval>): seq<Interval> {
    var sorted := Sort(rs);
    if sorted == [] then [] else Pass(sorted[0], sorted)
  }

  lemma CoalescedIsRight(rs: seq<Interval>)
    requires AllWellFormed(rs)
    ensures SamePoints(Coalesced(rs), rs) && AllWellFormed(Coalesced(rs)) && Layered(Coalesced(rs))
    ensures Canonical(Coalesced(rs)) <==> MaximumIsLast(Sort(rs))
  {
    SortedIsWellFormed(rs);
    if rs != [] {
      hide Sort, Pass, SamePoints, AllWellFormed, Layered, Canonical, MaximumIsLast, Sorted;
      PassIsRight(Sort(rs));
      SamePointsTwice(Coalesced(rs), Sort(rs), rs);
    }
  }

  lemma SamePointsTwice(a: seq<Interval>, b: seq<Interval>, c: seq<Interval>)
    requires SamePoints(a, b) && SamePoints(b, c)
    ensures SamePoints(a, c)
  {
  }

  /** `coalesce`: sort, then merge. */
  method Coalesce(rs: seq<Interval>) returns (result: seq<Interval>)
    requires AllWellFormed(rs)
    ensures result == Coalesced(rs)
    ensures SamePoints(result, rs) && AllWellFormed(result)
    ensures Canonical(result) <==> MaximumIsLast(Sort(rs))
  {
    CoalescedIsRight(rs);
    SortedIsWellFormed(rs);
    hide Pass, Sort, AllWellFormed, Sorted, SamePoints, Canonical, MaximumIsLast;
    var sorted := Sort(rs);
    if sorted == [] {
      return [];
    }
    var a := new Interval[|sorted|](i requires 0 <= i < |sorted| => sorted[i]);
    assert a[..] == sorted;
    var count := CoalesceSorted(a);
    result := a[..count];
  }

  // ---------------------------------------------------------------------
  // Comparisons of coalesced ranges
  // ---------------------------------------------------------------------

  /** `operator<=` after coalescing: each interval lies within one on the right. */
  predicate EachWithin(left: seq<Interval>, right: seq<Interval>) {
    forall i :: 0 <= i < |left| ==> WithinOne(left[i], right)
  }

  predicate WithinOne(r: Interval, right: seq<Interval>) {
    exists j :: 0 <= j < |right| && r.start >= right[j].start && r.end <= right[j].end
  }

  /** `operator==` after coalescing: as many intervals, each one found. */
  predicate EachFound(left: seq<Interval>, right: seq<Interval>) {
    |left| == |right| && forall i :: 0 <= i < |left| ==> left[i] in right
  }

  ghost predicate Subset(left: seq<Interval>, right: seq<Interval>) {
    forall x: nat :: Covers(left, x) ==> Covers(right, x)
  }

  lemma CanonicalIsLayered(rs: seq<Interval>)
    requires Canonical(rs) && AllWellFormed(rs)
    ensures Layered(rs)
  {
    forall i, j | 0 <= i < j < |rs|
      ensures if AtMaximum(rs[i]) then rs[i].start < rs[j].start else rs[i].end + 1 < rs[j].start
    {
      assert rs[i].end + 1 < rs[j].start;
    }
  }

  /** A run of covered points lies within a single interval. */
  lemma RunWithinOne(rs: seq<Interval>, lo: nat, hi: nat) returns (j: nat)
    requires Layered(rs) && AllWellFormed(rs) && lo <= hi
    requires forall x: nat :: lo <= x <= hi ==> Covers(rs, x)
    ensures j < |rs| && rs[j].start <= lo && hi <= rs[j].end
  {
    assert Covers(rs, lo) && Covers(rs, hi);
    var i :| 0 <= i < |rs| && rs[i].start <= lo <= rs[i].end;
    j := i;
    if rs[i].end < hi {
      var x := rs[i].end + 1;
      assert Covers(rs, x);
      j :| 0 <= j < |rs| && rs[j].start <= x <= rs[j].end;
      LayerOver(rs, i, j, hi);
    }
  }

  /** Only an interval that ends at the largest number reaches over another's end. */
  lemma LayerOver(rs: seq<Interval>, i: nat, j: nat, hi: nat)
    requires Layered(rs) && AllWellFormed(rs) && i < |rs| && j < |rs| && Covers(rs, hi) && rs[i].end < hi
    requires rs[j].start <= rs[i].end + 1 <= rs[j].end
    ensures rs[j].start <= rs[i].start && hi <= rs[j].end
  {
    var k :| 0 <= k < |rs| && rs[k].start <= hi <= rs[k].end;
    assert WellFormed(rs[k]) && WellFormed(rs[i]) && WellFormed(rs[j]);
    LayerPair(rs, i, j);
    LayerPair(rs, j, i);
  }

  lemma LayerPair(rs: seq<Interval>, i: nat, j: nat)
    requires Layered(rs) && i < |rs| && j < |rs|
    ensures i < j ==> if AtMaximum(rs[i]) then rs[i].start < rs[j].start else rs[i].end + 1 < rs[j].start
  {
  }

  /** `operator<=` on coalesced ranges is inclusion of the sets of points. */
  lemma WithinMeansSubset(left: seq<Interval>, right: seq<Interval>)
    requires AllWellFormed(left) && AllWellFormed(right) && Layered(right)
    ensures EachWithin(left, right) <==> Subset(left, right)
  {
    hide Layered;
    if EachWithin(left, right) {
      forall x: nat | Covers(left, x) ensures Covers(right, x) {
        var i :| 0 <= i < |left| && left[i].start <= x <= left[i].end;
        assert WithinOne(left[i], right);
        var j :| 0 <= j < |right| && left[i].start >= right[j].start && left[i].end <= right[j].end;
        assert right[j].start <= x <= right[j].end;
      }
    }
    if Subset(left, right) {
      forall i | 0 <= i < |left| ensures WithinOne(left[i], right) {
        forall x: nat | left[i].start <= x <= left[i].end ensures Covers(right, x) {
          assert Covers(left, x);
        }
        var j := RunWithinOne(right, left[i].start, left[i].end);
        assert left[i].start >= right[j].start && left[i].end <= right[j].end;
      }
    }
  }

  /** Two canonical lists with the same points are the same list. */
  lemma {:induction false} CanonicalIsUnique(left: seq<Interval>, right: seq<Interval>)
    requires AllWellFormed(left) && AllWellFormed(right) && Canonical(left) && Canonical(right)
    requires SamePoints(left, right)
    ensures left == right
    decreases left
  {
    if left == [] {
      assert right != [] ==> right[0].start <= right[0].start <= right[0].end;
      assert right != [] ==> Covers(right, right[0].start);
      assert right != [] ==> Covers(left, right[0].start);
    } else {
      assert Covers(left, left[0].start) by {
        assert left[0].start <= left[0].start <= left[0].end;
      }
      assert Covers(right, left[0].start);
      FirstIntervals(left, right);
      RestPoints(left, right);
      assert left == [left[0]] + left[1..] && right == [right[0]] + right[1..];
      CanonicalIsUnique(left[1..], right[1..]);
    }
  }

  lemma FirstIntervals(left: seq<Interval>, right: seq<Interval>)
    requires AllWellFormed(left) && AllWellFormed(right) && Canonical(left) && Canonical(right)
    requires SamePoints(left, right) && left != [] && right != []
    ensures left[0] == right[0]
  {
    FirstWithin(left, right);
    FirstWithin(right, left);
  }

  lemma FirstWithin(left: seq<Interval>, right: seq<Interval>)
    requires AllWellFormed(left) && AllWellFormed(right) && Canonical(left) && Canonical(right)
    requires SamePoints(left, right) && left != [] && right != []
    ensures left[0].start >= right[0].start
    ensures left[0].start == right[0].start ==> left[0].end <= right[0].end
  {
    forall x: nat | left[0].start <= x <= left[0].end ensures Covers(right, x) {
      assert Covers(left, x);
    }
    CanonicalIsLayered(right);
    var j := RunWithinOne(right, left[0].start, left[0].end);
    if j > 0 {
      assert right[0].end + 1 < right[j].start;
    }
  }

  lemma RestPoints(left: seq<Interval>, right: seq<Interval>)
    requires Canonical(left) && Canonical(right) && SamePoints(left, right)
    requires left != [] && right != [] && left[0] == right[0]
    ensures SamePoints(left[1..], right[1..])
  {
    forall x: nat ensures Covers(left[1..], x) <==> Covers(right[1..], x) {
      TailCovers(left, x);
      TailCovers(right, x);
    }
  }

  lemma TailCovers(rs: seq<Interval>, x: nat)
    requires Canonical(rs) && rs != []
    ensures Covers(rs[1..], x) <==> Covers(rs, x) && x > rs[0].end
  {
    if i :| 0 <= i < |rs[1..]| && rs[1..][i].start <= x <= rs[1..][i].end {
      assert rs[i + 1] == rs[1..][i];
      assert rs[0].end + 1 < rs[i + 1].start;
    }
    if x > rs[0].end && Covers(rs, x) {
      var i :| 0 <= i < |rs| && rs[i].start <= x <= rs[i].end;
      assert rs[1..][i - 1] == rs[i];
    }
  }

  // ---------------------------------------------------------------------
  // Equality of coalesced ranges
  // ---------------------------------------------------------------------

  /** The intervals up to the first one that ends at the largest number. */
  function TopLayer(rs: seq<Interval>): seq<Interval> {
    if rs == [] then [] else if AtMaximum(rs[0]) then [rs[0]] else [rs[0]] + TopLayer(rs[1..])
  }

  /** The intervals that follow it, which add no points. */
  function Beyond(rs: seq<Interval>): seq<Interval> {
    if rs == [] then [] else if AtMaximum(rs[0]) then rs[1..] else Beyond(rs[1..])
  }

  lemma {:induction false} Layers(rs: seq<Interval>)
    ensures rs == TopLayer(rs) + Beyond(rs)
    ensures forall i :: 0 <= i < |TopLayer(rs)| - 1 ==> !AtMaximum(TopLayer(rs)[i])
    ensures Beyond(rs) != [] ==> TopLayer(rs) != [] && AtMaximum(TopLayer(rs)[|TopLayer(rs)| - 1])
  {
    if rs != [] {
      assert rs == [rs[0]] + rs[1..];
      Layers(rs[1..]);
    }
  }

  lemma TopIsCanonical(rs: seq<Interval>)
    requires Layered(rs) && AllWellFormed(rs)
    ensures Canonical(TopLayer(rs)) && AllWellFormed(TopLayer(rs))
    ensures forall j :: |TopLayer(rs)| <= j < |rs| ==> TopLayer(rs)[|TopLayer(rs)| - 1].start < rs[j].start
    ensures SamePoints(TopLayer(rs), rs)
  {
    hide TopLayer, Beyond;
    Layers(rs);
    var top := TopLayer(rs);
    assert forall i :: 0 <= i < |top| ==> top[i] == rs[i];
    forall x: nat ensures Covers(top, x) <==> Covers(rs, x) {
      if i :| 0 <= i < |top| && top[i].start <= x <= top[i].end {
        assert rs[i].start <= x <= rs[i].end;
      }
      if i :| 0 <= i < |rs| && rs[i].start <= x <= rs[i].end {
        if i < |top| {
          assert top[i].start <= x <= top[i].end;
        } else {
          var last := |top| - 1;
          assert rs[last].start < rs[i].start && WellFormed(rs[i]);
          assert top[last].start <= x <= top[last].end;
        }
      }
    }
  }

  predicate Ascends(rs: seq<Interval>) {
    forall i, j :: 0 <= i < j < |rs| ==> rs[i].start < rs[j].start
  }

  lemma LayeredAscends(rs: seq<Interval>)
    requires Layered(rs) && AllWellFormed(rs)
    ensures Ascends(rs)
  {
    forall i, j | 0 <= i < j < |rs| ensures rs[i].start < rs[j].start {
      assert WellFormed(rs[i]);
    }
  }

  /** As many intervals, all found: the lists agree position by position. */
  lemma FoundIsSame(left: seq<Interval>, right: seq<Interval>)
    requires Ascends(left) && Ascends(right) && EachFound(left, right)
    ensures left == right
  {
    forall i | 0 <= i < |left| ensures left[i] == right[i] {
      FoundAtOrAfter(left, right, i);
      FoundAtOrBefore(left, right, i);
    }
  }

  lemma {:induction false} FoundAtOrAfter(left: seq<Interval>, right: seq<Interval>, i: nat)
    requires Ascends(left) && Ascends(right) && EachFound(left, right) && i < |left|
    ensures exists k :: i <= k < |right| && right[k] == left[i]
    decreases i
  {
    var k :| 0 <= k < |right| && right[k] == left[i];
    if i > 0 {
      FoundAtOrAfter(left, right, i - 1);
      var m :| i - 1 <= m < |right| && right[m] == left[i - 1];
      assert left[i - 1].start < left[i].start;
      assert m < k && i <= k;
    }
  }

  lemma {:induction false} FoundAtOrBefore(left: seq<Interval>, right: seq<Interval>, i: nat)
    requires Ascends(left) && Ascends(right) && EachFound(left, right) && i < |left|
    ensures exists k :: 0 <= k <= i && right[k] == left[i]
    decreases |left| - i
  {
    var k :| 0 <= k < |right| && right[k] == left[i];
    if i < |left| - 1 {
      FoundAtOrBefore(left, right, i + 1);
      var m :| 0 <= m <= i + 1 && right[m] == left[i + 1];
      assert left[i].start < left[i + 1].start;
      assert k < m;
    }
  }

  /** `operator==` on coalesced ranges holds exactly when they cover the same points
      and have the same intervals behind the one that ends at the largest number. */
  lemma FoundMeansEqual(left: seq<Interval>, right: seq<Interval>)
    requires AllWellFormed(left) && AllWellFormed(right) && Layered(left) && Layered(right)
    ensures EachFound(left, right) <==> SamePoints(left, right) && Beyond(left) == Beyond(right)
  {
    hide Layered, Canonical, TopLayer, Beyond;
    Layers(left);
    Layers(right);
    TopIsCanonical(left);
    TopIsCanonical(right);
    if SamePoints(left, right) {
      SamePointsTwice(TopLayer(left), left, right);
      SamePointsBack(TopLayer(right), right);
      SamePointsTwice(TopLayer(left), right, TopLayer(right));
      CanonicalIsUnique(TopLayer(left), TopLayer(right));
    }
    if EachFound(left, right) {
      LayeredAscends(left);
      LayeredAscends(right);
      FoundIsSame(left, right);
    }
  }

  lemma SamePointsBack(a: seq<Interval>, b: seq<Interval>)
    requires SamePoints(a, b)
    ensures SamePoints(b, a)
  {
  }

  /** The same for the lists before they are coalesced. */
  lemma EqualityMeans(left: seq<Interval>, right: seq<Interval>)
    requires AllWellFormed(left) && AllWellFormed(right)
    ensures EachFound(Coalesced(left), Coalesced(right)) <==>
            SamePoints(left, right) && Beyond(Coalesced(left)) == Beyond(Coalesced(right))
    ensures MaximumIsLast(Sort(left)) && MaximumIsLast(Sort(right)) ==>
              (EachFound(Coalesced(left), Coalesced(right)) <==> SamePoints(left, right))
  {
    hide Coalesced, Layered, Canonical, Beyond, MaximumIsLast, AllWellFormed, EachFound, Sort;
    var l, r := Coalesced(left), Coalesced(right);
    CoalescedIsRight(left);
    CoalescedIsRight(right);
    FoundMeansEqual(l, r);
    assert SamePoints(l, r) <==> SamePoints(left, right);
    if Canonical(l) {
      NothingBeyond(l);
    }
    if Canonical(r) {
      NothingBeyond(r);
    }
  }

  lemma {:induction false} NothingBeyond(rs: seq<Interval>)
    requires Canonical(rs) && AllWellFormed(rs)
    ensures Beyond(rs) == []
  {
    if rs != [] {
      assert |rs| > 1 ==> rs[0].end + 1 < rs[1].start < TWO_64;
      if !AtMaximum(rs[0]) {
        NothingBeyond(rs[1..]);
      }
    }
  }

  /** Two lists with the same points that do not compare equal. */
  lemma EqualPointsNotFound(start: nat, end: nat)
    requires 0 < start <= end < TWO_64
    ensures var whole, part := Interval(0, TWO_64 - 1), Interval(start, end);
            && Coalesced([whole]) == [whole] && Coalesced([whole, part]) == [whole, part]
            && SamePoints([whole], [whole, part]) && !EachFound([whole], [whole, part])
  {
    var whole, part := Interval(0, TWO_64 - 1), Interval(start, end);
    var both := [whole, part];
    assert both[1..] == [part] && [part][1..] == [] && [whole][1..] == [];
    assert Sort([]) == [] && Sort([part]) == [part] && Sort([whole]) == [whole];
    assert Sort(both) == InsertSorted([part], whole) == both;
    WrapKeepsOverlap(start, end);
    assert Pass(whole, [whole]) == Pass(whole, []);
    forall x: nat ensures Covers([whole], x) <==> Covers(both, x) {
      assert both[0] == whole && [whole][0] == whole;
      if i :| 0 <= i < |both| && both[i].start <= x <= both[i].end {
        assert [whole][0].start <= x <= [whole][0].end;
      }
      if i :| 0 <= i < |[whole]| && [whole][i].start <= x <= [whole][i].end {
        assert both[0].start <= x <= both[0].end;
      }
    }
  }

  /** A range that ends at the largest number and holds another one. */
  predicate CanHide(rs: seq<Interval>) {
    exists i :: 0 <= i < |rs| && AtMaximum(rs[i]) && rs[i].start < rs[i].end
  }

  /** `==` with one coalesced list is equality of points, whatever the other one,
      exactly when that list has no such range. */
  lemma EqualityIsExactFor(left: seq<Interval>)
    requires AllWellFormed(left) && Layered(left)
    ensures (forall right :: AllWellFormed(right) && Layered(right) ==>
               (EachFound(left, right) <==> SamePoints(left, right))) <==> !CanHide(left)
  {
    hide Layered, TopLayer, Beyond, CanHide;
    if CanHide(left) {
      var right := HidesOne(left);
    } else {
      forall right | AllWellFormed(right) && Layered(right)
        ensures EachFound(left, right) <==> SamePoints(left, right)
      {
        FoundMeansEqual(left, right);
        if SamePoints(left, right) {
          NoneHidden(left, right);
        }
      }
    }
  }

  lemma NoneHidden(left: seq<Interval>, right: seq<Interval>)
    requires AllWellFormed(left) && Layered(left) && AllWellFormed(right) && Layered(right)
    requires SamePoints(left, right) && !CanHide(left)
    ensures Beyond(left) == Beyond(right) == []
  {
    hide TopLayer, Beyond;
    Layers(left);
    Layers(right);
    TopIsCanonical(left);
    TopIsCanonical(right);
    SamePointsTwice(TopLayer(left), left, right);
    SamePointsBack(TopLayer(right), right);
    SamePointsTwice(TopLayer(left), right, TopLayer(right));
    CanonicalIsUnique(TopLayer(left), TopLayer(right));
    forall i | 0 <= i < |TopLayer(left)| && AtMaximum(TopLayer(left)[i])
      ensures TopLayer(left)[i].start >= TopLayer(left)[i].end
    {
      assert TopLayer(left)[i] == left[i];
    }
    NothingAfter(left);
    NothingAfter(right);
  }

  lemma NothingAfter(rs: seq<Interval>)
    requires AllWellFormed(rs) && Layered(rs)
    requires forall i :: 0 <= i < |TopLayer(rs)| && AtMaximum(TopLayer(rs)[i]) ==>
               TopLayer(rs)[i].start >= TopLayer(rs)[i].end
    ensures Beyond(rs) == []
  {
    if Beyond(rs) != [] {
      HasRoom(rs);
    }
  }

  lemma HasRoom(rs: seq<Interval>)
    requires AllWellFormed(rs) && Layered(rs) && Beyond(rs) != []
    ensures var top := TopLayer(rs);
            top != [] && AtMaximum(top[|top| - 1]) && top[|top| - 1].start < top[|top| - 1].end
  {
    hide TopLayer, Beyond;
    Layers(rs);
    TopIsCanonical(rs);
    var n := |TopLayer(rs)|;
    assert rs[n] == Beyond(rs)[0] && TopLayer(rs)[n - 1].start < rs[n].start;
    assert WellFormed(rs[n]);
  }

  /** A partner with the same points that does not compare equal. */
  lemma HidesOne(left: seq<Interval>) returns (right: seq<Interval>)
    requires AllWellFormed(left) && Layered(left) && CanHide(left)
    ensures AllWellFormed(right) && Layered(right) && SamePoints(left, right) && !EachFound(left, right)
  {
    hide TopLayer, Beyond;
    Layers(left);
    TopIsCanonical(left);
    if Beyond(left) != [] {
      right := TopLayer(left);
      CanonicalIsLayered(right);
      SamePointsBack(right, left);
    } else {
      right := HideLast(left);
    }
  }

  lemma HideLast(left: seq<Interval>) returns (right: seq<Interval>)
    requires AllWellFormed(left) && Layered(left) && CanHide(left) && Beyond(left) == []
    ensures AllWellFormed(right) && Layered(right) && SamePoints(left, right) && |right| == |left| + 1
  {
    hide TopLayer, Beyond;
    Layers(left);
    assert left == TopLayer(left) + [] == TopLayer(left);
    var k :| 0 <= k < |left| && AtMaximum(left[k]) && left[k].start < left[k].end;
    var last := |left| - 1;
    assert k == last;
    var top := Interval(TWO_64 - 1, TWO_64 - 1);
    right := left + [top];
    LayeredAppend(left, top);
    AppendInside(left, top, last);
  }

  lemma LayeredAppend(rs: seq<Interval>, r: Interval)
    requires rs != [] && Layered(rs) && AllWellFormed(rs) && rs[|rs| - 1].start < r.start
    requires AtMaximum(rs[|rs| - 1])
    requires forall i :: 0 <= i < |rs| - 1 ==> !AtMaximum(rs[i])
    ensures Layered(rs + [r])
  {
    var all, last := rs + [r], |rs| - 1;
    forall i, j | 0 <= i < j < |all|
      ensures if AtMaximum(all[i]) then all[i].start < all[j].start else all[i].end + 1 < all[j].start
    {
      LayerPair(rs, i, if j < |rs| then j else last);
    }
  }

  lemma AppendInside(rs: seq<Interval>, r: Interval, k: nat)
    requires k < |rs| && rs[k].start <= r.start && r.end <= rs[k].end
    ensures SamePoints(rs, rs + [r])
  {
    var all := rs + [r];
    forall x: nat ensures Covers(rs, x) <==> Covers(all, x) {
      if i :| 0 <= i < |rs| && rs[i].start <= x <= rs[i].end {
        assert all[i].start <= x <= all[i].end;
      }
      if i :| 0 <= i < |all| && all[i].start <= x <= all[i].end {
        var j := if i < |rs| then i else k;
        assert rs[j].start <= x <= rs[j].end;
      }
    }
  }
}
