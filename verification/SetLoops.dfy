/** The loops of the operators on set values. */
module SetLoops {
  import opened Values

  /** `operator==`: the inner loop compares with the item at the outer index. */
  method EqualLoop(left: seq<string>, right: seq<string>) returns (equal: bool)
    ensures equal == SameItems(left, right)
  {
    if |left| != |right| {
      return false;
    }
    for i := 0 to |left|
      invariant forall k :: 0 <= k < i ==> left[k] == right[k]
    {
      var found := false;
      var j := 0;
      while j < |right| && !found
        invariant 0 <= j <= |right|
        invariant found ==> left[i] == right[i]
        invariant j > 0 && !found ==> left[i] != right[i]
      {
        found := left[i] == right[i];
        j := j + 1;
      }
      if !found {
        return false;
      }
    }
    return true;
  }

  /** `operator<=` */
  method WithinLoop(left: seq<string>, right: seq<string>) returns (within: bool)
    ensures within == LessEq(Items(left), Items(right))
  {
    if |left| > |right| {
      return false;
    }
    for i := 0 to |left|
      invariant forall k :: 0 <= k < i ==> left[k] in right
    {
      var found := Among(left[i], right);
      if !found {
        return false;
      }
    }
    return true;
  }

  method Among(item: string, items: seq<string>) returns (found: bool)
    ensures found == (item in items)
  {
    for j := 0 to |items|
      invariant item !in items[..j]
    {
      if item == items[j] {
        return true;
      }
    }
    return false;
  }

  /** `operator+=`: the list grows while it is searched. */
  method UnionLoop(left: seq<string>, right: seq<string>) returns (items: seq<string>)
    ensures items == AppendMissing(left, right)
  {
    items := left;
    assert right[0..] == right;
    for i := 0 to |right|
      invariant AppendMissing(left, right) == AppendMissing(items, right[i..])
    {
      assert right[i..][0] == right[i] && right[i..][1..] == right[i + 1..];
      var found := Among(right[i], items);
      if !found {
        items := items + [right[i]];
      }
    }
  }

  /** `operator-=`: the first equal item is deleted. */
  method RemoveLoop(left: seq<string>, right: seq<string>) returns (items: seq<string>)
    ensures items == RemoveEach(left, right)
  {
    items := left;
    assert right[0..] == right;
    for i := 0 to |right|
      invariant RemoveEach(left, right) == RemoveEach(items, right[i..])
    {
      assert right[i..][0] == right[i] && right[i..][1..] == right[i + 1..];
      items := DeleteFirst(items, right[i]);
    }
  }

  method DeleteFirst(items: seq<string>, item: string) returns (rest: seq<string>)
    ensures rest == RemoveFirst(items, item)
  {
    for j := 0 to |items|
      invariant forall k :: 0 <= k < j ==> items[k] != item
    {
      if items[j] == item {
        RemoveFirstAt(items, item, j);
        return items[..j] + items[j + 1..];
      }
    }
    RemoveFirstAt(items, item, |items|);
    return items;
  }

  lemma {:induction false} RemoveFirstAt(items: seq<string>, item: string, j: nat)
    requires j <= |items| && (forall k :: 0 <= k < j ==> items[k] != item) && (j < |items| ==> items[j] == item)
    ensures RemoveFirst(items, item) == if j < |items| then items[..j] + items[j + 1..] else items
  {
    if j > 0 {
      var tail := items[1..];
      RemoveFirstAt(tail, item, j - 1);
      assert items == [items[0]] + tail;
      if j < |items| {
        assert items[..j] == [items[0]] + tail[..j - 1] && items[j + 1..] == tail[j..];
        assert [items[0]] + (tail[..j - 1] + tail[j..]) == items[..j] + items[j + 1..];
      }
    }
  }

  // ---------------------------------------------------------------------
  // The order of the items
  // ---------------------------------------------------------------------

  /** The items of the right list that are in neither list before, in order. */
  ghost function NewItems(left: seq<string>, right: seq<string>): seq<string> {
    if right == [] then []
    else
      var rest, last := right[..|right| - 1], right[|right| - 1];
      NewItems(left, rest) + if last in left || last in rest then [] else [last]
  }

  /** The items of the left list but for as many first ones as the right list names. */
  ghost function KeptItems(left: seq<string>, right: seq<string>): seq<string> {
    if left == [] then []
    else
      var rest, last := left[..|left| - 1], left[|left| - 1];
      KeptItems(rest, right) + if multiset(rest)[last] < multiset(right)[last] then [] else [last]
  }

  lemma {:induction false} AppendLast(left: seq<string>, right: seq<string>, item: string)
    ensures var union := AppendMissing(left, right);
            AppendMissing(left, right + [item]) == if item in union then union else union + [item]
    decreases right
  {
    var more := right + [item];
    if right == [] {
      assert more[1..] == [];
    } else {
      assert more[1..] == right[1..] + [item];
      AppendLast(if right[0] in left then left else left + [right[0]], right[1..], item);
    }
  }

  /** `+=` keeps the left list and appends what is new, in the order of the right list. */
  lemma {:induction false} UnionOrder(left: seq<string>, right: seq<string>)
    ensures AppendMissing(left, right) == left + NewItems(left, right)
    decreases |right|
  {
    if right != [] {
      var rest, last := right[..|right| - 1], right[|right| - 1];
      assert right == rest + [last];
      UnionOrder(left, rest);
      AppendLast(left, rest, last);
      AppendMissingMeans(left, rest);
      assert last in AppendMissing(left, rest) <==> last in ItemSet(left) + ItemSet(rest);
    }
  }

  lemma {:induction false} RemoveFirstOfMore(left: seq<string>, last: string, item: string)
    ensures RemoveFirst(left + [last], item) ==
            if item in left then RemoveFirst(left, item) + [last] else if last == item then left else left + [last]
  {
    var more := left + [last];
    if left == [] {
      assert more[1..] == [];
    } else {
      assert more[1..] == left[1..] + [last];
      assert left == [left[0]] + left[1..];
      RemoveFirstOfMore(left[1..], last, item);
    }
  }

  lemma {:induction false} KeptAfterFirst(left: seq<string>, item: string, right: seq<string>)
    ensures KeptItems(RemoveFirst(left, item), right) == KeptItems(left, [item] + right)
    decreases |left|
  {
    hide RemoveFirst;
    if left == [] {
      assert RemoveFirst(left, item) == [] by {
        NothingRemoved(item);
      }
    } else {
      var rest, last := left[..|left| - 1], left[|left| - 1];
      assert left == rest + [last];
      KeptAfterFirst(rest, item, right);
      RemoveFirstOfMore(rest, last, item);
      RemoveFirstMeans(rest, item);
      assert multiset([item] + right) == multiset{item} + multiset(right);
      assert item in rest <==> item in multiset(rest);
      if item in rest {
        var shorter := RemoveFirst(rest, item) + [last];
        assert shorter[..|shorter| - 1] == RemoveFirst(rest, item);
      } else {
        NotThere(rest, item);
      }
    }
  }

  lemma NothingRemoved(item: string)
    ensures RemoveFirst([], item) == []
  {
  }

  lemma {:induction false} NotThere(items: seq<string>, item: string)
    requires item !in items
    ensures RemoveFirst(items, item) == items
  {
    if items != [] {
      assert items == [items[0]] + items[1..];
      NotThere(items[1..], item);
    }
  }

  lemma {:induction false} KeptAll(left: seq<string>)
    ensures KeptItems(left, []) == left
    decreases |left|
  {
    if left != [] {
      KeptAll(left[..|left| - 1]);
      assert left == left[..|left| - 1] + [left[|left| - 1]];
    }
  }

  /** `-=` keeps the order of the left list, and of equal items takes the first ones. */
  lemma {:induction false} RemovalOrder(left: seq<string>, right: seq<string>)
    ensures RemoveEach(left, right) == KeptItems(left, right)
    decreases right
  {
    if right == [] {
      KeptAll(left);
    } else {
      assert right == [right[0]] + right[1..];
      RemovalOrder(RemoveFirst(left, right[0]), right[1..]);
      KeptAfterFirst(left, right[0], right[1..]);
    }
  }

  /** Two lists of the same two items in another order: each is within the other,
      and they are not equal. */
  lemma OrderMatters(a: string, b: string)
    requires a != b
    ensures var left, right := Items([a, b]), Items([b, a]);
            && WellFormedValue(left) && WellFormedValue(right)
            && LessEq(left, right) && LessEq(right, left) && !ValueEq(left, right)
  {
    assert [a, b][0] != [b, a][0];
  }

  /** `==` on sets is equality of the sets exactly when the two lists name their items
      in the same order. */
  lemma EqualityNeedsOrder(left: seq<string>, right: seq<string>)
    requires Distinct(left) && Distinct(right) && ItemSet(left) == ItemSet(right)
    ensures SameItems(left, right) <==> forall i, j :: 0 <= i < |left| && 0 <= j < |right| && left[i] == right[j] ==> i == j
    ensures |left| == |right|
  {
    DistinctIsShorter(left, right);
    DistinctIsShorter(right, left);
    if forall i, j :: 0 <= i < |left| && 0 <= j < |right| && left[i] == right[j] ==> i == j {
      forall i | 0 <= i < |left| ensures left[i] == right[i] {
        assert left[i] in ItemSet(left);
        var j :| 0 <= j < |right| && right[j] == left[i];
      }
    }
  }
}
