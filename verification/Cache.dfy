/** A least-recently-used cache. */
module Cache {
  import opened Common
  import opened LinkedMap

  // ---------------------------------------------------------------------
  // Specification: pairs from the least to the most recently used
  // ---------------------------------------------------------------------

  datatype Event<K, V> = PutEvent(key: K, value: V) | GetEvent(key: K) | EraseEvent(key: K)

  function Step<K(==), V>(capacity: nat, s: seq<Pair<K, V>>, e: Event<K, V>): seq<Pair<K, V>>
    requires capacity >= 1
  {
    match e
    case PutEvent(k, v) =>
      if Has(s, k) then Remove(s, k) + [Pair(k, v)]
      else if |s| == capacity then s[1..] + [Pair(k, v)]
      else s + [Pair(k, v)]
    case GetEvent(k) => if Has(s, k) then Remove(s, k) + [s[Find(s, k)]] else s
    case EraseEvent(k) => Remove(s, k)
  }

  function Run<K(==), V>(capacity: nat, es: seq<Event<K, V>>): seq<Pair<K, V>>
    requires capacity >= 1
  {
    if es == [] then [] else Step(capacity, Run(capacity, es[..|es| - 1]), es[|es| - 1])
  }

  // ---------------------------------------------------------------------
  // What the history says of a key
  // ---------------------------------------------------------------------

  /** When a key was last read or written. */
  function LastUse<K(==), V>(es: seq<Event<K, V>>, k: K): (n: nat)
    ensures n <= |es|
  {
    if es == [] then 0
    else
      var e := es[|es| - 1];
      if e.key == k && !e.EraseEvent? then |es| else LastUse(es[..|es| - 1], k)
  }

  /** The value last written for a key, unless it was erased since. */
  function LastPut<K(==), V>(es: seq<Event<K, V>>, k: K): Option<V> {
    if es == [] then None
    else
      var e := es[|es| - 1];
      if e.key == k && e.PutEvent? then Some(e.value)
      else if e.key == k && e.EraseEvent? then None
      else LastPut(es[..|es| - 1], k)
  }

  ghost predicate IsLru<K, V>(capacity: nat, s: seq<Pair<K, V>>, es: seq<Event<K, V>>) {
    && Unique(s) && |s| <= capacity
    && (forall i, j :: 0 <= i < j < |s| ==> LastUse(es, s[i].key) < LastUse(es, s[j].key))
    && (forall i :: 0 <= i < |s| ==> LastPut(es, s[i].key) == Some(s[i].value))
  }

  lemma HistoryGrows<K, V>(p: seq<Event<K, V>>, e: Event<K, V>, k: K)
    ensures LastUse(p + [e], k) == if e.key == k && !e.EraseEvent? then |p| + 1 else LastUse(p, k)
    ensures LastPut(p + [e], k) ==
            if e.key == k && e.PutEvent? then Some(e.value) else if e.key == k && e.EraseEvent? then None else LastPut(p, k)
  {
    assert (p + [e])[|p|] == e && (p + [e])[..|p|] == p;
  }

  /** Removing pairs keeps the order of those that stay. */
  lemma RemoveKeeps<K, V>(s: seq<Pair<K, V>>, k: K)
    requires Unique(s)
    ensures var r := Remove(s, k);
            && |r| == (if Has(s, k) then |s| - 1 else |s|)
            && (forall i :: 0 <= i < |r| ==> r[i].key != k && r[i] == s[if i < Find(s, k) then i else i + 1])
  {
    hide Find;
    var at, r := Find(s, k), Remove(s, k);
    forall i | 0 <= i < |r| ensures r[i].key != k && r[i] == s[if i < at then i else i + 1] {
      if at < |s| {
        assert r == s[..at] + s[at + 1..];
        if i < at {
          assert r[i] == s[i];
        } else {
          assert r[i] == s[i + 1];
          assert s[at].key != s[i + 1].key;
        }
      }
    }
  }

  ghost predicate Kept<K, V>(r: seq<Pair<K, V>>, s: seq<Pair<K, V>>, k: K, skip: nat) {
    && (|r| == |s| || |r| + 1 == |s|)
    && (|r| == |s| ==> r == s)
    && (forall i :: 0 <= i < |r| ==> r[i].key != k)
    && (|r| + 1 == |s| ==> forall i :: 0 <= i < |r| ==> r[i] == s[if i < skip then i else i + 1])
  }

  /** Fewer pairs, then the key just used. */
  lemma UsedLast<K, V>(capacity: nat, s: seq<Pair<K, V>>, r: seq<Pair<K, V>>, skip: nat, p: seq<Event<K, V>>,
                       e: Event<K, V>, v: V)
    requires IsLru(capacity, s, p) && !e.EraseEvent? && Kept(r, s, e.key, skip) && |r| < capacity
    requires LastPut(p + [e], e.key) == Some(v)
    ensures IsLru(capacity, r + [Pair(e.key, v)], p + [e])
  {
    hide LastUse, LastPut;
    var t := r + [Pair(e.key, v)];
    forall i | 0 <= i < |t|
      ensures LastUse(p + [e], t[i].key) == if i < |r| then LastUse(p, r[i].key) else |p| + 1
      ensures LastPut(p + [e], t[i].key) == Some(t[i].value)
    {
      HistoryGrows(p, e, t[i].key);
      if i < |r| && |r| < |s| {
        assert r[i] == s[if i < skip then i else i + 1];
      }
    }
    assert forall i :: 0 <= i < |r| ==> LastUse(p, r[i].key) <= |p|;
  }

  lemma EraseIsLru<K, V>(capacity: nat, s: seq<Pair<K, V>>, p: seq<Event<K, V>>, k: K)
    requires IsLru(capacity, s, p)
    ensures IsLru(capacity, Remove(s, k), p + [EraseEvent(k)])
  {
    hide LastUse, LastPut, Find;
    RemoveKeeps(s, k);
    var r := Remove(s, k);
    forall i | 0 <= i < |r|
      ensures LastUse(p + [EraseEvent(k)], r[i].key) == LastUse(p, r[i].key)
      ensures LastPut(p + [EraseEvent(k)], r[i].key) == LastPut(p, r[i].key)
    {
      HistoryGrows(p, EraseEvent(k), r[i].key);
    }
  }

  lemma StepIsLru<K, V>(capacity: nat, s: seq<Pair<K, V>>, p: seq<Event<K, V>>, e: Event<K, V>)
    requires capacity >= 1 && IsLru(capacity, s, p)
    ensures IsLru(capacity, Step(capacity, s, e), p + [e])
  {
    hide LastUse, LastPut;
    HistoryGrows(p, e, e.key);
    RemoveKeeps(s, e.key);
    var at := Find(s, e.key);
    match e
    case EraseEvent(k) => EraseIsLru(capacity, s, p, k);
    case GetEvent(k) =>
      if at < |s| {
        UsedLast(capacity, s, Remove(s, k), at, p, e, s[at].value);
      } else {
        MissIsLru(capacity, s, p, k);
      }
    case PutEvent(k, v) =>
      if at < |s| {
        UsedLast(capacity, s, Remove(s, k), at, p, e, v);
      } else {
        UsedLast(capacity, s, if |s| == capacity then s[1..] else s, 0, p, e, v);
      }
  }

  lemma MissIsLru<K, V>(capacity: nat, s: seq<Pair<K, V>>, p: seq<Event<K, V>>, k: K)
    requires IsLru(capacity, s, p) && !Has(s, k)
    ensures IsLru(capacity, s, p + [GetEvent(k)])
  {
    hide LastUse, LastPut;
    forall i | 0 <= i < |s|
      ensures LastUse(p + [GetEvent(k)], s[i].key) == LastUse(p, s[i].key)
      ensures LastPut(p + [GetEvent(k)], s[i].key) == LastPut(p, s[i].key)
    {
      HistoryGrows(p, GetEvent(k), s[i].key);
    }
  }

  /** After every run the cache holds at most its capacity of keys, in the order of
      their last use, each with the value last put. */
  lemma {:induction false} RunIsLru<K, V>(capacity: nat, es: seq<Event<K, V>>)
    requires capacity >= 1
    ensures IsLru(capacity, Run(capacity, es), es)
  {
    hide IsLru, Step;
    if es == [] {
      EmptyIsLru<K, V>(capacity);
    } else {
      var p, e := es[..|es| - 1], es[|es| - 1];
      assert p + [e] == es;
      RunIsLru(capacity, p);
      StepIsLru(capacity, Run(capacity, p), p, e);
    }
  }

  lemma EmptyIsLru<K, V>(capacity: nat)
    ensures IsLru<K, V>(capacity, [], [])
  {
  }

  /** A lookup after any run misses or answers with the value last put. */
  lemma HitIsLatest<K, V>(capacity: nat, es: seq<Event<K, V>>, k: K)
    requires capacity >= 1
    ensures Lookup(Run(capacity, es), k).Some? ==> Lookup(Run(capacity, es), k) == LastPut(es, k)
  {
    RunIsLru(capacity, es);
  }

  /** Putting a new key into a full cache removes the key used longest ago and no other. */
  lemma EvictsLeastRecent<K, V>(capacity: nat, es: seq<Event<K, V>>, k: K, v: V, other: K)
    requires capacity >= 1
    requires var s := Run(capacity, es); !Has(s, k) && |s| == capacity && Has(s, other)
    ensures var s := Run(capacity, es);
            var t := Step(capacity, s, PutEvent(k, v));
            && Lookup(t, k) == Some(v)
            && (!Has(t, other) <==> other == s[0].key)
            && (other == s[0].key || (LastUse(es, s[0].key) < LastUse(es, other) && Lookup(t, other) == Lookup(s, other)))
  {
    hide Run, LastUse, LastPut;
    RunIsLru(capacity, es);
    var s := Run(capacity, es);
    var t := Step(capacity, s, PutEvent(k, v));
    StepIsLru(capacity, s, es, PutEvent(k, v));
    FindIs(t, k, |t| - 1);
    var i := Find(s, other);
    if i > 0 {
      FindIs(t, other, i - 1);
    } else {
      assert forall j :: 0 <= j < |t| ==> t[j].key != other;
    }
  }

  // ---------------------------------------------------------------------
  // Which keys stay
  // ---------------------------------------------------------------------

  /** Event `i` is a put, or a get that hits. */
  predicate Uses<K(==), V>(capacity: nat, es: seq<Event<K, V>>, i: nat)
    requires capacity >= 1 && i < |es|
  {
    es[i].PutEvent? || (es[i].GetEvent? && Has(Run(capacity, es[..i]), es[i].key))
  }

  /** The other keys put or hit after event `i`. */
  ghost function OthersUsed<K, V>(capacity: nat, es: seq<Event<K, V>>, i: nat): set<K>
    requires capacity >= 1 && i < |es|
  {
    set j | i < j < |es| && Uses(capacity, es, j) && es[j].key != es[i].key :: es[j].key
  }

  /** The keys used more recently than `k`. */
  ghost function MoreRecent<K, V>(s: seq<Pair<K, V>>, k: K): set<K> {
    set j | Find(s, k) < j < |s| :: s[j].key
  }

  lemma OthersGrow<K, V>(capacity: nat, p: seq<Event<K, V>>, e: Event<K, V>, i: nat)
    requires capacity >= 1 && i < |p|
    ensures OthersUsed(capacity, p, i) <= OthersUsed(capacity, p + [e], i)
    ensures Uses(capacity, p + [e], |p|) && e.key != p[i].key ==> e.key in OthersUsed(capacity, p + [e], i)
    ensures Uses(capacity, p + [e], |p|) <==> e.PutEvent? || (e.GetEvent? && Has(Run(capacity, p), e.key))
  {
    hide Run;
    var es := p + [e];
    assert es[|p|] == e && es[..|p|] == p && es[i] == p[i];
    forall k | k in OthersUsed(capacity, p, i) ensures k in OthersUsed(capacity, es, i) {
      var j :| i < j < |p| && Uses(capacity, p, j) && p[j].key != p[i].key && p[j].key == k;
      assert es[j] == p[j] && es[..j] == p[..j];
      assert Uses(capacity, es, j);
    }
  }

  /** Dropping other pairs leaves fewer keys behind `k`. */
  lemma RecentAfterRemove<K, V>(s: seq<Pair<K, V>>, k: K, x: K)
    requires Unique(s) && Has(s, k) && x != k
    ensures Has(Remove(s, x), k) && MoreRecent(Remove(s, x), k) <= MoreRecent(s, k) && x !in MoreRecent(Remove(s, x), k)
  {
    hide Find;
    RemoveKeeps(s, x);
    LookupAfterRemove(s, x, k);
    var r, at, there := Remove(s, x), Find(s, k), Find(Remove(s, x), k);
    forall y | y in MoreRecent(r, k) ensures y in MoreRecent(s, k) && y != x {
      var j :| there < j < |r| && r[j].key == y;
      var from, back := if there < Find(s, x) then there else there + 1, if j < Find(s, x) then j else j + 1;
      assert s[from].key == k && s[back].key == y;
      FindIs(s, k, from);
    }
  }

  lemma RecentAfterAppend<K, V>(s: seq<Pair<K, V>>, k: K, last: Pair<K, V>)
    requires Has(s, k)
    ensures Has(s + [last], k) && MoreRecent(s + [last], k) == MoreRecent(s, k) + {last.key}
  {
    FindAppend(s, k, last);
    var t := s + [last];
    assert t[|s|] == last;
    forall y | y in MoreRecent(s, k) ensures y in MoreRecent(t, k) {
      var j :| Find(s, k) < j < |s| && s[j].key == y;
      assert t[j].key == y;
    }
  }

  lemma {:induction false} FindAppend<K, V>(s: seq<Pair<K, V>>, k: K, last: Pair<K, V>)
    ensures Find(s + [last], k) == if Has(s, k) then Find(s, k) else if last.key == k then |s| else |s| + 1
  {
    if s != [] {
      assert (s + [last])[0] == s[0] && (s + [last])[1..] == s[1..] + [last];
      FindAppend(s[1..], k, last);
    }
  }

  /** A key put at the end has none behind it. */
  lemma NoneMoreRecent<K, V>(s: seq<Pair<K, V>>, k: K, v: V)
    requires !Has(s, k)
    ensures Has(s + [Pair(k, v)], k) && MoreRecent(s + [Pair(k, v)], k) == {}
  {
    FindAppend(s, k, Pair(k, v));
  }

  lemma DropFirst<K, V>(s: seq<Pair<K, V>>, k: K)
    requires Unique(s) && Has(s, k) && Find(s, k) > 0
    ensures Has(s[1..], k) && MoreRecent(s[1..], k) == MoreRecent(s, k)
  {
    var r := s[1..];
    assert Find(s, k) == 1 + Find(r, k);
    forall y ensures y in MoreRecent(r, k) <==> y in MoreRecent(s, k) {
      if y in MoreRecent(r, k) {
        var j :| Find(r, k) < j < |r| && r[j].key == y;
        assert s[j + 1].key == y;
      }
      if y in MoreRecent(s, k) {
        var j :| Find(s, k) < j < |s| && s[j].key == y;
        assert r[j - 1].key == y;
      }
    }
  }

  /** When a key is first, all others are more recent. */
  lemma {:induction false} CountRecent<K, V>(s: seq<Pair<K, V>>, n: nat)
    requires Unique(s) && n <= |s|
    ensures var keys := set j | n <= j < |s| :: s[j].key; |keys| == |s| - n
    decreases |s| - n
  {
    var keys := set j | n <= j < |s| :: s[j].key;
    if n < |s| {
      CountRecent(s, n + 1);
      var rest := set j | n + 1 <= j < |s| :: s[j].key;
      assert keys == rest + {s[n].key};
      assert s[n].key !in rest;
    }
  }

  /** A full cache whose first key is `k`: so many others were used since. */
  lemma FirstMeansMany<K, V>(capacity: nat, s: seq<Pair<K, V>>, k: K, x: K, others: set<K>)
    requires capacity >= 1 && Unique(s) && |s| == capacity && Has(s, k) && Find(s, k) == 0 && !Has(s, x)
    requires MoreRecent(s, k) <= others && x in others
    ensures |others| >= capacity
  {
    CountRecent(s, 1);
    var keys := set j | 1 <= j < |s| :: s[j].key;
    assert keys == MoreRecent(s, k);
    assert x !in keys;
    SubsetIsSmaller(keys + {x}, others);
  }

  lemma StepRetains<K, V>(capacity: nat, s: seq<Pair<K, V>>, e: Event<K, V>, k: K, others: set<K>)
    requires capacity >= 1 && Unique(s) && |s| <= capacity && Has(s, k) && MoreRecent(s, k) <= others
    requires !(e.EraseEvent? && e.key == k) && |others| < capacity
    requires e.key != k && (e.PutEvent? || (e.GetEvent? && Has(s, e.key))) ==> e.key in others
    ensures var t := Step(capacity, s, e); Has(t, k) && MoreRecent(t, k) <= others
  {
    hide Find, MoreRecent;
    var x := e.key;
    LookupAfterRemove(s, x, x);
    if x != k {
      RecentAfterRemove(s, k, x);
    }
    if e.PutEvent? && !Has(s, x) {
      var kept := if |s| == capacity then s[1..] else s;
      if |s| == capacity {
        if Find(s, k) == 0 {
          FirstMeansMany(capacity, s, k, x, others);
        }
        DropFirst(s, k);
      }
      RecentAfterAppend(kept, k, Pair(x, e.value));
    } else if !e.EraseEvent? && Has(s, x) {
      var last := if e.PutEvent? then Pair(x, e.value) else s[Find(s, x)];
      if x == k {
        NoneMoreRecent(Remove(s, k), k, last.value);
      } else {
        RecentAfterAppend(Remove(s, x), k, last);
      }
    }
  }

  /** After a use of `k` nothing is more recent. */
  lemma UseIsMostRecent<K, V>(capacity: nat, p: seq<Event<K, V>>, e: Event<K, V>)
    requires capacity >= 1 && (e.PutEvent? || (e.GetEvent? && Has(Run(capacity, p), e.key)))
    ensures var t := Step(capacity, Run(capacity, p), e); Has(t, e.key) && MoreRecent(t, e.key) == {}
  {
    hide Run, Find, MoreRecent, LastUse, LastPut;
    var s, k := Run(capacity, p), e.key;
    RunIsLru(capacity, p);
    LookupAfterRemove(s, k, k);
    if Has(s, k) {
      NoneMoreRecent(Remove(s, k), k, if e.PutEvent? then e.value else s[Find(s, k)].value);
    } else {
      var kept := if |s| == capacity then s[1..] else s;
      TailHasNot(s, k);
      NoneMoreRecent(kept, k, e.value);
    }
  }

  lemma TailHasNot<K, V>(s: seq<Pair<K, V>>, k: K)
    requires !Has(s, k)
    ensures s != [] ==> !Has(s[1..], k)
  {
  }

  lemma {:induction false} RetainedAlong<K, V>(capacity: nat, es: seq<Event<K, V>>, i: nat)
    requires capacity >= 1 && i < |es| && Uses(capacity, es, i)
    requires forall j :: i < j < |es| ==> !(es[j].EraseEvent? && es[j].key == es[i].key)
    requires |OthersUsed(capacity, es, i)| < capacity
    ensures Has(Run(capacity, es), es[i].key)
    ensures MoreRecent(Run(capacity, es), es[i].key) <= OthersUsed(capacity, es, i)
    decreases |es|
  {
    hide Step, Find, MoreRecent, LastUse, LastPut;
    var p, e := es[..|es| - 1], es[|es| - 1];
    assert p + [e] == es && es[..|p|] == p;
    if i == |p| {
      UseIsMostRecent(capacity, p, e);
    } else {
      assert p[i] == es[i] && p[..i] == es[..i];
      OthersGrow(capacity, p, e, i);
      SubsetIsSmaller(OthersUsed(capacity, p, i), OthersUsed(capacity, es, i));
      RetainedAlong(capacity, p, i);
      RunIsLru(capacity, p);
      StepRetains(capacity, Run(capacity, p), e, es[i].key, OthersUsed(capacity, es, i));
    }
  }

  /** A key that was put or hit, and not erased since, is found with the value last
      put as long as fewer than `capacity` other keys were put or hit since. */
  lemma Retained<K, V>(capacity: nat, es: seq<Event<K, V>>, i: nat)
    requires capacity >= 1 && i < |es| && Uses(capacity, es, i)
    requires forall j :: i < j < |es| ==> !(es[j].EraseEvent? && es[j].key == es[i].key)
    requires |OthersUsed(capacity, es, i)| < capacity
    ensures Lookup(Run(capacity, es), es[i].key).Some?
    ensures Lookup(Run(capacity, es), es[i].key) == LastPut(es, es[i].key)
  {
    hide Run, LastPut, Uses, OthersUsed;
    RetainedAlong(capacity, es, i);
    HitIsLatest(capacity, es, es[i].key);
  }

  // ---------------------------------------------------------------------
  // The list of keys and the map of values with the nodes they belong to
  // ---------------------------------------------------------------------

  /** A node of the key list; the identity stands for the iterator. */
  datatype KeyNode<K> = KeyNode(id: nat, key: K)

  datatype Slot<V> = Slot(value: V, node: nat)

  /** List and map hold the same keys, and every value knows the node of its own key. */
  ghost predicate Tracks<K(!new), V>(keys: seq<KeyNode<K>>, values: map<K, Slot<V>>, next: nat) {
    && (forall i, j :: 0 <= i < j < |keys| ==> keys[i].key != keys[j].key && keys[i].id != keys[j].id)
    && (forall i :: 0 <= i < |keys| ==>
          keys[i].id < next && keys[i].key in values && values[keys[i].key].node == keys[i].id)
    && (forall k :: k in values ==> KeyNode(values[k].node, k) in keys)
  }

  ghost function Contents<K, V>(keys: seq<KeyNode<K>>, values: map<K, Slot<V>>): seq<Pair<K, V>>
    requires Held(keys, values)
  {
    seq(|keys|, i requires 0 <= i < |keys| => Pair(keys[i].key, values[keys[i].key].value))
  }

  ghost predicate Held<K, V>(keys: seq<KeyNode<K>>, values: map<K, Slot<V>>) {
    forall i :: 0 <= i < |keys| ==> keys[i].key in values
  }

  lemma TracksMeans<K(!new), V>(keys: seq<KeyNode<K>>, values: map<K, Slot<V>>, next: nat, k: K)
    requires Tracks(keys, values, next)
    ensures Held(keys, values) && Unique(Contents(keys, values))
    ensures k in values <==> Has(Contents(keys, values), k)
    ensures k in values ==>
              var i := Find(Contents(keys, values), k);
              keys[i] == KeyNode(values[k].node, k) && Contents(keys, values)[i] == Pair(k, values[k].value)
  {
    var s := Contents(keys, values);
    if k in values {
      var i :| 0 <= i < |keys| && keys[i] == KeyNode(values[k].node, k);
      FindIs(s, k, i);
    }
  }

  lemma AppendTracks<K(!new), V>(keys: seq<KeyNode<K>>, values: map<K, Slot<V>>, next: nat, id: nat, k: K, v: V)
    requires Tracks(keys, values, next) && k !in values && id < next && forall i :: 0 <= i < |keys| ==> keys[i].id != id
    ensures var keys', values' := keys + [KeyNode(id, k)], values[k := Slot(v, id)];
            Tracks(keys', values', next) && Contents(keys', values') == Contents(keys, values) + [Pair(k, v)]
  {
    var keys', values' := keys + [KeyNode(id, k)], values[k := Slot(v, id)];
    assert keys'[|keys|] == KeyNode(id, k);
    forall x | x in values' ensures KeyNode(values'[x].node, x) in keys' {}
  }

  lemma FreshNode<K(!new), V>(keys: seq<KeyNode<K>>, values: map<K, Slot<V>>, next: nat)
    requires Tracks(keys, values, next)
    ensures Tracks(keys, values, next + 1) && forall i :: 0 <= i < |keys| ==> keys[i].id != next
  {
  }

  lemma EraseTracks<K(!new), V>(keys: seq<KeyNode<K>>, values: map<K, Slot<V>>, next: nat, i: nat)
    requires Tracks(keys, values, next) && i < |keys|
    ensures var keys', values' := keys[..i] + keys[i + 1..], values - {keys[i].key};
            Tracks(keys', values', next) && Contents(keys', values') == Remove(Contents(keys, values), keys[i].key)
  {
    EraseNode(keys, values, next, i);
    EraseContents(keys, values, next, i);
  }

  lemma EraseNode<K(!new), V>(keys: seq<KeyNode<K>>, values: map<K, Slot<V>>, next: nat, i: nat)
    requires Tracks(keys, values, next) && i < |keys|
    ensures Tracks(keys[..i] + keys[i + 1..], values - {keys[i].key}, next)
  {
    var keys', values' := keys[..i] + keys[i + 1..], values - {keys[i].key};
    assert forall j :: 0 <= j < |keys'| ==> keys'[j] == keys[if j < i then j else j + 1];
    forall x | x in values' ensures KeyNode(values'[x].node, x) in keys' {
      var j :| 0 <= j < |keys| && keys[j] == KeyNode(values[x].node, x);
      assert keys'[if j < i then j else j - 1] == keys[j];
    }
  }

  lemma EraseContents<K(!new), V>(keys: seq<KeyNode<K>>, values: map<K, Slot<V>>, next: nat, i: nat)
    requires Tracks(keys, values, next) && i < |keys|
    requires Tracks(keys[..i] + keys[i + 1..], values - {keys[i].key}, next)
    ensures Contents(keys[..i] + keys[i + 1..], values - {keys[i].key}) == Remove(Contents(keys, values), keys[i].key)
  {
    hide Tracks;
    var keys', values', k := keys[..i] + keys[i + 1..], values - {keys[i].key}, keys[i].key;
    TracksMeans(keys, values, next, k);
    TracksMeans(keys', values', next, k);
    var s, t := Contents(keys, values), Contents(keys', values');
    FindIs(s, k, i);
    assert Remove(s, k) == s[..i] + s[i + 1..];
    forall j | 0 <= j < |t| ensures t[j] == (s[..i] + s[i + 1..])[j] {
      assert keys'[j] == keys[if j < i then j else j + 1];
    }
  }

  /** Moving a node to the end, with a new value. */
  lemma SpliceTracks<K(!new), V>(keys: seq<KeyNode<K>>, values: map<K, Slot<V>>, next: nat, i: nat, v: V)
    requires Tracks(keys, values, next) && i < |keys|
    ensures var k := keys[i].key;
            var keys', values' := keys[..i] + keys[i + 1..] + [keys[i]], values[k := Slot(v, keys[i].id)];
            Tracks(keys', values', next) && Contents(keys', values') == Remove(Contents(keys, values), k) + [Pair(k, v)]
  {
    var k, id, rest := keys[i].key, keys[i].id, keys[..i] + keys[i + 1..];
    EraseTracks(keys, values, next, i);
    OtherNodes(keys, values, next, i, rest);
    assert (values - {k})[k := Slot(v, id)] == values[k := Slot(v, id)];
    AppendAgain(rest, values - {k}, next, keys[i], v);
  }

  lemma OtherNodes<K(!new), V>(keys: seq<KeyNode<K>>, values: map<K, Slot<V>>, next: nat, i: nat, rest: seq<KeyNode<K>>)
    requires Tracks(keys, values, next) && i < |keys| && rest == keys[..i] + keys[i + 1..]
    ensures keys[i].id < next && forall j :: 0 <= j < |rest| ==> rest[j].id != keys[i].id
  {
    assert forall j :: 0 <= j < |rest| ==> rest[j] == keys[if j < i then j else j + 1];
  }

  lemma AppendAgain<K(!new), V>(keys: seq<KeyNode<K>>, values: map<K, Slot<V>>, next: nat, node: KeyNode<K>, v: V)
    requires Tracks(keys, values, next) && node.key !in values && node.id < next
    requires forall i :: 0 <= i < |keys| ==> keys[i].id != node.id
    ensures var keys', values' := keys + [node], values[node.key := Slot(v, node.id)];
            Tracks(keys', values', next) && Contents(keys', values') == Contents(keys, values) + [Pair(node.key, v)]
  {
    hide Tracks;
    AppendTracks(keys, values, next, node.id, node.key, v);
    assert KeyNode(node.id, node.key) == node;
  }

  class Cache<K(==, !new), V> {
    const capacity: nat
    var keys: seq<KeyNode<K>>
    var values: map<K, Slot<V>>
    var next: nat

    ghost predicate Valid()
      reads this
    {
      capacity >= 1 && |keys| <= capacity && Tracks(keys, values, next)
    }

    ghost function View(): seq<Pair<K, V>>
      reads this
      requires Valid()
    {
      Contents(keys, values)
    }

    constructor (capacity: nat)
      requires capacity >= 1
      ensures Valid() && View() == [] && this.capacity == capacity
    {
      this.capacity := capacity;
      keys := [];
      values := map[];
      next := 0;
    }

    method Put(k: K, v: V)
      requires Valid()
      modifies this
      ensures Valid() && View() == Step(capacity, old(View()), PutEvent(k, v))
    {
      hide Tracks, Find;
      TracksMeans(keys, values, next, k);
      if k !in values {
        Insert(k, v);
      } else {
        Use(k, v);
      }
    }

    method Get(k: K) returns (r: Option<V>)
      requires Valid()
      modifies this
      ensures Valid() && View() == Step(capacity, old(View()), GetEvent(k))
      ensures r == Lookup(old(View()), k)
    {
      hide Tracks, Find;
      TracksMeans(keys, values, next, k);
      if k in values {
        var v := values[k].value;
        Use(k, v);
        r := Some(v);
      } else {
        r := None;
      }
    }

    method Erase(k: K) returns (r: Option<V>)
      requires Valid()
      modifies this
      ensures Valid() && View() == Step(capacity, old(View()), EraseEvent(k))
      ensures r == Lookup(old(View()), k)
    {
      hide Tracks, Find;
      TracksMeans(keys, values, next, k);
      if k in values {
        var i := Deref(k);
        r := Some(values[k].value);
        EraseTracks(keys, values, next, i);
        keys := keys[..i] + keys[i + 1..];
        values := values - {k};
      } else {
        r := None;
      }
    }

    /** The place of the node stored with a key. */
    method Deref(k: K) returns (i: nat)
      requires Valid() && k in values
      ensures i < |keys| && keys[i].key == k && i == Find(View(), k)
    {
      TracksMeans(keys, values, next, k);
      ghost var at := Find(View(), k);
      i := 0;
      while keys[i].id != values[k].node
        invariant i <= at
        decreases at - i
      {
        i := i + 1;
      }
    }

    method Insert(k: K, v: V)
      requires Valid() && k !in values
      modifies this
      ensures Valid()
      ensures View() == (if |old(View())| == capacity then old(View())[1..] else old(View())) + [Pair(k, v)]
    {
      hide Tracks, Find;
      if |keys| == capacity {
        Evict();
      }
      FreshNode(keys, values, next);
      AppendTracks(keys, values, next + 1, next, k, v);
      keys := keys + [KeyNode(next, k)];
      values := values[k := Slot(v, next)];
      next := next + 1;
    }

    /** Move the node of a key to the end, and point at the last node. */
    method Use(k: K, v: V)
      requires Valid() && k in values
      modifies this
      ensures Valid() && View() == Remove(old(View()), k) + [Pair(k, v)]
    {
      hide Tracks, Find;
      var i := Deref(k);
      SpliceTracks(keys, values, next, i, v);
      keys := keys[..i] + keys[i + 1..] + [keys[i]];
      values := values[k := Slot(v, keys[|keys| - 1].id)];
    }

    /** Drop the key at the front. */
    method Evict()
      requires Valid() && keys != []
      modifies this
      ensures Valid() && View() == old(View())[1..] && |keys| == |old(keys)| - 1
      ensures values == old(values) - {old(keys)[0].key}
    {
      hide Tracks;
      FrontIsFirst(keys, values, next);
      EraseTracks(keys, values, next, 0);
      values := values - {keys[0].key};
      keys := keys[1..];
    }
  }

  lemma FrontIsFirst<K(!new), V>(keys: seq<KeyNode<K>>, values: map<K, Slot<V>>, next: nat)
    requires Tracks(keys, values, next) && keys != []
    ensures keys[..0] + keys[1..] == keys[1..]
    ensures Remove(Contents(keys, values), keys[0].key) == Contents(keys, values)[1..]
  {
    TracksMeans(keys, values, next, keys[0].key);
    RemoveHere(Contents(keys, values), keys[0].key);
  }
}
