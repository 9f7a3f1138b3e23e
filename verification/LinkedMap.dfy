/** `LinkedHashMap`: a map that remembers the order in which its keys were inserted. */
module LinkedMap {
  import opened Common

  datatype Pair<K, V> = Pair(key: K, value: V)

  // ---------------------------------------------------------------------
  // Specification: a list of pairs with different keys
  // ---------------------------------------------------------------------

  predicate Unique<K(==), V>(s: seq<Pair<K, V>>) {
    forall i, j :: 0 <= i < j < |s| ==> s[i].key != s[j].key
  }

  /** The position of a key, or the length when it is missing. */
  function Find<K(==), V>(s: seq<Pair<K, V>>, k: K): (i: nat)
    ensures i <= |s| && (i < |s| ==> s[i].key == k) && forall j :: 0 <= j < i ==> s[j].key != k
  {
    if s == [] || s[0].key == k then 0 else 1 + Find(s[1..], k)
  }

  predicate Has<K(==), V>(s: seq<Pair<K, V>>, k: K) {
    Find(s, k) < |s|
  }

  function Lookup<K(==), V>(s: seq<Pair<K, V>>, k: K): Option<V> {
    if Has(s, k) then Some(s[Find(s, k)].value) else None
  }

  function Put<K(==), V>(s: seq<Pair<K, V>>, k: K, v: V): seq<Pair<K, V>> {
    var i := Find(s, k);
    if i < |s| then s[i := Pair(k, v)] else s + [Pair(k, v)]
  }

  function Remove<K(==), V>(s: seq<Pair<K, V>>, k: K): seq<Pair<K, V>> {
    var i := Find(s, k);
    if i < |s| then s[..i] + s[i + 1..] else s
  }

  function KeysOf<K, V>(s: seq<Pair<K, V>>): seq<K> {
    seq(|s|, i requires 0 <= i < |s| => s[i].key)
  }

  function ValuesOf<K, V>(s: seq<Pair<K, V>>): seq<V> {
    seq(|s|, i requires 0 <= i < |s| => s[i].value)
  }

  /** The pairs with another key. */
  function Without<K(==), V>(s: seq<Pair<K, V>>, k: K): seq<Pair<K, V>> {
    if s == [] then [] else (if s[0].key == k then [] else [s[0]]) + Without(s[1..], k)
  }

  lemma FindIs<K, V>(s: seq<Pair<K, V>>, k: K, i: nat)
    requires Unique(s) && i < |s| && s[i].key == k
    ensures Find(s, k) == i
  {
  }

  lemma {:induction false} WithoutMissing<K, V>(s: seq<Pair<K, V>>, k: K)
    requires forall i :: 0 <= i < |s| ==> s[i].key != k
    ensures Without(s, k) == s
  {
    if s != [] {
      WithoutMissing(s[1..], k);
      assert s == [s[0]] + s[1..];
    }
  }

  /** Removing a key keeps exactly the other pairs, in order. */
  lemma {:induction false} RemoveIsWithout<K, V>(s: seq<Pair<K, V>>, k: K)
    requires Unique(s)
    ensures Remove(s, k) == Without(s, k)
  {
    if s != [] {
      var rest := s[1..];
      assert Unique(rest);
      assert s == [s[0]] + rest;
      if s[0].key == k {
        WithoutMissing(rest, k);
        RemoveHere(s, k);
      } else {
        RemoveIsWithout(rest, k);
        RemoveLater(s, k);
      }
    }
  }

  lemma RemoveHere<K, V>(s: seq<Pair<K, V>>, k: K)
    requires s != [] && s[0].key == k
    ensures Remove(s, k) == s[1..]
  {
    assert Find(s, k) == 0;
  }

  lemma RemoveLater<K, V>(s: seq<Pair<K, V>>, k: K)
    requires s != [] && s[0].key != k
    ensures Remove(s, k) == [s[0]] + Remove(s[1..], k)
  {
    var rest, i := s[1..], Find(s[1..], k);
    assert Find(s, k) == 1 + i;
    if i < |rest| {
      assert s[..1 + i] == [s[0]] + rest[..i] && s[1 + i + 1..] == rest[i + 1..];
    } else {
      assert s == [s[0]] + rest;
    }
  }

  /** What a lookup answers after an update or a removal. */
  lemma LookupAfter<K, V>(s: seq<Pair<K, V>>, k: K, v: V, other: K)
    requires Unique(s)
    ensures Unique(Put(s, k, v)) && Unique(Remove(s, k))
    ensures Lookup(Put(s, k, v), other) == if other == k then Some(v) else Lookup(s, other)
    ensures Lookup(Remove(s, k), other) == if other == k then None else Lookup(s, other)
  {
    LookupAfterPut(s, k, v, other);
    LookupAfterRemove(s, k, other);
  }

  lemma LookupAfterPut<K, V>(s: seq<Pair<K, V>>, k: K, v: V, other: K)
    requires Unique(s)
    ensures Unique(Put(s, k, v))
    ensures Lookup(Put(s, k, v), other) == if other == k then Some(v) else Lookup(s, other)
  {
    var p := Put(s, k, v);
    var i := Find(s, other);
    if other == k {
      FindIs(p, k, if i < |s| then i else |s|);
    } else if i < |s| {
      FindIs(p, other, i);
    } else {
      assert forall j :: 0 <= j < |p| ==> p[j].key != other;
    }
  }

  lemma LookupAfterRemove<K, V>(s: seq<Pair<K, V>>, k: K, other: K)
    requires Unique(s)
    ensures Unique(Remove(s, k))
    ensures Lookup(Remove(s, k), other) == if other == k then None else Lookup(s, other)
  {
    var p, at, i := Remove(s, k), Find(s, k), Find(s, other);
    if at < |s| {
      assert forall j :: 0 <= j < |p| ==> p[j] == s[if j < at then j else j + 1];
      if i < |s| && other != k {
        FindIs(p, other, if i < at then i else i - 1);
      }
    }
  }

  /** Updating a key keeps the order of insertion; a new key comes last. */
  lemma OrderOfInsertion<K, V>(s: seq<Pair<K, V>>, k: K, v: V)
    ensures KeysOf(Put(s, k, v)) == if Has(s, k) then KeysOf(s) else KeysOf(s) + [k]
  {
  }

  /** Inserting a missing key and erasing it again changes nothing. */
  lemma PutThenRemove<K, V>(s: seq<Pair<K, V>>, k: K, v: V)
    requires Unique(s)
    ensures Remove(Put(s, k, v), k) == Remove(s, k)
  {
    var i := Find(s, k);
    LookupAfterPut(s, k, v, k);
    FindIs(Put(s, k, v), k, i);
  }

  // ---------------------------------------------------------------------
  // The list of entries and the index into it
  // ---------------------------------------------------------------------

  /** A list node; the identity stands for the iterator, which stays valid while
      other nodes are inserted or erased. */
  datatype Node<K, V> = Node(id: nat, key: K, value: V)

  ghost function Pairs<K, V>(entries: seq<Node<K, V>>): seq<Pair<K, V>> {
    seq(|entries|, i requires 0 <= i < |entries| => Pair(entries[i].key, entries[i].value))
  }

  /** The index holds exactly the keys of the list, and points at their nodes. */
  ghost predicate Linked<K(!new), V>(entries: seq<Node<K, V>>, keys: map<K, nat>, next: nat) {
    && Unique(Pairs(entries))
    && (forall i, j :: 0 <= i < j < |entries| ==> entries[i].id != entries[j].id)
    && (forall i :: 0 <= i < |entries| ==>
          entries[i].id < next && entries[i].key in keys && keys[entries[i].key] == entries[i].id)
    && (forall k :: k in keys ==> Has(Pairs(entries), k))
  }

  lemma LinkedMeans<K(!new), V>(entries: seq<Node<K, V>>, keys: map<K, nat>, next: nat, k: K)
    requires Linked(entries, keys, next)
    ensures k in keys <==> Has(Pairs(entries), k)
    ensures k in keys ==> keys[k] == entries[Find(Pairs(entries), k)].id
  {
    var i := Find(Pairs(entries), k);
    assert i < |entries| ==> entries[i].key == Pairs(entries)[i].key == k;
  }

  lemma LinkedInsert<K(!new), V>(entries: seq<Node<K, V>>, keys: map<K, nat>, next: nat, k: K, v: V)
    requires Linked(entries, keys, next) && k !in keys
    ensures Linked(entries + [Node(next, k, v)], keys[k := next], next + 1)
    ensures Pairs(entries + [Node(next, k, v)]) == Put(Pairs(entries), k, v) == Pairs(entries) + [Pair(k, v)]
  {
    LinkedMeans(entries, keys, next, k);
    var s, s' := Pairs(entries), Pairs(entries + [Node(next, k, v)]);
    assert s' == s + [Pair(k, v)] == Put(s, k, v);
    forall x | x in keys[k := next] ensures Has(s', x) {
      LookupAfterPut(s, k, v, x);
    }
    forall i | 0 <= i < |entries| ensures entries[i].key != k {
      assert entries[i].key in keys;
    }
    LookupAfterPut(s, k, v, k);
  }

  lemma LinkedAssign<K(!new), V>(entries: seq<Node<K, V>>, keys: map<K, nat>, next: nat, i: nat, v: V)
    requires Linked(entries, keys, next) && i < |entries|
    ensures var entries' := entries[i := entries[i].(value := v)];
            Linked(entries', keys, next) && Pairs(entries') == Put(Pairs(entries), entries[i].key, v)
  {
    var k, entries' := entries[i].key, entries[i := entries[i].(value := v)];
    var s, s' := Pairs(entries), Pairs(entries');
    FindIs(s, k, i);
    assert s' == s[i := Pair(k, v)];
    forall x | x in keys ensures Has(s', x) {
      LookupAfterPut(s, k, v, x);
    }
    LookupAfterPut(s, k, v, k);
  }

  lemma LinkedErase<K(!new), V>(entries: seq<Node<K, V>>, keys: map<K, nat>, next: nat, i: nat)
    requires Linked(entries, keys, next) && i < |entries|
    ensures var entries' := entries[..i] + entries[i + 1..];
            Linked(entries', keys - {entries[i].key}, next) && Pairs(entries') == Remove(Pairs(entries), entries[i].key)
  {
    hide Find, Unique, Pairs;
    var k, entries' := entries[i].key, entries[..i] + entries[i + 1..];
    var s := Pairs(entries);
    EraseFirst(entries, i);
    EraseNodes(entries, keys, next, i);
    forall x | x in keys - {k} ensures Has(Pairs(entries'), x) {
      LookupAfterRemove(s, k, x);
    }
    LookupAfterRemove(s, k, k);
  }

  lemma EraseFirst<K, V>(entries: seq<Node<K, V>>, i: nat)
    requires Unique(Pairs(entries)) && i < |entries|
    ensures Pairs(entries[..i] + entries[i + 1..]) == Remove(Pairs(entries), entries[i].key)
  {
    hide Find;
    FindIs(Pairs(entries), entries[i].key, i);
    ErasePairs(entries, i);
  }

  lemma EraseNodes<K(!new), V>(entries: seq<Node<K, V>>, keys: map<K, nat>, next: nat, i: nat)
    requires Linked(entries, keys, next) && i < |entries|
    ensures var rest, keys' := entries[..i] + entries[i + 1..], keys - {entries[i].key};
            && (forall a, b :: 0 <= a < b < |rest| ==> rest[a].id != rest[b].id)
            && (forall a :: 0 <= a < |rest| ==>
                  rest[a].id < next && rest[a].key in keys' && keys'[rest[a].key] == rest[a].id)
  {
    hide Has, Find;
    var rest := entries[..i] + entries[i + 1..];
    assert forall a :: 0 <= a < |rest| ==> rest[a] == entries[if a < i then a else a + 1];
    forall a | 0 <= a < |rest| ensures rest[a].key != entries[i].key {
      var at := if a < i then a else a + 1;
      assert entries[at].id != entries[i].id;
    }
  }

  lemma ErasePairs<K, V>(entries: seq<Node<K, V>>, i: nat)
    requires i < |entries|
    ensures Pairs(entries[..i] + entries[i + 1..]) == Pairs(entries)[..i] + Pairs(entries)[i + 1..]
  {
  }

  class LinkedHashMap<K(==, !new), V> {
    var entries: seq<Node<K, V>>
    var keys: map<K, nat>
    var next: nat
    const initial: V

    ghost predicate Valid()
      reads this
    {
      Linked(entries, keys, next)
    }

    ghost function Contents(): seq<Pair<K, V>>
      reads this
    {
      Pairs(entries)
    }

    constructor (initial: V)
      ensures Valid() && Contents() == [] && this.initial == initial
    {
      this.initial := initial;
      entries := [];
      keys := map[];
      next := 0;
    }

    method Contains(k: K) returns (found: bool)
      requires Valid()
      ensures found == Has(Contents(), k)
    {
      hide Linked;
      LinkedMeans(entries, keys, next, k);
      found := k in keys;
    }

    /** The node an iterator points to. */
    method Deref(k: K) returns (i: nat)
      requires Valid() && k in keys
      ensures i < |entries| && entries[i].key == k && i == Find(Contents(), k)
    {
      LinkedMeans(entries, keys, next, k);
      ghost var at := Find(Contents(), k);
      assert entries[at].key == Contents()[at].key;
      i := 0;
      while entries[i].id != keys[k]
        invariant i <= at
        decreases at - i
      {
        i := i + 1;
      }
    }

    /** `operator[]`, read: a missing key is inserted with the initial value. */
    method Touch(k: K) returns (v: V)
      requires Valid()
      modifies this
      ensures Valid()
      ensures Contents() == if Has(old(Contents()), k) then old(Contents()) else Put(old(Contents()), k, initial)
      ensures Lookup(Contents(), k) == Some(v)
    {
      hide Linked;
      Ensure(k);
      LinkedMeans(entries, keys, next, k);
      var i := Deref(k);
      v := entries[i].value;
    }

    method Ensure(k: K)
      requires Valid()
      modifies this
      ensures Valid() && k in keys
      ensures Contents() == if Has(old(Contents()), k) then old(Contents()) else Put(old(Contents()), k, initial)
    {
      hide Linked;
      LinkedMeans(entries, keys, next, k);
      if k !in keys {
        LinkedInsert(entries, keys, next, k, initial);
        entries := entries + [Node(next, k, initial)];
        keys := keys[k := next];
        next := next + 1;
      }
    }

    /** `operator[]` assigned to. */
    method Set(k: K, v: V)
      requires Valid()
      modifies this
      ensures Valid() && Contents() == Put(old(Contents()), k, v)
    {
      hide Linked;
      LinkedIsUnique(entries, keys, next);
      PutTwice(Contents(), k, initial, v);
      Ensure(k);
      var i := Deref(k);
      LinkedAssign(entries, keys, next, i, v);
      entries := entries[i := entries[i].(value := v)];
    }

    method Get(k: K) returns (v: Option<V>)
      requires Valid()
      ensures v == Lookup(Contents(), k)
    {
      hide Linked;
      LinkedMeans(entries, keys, next, k);
      if k in keys {
        var i := Deref(k);
        v := Some(entries[i].value);
      } else {
        v := None;
      }
    }

    method Erase(k: K) returns (n: nat)
      requires Valid()
      modifies this
      ensures Valid() && Contents() == Remove(old(Contents()), k)
      ensures n == if Has(old(Contents()), k) then 1 else 0
    {
      hide Linked;
      LinkedMeans(entries, keys, next, k);
      if k !in keys {
        return 0;
      }
      var i := Deref(k);
      LinkedErase(entries, keys, next, i);
      entries := entries[..i] + entries[i + 1..];
      keys := keys - {k};
      n := 1;
    }

    method Values() returns (values: seq<V>)
      requires Valid()
      ensures values == ValuesOf(Contents())
    {
      values := [];
      for i := 0 to |entries|
        invariant values == ValuesOf(Contents())[..i]
      {
        values := values + [entries[i].value];
      }
    }

    method Keys() returns (result: seq<K>)
      requires Valid()
      ensures result == KeysOf(Contents())
    {
      result := [];
      for i := 0 to |entries|
        invariant result == KeysOf(Contents())[..i]
      {
        result := result + [entries[i].key];
      }
    }
  }

  lemma LinkedIsUnique<K(!new), V>(entries: seq<Node<K, V>>, keys: map<K, nat>, next: nat)
    requires Linked(entries, keys, next)
    ensures Unique(Pairs(entries))
  {
  }

  lemma PutTwice<K, V>(s: seq<Pair<K, V>>, k: K, v: V, w: V)
    requires Unique(s)
    ensures Put(Put(s, k, v), k, w) == Put(s, k, w)
  {
    LookupAfterPut(s, k, v, k);
    FindIs(Put(s, k, v), k, Find(s, k));
  }
}
