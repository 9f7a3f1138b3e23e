/** Replaying a checkpoint does not depend on the order of its resources. */
module CheckpointOrder {
  import opened Common
  import opened Values
  import opened ResourceModel
  import opened Validation
  import opened Pool
  import opened PoolMap
  import opened PoolLaws
  import opened Totals
  import opened Operations
  import opened Conservation
  import opened Checkpoint

  /** Both fail, or both succeed with pools that stand for the same map. */
  ghost predicate Alike(left: Try<seq<Entry>>, right: Try<seq<Entry>>) {
    && left.Ok? == right.Ok?
    && (left.Ok? ==> Pool.Valid(left.value) && Pool.Valid(right.value) && SameMap(left.value, right.value))
  }

  lemma AlikeTransitive(a: Try<seq<Entry>>, b: Try<seq<Entry>>, c: Try<seq<Entry>>)
    requires Alike(a, b) && Alike(b, c)
    ensures Alike(a, c)
  {
    hide Pool.Valid, Qty;
    if a.Ok? {
      forall key ensures Qty(a.value, key) == Qty(c.value, key) {
        assert Qty(a.value, key) == Qty(b.value, key);
        assert Qty(b.value, key) == Qty(c.value, key);
      }
    }
  }

  /** A step sees only the map of the pool. */
  lemma StepAlike(p: seq<Entry>, q: seq<Entry>, r: Resource)
    requires Pool.Valid(p) && Pool.Valid(q) && SameMap(p, q) && Checkpointable(r)
    ensures Alike(ReplayOne(p, r), ReplayOne(q, r))
  {
    hide NoTwoAddable, NoneEmpty, AllWellFormed, Qty, ReplayOne, Checkpointable, Stepped, KeyOf, Amount, Strip;
    ReplayOneIsMove(p, r);
    ReplayOneIsMove(q, r);
    assert Qty(p, KeyOf(Strip(r))) == Qty(q, KeyOf(Strip(r)));
    if ReplayOne(p, r).Ok? {
      ReplayOneQty(p, r);
      ReplayOneQty(q, r);
      forall key ensures Qty(ReplayOne(p, r).value, key) == Qty(ReplayOne(q, r).value, key) {
        assert Qty(p, key) == Qty(q, key);
      }
    }
  }

  lemma {:induction false} ReplayAlike(p: seq<Entry>, q: seq<Entry>, rs: seq<Resource>)
    requires Pool.Valid(p) && Pool.Valid(q) && SameMap(p, q) && AllCheckpointable(rs)
    ensures Alike(Replay(p, rs), Replay(q, rs))
    decreases rs
  {
    hide Pool.Valid, Qty, ReplayOne, Checkpointable;
    if rs != [] {
      StepAlike(p, q, rs[0]);
      if ReplayOne(p, rs[0]).Ok? {
        ReplayAlike(ReplayOne(p, rs[0]).value, ReplayOne(q, rs[0]).value, rs[1..]);
      }
    }
  }

  // ---------------------------------------------------------------------
  // Two steps commute
  // ---------------------------------------------------------------------

  function Two(pool: seq<Entry>, a: Resource, b: Resource): Try<seq<Entry>> {
    var first := ReplayOne(pool, a);
    if first.Error? then Error else ReplayOne(first.value, b)
  }

  /** Taking two amounts in turn works in one order exactly when it works in the other. */
  lemma TakingCommutes(q: Quantity, x: Quantity, y: Quantity)
    requires SameUnit(q, x) && SameUnit(x, y) && Natural(q) && Natural(x) && Natural(y)
    ensures AtMost(x, q) && AtMost(y, Take(q, x)) <==> AtMost(y, q) && AtMost(x, Take(q, y))
    ensures Take(Take(q, x), y) == Take(Take(q, y), x)
    ensures Sum(Sum(q, x), y) == Sum(Sum(q, y), x)
  {
  }

  lemma SteppedCommutes(q: Quantity, a: Resource, b: Resource, key: Resource)
    requires Checkpointable(a) && Checkpointable(b) && Natural(q) && SameUnit(q, ZeroAt(key))
    ensures Stepped(Stepped(q, a, key), b, key) == Stepped(Stepped(q, b, key), a, key)
  {
    hide Checkpointable, Amount, KeyOf, Strip, NeedCheckpointing, Sum, Take, ZeroAt;
    StrippedIsPlain(a);
    StrippedIsPlain(b);
    AmountIsNatural(ToEntry(a), key);
    AmountIsNatural(ToEntry(b), key);
    AmountIsNatural(ToEntry(Strip(a)), key);
    AmountIsNatural(ToEntry(Strip(b)), key);
    TakingCommutes(q, At(ToEntry(a), key), At(ToEntry(b), key));
    TakingCommutes(q, At(ToEntry(Strip(a)), key), At(ToEntry(Strip(b)), key));
  }

  /** When two steps both succeed, seen at the keys they take from. */
  lemma TwoSucceeds(pool: seq<Entry>, a: Resource, b: Resource)
    requires Pool.Valid(pool) && Checkpointable(a) && Checkpointable(b)
    ensures Two(pool, a, b).Ok? <==>
            var x, y := ToEntry(Strip(a)), ToEntry(Strip(b));
            && NeedCheckpointing(a) && NeedCheckpointing(b)
            && AtMost(Amount(x), Qty(pool, Key(x)))
            && AtMost(Amount(y), Take(Qty(pool, Key(y)), At(x, Key(y))))
  {
    hide NoTwoAddable, NoneEmpty, AllWellFormed, Qty, ReplayOne, Checkpointable, KeyOf, Amount, Strip, NeedCheckpointing;
    StrippedIsPlain(b);
    ReplayOneIsMove(pool, a);
    if ReplayOne(pool, a).Ok? {
      ReplayOneQty(pool, a);
      ReplayOneIsMove(ReplayOne(pool, a).value, b);
    }
  }

  lemma SuccessCommutes(pool: seq<Entry>, a: Resource, b: Resource)
    requires Pool.Valid(pool) && Checkpointable(a) && Checkpointable(b)
    requires Two(pool, a, b).Ok?
    ensures Two(pool, b, a).Ok?
  {
    hide NoTwoAddable, NoneEmpty, Qty, Two, Checkpointable, KeyOf, Amount, Strip, NeedCheckpointing, WellFormedEntry, ZeroAt;
    TwoSucceeds(pool, a, b);
    TwoSucceeds(pool, b, a);
    StrippedIsPlain(a);
    StrippedIsPlain(b);
    var x, y := ToEntry(Strip(a)), ToEntry(Strip(b));
    QtyIsNatural(pool, Key(x));
    QtyIsNatural(pool, Key(y));
    AmountIsNatural(x, Key(x));
    AmountIsNatural(y, Key(y));
    if Key(x) == Key(y) {
      TakingCommutes(Qty(pool, Key(x)), Amount(x), Amount(y));
    } else {
      ZeroIsNeutral(Qty(pool, Key(x)), Key(x));
      ZeroIsNeutral(Qty(pool, Key(y)), Key(y));
    }
  }

  lemma StepsCommute(pool: seq<Entry>, a: Resource, b: Resource)
    requires Pool.Valid(pool) && Checkpointable(a) && Checkpointable(b)
    ensures Alike(Two(pool, a, b), Two(pool, b, a))
  {
    hide NoTwoAddable, NoneEmpty, Qty, ReplayOne, Checkpointable, Stepped, WellFormedEntry;
    if Two(pool, a, b).Ok? {
      SuccessCommutes(pool, a, b);
      ReplayOneQty(pool, a);
      ReplayOneQty(ReplayOne(pool, a).value, b);
      ReplayOneQty(pool, b);
      ReplayOneQty(ReplayOne(pool, b).value, a);
      forall key ensures Qty(Two(pool, a, b).value, key) == Qty(Two(pool, b, a).value, key) {
        QtyIsNatural(pool, key);
        SteppedCommutes(Qty(pool, key), a, b, key);
      }
    } else if Two(pool, b, a).Ok? {
      SuccessCommutes(pool, b, a);
    }
  }

  // ---------------------------------------------------------------------
  // Any permutation
  // ---------------------------------------------------------------------

  lemma SwapFirstTwo(pool: seq<Entry>, a: Resource, b: Resource, rest: seq<Resource>)
    requires Pool.Valid(pool) && Checkpointable(a) && Checkpointable(b) && AllCheckpointable(rest)
    ensures Alike(Replay(pool, [a] + ([b] + rest)), Replay(pool, [b] + ([a] + rest)))
  {
    hide Pool.Valid, Qty, ReplayOne, Checkpointable;
    StepsCommute(pool, a, b);
    ReplayTwo(pool, a, b, rest);
    ReplayTwo(pool, b, a, rest);
    if Two(pool, a, b).Ok? {
      ReplayAlike(Two(pool, a, b).value, Two(pool, b, a).value, rest);
    }
  }

  lemma ReplayTwo(pool: seq<Entry>, a: Resource, b: Resource, rest: seq<Resource>)
    ensures Replay(pool, [a] + ([b] + rest)) ==
              if Two(pool, a, b).Error? then Error else Replay(Two(pool, a, b).value, rest)
  {
    hide ReplayOne;
    var list := [a] + ([b] + rest);
    assert list[1..] == [b] + rest && ([b] + rest)[1..] == rest;
  }

  /** Any resource of the checkpoint can be replayed first. */
  lemma {:induction false} MoveToFront(pool: seq<Entry>, rs: seq<Resource>, i: nat)
    requires Pool.Valid(pool) && AllCheckpointable(rs) && i < |rs|
    ensures Alike(Replay(pool, rs), Replay(pool, [rs[i]] + RemoveAt(rs, i)))
    decreases i
  {
    hide NoTwoAddable, NoneEmpty, AllWellFormed, Qty, ReplayOne, Checkpointable, Alike;
    var front := [rs[i]] + RemoveAt(rs, i);
    if i == 0 {
      assert front == rs;
      ReplayIsValid(pool, rs);
    } else {
      var head, tail := rs[0], rs[1..];
      var rest := RemoveAt(tail, i - 1);
      var middle := [head] + ([rs[i]] + rest);
      assert rs == [head] + tail && tail[i - 1] == rs[i];
      assert front == [rs[i]] + ([head] + rest);
      assert Alike(Replay(pool, rs), Replay(pool, middle)) by {
        TailAlike(pool, head, tail, i - 1);
      }
      SwapFirstTwo(pool, head, rs[i], rest);
      AlikeTransitive(Replay(pool, rs), Replay(pool, middle), Replay(pool, front));
    }
  }

  lemma TailAlike(pool: seq<Entry>, head: Resource, tail: seq<Resource>, i: nat)
    requires Pool.Valid(pool) && Checkpointable(head) && AllCheckpointable(tail) && i < |tail|
    ensures Alike(Replay(pool, [head] + tail), Replay(pool, [head] + ([tail[i]] + RemoveAt(tail, i))))
    decreases i + 1, 0
  {
    hide NoTwoAddable, NoneEmpty, AllWellFormed, Qty, ReplayOne, Checkpointable, RemoveAt;
    var front := [tail[i]] + RemoveAt(tail, i);
    assert ([head] + tail)[1..] == tail && ([head] + front)[1..] == front;
    if ReplayOne(pool, head).Ok? {
      ReplayOneQty(pool, head);
      MoveToFront(ReplayOne(pool, head).value, tail, i);
    }
  }

  lemma {:induction false} ReplayIsValid(pool: seq<Entry>, rs: seq<Resource>)
    requires Pool.Valid(pool) && AllCheckpointable(rs)
    ensures Alike(Replay(pool, rs), Replay(pool, rs))
    decreases rs
  {
    hide NoTwoAddable, NoneEmpty, AllWellFormed, Qty, ReplayOne, Checkpointable;
    if rs != [] && ReplayOne(pool, rs[0]).Ok? {
      ReplayOneQty(pool, rs[0]);
      ReplayIsValid(ReplayOne(pool, rs[0]).value, rs[1..]);
    }
  }

  /** Two orders of one checkpoint both fail, or give pools with one map. */
  lemma {:induction false} ReplayPermutes(pool: seq<Entry>, rs: seq<Resource>, ss: seq<Resource>)
    requires Pool.Valid(pool) && AllCheckpointable(rs) && multiset(rs) == multiset(ss)
    ensures Alike(Replay(pool, rs), Replay(pool, ss))
    decreases rs
  {
    hide NoTwoAddable, NoneEmpty, AllWellFormed, Qty, ReplayOne, Checkpointable, Alike;
    if rs == [] {
      assert |multiset(ss)| == 0;
      assert ss == [];
      ReplayIsValid(pool, rs);
    } else {
      var i, rest := Locate(rs, ss);
      assert AllCheckpointable(ss) by {
        SameMembers(rs, ss);
      }
      MoveToFront(pool, ss, i);
      var front := [rs[0]] + rest;
      assert Alike(Replay(pool, rs), Replay(pool, front)) by {
        HeadAlike(pool, rs, rest);
      }
      AlikeSymmetric(Replay(pool, ss), Replay(pool, front));
      AlikeTransitive(Replay(pool, rs), Replay(pool, front), Replay(pool, ss));
    }
  }

  lemma HeadAlike(pool: seq<Entry>, rs: seq<Resource>, rest: seq<Resource>)
    requires Pool.Valid(pool) && AllCheckpointable(rs) && rs != [] && multiset(rs[1..]) == multiset(rest)
    ensures Alike(Replay(pool, rs), Replay(pool, [rs[0]] + rest))
    decreases rs, 0
  {
    hide NoTwoAddable, NoneEmpty, AllWellFormed, Qty, ReplayOne, Checkpointable;
    assert ([rs[0]] + rest)[1..] == rest;
    if ReplayOne(pool, rs[0]).Ok? {
      ReplayOneQty(pool, rs[0]);
      ReplayPermutes(ReplayOne(pool, rs[0]).value, rs[1..], rest);
    }
  }

  lemma AlikeSymmetric(a: Try<seq<Entry>>, b: Try<seq<Entry>>)
    requires Alike(a, b)
    ensures Alike(b, a)
  {
    hide Pool.Valid, Qty;
    if a.Ok? {
      forall key ensures Qty(b.value, key) == Qty(a.value, key) {
        assert Qty(a.value, key) == Qty(b.value, key);
      }
    }
  }

  lemma Locate(rs: seq<Resource>, ss: seq<Resource>) returns (i: nat, rest: seq<Resource>)
    requires rs != [] && multiset(rs) == multiset(ss)
    ensures i < |ss| && ss[i] == rs[0] && rest == RemoveAt(ss, i)
    ensures multiset(rs[1..]) == multiset(rest)
  {
    assert rs[0] in multiset(rs);
    i :| 0 <= i < |ss| && ss[i] == rs[0];
    rest := RemoveAt(ss, i);
    assert rs == [rs[0]] + rs[1..];
    assert ss == ss[..i] + ([ss[i]] + ss[i + 1..]);
    assert multiset(ss) == multiset(ss[..i]) + multiset{ss[i]} + multiset(ss[i + 1..]);
    assert multiset(rest) == multiset(ss[..i]) + multiset(ss[i + 1..]);
    assert multiset(rs) == multiset{rs[0]} + multiset(rs[1..]);
    assert multiset(rest) == multiset(ss) - multiset{ss[i]};
    assert multiset(rs[1..]) == multiset(rs) - multiset{rs[0]};
  }

  lemma SameMembers(rs: seq<Resource>, ss: seq<Resource>)
    requires multiset(rs) == multiset(ss) && AllCheckpointable(rs)
    ensures AllCheckpointable(ss)
  {
    forall i | 0 <= i < |ss| ensures Checkpointable(ss[i]) {
      assert ss[i] in multiset(ss);
      assert ss[i] in rs;
    }
  }

  // ---------------------------------------------------------------------
  // An agent and its checkpoint
  // ---------------------------------------------------------------------

  ghost function ResourcesOf(pool: seq<Entry>): seq<Resource> {
    seq(|pool|, i requires 0 <= i < |pool| => pool[i].resource)
  }

  predicate NoneShared(pool: seq<Entry>) {
    forall i :: 0 <= i < |pool| ==> !pool[i].resource.shared
  }

  /** The entries of a checkpoint pool are checkpointable, and a shared one is there once. */
  lemma CheckpointPool(agent: seq<Entry>, checkpoint: seq<Entry>)
    requires Pool.Valid(agent) && NoneShared(agent)
    requires Pool.Valid(checkpoint) && forall i :: 0 <= i < |checkpoint| ==> Usable(checkpoint[i].resource)
    ensures AllCheckpointable(ResourcesOf(checkpoint))
    ensures SharedArriveOnce(agent, ResourcesOf(checkpoint))
  {
    hide Usable, NoTwoAddable, KeyOf;
    var rs := ResourcesOf(checkpoint);
    forall i | 0 <= i < |rs| && rs[i].shared ensures Qty(agent, KeyOf(rs[i])) == Count(0) {
      KeyIsFixed(rs[i]);
      forall j | 0 <= j < |agent| ensures Key(agent[j]) != KeyOf(rs[i]) {
        KeyIsFixed(agent[j].resource);
      }
      QtyAbsent(agent, KeyOf(rs[i]));
    }
    forall i, j | 0 <= i < j < |rs| && rs[i].shared ensures KeyOf(rs[i]) != KeyOf(rs[j]) {
      KeysApart(checkpoint, i, j);
    }
  }

  /** The main theorem on replay: starting from an agent without shared resources,
      in whatever order the checkpoint is read, replay fails or succeeds alike; on
      success the totals are the agent's, every checkpointed resource is contained
      in the result, and results of different orders are equal. */
  lemma AgentReplay(agent: seq<Entry>, checkpoint: seq<Entry>, order: seq<Resource>)
    requires Pool.Valid(agent) && NoneShared(agent)
    requires Pool.Valid(checkpoint) && forall i :: 0 <= i < |checkpoint| ==> Usable(checkpoint[i].resource)
    requires multiset(order) == multiset(ResourcesOf(checkpoint))
    ensures var listed, reordered := Replay(agent, ResourcesOf(checkpoint)), Replay(agent, order);
            && listed.Ok? == reordered.Ok?
            && (listed.Ok? ==>
                  && PoolEq(listed.value, reordered.value)
                  && SameTotals(agent, listed.value)
                  && forall i :: 0 <= i < |checkpoint| ==> ContainsResource(listed.value, checkpoint[i].resource))
  {
    hide Usable, NoTwoAddable, NoneEmpty, AllWellFormed, KeyOf, Qty, Replay, AllCheckpointable, SharedArriveOnce,
      ContainsResource, Total, PoolEq;
    var rs := ResourcesOf(checkpoint);
    CheckpointPool(agent, checkpoint);
    ReplayPermutes(agent, rs, order);
    var listed := Replay(agent, rs);
    if listed.Ok? {
      SameMapIsEq(listed.value, Replay(agent, order).value);
      ReplayConserves(agent, rs);
      forall i | 0 <= i < |checkpoint| ensures ContainsResource(listed.value, checkpoint[i].resource) {
        ReplayContains(agent, rs, i);
      }
    }
  }
}
