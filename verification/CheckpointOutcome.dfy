/** Exactly when a replay succeeds and what it makes of the agent's resources, told
    on the amounts the agent has under each key. */
module CheckpointOutcome {
  import opened Common
  import opened Values
  import opened ResourceModel
  import opened Validation
  import opened Pool
  import opened PoolMap
  import opened Operations
  import opened Checkpoint

  // ---------------------------------------------------------------------
  // Where a checkpointed resource comes from
  // ---------------------------------------------------------------------

  function Statics(rs: seq<ReservationInfo>): seq<ReservationInfo> {
    if rs == [] then []
    else (if rs[0].kind == Some(STATIC) then [rs[0]] else []) + Statics(rs[1..])
  }

  predicate EndsDynamic(rs: seq<ReservationInfo>) {
    |rs| > 0 && rs[|rs| - 1].kind == Some(DYNAMIC)
  }

  /** What the agent was started with: never shared, no persistent volume, and under
      a dynamic reservation only what is static. */
  function Origin(r: Resource): Resource {
    var disk := match r.disk
                case Some(DiskInfo(Some(source), Some(_), _)) => Some(DiskInfo(Some(source), None, None))
                case Some(DiskInfo(None, Some(_), _)) => None
                case _ => r.disk;
    r.(reservations := if EndsDynamic(r.reservations) then Statics(r.reservations) else r.reservations,
       disk := disk,
       shared := false)
  }

  predicate Belongs(r: Resource) {
    EndsDynamic(r.reservations) || (r.disk.Some? && r.disk.value.persistence.Some?)
  }

  lemma {:induction false} NoStatics(rs: seq<ReservationInfo>)
    requires forall i :: 0 <= i < |rs| ==> rs[i].kind != Some(STATIC)
    ensures Statics(rs) == []
  {
    if rs != [] {
      NoStatics(rs[1..]);
    }
  }

  /** Only the first reservation of a valid stack can be static. */
  lemma StaticsOfStack(r: Resource)
    requires Checkpointable(r) && |r.reservations| > 0
    ensures Statics(r.reservations) == if r.reservations[0].kind == Some(STATIC) then [r.reservations[0]] else []
  {
    var rest := r.reservations[1..];
    forall i | 0 <= i < |rest| ensures rest[i].kind != Some(STATIC) {
      assert rest[i] == r.reservations[i + 1];
      assert KindOf(r.reservations[i + 1]) != STATIC;
    }
    NoStatics(rest);
  }

  lemma EndsAreTyped(r: Resource)
    requires Checkpointable(r) && |r.reservations| > 0
    ensures HasTypeAndRole(r.reservations[0]) && HasTypeAndRole(r.reservations[|r.reservations| - 1])
  {
    UsableIsWellFormed(r);
  }

  lemma OriginReservations(r: Resource)
    requires Checkpointable(r)
    ensures var rs := r.reservations;
            Origin(r).reservations == (if !EndsDynamic(rs) then rs
                                       else if rs[0].kind == Some(STATIC) then [rs[0]]
                                       else [])
    ensures EndsDynamic(r.reservations) == IsDynamicallyReserved(r)
    ensures StripReservations(r).reservations == Origin(r).reservations
  {
    hide Checkpointable, Statics;
    if |r.reservations| > 0 {
      StaticsOfStack(r);
      EndsAreTyped(r);
      assert r.reservations[..1] == [r.reservations[0]];
    }
  }

  lemma StripIsOrigin(r: Resource)
    requires Checkpointable(r)
    ensures Strip(r) == Origin(r) && NeedCheckpointing(r) == Belongs(r)
  {
    hide IsValid, Statics, Checkpointable;
    OriginReservations(r);
    assert StripReservations(r) == r.(reservations := Origin(r).reservations);
  }

  lemma OriginKey(r: Resource)
    ensures var key := KeyOf(Origin(r));
            && key.reservations == Origin(r).reservations && !key.shared && !IsPersistentVolume(key)
            && (key.disk.Some? ==> r.disk.Some? && key.disk.value.source == r.disk.value.source)
            && (key.disk.None? ==> r.disk.None? || r.disk.value.source.None?)
            && key.name == r.name && key.allocation == r.allocation
            && key.revocable == r.revocable && key.provider == r.provider
  {
    hide Statics;
  }

  /** The key that a replay takes from: the reservations, disk and sharing it has. */
  lemma OriginMeans(r: Resource)
    requires Checkpointable(r)
    ensures var key, rs := KeyOf(Origin(r)), r.reservations;
            && key.reservations == (if !EndsDynamic(rs) then rs
                                    else if rs[0].kind == Some(STATIC) then [rs[0]]
                                    else [])
            && !key.shared && !Belongs(key)
            && (key.disk.Some? ==> r.disk.Some? && key.disk.value.source == r.disk.value.source)
            && (key.disk.None? ==> r.disk.None? || r.disk.value.source.None?)
            && key.name == r.name && key.allocation == r.allocation
            && key.revocable == r.revocable && key.provider == r.provider
    ensures Strip(r) == Origin(r) && NeedCheckpointing(r) == Belongs(r)
  {
    hide Origin, KeyOf, Strip, Checkpointable, NeedCheckpointing;
    OriginReservations(r);
    StripIsOrigin(r);
    OriginKey(r);
  }

  // ---------------------------------------------------------------------
  // One step
  // ---------------------------------------------------------------------

  /** A step succeeds exactly when the agent has the amount under the key of the
      origin, and moves it from there to the key of the resource. */
  lemma ReplayOneOutcome(pool: seq<Entry>, r: Resource)
    requires Pool.Valid(pool) && Checkpointable(r)
    ensures var from, dest := ToEntry(Origin(r)), ToEntry(r);
            && (ReplayOne(pool, r).Ok? <==> Belongs(r) && AtMost(Amount(from), Qty(pool, KeyOf(Origin(r)))))
            && (ReplayOne(pool, r).Ok? ==>
                  && Pool.Valid(ReplayOne(pool, r).value)
                  && forall key :: Qty(ReplayOne(pool, r).value, key) == Sum(Take(Qty(pool, key), At(from, key)), At(dest, key)))
  {
    hide Strip, NeedCheckpointing, ReplayOne, KeyOf, Qty, Amount, NoTwoAddable, Checkpointable, Origin, Belongs;
    OriginMeans(r);
    StrippedIsPlain(r);
    ReplayOneIsMove(pool, r);
    MoveQty(pool, ToEntry(Origin(r)), ToEntry(r));
  }

  // ---------------------------------------------------------------------
  // A whole checkpoint
  // ---------------------------------------------------------------------

  /** What each resource of a checkpoint takes from a key. */
  ghost function Parts(rs: seq<Resource>, key: Resource): seq<Quantity> {
    seq(|rs|, i requires 0 <= i < |rs| => At(ToEntry(Origin(rs[i])), key))
  }

  ghost function CountOf(parts: seq<Quantity>): int {
    if parts == [] then 0 else (if parts[0].Count? then parts[0].n else 0) + CountOf(parts[1..])
  }

  /** Counts must not add up to more than there is; points and names must be there,
      and nobody else's. */
  ghost predicate Affords(q: Quantity, parts: seq<Quantity>) {
    if q.Count? then CountOf(parts) <= q.n
    else
      && (forall i :: 0 <= i < |parts| ==> AtMost(parts[i], q))
      && (forall i, j :: 0 <= i < j < |parts| ==> Fresh(parts[i], parts[j]))
  }

  ghost function TakeEach(q: Quantity, parts: seq<Quantity>): Quantity
    decreases parts
  {
    if parts == [] then q else TakeEach(Take(q, parts[0]), parts[1..])
  }

  ghost predicate InTurn(q: Quantity, parts: seq<Quantity>)
    decreases parts
  {
    parts == [] || (AtMost(parts[0], q) && InTurn(Take(q, parts[0]), parts[1..]))
  }

  ghost predicate AllOfUnit(q: Quantity, parts: seq<Quantity>) {
    Natural(q) && forall i :: 0 <= i < |parts| ==> Natural(parts[i]) && SameUnit(q, parts[i])
  }

  /** Taking in turn succeeds exactly when all parts can be afforded together. */
  lemma {:induction false} InTurnMeans(q: Quantity, parts: seq<Quantity>)
    requires AllOfUnit(q, parts)
    ensures InTurn(q, parts) <==> Affords(q, parts)
    decreases parts
  {
    if parts != [] {
      var first, rest := parts[0], parts[1..];
      assert Natural(first) && SameUnit(q, first);
      assert AllOfUnit(Take(q, first), rest);
      InTurnMeans(Take(q, first), rest);
      if q.Count? {
        CountIsNatural(q, rest);
      } else {
        SetsInTurn(q, first, rest);
        FirstOfPairs(parts);
      }
    } else {
      assert Natural(q);
    }
  }

  lemma {:induction false} CountIsNatural(q: Quantity, parts: seq<Quantity>)
    requires AllOfUnit(q, parts)
    ensures CountOf(parts) >= 0
    decreases parts
  {
    if parts != [] {
      assert Natural(parts[0]);
      CountIsNatural(q, parts[1..]);
    }
  }

  lemma SetsInTurn(q: Quantity, first: Quantity, rest: seq<Quantity>)
    requires !q.Count? && SameUnit(q, first) && AllOfUnit(q, rest)
    ensures (forall i :: 0 <= i < |rest| ==> AtMost(rest[i], Take(q, first))) <==>
            (forall i :: 0 <= i < |rest| ==> AtMost(rest[i], q) && Fresh(first, rest[i]))
  {
    forall i | 0 <= i < |rest| ensures AtMost(rest[i], Take(q, first)) <==> AtMost(rest[i], q) && Fresh(first, rest[i]) {
      assert SameUnit(q, rest[i]);
      WithinRest(q, first, rest[i]);
    }
  }

  lemma WithinRest(q: Quantity, a: Quantity, b: Quantity)
    requires !q.Count? && SameUnit(q, a) && SameUnit(q, b)
    ensures AtMost(b, Take(q, a)) <==> AtMost(b, q) && Fresh(a, b)
  {
  }

  lemma FirstOfPairs(parts: seq<Quantity>)
    requires parts != []
    ensures (forall i, j :: 0 <= i < j < |parts| ==> Fresh(parts[i], parts[j])) <==>
            && (forall i :: 0 <= i < |parts[1..]| ==> Fresh(parts[0], parts[1..][i]))
            && (forall i, j :: 0 <= i < j < |parts[1..]| ==> Fresh(parts[1..][i], parts[1..][j]))
  {
    hide Fresh;
    var rest := parts[1..];
    assert forall i :: 0 <= i < |rest| ==> rest[i] == parts[i + 1];
    if (forall i :: 0 <= i < |rest| ==> Fresh(parts[0], rest[i]))
       && (forall i, j :: 0 <= i < j < |rest| ==> Fresh(rest[i], rest[j]))
    {
      forall i, j | 0 <= i < j < |parts| ensures Fresh(parts[i], parts[j]) {
        assert parts[j] == rest[j - 1];
        assert i > 0 ==> parts[i] == rest[i - 1];
      }
    }
  }

  lemma PartsAreNatural(pool: seq<Entry>, rs: seq<Resource>, key: Resource)
    requires Pool.Valid(pool) && AllCheckpointable(rs)
    ensures AllOfUnit(Qty(pool, key), Parts(rs, key))
    ensures Belongs(key) ==> forall i :: 0 <= i < |rs| ==> Parts(rs, key)[i] == ZeroAt(key)
  {
    hide Qty, Checkpointable, Origin, KeyOf, Amount, NoTwoAddable, Strip, WellFormedEntry, NeedCheckpointing, ZeroAt;
    QtyIsNatural(pool, key);
    forall i | 0 <= i < |rs|
      ensures Natural(Parts(rs, key)[i]) && SameUnit(Qty(pool, key), Parts(rs, key)[i])
      ensures Belongs(key) ==> Parts(rs, key)[i] == ZeroAt(key)
    {
      OriginMeans(rs[i]);
      StrippedIsPlain(rs[i]);
      AmountIsNatural(ToEntry(Origin(rs[i])), key);
    }
  }

  /** Nothing to take is always affordable, and changes nothing. */
  lemma {:induction false} NothingToTake(q: Quantity, parts: seq<Quantity>, key: Resource)
    requires Natural(q) && SameUnit(q, ZeroAt(key)) && forall i :: 0 <= i < |parts| ==> parts[i] == ZeroAt(key)
    ensures InTurn(q, parts) && TakeEach(q, parts) == q
    decreases parts
  {
    if parts != [] {
      ZeroIsNeutral(q, key);
      assert parts[0] == ZeroAt(key);
      NothingToTake(q, parts[1..], key);
    }
  }

  ghost predicate AllBelong(rs: seq<Resource>) {
    forall i :: 0 <= i < |rs| ==> Belongs(rs[i])
  }

  /** One step leaves the same to take in turn under every key. */
  lemma StepInTurn(pool: seq<Entry>, rs: seq<Resource>, key: Resource)
    requires Pool.Valid(pool) && AllCheckpointable(rs) && rs != [] && ReplayOne(pool, rs[0]).Ok?
    ensures var next := ReplayOne(pool, rs[0]).value;
            && Pool.Valid(next)
            && (InTurn(Qty(pool, key), Parts(rs, key)) <==> InTurn(Qty(next, key), Parts(rs[1..], key)))
            && (!Belongs(key) ==> TakeEach(Qty(pool, key), Parts(rs, key)) == TakeEach(Qty(next, key), Parts(rs[1..], key)))
  {
    hide Qty, Checkpointable, Origin, KeyOf, Amount, NoTwoAddable, ReplayOne, Sum, Take, AtMost, ZeroAt, WellFormedEntry, Belongs;
    var r, next, rest := rs[0], ReplayOne(pool, rs[0]).value, rs[1..];
    assert Checkpointable(r);
    ReplayOneOutcome(pool, r);
    OriginMeans(r);
    StrippedIsPlain(r);
    PartsAreNatural(pool, rs, key);
    PartsAreNatural(next, rest, key);
    QtyIsNatural(pool, key);
    QtyIsNatural(next, key);
    assert Parts(rs, key)[1..] == Parts(rest, key);
    if Belongs(key) {
      NothingToTake(Qty(pool, key), Parts(rs, key), key);
      NothingToTake(Qty(next, key), Parts(rest, key), key);
    } else {
      var from := ToEntry(Origin(r));
      AmountIsNatural(from, key);
      assert KeyOf(r) != key by {
        KeyBelongs(r);
      }
      TakeKeepsUnit(Qty(pool, key), At(from, key), key);
      assert Qty(next, key) == Take(Qty(pool, key), At(from, key));
      assert AtMost(At(from, key), Qty(pool, key)) by {
        ZeroIsNeutral(Qty(pool, key), key);
      }
    }
  }

  lemma TakeKeepsUnit(q: Quantity, a: Quantity, key: Resource)
    requires Natural(q) && SameUnit(q, ZeroAt(key)) && Natural(a) && SameUnit(a, ZeroAt(key))
    ensures Sum(Take(q, a), ZeroAt(key)) == Take(q, a)
  {
  }

  lemma KeyBelongs(r: Resource)
    requires Checkpointable(r)
    ensures Belongs(KeyOf(r)) == Belongs(r)
  {
    KeyIsFixed(r);
    assert KeyOf(r).reservations == r.reservations;
  }

  /** A replay succeeds exactly when everything in the checkpoint belongs in one and
      the agent can afford, under every key, what comes from there. Then the keys of
      the origins have lost those parts. */
  lemma {:induction false} ReplayOutcome(pool: seq<Entry>, rs: seq<Resource>)
    requires Pool.Valid(pool) && AllCheckpointable(rs)
    ensures Replay(pool, rs).Ok? <==> AllBelong(rs) && forall key :: Affords(Qty(pool, key), Parts(rs, key))
    ensures Replay(pool, rs).Ok? ==>
              forall key :: !Belongs(key) ==> Qty(Replay(pool, rs).value, key) == TakeEach(Qty(pool, key), Parts(rs, key))
    decreases rs
  {
    hide Qty, Checkpointable, Origin, KeyOf, Amount, NoTwoAddable, ReplayOne, WellFormedEntry, Belongs, Affords, InTurn,
      TakeEach;
    forall key ensures Affords(Qty(pool, key), Parts(rs, key)) <==> InTurn(Qty(pool, key), Parts(rs, key)) {
      PartsAreNatural(pool, rs, key);
      InTurnMeans(Qty(pool, key), Parts(rs, key));
    }
    if rs == [] {
      EmptyInTurn(pool);
    } else {
      ReplayOneOutcome(pool, rs[0]);
      if ReplayOne(pool, rs[0]).Ok? {
        HeadAndTail(pool, rs);
      } else {
        CannotAfford(pool, rs);
      }
    }
  }

  lemma EmptyInTurn(pool: seq<Entry>)
    ensures forall key :: InTurn(Qty(pool, key), Parts([], key)) && TakeEach(Qty(pool, key), Parts([], key)) == Qty(pool, key)
  {
  }

  lemma CannotAfford(pool: seq<Entry>, rs: seq<Resource>)
    requires Pool.Valid(pool) && AllCheckpointable(rs) && rs != [] && ReplayOne(pool, rs[0]).Error?
    ensures AllBelong(rs) ==> exists key :: !InTurn(Qty(pool, key), Parts(rs, key))
  {
    hide Qty, Checkpointable, Origin, KeyOf, Amount, NoTwoAddable, ReplayOne, Belongs, Take;
    ReplayOneOutcome(pool, rs[0]);
    if AllBelong(rs) {
      var from := ToEntry(Origin(rs[0]));
      assert Parts(rs, Key(from))[0] == Amount(from);
      assert !InTurn(Qty(pool, Key(from)), Parts(rs, Key(from)));
    }
  }

  lemma HeadAndTail(pool: seq<Entry>, rs: seq<Resource>)
    requires Pool.Valid(pool) && AllCheckpointable(rs) && rs != [] && ReplayOne(pool, rs[0]).Ok?
    ensures Replay(pool, rs).Ok? <==> AllBelong(rs) && forall key :: InTurn(Qty(pool, key), Parts(rs, key))
    ensures Replay(pool, rs).Ok? ==>
              forall key :: !Belongs(key) ==> Qty(Replay(pool, rs).value, key) == TakeEach(Qty(pool, key), Parts(rs, key))
    decreases rs, 0
  {
    hide Qty, Checkpointable, Origin, KeyOf, Amount, NoTwoAddable, ReplayOne, WellFormedEntry, Belongs, InTurn, Affords,
      TakeEach, NoneEmpty, AllWellFormed;
    var next, rest := ReplayOne(pool, rs[0]).value, rs[1..];
    ReplayOneOutcome(pool, rs[0]);
    forall key
      ensures InTurn(Qty(pool, key), Parts(rs, key)) <==> Affords(Qty(next, key), Parts(rest, key))
      ensures !Belongs(key) ==> TakeEach(Qty(pool, key), Parts(rs, key)) == TakeEach(Qty(next, key), Parts(rest, key))
    {
      StepInTurn(pool, rs, key);
      PartsAreNatural(next, rest, key);
      InTurnMeans(Qty(next, key), Parts(rest, key));
    }
    ReplayOutcome(next, rest);
    assert AllBelong(rs) <==> Belongs(rs[0]) && AllBelong(rest) by {
      assert rs == [rs[0]] + rest;
    }
  }
}
