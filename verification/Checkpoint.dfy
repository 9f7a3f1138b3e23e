/** `applyCheckpointedResources`: replaying checkpointed resources onto the
    resources an agent was started with. */
module Checkpoint {
  import opened Common
  import opened Values
  import opened ResourceModel
  import opened Validation
  import opened Pool
  import opened PoolMap
  import opened Totals
  import opened Operations
  import opened Conservation

  // ---------------------------------------------------------------------
  // The code
  // ---------------------------------------------------------------------

  predicate NeedCheckpointing(r: Resource) {
    IsDynamicallyReserved(r) || IsPersistentVolume(r)
  }

  /** Drop the dynamic reservations: keep the first one only if it is static. */
  function StripReservations(r: Resource): Resource {
    if !IsDynamicallyReserved(r) then r
    else if KindOf(r.reservations[0]) == STATIC then r.(reservations := r.reservations[..1])
    else r.(reservations := [])
  }

  function Strip(r: Resource): Resource {
    var s := StripReservations(r);
    (if IsPersistentVolume(r) then StripDisk(s) else s).(shared := false)
  }

  /** `Resources::operator+=(Resource)` */
  function PlusResource(pool: seq<Entry>, r: Resource): seq<Entry> {
    if IsValid(r) then Add(pool, ToEntry(r)) else pool
  }

  /** `Resources::operator-=(Resource)` */
  function MinusResource(pool: seq<Entry>, r: Resource): seq<Entry> {
    if IsValid(r) then Subtract(pool, ToEntry(r)) else pool
  }

  function ReplayOne(pool: seq<Entry>, r: Resource): Try<seq<Entry>> {
    if !NeedCheckpointing(r) then Error
    else if !ContainsResource(pool, Strip(r)) then Error
    else Ok(PlusResource(MinusResource(pool, Strip(r)), r))
  }

  function Replay(pool: seq<Entry>, rs: seq<Resource>): Try<seq<Entry>>
    decreases rs
  {
    if rs == [] then Ok(pool)
    else
      var next := ReplayOne(pool, rs[0]);
      if next.Error? then Error else Replay(next.value, rs[1..])
  }

  // ---------------------------------------------------------------------
  // One step
  // ---------------------------------------------------------------------

  /** What a checkpoint holds: validated, non-empty resources. */
  predicate Checkpointable(r: Resource) {
    Usable(r) && !IsZero(r.value)
  }

  predicate AllCheckpointable(rs: seq<Resource>) {
    forall i :: 0 <= i < |rs| ==> Checkpointable(rs[i])
  }

  lemma KeyNeedsCheckpointing(r: Resource)
    ensures NeedCheckpointing(KeyOf(r)) == NeedCheckpointing(r)
  {
    KeyIsFixed(r);
    assert KeyOf(r).reservations == r.reservations;
  }

  lemma UnreservedIsUsable(r: Resource)
    requires Checkpointable(r)
    ensures Usable(StripReservations(r))
  {
    StarIsValidRole();
    UsableIsWellFormed(r);
    if IsDynamicallyReserved(r) && KindOf(r.reservations[0]) == STATIC {
      assert ValidReservation(r.reservations[0]);
      assert OldFieldsAgree(StripReservations(r));
    }
  }

  lemma StrippedKeeps(r: Resource)
    requires Checkpointable(r)
    ensures Usable(Strip(r)) && !NeedCheckpointing(Strip(r))
    ensures Strip(r).value == r.value && Strip(r).name == r.name && !Strip(r).shared
  {
    hide Usable;
    var s := StripReservations(r);
    UnreservedIsUsable(r);
    StripVolumeIsUsable(s);
    OnlyVolumesAreShared(r);
    if !IsPersistentVolume(r) {
      assert Strip(r) == s.(shared := false) && !r.shared;
    } else {
      assert Strip(r) == StripVolume(s);
    }
    assert Strip(r).reservations == s.reservations;
  }

  lemma OnlyVolumesAreShared(r: Resource)
    requires Checkpointable(r)
    ensures r.shared ==> IsPersistentVolume(r)
  {
  }

  /** A stripped resource is valid and never needs checkpointing itself. */
  lemma StrippedIsPlain(r: Resource)
    requires Checkpointable(r)
    ensures Usable(Strip(r)) && WellFormed(Strip(r)) && WellFormed(r)
    ensures Strip(r).value == r.value && Strip(r).name == r.name && !Strip(r).shared
    ensures !NeedCheckpointing(Strip(r)) && !NeedCheckpointing(KeyOf(Strip(r)))
    ensures WellFormedEntry(ToEntry(r)) && !IsEmpty(ToEntry(r))
    ensures WellFormedEntry(ToEntry(Strip(r))) && !IsEmpty(ToEntry(Strip(r)))
  {
    hide Usable, Strip, NeedCheckpointing;
    UsableIsWellFormed(r);
    StrippedKeeps(r);
    UsableIsWellFormed(Strip(r));
    KeyNeedsCheckpointing(Strip(r));
  }

  lemma ReplayOneIsMove(pool: seq<Entry>, r: Resource)
    requires Pool.Valid(pool) && Checkpointable(r)
    ensures ReplayOne(pool, r).Ok? <==>
              NeedCheckpointing(r) && AtMost(Amount(ToEntry(Strip(r))), Qty(pool, KeyOf(Strip(r))))
    ensures ReplayOne(pool, r).Ok? ==>
              ReplayOne(pool, r).value == Move(pool, ToEntry(Strip(r)), ToEntry(r))
              && Holds(pool, ToEntry(Strip(r)))
  {
    hide Strip, NeedCheckpointing, Holds, Subtract, Insert, KeyOf, Qty, Amount, NoTwoAddable;
    StrippedIsPlain(r);
    HoldsMeans(pool, ToEntry(Strip(r)));
  }

  /** Amounts under a key that needs checkpointing only grow, others only shrink. */
  ghost function Stepped(q: Quantity, r: Resource, key: Resource): Quantity {
    if NeedCheckpointing(key) then Sum(q, At(ToEntry(r), key)) else Take(q, At(ToEntry(Strip(r)), key))
  }

  lemma ReplayOneQty(pool: seq<Entry>, r: Resource)
    requires Pool.Valid(pool) && Checkpointable(r) && ReplayOne(pool, r).Ok?
    ensures Pool.Valid(ReplayOne(pool, r).value)
    ensures forall key :: Qty(ReplayOne(pool, r).value, key) == Stepped(Qty(pool, key), r, key)
  {
    hide Strip, NeedCheckpointing, ReplayOne, KeyOf, Qty, Amount, NoTwoAddable, Checkpointable, Move, ZeroAt;
    var s, e := ToEntry(Strip(r)), ToEntry(r);
    StrippedIsPlain(r);
    ReplayOneIsMove(pool, r);
    KeyNeedsCheckpointing(r);
    MoveQty(pool, s, e);
    forall key ensures Qty(ReplayOne(pool, r).value, key) == Stepped(Qty(pool, key), r, key) {
      QtyIsNatural(pool, key);
      ZeroIsNeutral(Qty(pool, key), key);
      AmountIsNatural(s, key);
      ZeroIsNeutral(Take(Qty(pool, key), At(s, key)), key);
      if NeedCheckpointing(key) {
        assert key != KeyOf(Strip(r));
      } else {
        assert key != KeyOf(r);
      }
    }
  }

  // ---------------------------------------------------------------------
  // Everything checkpointed ends up in the result
  // ---------------------------------------------------------------------

  ghost function EntriesOf(rs: seq<Resource>): seq<Entry> {
    seq(|rs|, i requires 0 <= i < |rs| => ToEntry(rs[i]))
  }

  lemma EntriesOfWellFormed(rs: seq<Resource>)
    requires AllCheckpointable(rs)
    ensures AllWellFormed(EntriesOf(rs))
  {
    hide WellFormedEntry, Checkpointable;
    forall i | 0 <= i < |rs| ensures WellFormedEntry(EntriesOf(rs)[i]) {
      StrippedIsPlain(rs[i]);
    }
  }

  /** Under keys that need checkpointing the result holds what the agent had plus
      exactly what was checkpointed. */
  lemma {:induction false} ReplayQty(pool: seq<Entry>, rs: seq<Resource>, key: Resource)
    requires Pool.Valid(pool) && AllCheckpointable(rs) && Replay(pool, rs).Ok?
    ensures Pool.Valid(Replay(pool, rs).value)
    ensures NeedCheckpointing(key) ==>
              Qty(Replay(pool, rs).value, key) == Sum(Qty(pool, key), Qty(EntriesOf(rs), key))
    decreases rs
  {
    hide NeedCheckpointing, ReplayOne, KeyOf, Amount, NoTwoAddable, Checkpointable, ZeroAt, Strip, Sum, ToEntry;
    QtyIsNatural(pool, key);
    if rs == [] {
      ZeroIsNeutral(Qty(pool, key), key);
    } else {
      var next := ReplayOne(pool, rs[0]).value;
      ReplayOneQty(pool, rs[0]);
      ReplayQty(next, rs[1..], key);
      StrippedIsPlain(rs[0]);
      EntriesOfWellFormed(rs[1..]);
      AmountIsNatural(ToEntry(rs[0]), key);
      QtyIsNatural(EntriesOf(rs[1..]), key);
      SumLaws(Qty(pool, key), At(ToEntry(rs[0]), key), Qty(EntriesOf(rs[1..]), key));
      assert EntriesOf(rs)[1..] == EntriesOf(rs[1..]);
    }
  }

  /** On success every checkpointed resource is contained in the result. */
  lemma ReplayContains(pool: seq<Entry>, rs: seq<Resource>, i: nat)
    requires Pool.Valid(pool) && AllCheckpointable(rs) && Replay(pool, rs).Ok? && i < |rs|
    ensures ContainsResource(Replay(pool, rs).value, rs[i])
  {
    hide NeedCheckpointing, ReplayOne, KeyOf, Amount, NoTwoAddable, Checkpointable, ZeroAt, Strip, ToEntry, Holds, Replay;
    var e, key := ToEntry(rs[i]), KeyOf(rs[i]);
    var result := Replay(pool, rs).value;
    assert Checkpointable(rs[i]);
    StrippedIsPlain(rs[i]);
    ReplayNeeds(pool, rs, i);
    KeyNeedsCheckpointing(rs[i]);
    ReplayQty(pool, rs, key);
    EntriesOfWellFormed(rs);
    QtySplit(EntriesOf(rs), i, key);
    QtyIsNatural(RemoveAt(EntriesOf(rs), i), key);
    QtyIsNatural(pool, key);
    AmountIsNatural(e, key);
    EntryKey(rs[i]);
    HoldsMeans(result, e);
    CheckpointableIsValid(rs[i]);
  }

  lemma EntryKey(r: Resource)
    ensures Key(ToEntry(r)) == KeyOf(r)
  {
  }

  lemma CheckpointableIsValid(r: Resource)
    requires Checkpointable(r)
    ensures IsValid(r)
  {
  }

  lemma {:induction false} ReplayNeeds(pool: seq<Entry>, rs: seq<Resource>, i: nat)
    requires Replay(pool, rs).Ok? && i < |rs|
    ensures NeedCheckpointing(rs[i])
    decreases rs
  {
    if i > 0 {
      ReplayNeeds(ReplayOne(pool, rs[0]).value, rs[1..], i - 1);
    }
  }

  // ---------------------------------------------------------------------
  // Totals are conserved
  // ---------------------------------------------------------------------

  /** No shared resource is in the pool yet, and none is listed twice. */
  ghost predicate SharedArriveOnce(pool: seq<Entry>, rs: seq<Resource>) {
    && (forall i :: 0 <= i < |rs| && rs[i].shared ==> Qty(pool, KeyOf(rs[i])) == Count(0))
    && (forall i, j :: 0 <= i < j < |rs| && rs[i].shared ==> KeyOf(rs[i]) != KeyOf(rs[j]))
  }

  lemma ReplayOneConserves(pool: seq<Entry>, r: Resource)
    requires Pool.Valid(pool) && Checkpointable(r) && ReplayOne(pool, r).Ok?
    requires r.shared ==> Qty(pool, KeyOf(r)) == Count(0)
    ensures SameTotals(pool, ReplayOne(pool, r).value)
  {
    hide Strip, NeedCheckpointing, ReplayOne, KeyOf, Amount, NoTwoAddable, Checkpointable, Move, Holds, Subtract, Total;
    var s, e := ToEntry(Strip(r)), ToEntry(r);
    StrippedIsPlain(r);
    ReplayOneIsMove(pool, r);
    if r.shared {
      KeyNeedsCheckpointing(r);
      assert KeyOf(Strip(r)) != KeyOf(r);
      SubtractTakesAt(pool, s, KeyOf(r));
      QtyIsNatural(pool, KeyOf(r));
      ZeroIsNeutral(Qty(pool, KeyOf(r)), KeyOf(r));
    }
    forall name, kind ensures Total(pool, name, kind) == Total(ReplayOne(pool, r).value, name, kind) {
      MoveTotals(pool, s, e, name, kind);
    }
  }

  lemma {:induction false} ReplayConserves(pool: seq<Entry>, rs: seq<Resource>)
    requires Pool.Valid(pool) && AllCheckpointable(rs) && Replay(pool, rs).Ok? && SharedArriveOnce(pool, rs)
    ensures Pool.Valid(Replay(pool, rs).value) && SameTotals(pool, Replay(pool, rs).value)
    decreases rs
  {
    hide Strip, NeedCheckpointing, ReplayOne, KeyOf, Amount, NoTwoAddable, Checkpointable, Total, Qty, NoneEmpty, AllWellFormed;
    if rs != [] {
      var next, rest := ReplayOne(pool, rs[0]).value, rs[1..];
      ReplayOneQty(pool, rs[0]);
      ReplayOneConserves(pool, rs[0]);
      forall i | 0 <= i < |rest| && rest[i].shared ensures Qty(next, KeyOf(rest[i])) == Count(0) {
        assert rest[i] == rs[i + 1];
        StillAbsent(pool, rs, i + 1);
      }
      assert forall i, j :: 0 <= i < j < |rest| && rest[i].shared ==> KeyOf(rest[i]) != KeyOf(rest[j]) by {
        assert forall i :: 0 <= i < |rest| ==> rest[i] == rs[i + 1];
      }
      ReplayConserves(next, rest);
      assert forall name, kind :: Total(pool, name, kind) == Total(next, name, kind);
    }
  }

  lemma StillAbsent(pool: seq<Entry>, rs: seq<Resource>, i: nat)
    requires Pool.Valid(pool) && AllCheckpointable(rs) && SharedArriveOnce(pool, rs)
    requires 0 < i < |rs| && rs[i].shared && ReplayOne(pool, rs[0]).Ok?
    ensures Qty(ReplayOne(pool, rs[0]).value, KeyOf(rs[i])) == Count(0)
  {
    hide Strip, ReplayOne, KeyOf, NoTwoAddable, Checkpointable, Qty;
    var key := KeyOf(rs[i]);
    ReplayOneQty(pool, rs[0]);
    assert Checkpointable(rs[i]) && Checkpointable(rs[0]);
    KeyIsFixed(rs[i]);
    KeyIsFixed(rs[0]);
    assert KeyOf(rs[0]) != key;
    StrippedIsPlain(rs[0]);
    StrippedIsPlain(rs[i]);
    AmountIsNatural(ToEntry(Strip(rs[0])), key);
  }
}
