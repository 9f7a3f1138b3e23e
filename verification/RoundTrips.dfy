/** What one operation does, its opposite undoes. */
module RoundTrips {
  import opened Common
  import opened Values
  import opened ResourceModel
  import opened Validation
  import opened Pool
  import opened PoolMap
  import opened PoolLaws
  import opened Totals
  import opened Operations
  import opened Conservation

  lemma PopKeysDiffer(r: Resource)
    requires IsReserved(r)
    ensures KeyOf(Pop(r)) != KeyOf(r)
  {
    assert |KeyOf(r).reservations| == |r.reservations|;
    assert |KeyOf(Pop(r)).reservations| == |r.reservations| - 1;
  }

  /** Moving something out and back: the source key is restored, the other one
      unless the amount was in part there before. */
  lemma MoveAndBackAt(pool: seq<Entry>, a: Entry, b: Entry, key: Resource)
    requires Pool.Valid(pool) && WellFormedEntry(a) && WellFormedEntry(b)
    requires Key(a) != Key(b) && AtMost(Amount(a), Qty(pool, Key(a)))
    ensures var back := Move(Move(pool, a, b), b, a);
            Qty(back, key) == if key == Key(b) then Take(Sum(Qty(pool, key), Amount(b)), Amount(b)) else Qty(pool, key)
  {
    hide Move, NoTwoAddable, WellFormed, KeyOf, Qty, Amount, ZeroAt;
    MoveQty(pool, a, b);
    var there := Move(pool, a, b);
    MoveQty(there, b, a);
    QtyIsNatural(pool, key);
    QtyIsNatural(there, key);
    AmountIsNatural(a, key);
    AmountIsNatural(b, key);
    ZeroIsNeutral(Qty(pool, key), key);
    if key == Key(a) {
      TakeLaws(Qty(pool, key), Amount(a), Amount(a));
      var taken := Take(Qty(pool, key), Amount(a));
      ZeroIsNeutral(taken, key);
    } else if key == Key(b) {
      ZeroIsNeutral(Take(Sum(Qty(pool, key), Amount(b)), Amount(b)), key);
    }
  }

  lemma MoveAndBack(pool: seq<Entry>, a: Entry, b: Entry)
    requires Pool.Valid(pool) && WellFormedEntry(a) && WellFormedEntry(b) && !IsEmpty(a)
    requires Key(a) != Key(b) && Holds(pool, a)
    ensures Pool.Valid(Move(Move(pool, a, b), b, a))
    ensures PoolEq(Move(Move(pool, a, b), b, a), pool) <==> Fresh(Amount(b), Qty(pool, Key(b)))
    ensures Fresh(Amount(b), Qty(pool, Key(b))) ==> SameMap(Move(Move(pool, a, b), b, a), pool)
  {
    hide Move, NoTwoAddable, WellFormed, KeyOf, Qty, PoolEq, Holds, AllWellFormed, NoneEmpty;
    var there := Move(pool, a, b);
    var back := Move(there, b, a);
    MoveQty(pool, a, b);
    MoveQty(there, b, a);
    HoldsMeans(pool, a);
    var key := Key(b);
    QtyIsNatural(pool, key);
    AmountIsNatural(b, key);
    TakeLaws(Qty(pool, key), Amount(b), Amount(b));
    MoveAndBackAt(pool, a, b, key);
    if Fresh(Amount(b), Qty(pool, key)) {
      forall k ensures Qty(back, k) == Qty(pool, k) {
        MoveAndBackAt(pool, a, b, k);
      }
      SameMapIsEq(back, pool);
    } else {
      PoolEqMeans(back, pool);
      assert !Agrees(key, Qty(back, key), Qty(pool, key)) by {
        KeyIsFixed(b.resource);
      }
    }
  }

  /** After a successful RESERVE the UNRESERVE of the same resource succeeds, and
      gives back an equal pool exactly when none of the items was reserved before
      (scalars and whole disks always come back). */
  lemma ReserveThenUnreserve(pool: seq<Entry>, r: Resource)
    requires Pool.Valid(pool) && Usable(r) && !IsZero(r.value)
    requires Step(RESERVE, pool, r).Ok?
    ensures var reserved := Step(RESERVE, pool, r).value;
            && Step(UNRESERVE, reserved, r).Ok?
            && (PoolEq(Step(UNRESERVE, reserved, r).value, pool) <==>
                Fresh(Amount(ToEntry(r)), Qty(pool, KeyOf(r))))
  {
    hide Move, NoTwoAddable, NoneEmpty, AllWellFormed, KeyOf, Qty, PoolEq, Holds, Usable, IsValid, Contains, Amount;
    var p, e := ToEntry(Pop(r)), ToEntry(r);
    StepIsMove(RESERVE, pool, r);
    EntriesWellFormed(RESERVE, r);
    PopKeysDiffer(r);
    var reserved := Step(RESERVE, pool, r).value;
    MoveQty(pool, p, e);
    HeldAfterMove(pool, p, e);
    assert IsValid(r) && Step(UNRESERVE, reserved, r).Ok? by {
      UsableIsValid(r);
    }
    StepIsMove(UNRESERVE, reserved, r);
    MoveAndBack(pool, p, e);
  }

  function Ports(points: set<nat>, reservations: seq<ReservationInfo>): Resource {
    Resource("ports", Ranges(points), None, None, None, reservations, None, false, None, false)
  }

  /** Ports that are there both unreserved and reserved: reserving them merges the
      two, and unreserving them takes both away from the reserved ones. */
  lemma HeldTwiceIsLost(points: set<nat>)
    requires points != {}
    ensures var r := Ports(points, [Reservation(DYNAMIC, "a")]);
            var pool := [ToEntry(Ports(points, [])), ToEntry(r)];
            && Pool.Valid(pool) && Usable(r)
            && Step(RESERVE, pool, r).Ok?
            && Step(UNRESERVE, Step(RESERVE, pool, r).value, r).Ok?
            && !PoolEq(Step(UNRESERVE, Step(RESERVE, pool, r).value, r).value, pool)
  {
    var r := Ports(points, [Reservation(DYNAMIC, "a")]);
    var free, reserved := ToEntry(Ports(points, [])), ToEntry(r);
    var pool := [free, reserved];
    NestedRolesAreValid();
    assert Usable(r) && Pool.Valid(pool);
    assert Step(RESERVE, pool, r).Ok? by {
      FromResourceReserved(r);
      PopOne(r);
      assert Pop(r) == Ports(points, []);
      assert EntryIncludes(pool[0], free);
      assert [free][1..] == [];
      assert Contains(pool, [free]);
    }
    HeldUnderKey(points);
    ReserveThenUnreserve(pool, r);
  }

  lemma HeldUnderKey(points: set<nat>)
    requires points != {}
    ensures var r := Ports(points, [Reservation(DYNAMIC, "a")]);
            !Fresh(Amount(ToEntry(r)), Qty([ToEntry(Ports(points, [])), ToEntry(r)], KeyOf(r)))
  {
    var r := Ports(points, [Reservation(DYNAMIC, "a")]);
    var free, reserved := ToEntry(Ports(points, [])), ToEntry(r);
    var key := KeyOf(r);
    assert |Key(free).reservations| == 0 && |key.reservations| == 1;
    assert [free, reserved][1..] == [reserved] && [reserved][1..] == [];
    assert Qty([reserved], key) == Sum(At(reserved, key), ZeroAt(key));
    assert Qty([free, reserved], key) == Sum(At(free, key), Qty([reserved], key)) == Points(points);
  }

  lemma HeldAfterMove(pool: seq<Entry>, a: Entry, b: Entry)
    requires Pool.Valid(pool) && WellFormedEntry(a) && WellFormedEntry(b) && !IsEmpty(b)
    requires Key(a) != Key(b)
    ensures Holds(Move(pool, a, b), b)
    ensures Qty(Move(pool, a, b), Key(b)) == Sum(Qty(pool, Key(b)), Amount(b))
  {
    hide Move, NoTwoAddable, WellFormed, KeyOf, Qty, Holds, Amount, ZeroAt;
    MoveQty(pool, a, b);
    HoldsMeans(Move(pool, a, b), b);
    QtyIsNatural(pool, Key(b));
    AmountIsNatural(b, Key(b));
    ZeroIsNeutral(Qty(pool, Key(b)), Key(b));
  }

  /** After a successful CREATE the DESTROY of the same volume succeeds exactly
      when the volume was not there before, and then gives back an equal pool. */
  lemma CreateThenDestroy(pool: seq<Entry>, v: Resource)
    requires Pool.Valid(pool) && Usable(v) && !IsZero(v.value)
    requires Step(CREATE, pool, v).Ok?
    ensures var created := Step(CREATE, pool, v).value;
            && (Step(DESTROY, created, v).Ok? <==> Qty(pool, KeyOf(v)) == Count(0))
            && (Step(DESTROY, created, v).Ok? ==> PoolEq(Step(DESTROY, created, v).value, pool))
  {
    hide Move, NoTwoAddable, NoneEmpty, AllWellFormed, KeyOf, Qty, PoolEq, Holds, Usable, IsValid, StripVolume, Subtract;
    var s, e := ToEntry(StripVolume(v)), ToEntry(v);
    StepIsMove(CREATE, pool, v);
    EntriesWellFormed(CREATE, v);
    VolumeKeysDiffer(v);
    UsableIsValid(v);
    var created := Step(CREATE, pool, v).value;
    MoveQty(pool, s, e);
    HeldAfterMove(pool, s, e);
    SubtractIsTake(created, e);
    HoldsMeans(Subtract(created, e), e);
    QtyIsNatural(pool, KeyOf(v));
    KeyIsFixed(v);
    assert Amount(e) == Count(1) && ZeroAt(KeyOf(v)) == Count(0);
    assert Qty(Subtract(created, e), KeyOf(v)) == Take(Qty(created, KeyOf(v)), Amount(e)) == Qty(pool, KeyOf(v));
    assert Holds(Subtract(created, e), e) <==> Qty(pool, KeyOf(v)) != Count(0);
    if Step(DESTROY, created, v).Ok? {
      StepIsMove(DESTROY, created, v);
      MoveAndBack(pool, s, e);
    }
  }

  // ---------------------------------------------------------------------
  // The side condition of conservation is needed
  // ---------------------------------------------------------------------

  /** What `disk()` reports: whole megabytes, or nothing when there is no disk. */
  lemma ReportedMegabytes(pool: seq<Entry>)
    requires Pool.Valid(pool)
    ensures var total := Total(pool, "disk", Scalar(0));
            total.Count? && total.n >= 0
            && Megabytes(Get(pool, "disk", Scalar(0))) == if total.n == 0 then None else Some(total.n / 1000)
  {
    hide Total, Get, NoTwoAddable;
    TotalUnit(pool, "disk", Scalar(0));
    GetMeasures(pool, "disk", Scalar(0));
    FoundMeans(pool, "disk", Scalar(0));
    GetIsFound(pool);
  }

  lemma GetIsFound(pool: seq<Entry>)
    ensures Get(pool, "disk", Scalar(0)).Some? <==> Found(pool, "disk", Scalar(0))
  {
  }

  /** Creating a shared volume of a megabyte or more that is there already adds a
      copy, which the totals do not count: the volume vanishes from them, and a
      `CHECK` fails. */
  lemma CreateSharedTwiceAborts(pool: seq<Entry>, v: Resource)
    requires Pool.Valid(pool) && Usable(v) && v.shared && v.value.Scalar? && v.value.milli >= 1000
    requires Qty(pool, KeyOf(v)) != Count(0) && Step(CREATE, pool, v).Ok?
    ensures Apply(pool, Change(CREATE, [v])) == Aborted
  {
    hide NoTwoAddable, KeyOf, Holds, Subtract, Total, Share, Insert, Qty, Usable, StripVolume, Step, Get, NoneEmpty,
      AllWellFormed, IsValid;
    UsableIsValid(v);
    SharedIsDisk(v);
    var out, added := ToEntry(StripVolume(v)), ToEntry(v);
    var after := Step(CREATE, pool, v).value;
    StepIsMove(CREATE, pool, v);
    EntriesWellFormed(CREATE, v);
    MoveQty(pool, out, added);
    MoveTotals(pool, out, added, "disk", Scalar(0));
    VolumeStaysHeld(pool, v);
    ShareOfDisk(out);
    ReportedMegabytes(pool);
    ReportedMegabytes(after);
    assert [v][1..] == [];
    assert Steps(CREATE, pool, [v]) == Ok(after);
  }

  lemma SharedIsDisk(v: Resource)
    requires IsValid(v) && v.shared
    ensures v.name == "disk"
  {
  }

  lemma ShareOfDisk(e: Entry)
    requires e.resource.name == "disk" && e.resource.value.Scalar?
    ensures Share(e, "disk", Scalar(0)) == Count(e.resource.value.milli)
  {
  }

  /** Taking the plain disk away leaves the copies of the volume where they are. */
  lemma VolumeStaysHeld(pool: seq<Entry>, v: Resource)
    requires Pool.Valid(pool) && Usable(v) && v.shared && IsPersistentVolume(v) && Qty(pool, KeyOf(v)) != Count(0)
    ensures Departs(pool, ToEntry(StripVolume(v))) && !Arrives(Subtract(pool, ToEntry(StripVolume(v))), ToEntry(v))
  {
    hide NoTwoAddable, Subtract, Qty, Usable, NoneEmpty, AllWellFormed;
    EntriesWellFormed(CREATE, v);
    VolumeKeysDiffer(v);
    SubtractTakesAt(pool, ToEntry(StripVolume(v)), KeyOf(v));
    QtyIsNatural(pool, KeyOf(v));
    ZeroIsNeutral(Qty(pool, KeyOf(v)), KeyOf(v));
  }

  function SharedVolume(milli: nat): Resource {
    Resource("disk", Scalar(milli), None, None, None, [],
             Some(DiskInfo(None, Some(Persistence("id", None)), None)), false, None, true)
  }

  /** There are such pools. */
  lemma SharedVolumeCanBeCreatedTwice(milli: nat)
    requires milli >= 1000
    ensures var v := SharedVolume(milli);
            var pool := [ToEntry(StripVolume(v)), ToEntry(v)];
            && Pool.Valid(pool) && Usable(v) && Qty(pool, KeyOf(v)) != Count(0) && Step(CREATE, pool, v).Ok?
            && Apply(pool, Change(CREATE, [v])) == Aborted
  {
    hide Usable, IsValid, KeyOf, Qty, NoTwoAddable, NoneEmpty, AllWellFormed, Addable, EntryIncludes, Apply, Subtract,
      Insert;
    var v := SharedVolume(milli);
    var pool := [ToEntry(StripVolume(v)), ToEntry(v)];
    SharedVolumeIsUsable(milli);
    StripVolumeIsUsable(v);
    UsableIsValid(StripVolume(v));
    assert EntryIncludes(pool[0], ToEntry(StripVolume(v)));
    SharedIsThere(pool, ToEntry(v));
    assert Addable(pool[1].resource, v);
    CreateSharedTwiceAborts(pool, v);
  }

  lemma SharedVolumeIsUsable(milli: nat)
    requires milli >= 1000
    ensures var v := SharedVolume(milli);
            && Usable(v) && Pool.Valid([ToEntry(StripVolume(v)), ToEntry(v)]) && WellFormedEntry(ToEntry(v))
            && EntryIncludes(ToEntry(StripVolume(v)), ToEntry(StripVolume(v))) && Addable(v, v)
  {
    StarIsValidRole();
  }
}
