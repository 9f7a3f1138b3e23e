/** A pool of resources as the list of entries the program keeps, with `add`,
    `subtract` and `contains` on that list, and the map from identity key to
    quantity that the list stands for. */
module Pool {
  import opened Common
  import opened Values
  import opened ResourceModel

  /** `Resource_`: a resource and, when it is shared, the number of its copies. */
  datatype Entry = Entry(resource: Resource, sharedCount: Option<int>)

  function ToEntry(r: Resource): Entry {
    Entry(r, if r.shared then Some(1) else None)
  }

  predicate IsEmpty(e: Entry) {
    (e.sharedCount.Some? && e.sharedCount.value == 0) || IsZero(e.resource.value)
  }

  predicate EntryIncludes(left: Entry, right: Entry) {
    if left.sharedCount.Some? != right.sharedCount.Some? then false
    else if left.sharedCount.Some? then
      left.sharedCount.value >= right.sharedCount.value && ResourceEq(left.resource, right.resource)
    else Includes(left.resource, right.resource)
  }

  /** `Resource_::operator+=` */
  function Combine(left: Entry, right: Entry): Entry {
    if left.sharedCount.Some? && right.sharedCount.Some? then
      left.(sharedCount := Some(left.sharedCount.value + right.sharedCount.value))
    else left.(resource := left.resource.(value := Plus(left.resource.value, right.resource.value)))
  }

  /** `Resource_::operator-=` */
  function Difference(left: Entry, right: Entry): Entry {
    if left.sharedCount.Some? && right.sharedCount.Some? then
      left.(sharedCount := Some(left.sharedCount.value - right.sharedCount.value))
    else left.(resource := left.resource.(value := Minus(left.resource.value, right.resource.value)))
  }

  predicate IsNegative(e: Entry) {
    || (e.sharedCount.Some? && e.sharedCount.value < 0)
    || (e.resource.value.Scalar? && e.resource.value.milli < 0)
  }

  // ---------------------------------------------------------------------
  // The list operations
  // ---------------------------------------------------------------------

  /** Merge an entry into the first addable one, or append it. */
  function Insert(pool: seq<Entry>, e: Entry): seq<Entry> {
    if pool == [] then [e]
    else if Addable(pool[0].resource, e.resource) then [Combine(pool[0], e)] + pool[1..]
    else [pool[0]] + Insert(pool[1..], e)
  }

  /** `Resources::add` */
  function Add(pool: seq<Entry>, e: Entry): seq<Entry> {
    if IsEmpty(e) then pool else Insert(pool, e)
  }

  /** Index of the first entry that `e` can be subtracted from, or the length. */
  function FirstSubtractable(pool: seq<Entry>, e: Entry): (i: nat)
    ensures i <= |pool|
    ensures i < |pool| ==> Subtractable(pool[i].resource, e.resource)
    ensures forall j :: 0 <= j < i ==> !Subtractable(pool[j].resource, e.resource)
  {
    if pool == [] then 0
    else if Subtractable(pool[0].resource, e.resource) then 0
    else 1 + FirstSubtractable(pool[1..], e)
  }

  /** Overwrite position `i` with the last entry, then drop the last entry. */
  function SwapRemove(pool: seq<Entry>, i: nat): seq<Entry>
    requires i < |pool|
  {
    pool[i := pool[|pool| - 1]][..|pool| - 1]
  }

  /** `Resources::subtract` */
  function Subtract(pool: seq<Entry>, e: Entry): seq<Entry> {
    if IsEmpty(e) then pool
    else
      var i := FirstSubtractable(pool, e);
      if i == |pool| then pool
      else
        var rest := Difference(pool[i], e);
        if IsNegative(rest) || IsEmpty(rest) then SwapRemove(pool, i) else pool[i := rest]
  }

  /** `Resources::_contains` */
  predicate Holds(pool: seq<Entry>, e: Entry) {
    exists i :: 0 <= i < |pool| && EntryIncludes(pool[i], e)
  }

  /** `Resources::contains(Resources)`: only persistent volumes are used up. */
  predicate Contains(pool: seq<Entry>, that: seq<Entry>)
    decreases that
  {
    that == [] ||
    (&& Holds(pool, that[0])
     && Contains(if IsPersistentVolume(that[0].resource) then Subtract(pool, that[0]) else pool, that[1..]))
  }

  /** `Resources::operator==` */
  predicate PoolEq(left: seq<Entry>, right: seq<Entry>) {
    Contains(left, right) && Contains(right, left)
  }

  /** `Resources::operator+=(Resources)` */
  function AddAll(pool: seq<Entry>, that: seq<Entry>): seq<Entry>
    decreases that
  {
    if that == [] then pool else AddAll(Add(pool, that[0]), that[1..])
  }

  /** `Resources::operator-=(Resources)` */
  function SubtractAll(pool: seq<Entry>, that: seq<Entry>): seq<Entry>
    decreases that
  {
    if that == [] then pool else SubtractAll(Subtract(pool, that[0]), that[1..])
  }

  // ---------------------------------------------------------------------
  // The map a pool stands for
  // ---------------------------------------------------------------------

  predicate WellFormedEntry(e: Entry) {
    && WellFormed(e.resource)
    && e.sharedCount.Some? == e.resource.shared
    && (e.sharedCount.Some? ==> e.sharedCount.value >= 0)
  }

  function Key(e: Entry): Resource {
    KeyOf(e.resource)
  }

  /** How much an entry holds: copies of a shared resource, one exclusive disk,
      or the measure of its value. */
  ghost function Amount(e: Entry): Quantity {
    if IsEmpty(e) then ZeroAt(Key(e))
    else if e.sharedCount.Some? then Count(e.sharedCount.value)
    else if IsUnit(e.resource) then Count(1)
    else Measure(e.resource.value)
  }

  ghost function At(e: Entry, key: Resource): Quantity {
    if Key(e) == key then Amount(e) else ZeroAt(key)
  }

  /** The quantity a list of entries holds under a key. */
  ghost function Qty(pool: seq<Entry>, key: Resource): Quantity {
    if pool == [] then ZeroAt(key) else Sum(At(pool[0], key), Qty(pool[1..], key))
  }

  predicate AllWellFormed(pool: seq<Entry>) {
    forall i :: 0 <= i < |pool| ==> WellFormedEntry(pool[i])
  }

  predicate NoneEmpty(pool: seq<Entry>) {
    forall i :: 0 <= i < |pool| ==> !IsEmpty(pool[i])
  }

  predicate NoTwoAddable(pool: seq<Entry>) {
    forall i, j :: 0 <= i < j < |pool| ==> !Addable(pool[i].resource, pool[j].resource)
  }

  /** The invariant of `Resources`. */
  predicate Valid(pool: seq<Entry>) {
    AllWellFormed(pool) && NoneEmpty(pool) && NoTwoAddable(pool)
  }

  /** Two lists stand for the same map. */
  ghost predicate SameMap(left: seq<Entry>, right: seq<Entry>) {
    forall key :: Qty(left, key) == Qty(right, key)
  }

  /** A key whose entries `contains` never uses up: a MOUNT disk without persistence. */
  predicate IsUncounted(key: Resource) {
    IsMount(key) && !IsPersistentVolume(key) && !key.shared
  }

  ghost predicate Covers(key: Resource, q: Quantity, needed: Quantity) {
    if IsUncounted(key) then needed == Count(0) || AtMost(Count(1), q) else AtMost(needed, q)
  }

  // ---------------------------------------------------------------------
  // Entries
  // ---------------------------------------------------------------------

  lemma AmountIsNatural(e: Entry, key: Resource)
    requires WellFormedEntry(e)
    ensures Natural(At(e, key)) && SameUnit(At(e, key), ZeroAt(key))
    ensures !IsEmpty(e) ==> Amount(e) != ZeroAt(Key(e))
  {
    KeyIsFixed(e.resource);
    OperatorsMeasure(e.resource.value, e.resource.value);
  }

  lemma ZeroIsNeutral(q: Quantity, key: Resource)
    requires Natural(q) && SameUnit(q, ZeroAt(key))
    ensures Sum(q, ZeroAt(key)) == q == Sum(ZeroAt(key), q)
    ensures Take(q, ZeroAt(key)) == q
    ensures AtMost(ZeroAt(key), q)
  {
  }

  lemma CombineAdds(left: Entry, right: Entry)
    requires WellFormedEntry(left) && WellFormedEntry(right) && !IsEmpty(left) && !IsEmpty(right)
    requires Addable(left.resource, right.resource)
    ensures WellFormedEntry(Combine(left, right)) && !IsEmpty(Combine(left, right))
    ensures Key(Combine(left, right)) == Key(left) == Key(right)
    ensures Amount(Combine(left, right)) == Sum(Amount(left), Amount(right))
  {
    KeysDecide(left.resource, right.resource);
    OperatorsMeasure(left.resource.value, right.resource.value);
    OperatorsMeasure(Combine(left, right).resource.value, right.resource.value);
    OperatorsMeasure(right.resource.value, right.resource.value);
  }

  lemma DifferenceTakes(left: Entry, right: Entry)
    requires WellFormedEntry(left) && WellFormedEntry(right) && !IsEmpty(left) && !IsEmpty(right)
    requires Subtractable(left.resource, right.resource)
    ensures var rest := Difference(left, right);
            if IsNegative(rest) || IsEmpty(rest)
            then Take(Amount(left), Amount(right)) == ZeroAt(Key(left))
            else
              && WellFormedEntry(rest)
              && Key(rest) == Key(left)
              && Amount(rest) == Take(Amount(left), Amount(right))
              && rest.resource.shared == left.resource.shared
              && IsUnit(rest.resource) == IsUnit(left.resource)
  {
    var rest := Difference(left, right);
    KeysDecide(left.resource, right.resource);
    OperatorsMeasure(left.resource.value, right.resource.value);
    if IsUnit(left.resource) && !left.resource.shared {
      OperatorsMeasure(left.resource.value, left.resource.value);
      assert left.resource.value == right.resource.value;
      if !left.resource.value.Scalar? {
        OperatorsMeasure(rest.resource.value, rest.resource.value);
        assert Measure(rest.resource.value) == ZeroOf(Measure(left.resource.value));
      }
    } else if !left.resource.shared && !left.resource.value.Scalar? {
      OperatorsMeasure(rest.resource.value, rest.resource.value);
    }
  }

  lemma EntryIncludesMeans(left: Entry, right: Entry)
    requires WellFormedEntry(left) && WellFormedEntry(right) && !IsEmpty(left) && !IsEmpty(right)
    ensures EntryIncludes(left, right) <==> Key(left) == Key(right) && AtMost(Amount(right), Amount(left))
  {
    KeysDecide(left.resource, right.resource);
    ResourceEqIsNormal(left.resource, right.resource);
    if SameKind(left.resource.value, right.resource.value) {
      OperatorsMeasure(right.resource.value, left.resource.value);
    }
  }
}
