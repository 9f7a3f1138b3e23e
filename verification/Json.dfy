/** JSON values, containment and equality. */
module Json {
  import opened Common
  import opened Division

  type Int64 = i: int | -0x8000_0000_0000_0000 <= i < 0x8000_0000_0000_0000

  type UInt64 = n: int | 0 <= n < 0x1_0000_0000_0000_0000

  /** A double is taken as a real number. */
  datatype Numeral = Floating(value: real) | Signed(i: Int64) | Unsigned(n: UInt64)

  datatype Json =
    | Null
    | String(text: string)
    | Number(number: Numeral)
    | Boolean(flag: bool)
    | Array(elements: seq<Json>)
    | Object(values: map<string, Json>)

  // ---------------------------------------------------------------------
  // Conversion of an integer to the nearest double
  // ---------------------------------------------------------------------

  /** Integers below this magnitude have an exact double. */
  const EXACT: int := 0x20_0000_0000_0000

  /** The distance between neighbouring doubles around `n`. */
  function Spacing(n: nat): (d: nat)
    ensures d >= 1
  {
    if n < EXACT then 1 else 2 * Spacing(n / 2)
  }

  /** Round to a multiple of `d`, ties to the even multiple. */
  function RoundTo(n: nat, d: nat): nat
    requires d >= 1
  {
    var q, r := n / d, n % d;
    if 2 * r < d || (2 * r == d && q % 2 == 0) then q * d else (q + 1) * d
  }

  function ToDouble(n: int): real {
    if n < 0 then -(RoundTo(-n, Spacing(-n)) as real) else RoundTo(n, Spacing(n)) as real
  }

  lemma SmallIsExact(n: int)
    requires -EXACT < n < EXACT
    ensures ToDouble(n) == n as real
  {
  }

  // ---------------------------------------------------------------------
  // Containment and equality
  // ---------------------------------------------------------------------

  /** A signed and an unsigned integer are compared after a check of the sign. */
  predicate NumberEq(a: Numeral, b: Numeral) {
    match (a, b)
    case (Floating(x), Floating(y)) => x == y
    case (Floating(x), Signed(j)) => x == ToDouble(j)
    case (Floating(x), Unsigned(n)) => x == ToDouble(n)
    case (Signed(i), Floating(y)) => ToDouble(i) == y
    case (Signed(i), Signed(j)) => i == j
    case (Signed(i), Unsigned(n)) => i >= 0 && i == n
    case (Unsigned(m), Floating(y)) => ToDouble(m) == y
    case (Unsigned(m), Signed(j)) => j >= 0 && m == j
    case (Unsigned(m), Unsigned(n)) => m == n
  }

  predicate Contains(self: Json, other: Json)
    decreases other
  {
    match other
    case Null => self.Null?
    case String(s) => self.String? && self.text == s
    case Number(n) => self.Number? && NumberEq(self.number, n)
    case Boolean(b) => self.Boolean? && self.flag == b
    case Array(elements) =>
      self.Array? && |self.elements| == |elements|
      && forall i :: 0 <= i < |elements| ==> Contains(self.elements[i], elements[i])
    case Object(values) =>
      self.Object? && |values| <= |self.values|
      && forall k :: k in values ==> k in self.values && Contains(self.values[k], values[k])
  }

  predicate Equal(a: Json, b: Json)
    decreases b
  {
    match b
    case Null => a.Null?
    case String(s) => a.String? && a.text == s
    case Number(n) => a.Number? && NumberEq(a.number, n)
    case Boolean(x) => a.Boolean? && a.flag == x
    case Array(elements) =>
      a.Array? && |a.elements| == |elements|
      && forall i :: 0 <= i < |elements| ==> Equal(a.elements[i], elements[i])
    case Object(values) =>
      a.Object? && a.values.Keys == values.Keys
      && forall k :: k in values ==> k in a.values && Equal(a.values[k], values[k])
  }

  // ---------------------------------------------------------------------
  // Containment is a preorder and equality is mutual containment
  // ---------------------------------------------------------------------

  /** The comparison of sizes never changes the answer: containment of objects is
      key by key. */
  lemma ObjectContains(self: map<string, Json>, other: map<string, Json>)
    ensures Contains(Object(self), Object(other)) <==>
            forall k :: k in other ==> k in self && Contains(self[k], other[k])
  {
    if forall k :: k in other ==> k in self && Contains(self[k], other[k]) {
      SubsetIsSmaller(other.Keys, self.Keys);
    }
  }

  lemma {:induction false} ContainsReflexive(v: Json)
    ensures Contains(v, v)
  {
    match v
    case Array(elements) =>
      forall i | 0 <= i < |elements| ensures Contains(elements[i], elements[i]) {
        ContainsReflexive(elements[i]);
      }
    case Object(values) =>
      forall k | k in values ensures Contains(values[k], values[k]) {
        ContainsReflexive(values[k]);
      }
    case _ =>
  }

  /** The numbers that one of the two integer types holds. */
  predicate HasIntegerType(m: int) {
    -0x8000_0000_0000_0000 <= m < 0x1_0000_0000_0000_0000
  }

  function IntegerNumeral(m: int): Numeral
    requires HasIntegerType(m)
  {
    if m < 0 then Signed(m) else Unsigned(m)
  }

  /** At most one integer is converted to this double. */
  ghost predicate Pinned(x: real) {
    forall m, n :: HasIntegerType(m) && HasIntegerType(n) && ToDouble(m) == x && ToDouble(n) == x ==> m == n
  }

  /** Every double in the tree is pinned. */
  ghost predicate DoublesArePinned(v: Json) {
    match v
    case Number(n) => n.Floating? ==> Pinned(n.value)
    case Array(elements) => forall i :: 0 <= i < |elements| ==> DoublesArePinned(elements[i])
    case Object(values) => forall k :: k in values ==> DoublesArePinned(values[k])
    case _ => true
  }

  lemma NumberTransitive(a: Numeral, b: Numeral, c: Numeral)
    requires NumberEq(a, b) && NumberEq(b, c) && (b.Floating? ==> Pinned(b.value))
    ensures NumberEq(a, c)
  {
    hide ToDouble;
    if !a.Floating? && b.Floating? && !c.Floating? {
      var m, n: int := if a.Signed? then a.i else a.n, if c.Signed? then c.i else c.n;
      assert HasIntegerType(m) && HasIntegerType(n) && ToDouble(m) == b.value && ToDouble(n) == b.value;
    }
  }

  lemma {:induction false} PinnedTransitive(a: Json, b: Json, c: Json)
    requires Contains(a, b) && Contains(b, c) && DoublesArePinned(b)
    ensures Contains(a, c)
    decreases c
  {
    hide NumberEq, Pinned;
    match c
    case Number(n) => NumberTransitive(a.number, b.number, n);
    case Array(elements) =>
      forall i | 0 <= i < |elements| ensures Contains(a.elements[i], elements[i]) {
        PinnedTransitive(a.elements[i], b.elements[i], elements[i]);
      }
    case Object(values) =>
      ObjectContains(a.values, values);
      forall k | k in values ensures k in a.values && Contains(a.values[k], values[k]) {
        assert Contains(b.values[k], values[k]) && Contains(a.values[k], b.values[k]);
        PinnedTransitive(a.values[k], b.values[k], values[k]);
      }
    case _ =>
  }

  /** Two different integers in the place of a double that stands for both. */
  lemma {:induction false} UnpinnedIsNotTransitive(b: Json) returns (a: Json, c: Json)
    requires !DoublesArePinned(b)
    ensures Contains(a, b) && Contains(b, c) && !Contains(a, c)
  {
    hide ToDouble;
    match b
    case Number(number) =>
      var m, n :| HasIntegerType(m) && HasIntegerType(n) && ToDouble(m) == number.value && ToDouble(n) == number.value
                  && m != n;
      a, c := Number(IntegerNumeral(m)), Number(IntegerNumeral(n));
    case Array(elements) =>
      var i :| 0 <= i < |elements| && !DoublesArePinned(elements[i]);
      var x, y := UnpinnedIsNotTransitive(elements[i]);
      a, c := Array(elements[i := x]), Array(elements[i := y]);
      forall j | 0 <= j < |elements| && j != i ensures Contains(elements[j], elements[j]) {
        ContainsReflexive(elements[j]);
      }
      assert !Contains(a.elements[i], c.elements[i]);
    case Object(values) =>
      var k :| k in values && !DoublesArePinned(values[k]);
      var x, y := UnpinnedIsNotTransitive(values[k]);
      a, c := Object(values[k := x]), Object(values[k := y]);
      forall j | j in values && j != k ensures Contains(values[j], values[j]) {
        ContainsReflexive(values[j]);
      }
      ReplacedContains(values, k, x, y);
  }

  lemma ReplacedContains(values: map<string, Json>, k: string, x: Json, y: Json)
    requires k in values && Contains(x, values[k]) && Contains(values[k], y) && !Contains(x, y)
    requires forall j :: j in values && j != k ==> Contains(values[j], values[j])
    ensures Contains(Object(values[k := x]), Object(values)) && Contains(Object(values), Object(values[k := y]))
    ensures !Contains(Object(values[k := x]), Object(values[k := y]))
  {
    ObjectContains(values[k := x], values);
    ObjectContains(values, values[k := y]);
    ObjectContains(values[k := x], values[k := y]);
    assert k in values[k := y] && !Contains(values[k := x][k], values[k := y][k]);
  }

  /** Containment carries over through a tree, whatever stands on either side,
      exactly when every double in that tree stands for at most one integer. */
  lemma {:induction false} ContainsTransitive(b: Json)
    ensures (forall a, c :: Contains(a, b) && Contains(b, c) ==> Contains(a, c)) <==> DoublesArePinned(b)
  {
    if DoublesArePinned(b) {
      forall a, c | Contains(a, b) && Contains(b, c) ensures Contains(a, c) {
        PinnedTransitive(a, b, c);
      }
    } else {
      var a, c := UnpinnedIsNotTransitive(b);
    }
  }

  /** Every number is an integer, or a double of a magnitude below 2^53. */
  predicate SmallDoubles(v: Json) {
    match v
    case Number(n) => n.Floating? ==> -(EXACT as real) < n.value < EXACT as real
    case Array(elements) => forall i :: 0 <= i < |elements| ==> SmallDoubles(elements[i])
    case Object(values) => forall k :: k in values ==> SmallDoubles(values[k])
    case _ => true
  }

  lemma {:induction false} SpacingIsCoarse(n: nat)
    requires n >= EXACT
    ensures Spacing(n) >= 2 && n / Spacing(n) >= EXACT / 2
  {
    var d := Spacing(n / 2);
    HalveThenDivide(n, d);
    if n / 2 >= EXACT {
      SpacingIsCoarse(n / 2);
    }
  }

  lemma LargeStaysLarge(n: nat)
    requires n >= EXACT
    ensures RoundTo(n, Spacing(n)) >= EXACT
  {
    hide Spacing;
    SpacingIsCoarse(n);
    var d := Spacing(n);
    var q := n / d;
    assert q * d >= EXACT / 2 * 2 by {
      assert q * d >= q * 2;
    }
    assert (q + 1) * d >= q * d;
  }

  lemma SmallIsPinned(x: real)
    requires -(EXACT as real) < x < EXACT as real
    ensures Pinned(x)
  {
    forall m, n | HasIntegerType(m) && HasIntegerType(n) && ToDouble(m) == x && ToDouble(n) == x ensures m == n {
      RoundsFromSmall(m);
      RoundsFromSmall(n);
    }
  }

  lemma RoundsFromSmall(m: int)
    ensures -(EXACT as real) < ToDouble(m) < EXACT as real ==> ToDouble(m) == m as real
  {
    if -EXACT < m < EXACT {
      SmallIsExact(m);
    } else {
      LargeStaysLarge(if m < 0 then -m else m);
    }
  }

  lemma {:induction false} SmallArePinned(v: Json)
    requires SmallDoubles(v)
    ensures DoublesArePinned(v)
  {
    hide Pinned;
    match v
    case Number(n) => if n.Floating? { SmallIsPinned(n.value); }
    case Array(elements) =>
      forall i | 0 <= i < |elements| ensures DoublesArePinned(elements[i]) {
        SmallArePinned(elements[i]);
      }
    case Object(values) =>
      forall k | k in values ensures DoublesArePinned(values[k]) {
        SmallArePinned(values[k]);
      }
    case _ =>
  }

  /** So containment carries over through trees of integers and small doubles. */
  lemma SmallTransitive(a: Json, b: Json, c: Json)
    requires SmallDoubles(b) && Contains(a, b) && Contains(b, c)
    ensures Contains(a, c)
  {
    SmallArePinned(b);
    PinnedTransitive(a, b, c);
  }

  /** Every number is an integer. */
  predicate IntegersOnly(v: Json) {
    match v
    case Number(n) => !n.Floating?
    case Array(elements) => forall i :: 0 <= i < |elements| ==> IntegersOnly(elements[i])
    case Object(values) => forall k :: k in values ==> IntegersOnly(values[k])
    case _ => true
  }

  /** 2^53 + 1 contains the double 2^53, which contains 2^53, which it does not contain. */
  lemma DoublesBreakTransitivity()
    ensures var a, b, c := Number(Signed(EXACT + 1)), Number(Floating(EXACT as real)), Number(Signed(EXACT));
            Contains(a, b) && Contains(b, c) && !Contains(a, c)
  {
    assert Spacing(EXACT / 2) == 1 && Spacing((EXACT + 1) / 2) == 1;
    assert Spacing(EXACT) == 2 && Spacing(EXACT + 1) == 2;
  }

  /** Mutual containment is equality. */
  lemma {:induction false} MutualIsEqual(a: Json, b: Json)
    ensures Contains(a, b) && Contains(b, a) <==> Equal(a, b)
    decreases b
  {
    match b
    case Array(elements) =>
      if a.Array? && |a.elements| == |elements| {
        forall i | 0 <= i < |elements|
          ensures Contains(a.elements[i], elements[i]) && Contains(elements[i], a.elements[i]) <==>
                  Equal(a.elements[i], elements[i])
        {
          MutualIsEqual(a.elements[i], elements[i]);
        }
      }
    case Object(values) =>
      if a.Object? {
        ObjectContains(a.values, values);
        ObjectContains(values, a.values);
        forall k | k in values && k in a.values
          ensures Contains(a.values[k], values[k]) && Contains(values[k], a.values[k]) <==>
                  Equal(a.values[k], values[k])
        {
          MutualIsEqual(a.values[k], values[k]);
        }
        assert Contains(a, b) && Contains(b, a) ==> a.values.Keys == values.Keys;
      }
    case _ =>
  }

  /** The tree with every non-negative signed integer made unsigned. */
  function Unsign(v: Json): Json {
    match v
    case Number(Signed(i)) => if i >= 0 then Number(Unsigned(i)) else v
    case Array(elements) => Array(seq(|elements|, i requires 0 <= i < |elements| => Unsign(elements[i])))
    case Object(values) => Object(map k | k in values :: Unsign(values[k]))
    case _ => v
  }

  /** On trees of integers, equality is identity up to the sign of the integer type. */
  lemma {:induction false} EqualMeans(a: Json, b: Json)
    requires IntegersOnly(a) && IntegersOnly(b)
    ensures Equal(a, b) <==> Unsign(a) == Unsign(b)
    decreases b
  {
    match b
    case Array(elements) =>
      if a.Array? {
        var x, y := Unsign(a).elements, Unsign(b).elements;
        assert |x| == |a.elements| && |y| == |elements|;
        if |x| == |y| {
          forall i | 0 <= i < |y| ensures Equal(a.elements[i], elements[i]) <==> x[i] == y[i] {
            EqualMeans(a.elements[i], elements[i]);
          }
          assert Equal(a, b) ==> x == y;
        }
      }
    case Object(values) =>
      if a.Object? {
        var x, y := Unsign(a).values, Unsign(b).values;
        assert x.Keys == a.values.Keys && y.Keys == values.Keys;
        if a.values.Keys == values.Keys {
          forall k | k in values ensures Equal(a.values[k], values[k]) <==> x[k] == y[k] {
            EqualMeans(a.values[k], values[k]);
          }
          assert Equal(a, b) ==> x == y;
        }
      }
    case _ =>
  }
}
