/** Containment and equality of JSON trees told place by place, and containment as
    deletion of object entries. */
module JsonPaths {
  import opened J = Json
  import opened Doubles

  datatype Step = Index(i: nat) | Key(k: string)

  type Path = seq<Step>

  /** The tree has something at the end of the path. */
  predicate Reaches(v: Json, path: Path)
    decreases |path|
  {
    path == [] ||
    match path[0]
    case Index(i) => v.Array? && i < |v.elements| && Reaches(v.elements[i], path[1..])
    case Key(k) => v.Object? && k in v.values && Reaches(v.values[k], path[1..])
  }

  function At(v: Json, path: Path): Json
    requires Reaches(v, path)
    decreases |path|
  {
    if path == [] then v
    else
      match path[0]
      case Index(i) => At(v.elements[i], path[1..])
      case Key(k) => At(v.values[k], path[1..])
  }

  // ---------------------------------------------------------------------
  // Place by place
  // ---------------------------------------------------------------------

  predicate IsInteger(n: Numeral, m: int) {
    match n
    case Floating(_) => false
    case Signed(i) => i == m
    case Unsigned(u) => u == m
  }

  /** Integers are compared as such, whichever type stores them; a double equals an
      integer whose nearest double it is. */
  lemma NumberEqMeans(a: Numeral, b: Numeral, m: int, n: int)
    ensures a.Floating? && b.Floating? ==> (NumberEq(a, b) <==> a.value == b.value)
    ensures IsInteger(a, m) && IsInteger(b, n) ==> (NumberEq(a, b) <==> m == n)
    ensures IsInteger(a, m) && b.Floating? ==> (NumberEq(a, b) <==> b.value == ToDouble(m))
    ensures a.Floating? && IsInteger(b, n) ==> (NumberEq(a, b) <==> a.value == ToDouble(n))
    ensures IsDouble(ToDouble(m)) && forall x :: IsDouble(x) ==> Distance(ToDouble(m), m as real) <= Distance(x, m as real)
    ensures -EXACT < m < EXACT ==> ToDouble(m) == m as real
  {
    hide ToDouble, IsDouble;
    IntegerIsDouble(0);
    NearestDouble(m, 0.0);
    forall x | IsDouble(x) ensures Distance(ToDouble(m), m as real) <= Distance(x, m as real) {
      NearestDouble(m, x);
    }
  }

  /** The same kind of value; lists of one length; leaves that are equal. */
  predicate SameNode(a: Json, b: Json) {
    match b
    case Null => a.Null?
    case String(s) => a == Json.String(s)
    case Number(n) => a.Number? && NumberEq(a.number, n)
    case Boolean(x) => a == Json.Boolean(x)
    case Array(elements) => a.Array? && |a.elements| == |elements|
    case Object(_) => a.Object?
  }

  ghost predicate MatchesAt(a: Json, b: Json, path: Path)
    requires Reaches(b, path)
  {
    Reaches(a, path) && SameNode(At(a, path), At(b, path))
  }

  lemma MatchesBelow(a: Json, b: Json, step: Step, path: Path)
    requires Reaches(a, [step]) && Reaches(b, [step])
    ensures Reaches(b, [step] + path) <==> Reaches(At(b, [step]), path)
    ensures Reaches(b, [step] + path) ==>
              (MatchesAt(a, b, [step] + path) <==> MatchesAt(At(a, [step]), At(b, [step]), path))
  {
    assert ([step] + path)[0] == step && ([step] + path)[1..] == path;
    assert [step][1..] == [];
  }

  lemma {:induction false} ContainsAlong(a: Json, b: Json, path: Path)
    requires Contains(a, b) && Reaches(b, path)
    ensures MatchesAt(a, b, path)
    decreases |path|
  {
    hide NumberEq;
    if path != [] {
      match path[0] {
        case Index(i) => ContainsAlong(a.elements[i], b.elements[i], path[1..]);
        case Key(k) => ContainsAlong(a.values[k], b.values[k], path[1..]);
      }
    }
  }

  lemma {:induction false} AlongContains(a: Json, b: Json)
    requires forall path :: Reaches(b, path) ==> MatchesAt(a, b, path)
    ensures Contains(a, b)
    decreases b
  {
    hide NumberEq;
    assert Reaches(b, []) && MatchesAt(a, b, []);
    match b
    case Array(elements) =>
      forall i | 0 <= i < |elements| ensures Contains(a.elements[i], elements[i]) {
        Below(a, b, Index(i));
        AlongContains(a.elements[i], elements[i]);
      }
    case Object(values) =>
      forall k | k in values ensures k in a.values && Contains(a.values[k], values[k]) {
        Below(a, b, Key(k));
        AlongContains(a.values[k], values[k]);
      }
      ObjectContains(a.values, values);
    case _ =>
  }

  lemma Below(a: Json, b: Json, step: Step)
    requires forall path :: Reaches(b, path) ==> MatchesAt(a, b, path)
    requires Reaches(b, [step])
    ensures Reaches(a, [step])
    ensures At(b, [step]) == match step case Index(i) => b.elements[i] case Key(k) => b.values[k]
    ensures At(a, [step]) == match step case Index(i) => a.elements[i] case Key(k) => a.values[k]
    ensures forall path :: Reaches(At(b, [step]), path) ==> MatchesAt(At(a, [step]), At(b, [step]), path)
  {
    hide SameNode;
    assert [step][1..] == [];
    assert MatchesAt(a, b, [step]);
    forall path | Reaches(At(b, [step]), path) ensures MatchesAt(At(a, [step]), At(b, [step]), path) {
      MatchesBelow(a, b, step, path);
    }
  }

  /** One tree contains another exactly when it reaches every place the other reaches
      and has the same there: the same kind of value, a list of the same length, an
      equal leaf. */
  lemma ContainsMeans(a: Json, b: Json)
    ensures Contains(a, b) <==> forall path :: Reaches(b, path) ==> MatchesAt(a, b, path)
  {
    if Contains(a, b) {
      forall path | Reaches(b, path) ensures MatchesAt(a, b, path) {
        ContainsAlong(a, b, path);
      }
    }
    if forall path :: Reaches(b, path) ==> MatchesAt(a, b, path) {
      AlongContains(a, b);
    }
  }

  ghost predicate SamePlaces(a: Json, b: Json) {
    forall path :: Reaches(a, path) == Reaches(b, path) && (Reaches(b, path) ==> MatchesAt(a, b, path))
  }

  /** Two trees are equal exactly when they reach the same places and have the same
      at each of them. */
  lemma EqualPlaces(a: Json, b: Json)
    ensures Equal(a, b) <==> SamePlaces(a, b)
  {
    hide Contains, Equal, SameNode;
    MutualIsEqual(a, b);
    ContainsMeans(a, b);
    ContainsMeans(b, a);
    if Equal(a, b) {
      forall path ensures Reaches(a, path) == Reaches(b, path) && (Reaches(b, path) ==> MatchesAt(a, b, path)) {
        assert Reaches(b, path) ==> MatchesAt(a, b, path);
        assert Reaches(a, path) ==> MatchesAt(b, a, path);
      }
    }
    if SamePlaces(a, b) {
      forall path | Reaches(a, path) ensures MatchesAt(b, a, path) {
        assert MatchesAt(a, b, path);
        SameNodeSymmetric(At(a, path), At(b, path));
      }
    }
  }

  lemma SameNodeSymmetric(a: Json, b: Json)
    requires SameNode(a, b)
    ensures SameNode(b, a)
  {
  }

  // ---------------------------------------------------------------------
  // Deleting entries
  // ---------------------------------------------------------------------

  /** The tree with only those object entries whose path is kept. */
  ghost function Pruned(v: Json, path: Path, kept: iset<Path>): Json
    decreases v
  {
    match v
    case Array(elements) =>
      Json.Array(seq(|elements|, i requires 0 <= i < |elements| => Pruned(elements[i], path + [Index(i)], kept)))
    case Object(values) =>
      Json.Object(map k | k in values && path + [Key(k)] in kept :: Pruned(values[k], path + [Key(k)], kept))
    case _ => v
  }

  lemma {:induction false} PrunedIsContained(a: Json, b: Json, path: Path, kept: iset<Path>)
    requires Equal(Pruned(a, path, kept), b)
    ensures Contains(a, b)
    decreases b
  {
    hide NumberEq;
    match b
    case Array(elements) =>
      forall i | 0 <= i < |elements| ensures Contains(a.elements[i], elements[i]) {
        PrunedIsContained(a.elements[i], elements[i], path + [Index(i)], kept);
      }
    case Object(values) =>
      var x := Pruned(a, path, kept).values;
      forall k | k in values ensures k in a.values && Contains(a.values[k], values[k]) {
        assert k in x && Equal(x[k], values[k]);
        PrunedIsContained(a.values[k], values[k], path + [Key(k)], kept);
      }
      ObjectContains(a.values, values);
    case _ =>
  }

  /** Below the path, just the places that a tree reaches are kept. */
  ghost predicate KeepsPlaces(kept: iset<Path>, path: Path, v: Json) {
    forall p :: path + p in kept <==> Reaches(v, p)
  }

  lemma KeepsBelow(kept: iset<Path>, path: Path, v: Json, step: Step)
    requires KeepsPlaces(kept, path, v) && Reaches(v, [step])
    ensures At(v, [step]) == match step case Index(i) => v.elements[i] case Key(k) => v.values[k]
    ensures KeepsPlaces(kept, path + [step], At(v, [step]))
  {
    assert [step][1..] == [];
    forall p ensures path + [step] + p in kept <==> Reaches(At(v, [step]), p) {
      assert path + [step] + p == path + ([step] + p);
      assert ([step] + p)[1..] == p;
    }
  }

  lemma {:induction false} ContainedIsPruned(a: Json, b: Json, path: Path, kept: iset<Path>)
    requires Contains(a, b) && KeepsPlaces(kept, path, b)
    ensures Equal(Pruned(a, path, kept), b)
    decreases b
  {
    hide NumberEq, KeepsPlaces;
    match b
    case Array(elements) =>
      forall i | 0 <= i < |elements| ensures Equal(Pruned(a, path, kept).elements[i], elements[i]) {
        KeepsBelow(kept, path, b, Index(i));
        ContainedIsPruned(a.elements[i], elements[i], path + [Index(i)], kept);
      }
    case Object(values) =>
      forall k ensures k in values <==> path + [Key(k)] in kept {
        OneStep(kept, path, b, k);
      }
      var x := Pruned(a, path, kept).values;
      assert x.Keys == values.Keys;
      forall k | k in values ensures Equal(x[k], values[k]) {
        KeepsBelow(kept, path, b, Key(k));
        ContainedIsPruned(a.values[k], values[k], path + [Key(k)], kept);
      }
    case _ =>
  }

  lemma OneStep(kept: iset<Path>, path: Path, v: Json, k: string)
    requires KeepsPlaces(kept, path, v) && v.Object?
    ensures k in v.values <==> path + [Key(k)] in kept
  {
    assert [Key(k)][1..] == [];
    assert Reaches(v, [Key(k)]) <==> k in v.values;
  }

  /** One tree contains another exactly when the other is what is left of it after
      some object entries are deleted, at any depth. */
  lemma ContainsIsDeletion(a: Json, b: Json)
    ensures Contains(a, b) <==> exists kept :: Equal(Pruned(a, [], kept), b)
  {
    if Contains(a, b) {
      var kept := iset p | Reaches(b, p);
      forall p ensures [] + p in kept <==> Reaches(b, p) {
        assert [] + p == p;
      }
      ContainedIsPruned(a, b, [], kept);
    }
    if kept :| Equal(Pruned(a, [], kept), b) {
      PrunedIsContained(a, b, [], kept);
    }
  }

  lemma {:induction false} PrunedKeepsIntegers(v: Json, path: Path, kept: iset<Path>)
    requires IntegersOnly(v)
    ensures IntegersOnly(Pruned(v, path, kept))
  {
    match v
    case Array(elements) =>
      forall i | 0 <= i < |elements| ensures IntegersOnly(Pruned(v, path, kept).elements[i]) {
        PrunedKeepsIntegers(elements[i], path + [Index(i)], kept);
      }
    case Object(values) =>
      var x := Pruned(v, path, kept).values;
      forall k | k in x ensures IntegersOnly(x[k]) {
        PrunedKeepsIntegers(values[k], path + [Key(k)], kept);
      }
    case _ =>
  }

  /** On trees of integers what is left is the other tree itself, up to the sign of
      the integer types. */
  lemma IntegerDeletion(a: Json, b: Json)
    requires IntegersOnly(a) && IntegersOnly(b)
    ensures Contains(a, b) <==> exists kept :: Unsign(Pruned(a, [], kept)) == Unsign(b)
  {
    hide Contains, Equal, Unsign, Pruned, IntegersOnly;
    ContainsIsDeletion(a, b);
    forall kept ensures Equal(Pruned(a, [], kept), b) <==> Unsign(Pruned(a, [], kept)) == Unsign(b) {
      PrunedKeepsIntegers(a, [], kept);
      EqualMeans(Pruned(a, [], kept), b);
    }
    if kept :| Unsign(Pruned(a, [], kept)) == Unsign(b) {
      assert Equal(Pruned(a, [], kept), b);
    }
  }
}
