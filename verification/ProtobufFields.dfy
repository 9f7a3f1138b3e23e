/** What a JSON value sets in a field, told by the value and the type of the field. */
module ProtobufFields {
  import opened Common
  import opened Division
  import opened J = Json
  import opened Protobuf
  import opened Doubles
  import Base64

  // ---------------------------------------------------------------------
  // Numbers
  // ---------------------------------------------------------------------

  /** The least and the greatest value of an integer type. */
  function Bounds(kind: Kind): (int, int)
    requires kind.IntKind?
  {
    match kind
    case IntKind(true, true) => (-0x8000_0000_0000_0000, 0x7FFF_FFFF_FFFF_FFFF)
    case IntKind(true, false) => (0, 0xFFFF_FFFF_FFFF_FFFF)
    case IntKind(false, true) => (-0x8000_0000, 0x7FFF_FFFF)
    case IntKind(false, false) => (0, 0xFFFF_FFFF)
  }

  predicate Within(kind: Kind, m: int)
    requires kind.IntKind?
  {
    Bounds(kind).0 <= m <= Bounds(kind).1
  }

  /** Rounded towards zero. */
  predicate IsIntegerPart(m: int, x: real) {
    if x >= 0.0 then m as real <= x < (m + 1) as real else (m - 1) as real < x <= m as real
  }

  /** The integer that a numeral stands for, or that a double is cut down to. */
  predicate IsInteger(n: Numeral, m: int) {
    match n
    case Floating(x) => IsIntegerPart(m, x)
    case Signed(i) => i == m
    case Unsigned(u) => u == m
  }

  lemma RangeIsWithin(kind: Kind, m: int)
    requires kind.IntKind?
    ensures InRange(kind, m) <==> Within(kind, m)
    ensures 2 * Half(kind) == Bounds(kind).1 - Bounds(kind).0 + 1
  {
  }

  lemma IntegerOfMeans(n: Numeral, m: int)
    ensures IntegerOf(n) == m <==> IsInteger(n, m)
  {
    if n.Floating? {
      var x := n.value;
      if x >= 0.0 {
        FloorMeans(x, m);
      } else {
        FloorMeans(-x, -m);
      }
    }
  }

  lemma FloorMeans(x: real, m: int)
    ensures x.Floor == m <==> m as real <= x < (m + 1) as real
  {
  }

  lemma CastKeepsLowBits(kind: Kind, m: int)
    requires kind.IntKind?
    ensures (Cast(kind, m) - m) % (2 * Half(kind)) == 0
  {
    var h := Half(kind);
    if kind.signed {
      LowBits(m + h, 2 * h);
      assert Cast(kind, m) - m == (m + h) % (2 * h) - (m + h);
    } else {
      LowBits(m, 2 * h);
    }
  }

  lemma LowBits(a: int, b: int)
    requires b > 0
    ensures (a % b - a) % b == 0
  {
    var q := a / b;
    assert a % b - a == -q * b;
    MultipleOf(-q, b);
  }

  lemma MultipleOf(q: int, b: int)
    requires b > 0
    ensures q * b % b == 0
  {
    QuotientIs(q * b, b, q, 0);
  }

  /** An integer field gets the number, whichever integer type stores it, or the
      double cut down towards zero, if the range of the field holds that; and
      otherwise its low bits. */
  lemma NumberInIntField(kind: Kind, n: Numeral, m: int)
    requires kind.IntKind? && IsInteger(n, m)
    ensures Within(kind, m) ==> ParseNumber(kind, n) == Ok(Int(m))
    ensures ParseNumber(kind, n).Ok? && ParseNumber(kind, n).value.Int?
    ensures Within(kind, ParseNumber(kind, n).value.i)
    ensures (ParseNumber(kind, n).value.i - m) % (Bounds(kind).1 - Bounds(kind).0 + 1) == 0
  {
    hide Cast, Half, InRange, Within, Bounds;
    IntegerOfMeans(n, m);
    RangeIsWithin(kind, m);
    CastIsInRange(kind, m);
    RangeIsWithin(kind, Cast(kind, m));
    CastKeepsLowBits(kind, m);
    if InRange(kind, m) {
      CastFits(kind, m);
    }
  }

  /** A double field gets a double as it is, and of an integer a nearest double, which
      below 2^53 is the integer itself. */
  lemma NumberInDoubleField(n: Numeral)
    ensures ParseNumber(DoubleKind, n).Ok? && ParseNumber(DoubleKind, n).value.Real?
    ensures n.Floating? ==> ParseNumber(DoubleKind, n).value.r == n.value
    ensures forall m :: !n.Floating? && IsInteger(n, m) ==>
              var x := ParseNumber(DoubleKind, n).value.r;
              && IsDouble(x)
              && (forall y :: IsDouble(y) ==> Distance(x, m as real) <= Distance(y, m as real))
              && (-EXACT < m < EXACT ==> x == m as real)
  {
    hide ToDouble, IsDouble;
    if !n.Floating? {
      var m := IntegerOf(n);
      var x := ParseNumber(DoubleKind, n).value.r;
      IntegerIsDouble(0);
      NearestDouble(m, 0.0);
      forall y | IsDouble(y) ensures Distance(x, m as real) <= Distance(y, m as real) {
        NearestDouble(m, y);
      }
    }
  }

  // ---------------------------------------------------------------------
  // Names, lists, and what does not fit
  // ---------------------------------------------------------------------

  /** An enumeration is set by the first of its names that matches. */
  lemma {:induction false} NameInEnumField(names: seq<(string, int)>, s: string)
    ensures FindName(names, s).None? <==> forall i :: 0 <= i < |names| ==> names[i].0 != s
    ensures forall i :: 0 <= i < |names| && names[i].0 == s && (forall j :: 0 <= j < i ==> names[j].0 != s) ==>
              FindName(names, s) == Some(names[i].1)
  {
    if names != [] {
      var rest := names[1..];
      NameInEnumField(rest, s);
      assert forall i :: 0 <= i < |rest| ==> rest[i] == names[i + 1];
      if names[0].0 != s {
        forall i | 0 <= i < |names| && names[i].0 == s && (forall j :: 0 <= j < i ==> names[j].0 != s)
          ensures FindName(names, s) == Some(names[i].1)
        {
          assert rest[i - 1] == names[i];
        }
        if forall i :: 0 <= i < |rest| ==> rest[i].0 != s {
          forall i | 0 <= i < |names| ensures names[i].0 != s {
            assert i > 0 ==> names[i] == rest[i - 1];
          }
        }
      }
    }
  }

  predicate TakesText(kind: Kind) {
    kind.StringKind? || kind.BytesKind? || kind.EnumKind?
  }

  predicate TakesNumbers(kind: Kind) {
    kind.IntKind? || kind.DoubleKind?
  }

  /** One value, neither null nor a list, sets one value of the type of the field. */
  lemma ValueInField(schema: Schema, f: Field, v: Json)
    ensures v.Null? ==> ParseField(schema, f, v) == Ok([])
    ensures v.String? && f.kind.StringKind? ==> ParseField(schema, f, v) == Ok([Text(v.text)])
    ensures v.String? && f.kind.BytesKind? ==>
              forall bytes :: v.text == Base64.EncodeStandard(bytes) ==> ParseField(schema, f, v) == Ok([Bytes(bytes)])
    ensures v.String? && f.kind.EnumKind? ==>
              && (ParseField(schema, f, v).Error? <==> forall i :: 0 <= i < |f.kind.names| ==> f.kind.names[i].0 != v.text)
              && (DistinctNames(f.kind.names) ==>
                    forall i :: 0 <= i < |f.kind.names| && f.kind.names[i].0 == v.text ==>
                      ParseField(schema, f, v) == Ok([Enum(f.kind.names[i].1)]))
    ensures v.Number? && TakesNumbers(f.kind) ==>
              ParseNumber(f.kind, v.number).Ok? && ParseField(schema, f, v) == Ok([ParseNumber(f.kind, v.number).value])
    ensures v.Boolean? && f.kind.BoolKind? ==> ParseField(schema, f, v) == Ok([Flag(v.flag)])
    ensures v.Object? && f.kind.MessageKind? && ParseObject(schema, f.kind.name, v).Ok? ==>
              ParseField(schema, f, v) == Ok([ParseObject(schema, f.kind.name, v).value])
  {
    hide Cast, FindName, ParseObject, DoubleOf, IntegerOf;
    if v.String? && f.kind.BytesKind? {
      forall bytes | v.text == Base64.EncodeStandard(bytes) ensures ParseField(schema, f, v) == Ok([Bytes(bytes)]) {
        Base64.AlphabetRoundTrips(bytes, true);
      }
    }
    if v.String? && f.kind.EnumKind? {
      NameInEnumField(f.kind.names, v.text);
    }
  }

  /** Everything else fails: text, numbers, truth values and objects for fields that
      do not take them, and lists for fields that are not repeated. */
  lemma MisfitsFail(schema: Schema, f: Field, v: Json)
    ensures v.String? && !TakesText(f.kind) ==> ParseField(schema, f, v).Error?
    ensures v.Number? && !TakesNumbers(f.kind) ==> ParseField(schema, f, v).Error?
    ensures v.Boolean? && !f.kind.BoolKind? ==> ParseField(schema, f, v).Error?
    ensures v.Object? && !f.kind.MessageKind? ==> ParseField(schema, f, v).Error?
    ensures v.Array? && !f.presence.Repeated? ==> ParseField(schema, f, v).Error?
  {
  }

  ghost function Flatten(lists: seq<seq<Value>>): seq<Value> {
    if lists == [] then [] else lists[0] + Flatten(lists[1..])
  }

  /** A list fails with any of its elements, and otherwise adds what they add, in order. */
  lemma ListInField(schema: Schema, f: Field, v: Json)
    requires v.Array? && f.presence.Repeated?
    ensures ParseField(schema, f, v).Ok? <==>
            forall i :: 0 <= i < |v.elements| ==> ParseField(schema, f, v.elements[i]).Ok?
    ensures ParseField(schema, f, v).Ok? ==>
            ParseField(schema, f, v).value ==
            Flatten(seq(|v.elements|, i requires 0 <= i < |v.elements| => ParseField(schema, f, v.elements[i]).value))
  {
    ElementsInField(schema, f, v, 0);
    var all := Values(schema, f, v);
    if ParseField(schema, f, v).Ok? {
      assert all[0..] == all;
      assert all == seq(|v.elements|, i requires 0 <= i < |v.elements| => ParseField(schema, f, v.elements[i]).value);
    }
  }

  ghost function Values(schema: Schema, f: Field, v: Json): seq<seq<Value>>
    requires v.Array?
  {
    seq(|v.elements|, i requires 0 <= i < |v.elements| =>
      if ParseField(schema, f, v.elements[i]).Ok? then ParseField(schema, f, v.elements[i]).value else [])
  }

  lemma {:induction false} ElementsInField(schema: Schema, f: Field, v: Json, i: nat)
    requires v.Array? && i <= |v.elements|
    ensures ParseElements(schema, f, v, i).Ok? <==>
            forall j :: i <= j < |v.elements| ==> ParseField(schema, f, v.elements[j]).Ok?
    ensures ParseElements(schema, f, v, i).Ok? ==> ParseElements(schema, f, v, i).value == Flatten(Values(schema, f, v)[i..])
    decreases |v.elements| - i
  {
    hide ParseField;
    var all := Values(schema, f, v);
    if i < |v.elements| {
      ElementsInField(schema, f, v, i + 1);
      assert all[i..] == [all[i]] + all[i + 1..];
    } else {
      assert all[i..] == [];
    }
  }

  // ---------------------------------------------------------------------
  // Printing
  // ---------------------------------------------------------------------

  /** How a value that is no message is printed: numbers by the sign of their type,
      bytes in standard Base64, an enumeration by the first of the names of its number. */
  lemma ScalarPrinted(kind: Kind, v: Value)
    requires IsScalar(kind, v)
    ensures v.Flag? ==> ScalarToJson(kind, v) == Json.Boolean(v.b)
    ensures v.Int? && kind == IntKind(kind.wide, true) ==> ScalarToJson(kind, v) == Json.Number(Signed(v.i))
    ensures v.Int? && kind == IntKind(kind.wide, false) ==> ScalarToJson(kind, v) == Json.Number(Unsigned(v.i))
    ensures v.Real? ==> ScalarToJson(kind, v) == Json.Number(Floating(v.r))
    ensures v.Text? ==> ScalarToJson(kind, v) == Json.String(v.s)
    ensures v.Bytes? ==> ScalarToJson(kind, v) == Json.String(Base64.EncodeStandard(v.bytes))
    ensures v.Enum? ==> forall i :: 0 <= i < |kind.names| && kind.names[i].1 == v.number
                                    && (forall j :: 0 <= j < i ==> kind.names[j].1 != v.number) ==>
              ScalarToJson(kind, v) == Json.String(kind.names[i].0)
  {
    if v.Enum? {
      NameOfNumber(kind.names, v.number);
    }
  }

  lemma {:induction false} NameOfNumber(names: seq<(string, int)>, number: int)
    ensures forall i :: 0 <= i < |names| && names[i].1 == number && (forall j :: 0 <= j < i ==> names[j].1 != number) ==>
              NameOf(names, number) == Some(names[i].0)
  {
    if names != [] && names[0].1 != number {
      var rest := names[1..];
      NameOfNumber(rest, number);
      forall i | 0 <= i < |names| && names[i].1 == number && (forall j :: 0 <= j < i ==> names[j].1 != number)
        ensures NameOf(names, number) == Some(names[i].0)
      {
        assert rest[i - 1] == names[i];
        assert forall j :: 0 <= j < i - 1 ==> rest[j] == names[j + 1];
      }
    }
  }

  /** Of a message all set fields are printed, and those unset ones that have a default
      and are not deprecated; of a repeated field every element. */
  lemma MessagePrinted(schema: Schema, name: string, m: Value)
    requires ValidSchema(schema) && HasKind(schema, MessageKind(name), m)
    ensures ToJson(schema, MessageKind(name), m).Object?
    ensures var fields, json := schema[name], ToJson(schema, MessageKind(name), m).values;
            forall k ::
              && (k in json <==>
                  k in m.fields ||
                  (k in fields && fields[k].default.Some? && !fields[k].deprecated && fields[k].presence != Repeated))
              && (k in m.fields && fields[k].presence != Repeated ==> json[k] == ToJson(schema, fields[k].kind, m.fields[k]))
              && (k in m.fields && fields[k].presence == Repeated ==>
                    && json[k].Array? && |json[k].elements| == |m.fields[k].items|
                    && forall i :: 0 <= i < |m.fields[k].items| ==>
                         json[k].elements[i] == ToJson(schema, fields[k].kind, m.fields[k].items[i]))
              && (k in json && k !in m.fields ==> json[k] == ScalarToJson(fields[k].kind, fields[k].default.value))
  {
    hide IsScalar, ScalarToJson;
  }

  /** Of an object just the known keys with at least one value are set; one bad value
      of a known key fails the whole object. */
  lemma ObjectParsed(schema: Schema, name: string, v: Json)
    requires v.Object? && name in schema
    ensures ParseObject(schema, name, v).Ok? <==>
            forall k :: k in v.values && k in schema[name] ==> ParseField(schema, schema[name][k], v.values[k]).Ok?
    ensures ParseObject(schema, name, v).Ok? ==>
              && ParseObject(schema, name, v).value.Message?
              && var fields, message := schema[name], ParseObject(schema, name, v).value.fields;
                 forall k ::
                   && (k in message <==> k in v.values && k in fields && ParseField(schema, fields[k], v.values[k]).value != [])
                   && (k in message && fields[k].presence == Repeated ==>
                         message[k] == List(ParseField(schema, fields[k], v.values[k]).value))
                   && (k in message && fields[k].presence != Repeated ==>
                         message[k] == ParseField(schema, fields[k], v.values[k]).value[0])
  {
    hide ParseField;
  }

  // ---------------------------------------------------------------------
  // Required fields
  // ---------------------------------------------------------------------

  /** The steps from a message to one inside it: a field, or an element of a repeated one. */
  datatype Step = Inner(field: string) | Element(field: string, i: nat)

  ghost predicate Enters(schema: Schema, name: string, m: Value, step: Step) {
    && m.Message? && name in schema && step.field in m.fields && step.field in schema[name]
    && schema[name][step.field].kind.MessageKind?
    && match step
       case Inner(k) => schema[name][k].presence != Repeated
       case Element(k, i) => schema[name][k].presence == Repeated && m.fields[k].List? && i < |m.fields[k].items|
  }

  ghost function Entered(schema: Schema, name: string, m: Value, step: Step): (string, Value)
    requires Enters(schema, name, m, step)
  {
    (schema[name][step.field].kind.name,
     match step case Inner(k) => m.fields[k] case Element(k, i) => m.fields[k].items[i])
  }

  /** The message at the end of a path has all its required fields. */
  ghost predicate CompleteAt(schema: Schema, name: string, m: Value, path: seq<Step>)
    decreases |path|
  {
    if path == [] then
      m.Message? && name in schema ==>
        forall k :: k in schema[name] && schema[name][k].presence == Required ==> k in m.fields
    else
      Enters(schema, name, m, path[0]) ==>
        var inner := Entered(schema, name, m, path[0]);
        CompleteAt(schema, inner.0, inner.1, path[1..])
  }

  /** Here and in every message inside. */
  ghost predicate Complete(schema: Schema, name: string, m: Value) {
    forall path :: CompleteAt(schema, name, m, path)
  }

  lemma {:induction false} InitializedIsComplete(schema: Schema, name: string, m: Value, path: seq<Step>)
    requires HasKind(schema, MessageKind(name), m) && Initialized(schema, MessageKind(name), m)
    ensures CompleteAt(schema, name, m, path)
    decreases |path|
  {
    if path != [] && Enters(schema, name, m, path[0]) {
      var inner := Entered(schema, name, m, path[0]);
      var k := path[0].field;
      assert InitializedField(schema, schema[name][k], m.fields[k]);
      assert HasField(schema, schema[name][k], m.fields[k]);
      InitializedIsComplete(schema, inner.0, inner.1, path[1..]);
    }
  }

  lemma CompleteBelow(schema: Schema, name: string, m: Value, step: Step)
    requires Enters(schema, name, m, step) && Complete(schema, name, m)
    ensures var inner := Entered(schema, name, m, step); Complete(schema, inner.0, inner.1)
  {
    var inner := Entered(schema, name, m, step);
    forall path ensures CompleteAt(schema, inner.0, inner.1, path) {
      assert CompleteAt(schema, name, m, [step] + path);
      assert ([step] + path)[1..] == path;
    }
  }

  lemma CompleteHere(schema: Schema, name: string, m: Value)
    requires Complete(schema, name, m)
    ensures CompleteAt(schema, name, m, [])
  {
  }

  lemma {:induction false} CompleteIsInitialized(schema: Schema, name: string, m: Value)
    requires HasKind(schema, MessageKind(name), m) && Complete(schema, name, m)
    ensures Initialized(schema, MessageKind(name), m)
    decreases m
  {
    hide IsScalar, Complete;
    assert CompleteAt(schema, name, m, []) by {
      CompleteHere(schema, name, m);
    }
    var fields := schema[name];
    forall k | k in m.fields ensures InitializedField(schema, fields[k], m.fields[k]) {
      var f, v := fields[k], m.fields[k];
      assert HasField(schema, f, v);
      if f.kind.MessageKind? {
        if f.presence.Repeated? {
          forall i | 0 <= i < |v.items| ensures Initialized(schema, f.kind, v.items[i]) {
            CompleteBelow(schema, name, m, Element(k, i));
            assert Entered(schema, name, m, Element(k, i)) == (f.kind.name, v.items[i]);
            CompleteIsInitialized(schema, f.kind.name, v.items[i]);
          }
        } else {
          CompleteBelow(schema, name, m, Inner(k));
          assert Entered(schema, name, m, Inner(k)) == (f.kind.name, v);
          CompleteIsInitialized(schema, f.kind.name, v);
        }
      }
    }
  }

  /** A parsed message is refused exactly when it, or a message at any depth inside it,
      lacks a required field. */
  lemma ParseChecksRequired(schema: Schema, name: string, v: Json)
    requires ValidSchema(schema) && name in schema && v.Object? && ParseObject(schema, name, v).Ok?
    ensures var m := ParseObject(schema, name, v).value;
            Parse(schema, name, v) == if Complete(schema, name, m) then Ok(m) else Error
  {
    hide ParseObject, CompleteAt, Initialized, HasKind;
    ObjectIsTyped(schema, name, v);
    var m := ParseObject(schema, name, v).value;
    if Initialized(schema, MessageKind(name), m) {
      forall path ensures CompleteAt(schema, name, m, path) {
        InitializedIsComplete(schema, name, m, path);
      }
    } else if Complete(schema, name, m) {
      CompleteIsInitialized(schema, name, m);
    }
  }
}
