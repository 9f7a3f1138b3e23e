/** Schema-driven conversion of protobuf messages to JSON and back. */
module Protobuf {
  import opened Common
  import opened Division
  import opened J = Json
  import Base64

  // ---------------------------------------------------------------------
  // Schemas and messages
  // ---------------------------------------------------------------------

  /** Field types without groups; `sint`, `fixed` and `sfixed` types are like `int` and `uint`. */
  datatype Kind =
    | BoolKind
    | IntKind(wide: bool, signed: bool)
    | DoubleKind
    | StringKind
    | BytesKind
    | EnumKind(names: seq<(string, int)>)
    | MessageKind(name: string)

  datatype Presence = Required | Optional | Repeated

  datatype Field = Field(kind: Kind, presence: Presence, default: Option<Value>, deprecated: bool)

  /** The fields of every message type, by name. */
  type Schema = map<string, map<string, Field>>

  /** Messages hold their set fields; a repeated field without elements is not set. */
  datatype Value =
    | Flag(b: bool)
    | Int(i: int)
    | Real(r: real)
    | Text(s: string)
    | Bytes(bytes: seq<Base64.Byte>)
    | Enum(number: int)
    | Message(fields: map<string, Value>)
    | List(items: seq<Value>)

  /** Half the number of values of an integer type of 64 or of 32 bits. */
  function Half(kind: Kind): int
    requires kind.IntKind?
  {
    if kind.wide then 0x8000_0000_0000_0000 else 0x8000_0000
  }

  predicate InRange(kind: Kind, i: int)
    requires kind.IntKind?
  {
    if kind.signed then -Half(kind) <= i < Half(kind) else 0 <= i < 2 * Half(kind)
  }

  /** A cast to an integer type keeps the low bits. */
  function Cast(kind: Kind, i: int): int
    requires kind.IntKind?
  {
    if kind.signed then (i + Half(kind)) % (2 * Half(kind)) - Half(kind) else i % (2 * Half(kind))
  }

  function FindName(names: seq<(string, int)>, s: string): Option<int> {
    if names == [] then None else if names[0].0 == s then Some(names[0].1) else FindName(names[1..], s)
  }

  /** The first name of a number. */
  function NameOf(names: seq<(string, int)>, number: int): Option<string> {
    if names == [] then None else if names[0].1 == number then Some(names[0].0) else NameOf(names[1..], number)
  }

  predicate DistinctNames(names: seq<(string, int)>) {
    forall i, j :: 0 <= i < j < |names| ==> names[i].0 != names[j].0
  }

  predicate IsScalar(kind: Kind, v: Value) {
    match kind
    case BoolKind => v.Flag?
    case IntKind(_, _) => v.Int? && InRange(kind, v.i)
    case DoubleKind => v.Real?
    case StringKind => v.Text?
    case BytesKind => v.Bytes?
    case EnumKind(names) => v.Enum? && NameOf(names, v.number).Some? && DistinctNames(names)
    case MessageKind(_) => false
  }

  predicate HasKind(schema: Schema, kind: Kind, v: Value)
    decreases v, 0
  {
    if kind.MessageKind? then
      v.Message? && kind.name in schema
      && forall k :: k in v.fields ==> k in schema[kind.name] && HasField(schema, schema[kind.name][k], v.fields[k])
    else IsScalar(kind, v)
  }

  predicate HasField(schema: Schema, f: Field, v: Value)
    decreases v, 1
  {
    if f.presence.Repeated? then
      v.List? && v.items != [] && forall i :: 0 <= i < |v.items| ==> HasKind(schema, f.kind, v.items[i])
    else HasKind(schema, f.kind, v)
  }

  /** A field has a default only when it is singular and not a message. */
  predicate ValidField(schema: Schema, f: Field) {
    && (f.default.Some? ==> !f.presence.Repeated? && IsScalar(f.kind, f.default.value))
    && (f.kind.MessageKind? ==> f.kind.name in schema)
    && (f.kind.EnumKind? ==> DistinctNames(f.kind.names))
  }

  predicate ValidSchema(schema: Schema) {
    forall t, k :: t in schema && k in schema[t] ==> ValidField(schema, schema[t][k])
  }

  /** Every required field is set, here and in all nested messages. */
  predicate Initialized(schema: Schema, kind: Kind, v: Value)
    requires HasKind(schema, kind, v)
    decreases v, 0
  {
    kind.MessageKind? ==>
      && (forall k :: k in schema[kind.name] && schema[kind.name][k].presence.Required? ==> k in v.fields)
      && forall k :: k in v.fields ==> InitializedField(schema, schema[kind.name][k], v.fields[k])
  }

  predicate InitializedField(schema: Schema, f: Field, v: Value)
    requires HasField(schema, f, v)
    decreases v, 1
  {
    if f.presence.Repeated? then forall i :: 0 <= i < |v.items| ==> Initialized(schema, f.kind, v.items[i])
    else Initialized(schema, f.kind, v)
  }

  // ---------------------------------------------------------------------
  // Message to JSON
  // ---------------------------------------------------------------------

  function ScalarToJson(kind: Kind, v: Value): Json
    requires IsScalar(kind, v)
  {
    match v
    case Flag(b) => Json.Boolean(b)
    case Int(i) => if kind.signed then Json.Number(Signed(i)) else Json.Number(Unsigned(i))
    case Real(r) => Json.Number(Floating(r))
    case Text(s) => Json.String(s)
    case Bytes(bytes) => Json.String(Base64.EncodeStandard(bytes))
    case Enum(number) => Json.String(NameOf(kind.names, number).value)
  }

  /** An unset field is written when it has a default and is not deprecated. */
  predicate WritesDefault(f: Field) {
    !f.presence.Repeated? && f.default.Some? && !f.deprecated
  }

  function ToJson(schema: Schema, kind: Kind, v: Value): Json
    requires ValidSchema(schema) && HasKind(schema, kind, v)
    decreases v, 0
  {
    if kind.MessageKind? then
      var fields := schema[kind.name];
      Json.Object(map k | k in fields && (k in v.fields || WritesDefault(fields[k])) ::
        if k in v.fields then FieldToJson(schema, fields[k], v.fields[k])
        else ScalarToJson(fields[k].kind, fields[k].default.value))
    else ScalarToJson(kind, v)
  }

  function FieldToJson(schema: Schema, f: Field, v: Value): Json
    requires ValidSchema(schema) && HasField(schema, f, v)
    decreases v, 1
  {
    if f.presence.Repeated? then
      Json.Array(seq(|v.items|, i requires 0 <= i < |v.items| => ToJson(schema, f.kind, v.items[i])))
    else ToJson(schema, f.kind, v)
  }

  // ---------------------------------------------------------------------
  // JSON to message
  // ---------------------------------------------------------------------

  function Truncate(r: real): int {
    if r >= 0.0 then r.Floor else -(-r).Floor
  }

  function IntegerOf(n: Numeral): int {
    match n
    case Floating(r) => Truncate(r)
    case Signed(i) => i
    case Unsigned(u) => u
  }

  function DoubleOf(n: Numeral): real {
    match n
    case Floating(r) => r
    case Signed(i) => ToDouble(i)
    case Unsigned(u) => ToDouble(u)
  }

  function ParseText(kind: Kind, s: string): Try<Value> {
    match kind
    case StringKind => Ok(Text(s))
    case BytesKind =>
      var bytes := Base64.DecodeStandard(s);
      if bytes.Ok? then Ok(Bytes(bytes.value)) else Error
    case EnumKind(names) =>
      var number := FindName(names, s);
      if number.Some? then Ok(Enum(number.value)) else Error
    case _ => Error
  }

  function ParseNumber(kind: Kind, n: Numeral): Try<Value> {
    match kind
    case DoubleKind => Ok(Real(DoubleOf(n)))
    case IntKind(_, _) => Ok(Int(Cast(kind, IntegerOf(n))))
    case _ => Error
  }

  function Single(v: Try<Value>): Try<seq<Value>> {
    if v.Ok? then Ok([v.value]) else Error
  }

  /** The values a JSON value sets or adds in a field, in order; null sets nothing. */
  function ParseField(schema: Schema, f: Field, v: Json): Try<seq<Value>>
    decreases v, 1
  {
    match v
    case Null => Ok([])
    case String(s) => Single(ParseText(f.kind, s))
    case Number(n) => Single(ParseNumber(f.kind, n))
    case Boolean(b) => if f.kind.BoolKind? then Ok([Flag(b)]) else Error
    case Array(_) => if f.presence.Repeated? then ParseElements(schema, f, v, 0) else Error
    case Object(_) => if f.kind.MessageKind? then Single(ParseObject(schema, f.kind.name, v)) else Error
  }

  function ParseElements(schema: Schema, f: Field, v: Json, i: nat): Try<seq<Value>>
    requires v.Array? && i <= |v.elements|
    decreases v, 0, |v.elements| - i
  {
    if i == |v.elements| then Ok([])
    else
      var first := ParseField(schema, f, v.elements[i]);
      var rest := ParseElements(schema, f, v, i + 1);
      if first.Ok? && rest.Ok? then Ok(first.value + rest.value) else Error
  }

  /** A field's content after its values were set or added. */
  function Pack(f: Field, values: seq<Value>): Value
    requires values != []
  {
    if f.presence.Repeated? then List(values) else values[0]
  }

  /** Keys that are not fields are skipped; one bad field fails the parse. */
  function ParseObject(schema: Schema, name: string, v: Json): Try<Value>
    requires v.Object?
    decreases v, 0
  {
    if name !in schema then Error
    else
      var fields := schema[name];
      if exists k :: k in v.values && k in fields && ParseField(schema, fields[k], v.values[k]).Error? then Error
      else
        Ok(Message(map k | k in v.values && k in fields && ParseField(schema, fields[k], v.values[k]).value != [] ::
          Pack(fields[k], ParseField(schema, fields[k], v.values[k]).value)))
  }

  /** `Parse<T>`: the required fields are checked at the end, for the whole tree. */
  function Parse(schema: Schema, name: string, v: Json): Try<Value>
    requires ValidSchema(schema) && name in schema
  {
    if !v.Object? then Error
    else
      var parsed := ParseObject(schema, name, v);
      if parsed.Error? then Error
      else
        ObjectIsTyped(schema, name, v);
        if Initialized(schema, MessageKind(name), parsed.value) then parsed else Error
  }

  // ---------------------------------------------------------------------
  // What a parse returns fits the schema
  // ---------------------------------------------------------------------

  lemma CastIsInRange(kind: Kind, i: int)
    requires kind.IntKind?
    ensures InRange(kind, Cast(kind, i))
  {
  }

  lemma {:induction false} FoundHasName(names: seq<(string, int)>, s: string)
    requires FindName(names, s).Some?
    ensures NameOf(names, FindName(names, s).value).Some?
  {
    if names[0].0 != s {
      FoundHasName(names[1..], s);
    }
  }

  lemma TextIsTyped(kind: Kind, s: string)
    requires (kind.EnumKind? ==> DistinctNames(kind.names)) && ParseText(kind, s).Ok?
    ensures IsScalar(kind, ParseText(kind, s).value)
  {
    if kind.EnumKind? {
      FoundHasName(kind.names, s);
    }
  }

  ghost predicate AllHaveKind(schema: Schema, kind: Kind, values: seq<Value>) {
    forall i :: 0 <= i < |values| ==> HasKind(schema, kind, values[i])
  }

  lemma {:induction false} FieldIsTyped(schema: Schema, f: Field, v: Json)
    requires ValidSchema(schema) && ValidField(schema, f) && ParseField(schema, f, v).Ok?
    ensures AllHaveKind(schema, f.kind, ParseField(schema, f, v).value)
    ensures !f.presence.Repeated? ==> |ParseField(schema, f, v).value| <= 1
    decreases v, 1
  {
    hide Cast, InRange;
    match v
    case Null =>
    case String(s) => TextIsTyped(f.kind, s);
    case Number(n) => if f.kind.IntKind? { CastIsInRange(f.kind, IntegerOf(n)); }
    case Boolean(b) =>
    case Array(_) => ElementsAreTyped(schema, f, v, 0);
    case Object(_) => ObjectIsTyped(schema, f.kind.name, v);
  }

  lemma {:induction false} ElementsAreTyped(schema: Schema, f: Field, v: Json, i: nat)
    requires ValidSchema(schema) && ValidField(schema, f)
    requires v.Array? && i <= |v.elements| && ParseElements(schema, f, v, i).Ok?
    ensures AllHaveKind(schema, f.kind, ParseElements(schema, f, v, i).value)
    decreases v, 0, |v.elements| - i
  {
    hide HasKind;
    if i < |v.elements| {
      FieldIsTyped(schema, f, v.elements[i]);
      ElementsAreTyped(schema, f, v, i + 1);
    }
  }

  /** What is parsed for a message type has that type. */
  lemma {:induction false} ObjectIsTyped(schema: Schema, name: string, v: Json)
    requires ValidSchema(schema) && name in schema && v.Object? && ParseObject(schema, name, v).Ok?
    ensures HasKind(schema, MessageKind(name), ParseObject(schema, name, v).value)
    decreases v, 0
  {
    hide ValidField;
    var fields, m := schema[name], ParseObject(schema, name, v).value;
    forall k | k in m.fields ensures k in fields && HasField(schema, fields[k], m.fields[k]) {
      FieldIsTyped(schema, fields[k], v.values[k]);
    }
  }

  // ---------------------------------------------------------------------
  // Parsing undoes printing
  // ---------------------------------------------------------------------

  /** The message with its unset defaulted fields set, unless they are deprecated,
      here and in all nested messages. */
  function Explicit(schema: Schema, kind: Kind, v: Value): Value
    requires ValidSchema(schema) && HasKind(schema, kind, v)
    decreases v, 0
  {
    if kind.MessageKind? then
      var fields := schema[kind.name];
      Message(map k | k in fields && (k in v.fields || WritesDefault(fields[k])) ::
        if k in v.fields then ExplicitField(schema, fields[k], v.fields[k]) else fields[k].default.value)
    else v
  }

  function ExplicitField(schema: Schema, f: Field, v: Value): Value
    requires ValidSchema(schema) && HasField(schema, f, v)
    decreases v, 1
  {
    if f.presence.Repeated? then
      List(seq(|v.items|, i requires 0 <= i < |v.items| => Explicit(schema, f.kind, v.items[i])))
    else Explicit(schema, f.kind, v)
  }

  lemma CastFits(kind: Kind, i: int)
    requires kind.IntKind? && InRange(kind, i)
    ensures Cast(kind, i) == i
  {
    SmallRemainder(if kind.signed then i + Half(kind) else i, 2 * Half(kind));
  }

  lemma {:induction false} NameRoundTrip(names: seq<(string, int)>, number: int)
    requires DistinctNames(names) && NameOf(names, number).Some?
    ensures FindName(names, NameOf(names, number).value) == Some(number)
    ensures exists i :: 0 <= i < |names| && names[i] == (NameOf(names, number).value, number)
  {
    if names[0].1 != number {
      NameRoundTrip(names[1..], number);
      var i :| 0 <= i < |names[1..]| && names[1..][i] == (NameOf(names, number).value, number);
      assert names[i + 1].0 != names[0].0;
    }
  }

  lemma ScalarRoundTrip(schema: Schema, f: Field, v: Value)
    requires IsScalar(f.kind, v)
    ensures ParseField(schema, f, ScalarToJson(f.kind, v)) == Ok([v])
  {
    hide Cast, InRange, FindName, NameOf;
    match v
    case Int(i) => CastFits(f.kind, i);
    case Bytes(bytes) => Base64.AlphabetRoundTrips(bytes, true);
    case Enum(number) => NameRoundTrip(f.kind.names, number);
    case _ =>
  }

  lemma {:induction false} ValueRoundTrip(schema: Schema, f: Field, v: Value)
    requires ValidSchema(schema) && HasKind(schema, f.kind, v)
    ensures ParseField(schema, f, ToJson(schema, f.kind, v)) == Ok([Explicit(schema, f.kind, v)])
    decreases v, 1
  {
    hide IsScalar, ScalarToJson;
    if f.kind.MessageKind? {
      MessageRoundTrip(schema, f.kind.name, v);
    } else {
      ScalarRoundTrip(schema, f, v);
    }
  }

  lemma {:induction false} MessageRoundTrip(schema: Schema, name: string, v: Value)
    requires ValidSchema(schema) && HasKind(schema, MessageKind(name), v)
    ensures ToJson(schema, MessageKind(name), v).Object?
    ensures ParseObject(schema, name, ToJson(schema, MessageKind(name), v)) == Ok(Explicit(schema, MessageKind(name), v))
    decreases v, 0
  {
    hide IsScalar, ScalarToJson, ParseField, FieldToJson, ExplicitField;
    var fields, json := schema[name], ToJson(schema, MessageKind(name), v);
    var m := Explicit(schema, MessageKind(name), v);
    forall k | k in json.values
      ensures k in fields && ParseField(schema, fields[k], json.values[k]).Ok?
      ensures ParseField(schema, fields[k], json.values[k]).value != []
      ensures Pack(fields[k], ParseField(schema, fields[k], json.values[k]).value) == m.fields[k]
    {
      if k in v.fields {
        FieldRoundTrip(schema, fields[k], v.fields[k]);
      } else {
        ScalarRoundTrip(schema, fields[k], fields[k].default.value);
      }
    }
    var parsed := ParseObject(schema, name, json).value;
    assert parsed.fields == m.fields;
  }

  lemma {:induction false} FieldRoundTrip(schema: Schema, f: Field, v: Value)
    requires ValidSchema(schema) && HasField(schema, f, v)
    ensures var parsed := ParseField(schema, f, FieldToJson(schema, f, v));
            parsed.Ok? && parsed.value != [] && Pack(f, parsed.value) == ExplicitField(schema, f, v)
    decreases v, 2
  {
    if f.presence.Repeated? {
      ElementsRoundTrip(schema, f, v, 0);
    } else {
      ValueRoundTrip(schema, f, v);
    }
  }

  lemma {:induction false} ElementsRoundTrip(schema: Schema, f: Field, v: Value, i: nat)
    requires ValidSchema(schema) && HasField(schema, f, v) && f.presence.Repeated? && i <= |v.items|
    ensures ParseElements(schema, f, FieldToJson(schema, f, v), i) == Ok(ExplicitField(schema, f, v).items[i..])
    decreases v, 0, |v.items| - i
  {
    hide ParseField, Explicit, ToJson;
    var items := ExplicitField(schema, f, v).items;
    assert |items| == |v.items| == |FieldToJson(schema, f, v).elements|;
    if i < |v.items| {
      ValueRoundTrip(schema, f, v.items[i]);
      ElementsRoundTrip(schema, f, v, i + 1);
      assert items[i..] == [items[i]] + items[i + 1..];
    } else {
      assert items[i..] == [];
    }
  }

  lemma {:induction false} ExplicitKeeps(schema: Schema, kind: Kind, v: Value)
    requires ValidSchema(schema) && HasKind(schema, kind, v)
    ensures HasKind(schema, kind, Explicit(schema, kind, v))
    ensures Initialized(schema, kind, v) ==> Initialized(schema, kind, Explicit(schema, kind, v))
    ensures ToJson(schema, kind, Explicit(schema, kind, v)) == ToJson(schema, kind, v)
    decreases v, 0
  {
    hide IsScalar, ScalarToJson, ExplicitField, FieldToJson, InitializedField;
    if kind.MessageKind? {
      var fields, m := schema[kind.name], Explicit(schema, kind, v);
      forall k | k in m.fields ensures HasField(schema, fields[k], m.fields[k]) {
        if k in v.fields {
          ExplicitFieldKeeps(schema, fields[k], v.fields[k]);
        } else {
          DefaultIsInitialized(schema, fields[k]);
        }
      }
      if Initialized(schema, kind, v) {
        forall k | k in m.fields ensures InitializedField(schema, fields[k], m.fields[k]) {
          if k in v.fields {
            ExplicitFieldKeeps(schema, fields[k], v.fields[k]);
          } else {
            DefaultIsInitialized(schema, fields[k]);
          }
        }
      }
      var x, y := ToJson(schema, kind, m).values, ToJson(schema, kind, v).values;
      forall k | k in y ensures x[k] == y[k] {
        if k in v.fields {
          ExplicitFieldKeeps(schema, fields[k], v.fields[k]);
        } else {
          DefaultIsInitialized(schema, fields[k]);
        }
      }
      assert x == y;
    }
  }

  lemma DefaultIsInitialized(schema: Schema, f: Field)
    requires ValidSchema(schema) && ValidField(schema, f) && WritesDefault(f)
    ensures HasField(schema, f, f.default.value) && InitializedField(schema, f, f.default.value)
    ensures FieldToJson(schema, f, f.default.value) == ScalarToJson(f.kind, f.default.value)
  {
  }

  lemma {:induction false} ExplicitFieldKeeps(schema: Schema, f: Field, v: Value)
    requires ValidSchema(schema) && HasField(schema, f, v)
    ensures HasField(schema, f, ExplicitField(schema, f, v))
    ensures InitializedField(schema, f, v) ==> InitializedField(schema, f, ExplicitField(schema, f, v))
    ensures FieldToJson(schema, f, ExplicitField(schema, f, v)) == FieldToJson(schema, f, v)
    decreases v, 1
  {
    hide Explicit, ToJson, HasKind, Initialized;
    if f.presence.Repeated? {
      var items := ExplicitField(schema, f, v).items;
      forall i | 0 <= i < |items|
        ensures HasKind(schema, f.kind, items[i])
        ensures Initialized(schema, f.kind, v.items[i]) ==> Initialized(schema, f.kind, items[i])
        ensures ToJson(schema, f.kind, items[i]) == ToJson(schema, f.kind, v.items[i])
      {
        ExplicitKeeps(schema, f.kind, v.items[i]);
      }
    } else {
      ExplicitKeeps(schema, f.kind, v);
    }
  }

  /** Printing a message and parsing it gives the message with its defaults made
      explicit. A message that still lacks a required field is refused. */
  lemma ParseToJson(schema: Schema, name: string, m: Value)
    requires ValidSchema(schema) && name in schema && HasKind(schema, MessageKind(name), m)
    ensures var full := Explicit(schema, MessageKind(name), m);
            && HasKind(schema, MessageKind(name), full)
            && (Initialized(schema, MessageKind(name), m) ==> Initialized(schema, MessageKind(name), full))
            && Parse(schema, name, ToJson(schema, MessageKind(name), m)) ==
                 (if Initialized(schema, MessageKind(name), full) then Ok(full) else Error)
  {
    hide ParseObject, ToJson, Explicit, Initialized, HasKind;
    MessageRoundTrip(schema, name, m);
    ExplicitKeeps(schema, MessageKind(name), m);
  }

  // ---------------------------------------------------------------------
  // Unknown keys and nulls never change a parse
  // ---------------------------------------------------------------------

  /** The JSON value for a field without the keys its message type does not know
      and without null entries, at every depth. */
  function Prune(schema: Schema, kind: Kind, v: Json): Json
    decreases v
  {
    match v
    case Array(elements) =>
      Json.Array(seq(|elements|, i requires 0 <= i < |elements| => Prune(schema, kind, elements[i])))
    case Object(values) =>
      if kind.MessageKind? && kind.name in schema then
        var fields := schema[kind.name];
        Json.Object(map k | k in values && k in fields && !values[k].Null? :: Prune(schema, fields[k].kind, values[k]))
      else v
    case _ => v
  }

  lemma {:induction false} PruneField(schema: Schema, f: Field, v: Json)
    ensures ParseField(schema, f, Prune(schema, f.kind, v)) == ParseField(schema, f, v)
    decreases v, 1
  {
    match v
    case Array(_) => if f.presence.Repeated? { PruneElements(schema, f, v, 0); }
    case Object(_) => if f.kind.MessageKind? && f.kind.name in schema { PruneObject(schema, f.kind.name, v); }
    case _ =>
  }

  lemma {:induction false} PruneElements(schema: Schema, f: Field, v: Json, i: nat)
    requires v.Array? && i <= |v.elements|
    ensures ParseElements(schema, f, Prune(schema, f.kind, v), i) == ParseElements(schema, f, v, i)
    decreases v, 0, |v.elements| - i
  {
    hide ParseField;
    if i < |v.elements| {
      PruneField(schema, f, v.elements[i]);
      PruneElements(schema, f, v, i + 1);
    }
  }

  /** Dropping unknown keys and nulls, at every depth, leaves the parse as it is. */
  lemma {:induction false} PruneObject(schema: Schema, name: string, v: Json)
    requires v.Object? && name in schema
    ensures Prune(schema, MessageKind(name), v).Object?
    ensures ParseObject(schema, name, Prune(schema, MessageKind(name), v)) == ParseObject(schema, name, v)
    decreases v, 0
  {
    var fields, pruned := schema[name], Prune(schema, MessageKind(name), v);
    forall k | k in v.values && k in fields
      ensures k in pruned.values <==> !v.values[k].Null?
      ensures v.values[k].Null? ==> ParseField(schema, fields[k], v.values[k]) == Ok([])
      ensures k in pruned.values ==>
                ParseField(schema, fields[k], pruned.values[k]) == ParseField(schema, fields[k], v.values[k])
    {
      if !v.values[k].Null? {
        PruneField(schema, fields[k], v.values[k]);
      }
    }
    SameParse(schema, name, pruned, v);
  }

  lemma SameParse(schema: Schema, name: string, x: Json, y: Json)
    requires name in schema && x.Object? && y.Object? && x.values.Keys <= y.values.Keys
    requires var fields := schema[name];
             forall k :: k in y.values && k in fields ==>
               if k in x.values then ParseField(schema, fields[k], x.values[k]) == ParseField(schema, fields[k], y.values[k])
               else ParseField(schema, fields[k], y.values[k]) == Ok([])
    ensures ParseObject(schema, name, x) == ParseObject(schema, name, y)
  {
    hide ParseField;
    var a, b := ParseObject(schema, name, x), ParseObject(schema, name, y);
    assert a.Ok? <==> b.Ok?;
    if a.Ok? {
      assert a.value.fields == b.value.fields;
    }
  }
}
