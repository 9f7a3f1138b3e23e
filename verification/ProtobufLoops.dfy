/** The loops that print a message and that fill one in place. */
module ProtobufLoops {
  import opened Common
  import opened J = Json
  import opened Protobuf

  /** `JSON::protobuf`: first the fields to write are collected, then they are written. */
  method Print(schema: Schema, kind: Kind, v: Value) returns (json: Json)
    requires ValidSchema(schema) && HasKind(schema, kind, v)
    ensures json == ToJson(schema, kind, v)
    decreases v, 0
  {
    hide IsScalar, ScalarToJson, FieldToJson, HasField;
    if !kind.MessageKind? {
      return ScalarToJson(kind, v);
    }
    var fields := schema[kind.name];
    var listed := FieldsToWrite(fields, v.fields);
    var entries: map<string, Json> := map[];
    ghost var whole := ToJson(schema, kind, v).values;
    assert whole.Keys == listed;
    while listed != {}
      invariant listed <= whole.Keys && entries == map k | k in whole && k !in listed :: whole[k]
      decreases |listed|
    {
      var k :| k in listed;
      var entry: Json;
      if k in v.fields {
        entry := PrintField(schema, fields[k], v.fields[k]);
      } else {
        entry := ScalarToJson(fields[k].kind, fields[k].default.value);
      }
      assert entry == whole[k];
      entries := entries[k := entry];
      listed := listed - {k};
    }
    assert entries == whole;
    json := Json.Object(entries);
  }

  /** The set fields and the unset ones whose default is written. */
  method FieldsToWrite(fields: map<string, Field>, present: map<string, Value>) returns (listed: set<string>)
    ensures listed == set k | k in fields && (k in present || WritesDefault(fields[k]))
  {
    listed := {};
    var todo := fields.Keys;
    while todo != {}
      invariant todo <= fields.Keys
      invariant listed == set k | k in fields && k !in todo && (k in present || WritesDefault(fields[k]))
      decreases |todo|
    {
      var k :| k in todo;
      if k in present || WritesDefault(fields[k]) {
        listed := listed + {k};
      }
      todo := todo - {k};
    }
  }

  method PrintField(schema: Schema, f: Field, v: Value) returns (json: Json)
    requires ValidSchema(schema) && HasField(schema, f, v)
    ensures json == FieldToJson(schema, f, v)
    decreases v, 1
  {
    hide HasKind, ToJson;
    if !f.presence.Repeated? {
      json := Print(schema, f.kind, v);
      return;
    }
    var elements: seq<Json> := [];
    ghost var whole := FieldToJson(schema, f, v).elements;
    for i := 0 to |v.items|
      invariant elements == whole[..i]
    {
      var element := Print(schema, f.kind, v.items[i]);
      elements := elements + [element];
    }
    json := Json.Array(elements);
  }

  /** Setting a singular field or adding to a repeated one. */
  function Added(fields: map<string, Value>, k: string, f: Field, values: seq<Value>): map<string, Value> {
    if values == [] then fields
    else if f.presence.Repeated? then
      fields[k := List((if k in fields && fields[k].List? then fields[k].items else []) + values)]
    else fields[k := values[0]]
  }

  /** The fields parsed from some of the keys of an object. */
  ghost function Parsed(schema: Schema, fields: map<string, Field>, v: Json, keys: set<string>): map<string, Value>
    requires v.Object?
  {
    map k | k in keys && k in v.values && k in fields && ParseField(schema, fields[k], v.values[k]).Ok?
            && ParseField(schema, fields[k], v.values[k]).value != [] ::
      Pack(fields[k], ParseField(schema, fields[k], v.values[k]).value)
  }

  lemma ParsedGrows(schema: Schema, fields: map<string, Field>, v: Json, keys: set<string>, k: string)
    requires v.Object? && k !in keys && k in v.values && k in fields && ParseField(schema, fields[k], v.values[k]).Ok?
    ensures Parsed(schema, fields, v, keys + {k}) ==
            Added(Parsed(schema, fields, v, keys), k, fields[k], ParseField(schema, fields[k], v.values[k]).value)
  {
    hide ParseField;
    var values := ParseField(schema, fields[k], v.values[k]).value;
    assert [] + values == values;
  }

  lemma AddedTwice(fields: map<string, Value>, k: string, f: Field, x: seq<Value>, y: seq<Value>)
    requires f.presence.Repeated?
    ensures Added(Added(fields, k, f, x), k, f, y) == Added(fields, k, f, x + y)
  {
    if x == [] {
      assert x + y == y;
    } else if y == [] {
      assert x + y == x;
    } else {
      var before := if k in fields && fields[k].List? then fields[k].items else [];
      assert (before + x) + y == before + (x + y);
    }
  }

  /** A message under construction. */
  class Builder {
    var fields: map<string, Value>

    constructor ()
      ensures fields == map[]
    {
      fields := map[];
    }

    /** `internal::parse`: the keys may be visited in any order. */
    method ParseObject(schema: Schema, name: string, v: Json) returns (ok: bool)
      requires ValidSchema(schema) && v.Object? && name in schema && fields == map[]
      modifies this
      ensures ok == Protobuf.ParseObject(schema, name, v).Ok?
      ensures ok ==> Message(fields) == Protobuf.ParseObject(schema, name, v).value
      decreases v, 0
    {
      hide ParseField, Added, Pack, ValidField;
      var known := schema[name];
      var todo := v.values.Keys;
      ghost var done: set<string> := {};
      while todo != {}
        invariant done + todo == v.values.Keys && done !! todo
        invariant forall k :: k in done && k in known ==> ParseField(schema, known[k], v.values[k]).Ok?
        invariant fields == Parsed(schema, known, v, done)
        decreases |todo|
      {
        var k :| k in todo;
        if k in known {
          ok := ParseInto(schema, k, known[k], v.values[k]);
          if !ok {
            return;
          }
          ParsedGrows(schema, known, v, done, k);
        } else {
          assert Parsed(schema, known, v, done + {k}) == Parsed(schema, known, v, done);
        }
        done := done + {k};
        todo := todo - {k};
      }
      ok := true;
      assert Protobuf.ParseObject(schema, name, v).value.fields == fields;
    }

    /** The visitor for one field. */
    method ParseInto(schema: Schema, k: string, f: Field, v: Json) returns (ok: bool)
      requires ValidSchema(schema) && ValidField(schema, f)
      modifies this
      ensures ok == ParseField(schema, f, v).Ok?
      ensures ok ==> fields == Added(old(fields), k, f, ParseField(schema, f, v).value)
      decreases v, 1
    {
      hide Cast, FindName, Added, Protobuf.ParseObject;
      ok := true;
      if v.Array? {
        ok := ParseElements(schema, k, f, v);
      } else if v.Object? {
        if !f.kind.MessageKind? {
          return false;
        }
        var nested := new Builder();
        ok := nested.ParseObject(schema, f.kind.name, v);
        if ok {
          Put(k, f, Message(nested.fields));
        }
      } else if v.Null? {
        AddNothing(fields, k, f);
      } else {
        ok := ParseScalar(schema, k, f, v);
      }
    }

    method ParseScalar(schema: Schema, k: string, f: Field, v: Json) returns (ok: bool)
      requires v.String? || v.Number? || v.Boolean?
      modifies this
      ensures ok == ParseField(schema, f, v).Ok?
      ensures ok ==> fields == Added(old(fields), k, f, ParseField(schema, f, v).value)
    {
      hide Cast, FindName, Added;
      var value: Try<Value> :=
        if v.String? then ParseText(f.kind, v.text)
        else if v.Number? then ParseNumber(f.kind, v.number)
        else if f.kind.BoolKind? then Ok(Flag(v.flag))
        else Error;
      ok := value.Ok?;
      if ok {
        Put(k, f, value.value);
      }
    }

    method ParseElements(schema: Schema, k: string, f: Field, v: Json) returns (ok: bool)
      requires v.Array? && ValidSchema(schema) && ValidField(schema, f)
      modifies this
      ensures ok == ParseField(schema, f, v).Ok?
      ensures ok ==> fields == Added(old(fields), k, f, ParseField(schema, f, v).value)
      decreases v, 0
    {
      hide ParseField, Added, ValidField;
      FieldOfArray(schema, f, v);
      if !f.presence.Repeated? {
        return false;
      }
      ghost var whole := Protobuf.ParseElements(schema, f, v, 0);
      ghost var values: seq<Value> := [];
      AddNothing(fields, k, f);
      for i := 0 to |v.elements|
        invariant fields == Added(old(fields), k, f, values)
        invariant whole == Prepend(values, Protobuf.ParseElements(schema, f, v, i))
      {
        ElementsStep(schema, f, v, i);
        ok := ParseInto(schema, k, f, v.elements[i]);
        if !ok {
          return;
        }
        ghost var more := ParseField(schema, f, v.elements[i]).value;
        AddedTwice(old(fields), k, f, values, more);
        PrependTwice(values, more, Protobuf.ParseElements(schema, f, v, i + 1));
        values := values + more;
      }
      ok := true;
      assert values + [] == values;
    }

    method Put(k: string, f: Field, value: Value)
      modifies this
      ensures fields == Added(old(fields), k, f, [value])
    {
      if f.presence.Repeated? {
        var items := if k in fields && fields[k].List? then fields[k].items else [];
        fields := fields[k := List(items + [value])];
      } else {
        fields := fields[k := value];
      }
    }
  }

  ghost function Prepend(values: seq<Value>, rest: Try<seq<Value>>): Try<seq<Value>> {
    if rest.Ok? then Ok(values + rest.value) else Error
  }

  lemma PrependTwice(x: seq<Value>, y: seq<Value>, rest: Try<seq<Value>>)
    ensures Prepend(x, Prepend(y, rest)) == Prepend(x + y, rest)
  {
    if rest.Ok? {
      assert x + (y + rest.value) == (x + y) + rest.value;
    }
  }

  lemma AddNothing(fields: map<string, Value>, k: string, f: Field)
    ensures Added(fields, k, f, []) == fields
  {
  }

  lemma FieldOfArray(schema: Schema, f: Field, v: Json)
    requires v.Array?
    ensures ParseField(schema, f, v) == if f.presence.Repeated? then Protobuf.ParseElements(schema, f, v, 0) else Error
    ensures Prepend([], Protobuf.ParseElements(schema, f, v, 0)) == Protobuf.ParseElements(schema, f, v, 0)
  {
    var whole := Protobuf.ParseElements(schema, f, v, 0);
    assert whole.Ok? ==> [] + whole.value == whole.value;
  }

  lemma ElementsStep(schema: Schema, f: Field, v: Json, i: nat)
    requires v.Array? && i < |v.elements|
    ensures var first := ParseField(schema, f, v.elements[i]);
            Protobuf.ParseElements(schema, f, v, i) ==
              if first.Ok? then Prepend(first.value, Protobuf.ParseElements(schema, f, v, i + 1)) else Error
  {
  }

  /** `Parse<T>` on the built message. */
  method ParseMessage(schema: Schema, name: string, v: Json) returns (r: Try<Value>)
    requires ValidSchema(schema) && name in schema
    ensures r == Parse(schema, name, v)
  {
    hide Protobuf.ParseObject, Initialized, HasKind;
    if !v.Object? {
      return Error;
    }
    var message := new Builder();
    var ok := message.ParseObject(schema, name, v);
    if !ok {
      return Error;
    }
    ObjectIsTyped(schema, name, v);
    if !Initialized(schema, MessageKind(name), Message(message.fields)) {
      return Error;
    }
    r := Ok(Message(message.fields));
  }
}
