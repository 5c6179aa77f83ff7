/**
  What a parse that fails reports: the first fault of the value in document order, and where it is.
 */
module PolicyFaults {
  import opened Wrappers
  import opened JsonPointer
  import opened PolicyParse

  /** What an error calls the type of a value. */
  predicate Named(value: Value, name: string) {
    match value
    case ListOf(_, _) => name == "array"
    case ObjectOf(_, _) => name == "object"
    case Plain(scalar) =>
      match scalar
      case Undefined => name == "undefined"
      case Null => name == "null"
      case Bool(_) => name == "boolean"
      case Text(_) => name == "string"
      case NotANumber => name == "number"
      case Number(_) => name == "number"
  }

  /** The value is not of the type the schema asks for, which the error calls `expected`. */
  predicate OtherType(schema: Schema, value: Value, expected: string) {
    match schema
    case TextSchema(_, _) => expected == "string" && !Named(value, "string")
    case NumberSchema(_) => expected == "number" && !(value.Plain? && value.scalar.Number?)
    case BooleanSchema(_) => expected == "boolean" && !Named(value, "boolean")
    case ObjectSchema(_, _) => expected == "object" && !Named(value, "object")
    case ArraySchema(_, _) => expected == "array" && !Named(value, "array")
    case Maybe(_, _, _) => false
  }

  predicate Container(schema: Schema) {
    schema.ObjectSchema? || schema.ArraySchema?
  }

  predicate SameAsAncestor(value: Value, seen: set<nat>) {
    (value.ObjectOf? || value.ListOf?) && value.id in seen
  }

  /** The text does not have this format, and has every one before it. */
  predicate FirstInvalid(env: Env, formats: seq<string>, text: string, format: string) {
    exists i :: 0 <= i < |formats| && formats[i] == format && !env.valid(format, text)
      && forall j :: 0 <= j < i ==> env.valid(formats[j], text)
  }

  /** The error is of this value itself: nested too deep, else of another type, else one of its own ancestors. */
  predicate OwnFault(env: Env, schema: Schema, value: Value, pointer: string, depth: nat, seen: set<nat>, e: Error) {
    match e
    case MaxDepthExceeded(p, limit) => p == pointer && Container(schema) && limit == env.maxDepth <= depth
    case InvalidType(p, expected, received) =>
      && p == pointer && OtherType(schema, value, expected) && Named(value, received)
      && (Container(schema) ==> depth < env.maxDepth)
    case InvalidFormat(p, format) =>
      && p == pointer && schema.TextSchema? && Named(value, "string")
      && FirstInvalid(env, schema.formats, value.scalar.text, format)
    case CyclicReference(p) =>
      && p == pointer && Container(schema) && depth < env.maxDepth && SameAsAncestor(value, seen)
      && ((schema.ObjectSchema? && value.ObjectOf?) || (schema.ArraySchema? && value.ListOf?))
    case _ => false
  }

  /** The value is a container of the right type that may be looked into. */
  predicate Entered(env: Env, schema: Schema, value: Value, depth: nat, seen: set<nat>) {
    && depth < env.maxDepth && !SameAsAncestor(value, seen)
    && ((schema.ObjectSchema? && value.ObjectOf?) || (schema.ArraySchema? && value.ListOf?))
  }

  function Below(env: Env, path: string, token: string): string {
    Encode(Decode(Normalize(Some(path), env.loose)) + [token])
  }

  /** Field i of an object is allowed and has no fault. */
  predicate FieldFine(env: Env, schema: Schema, value: Value, i: nat, depth: nat, seen: set<nat>)
    requires schema.ObjectSchema? && value.ObjectOf? && i < |schema.shape|
  {
    && schema.shape[i].key !in FORBIDDEN_KEYS
    && Accepted(env, schema.shape[i].schema, PropertyOf(value.props, schema.shape[i].key), depth + 1,
                seen + {value.id})
  }

  predicate ItemFine(env: Env, schema: Schema, value: Value, i: nat, depth: nat, seen: set<nat>)
    requires schema.ArraySchema? && value.ListOf? && i < |value.items|
  {
    Accepted(env, schema.item, value.items[i], depth + 1, seen + {value.id})
  }

  /** The error is of the value itself or of the first field or item of it that has one. */
  predicate FirstFault(env: Env, schema: Schema, value: Value, path: string, depth: nat, seen: set<nat>, e: Error)
    decreases schema
  {
    match schema
    case Maybe(absent, inner, _) => value != Plain(absent) && FirstFault(env, inner, value, path, depth, seen, e)
    case ObjectSchema(shape, _) =>
      || OwnFault(env, schema, value, Normalize(Some(path), env.loose), depth, seen, e)
      || (&& Entered(env, schema, value, depth, seen)
          && exists i :: 0 <= i < |shape|
               && (forall j :: 0 <= j < i ==> FieldFine(env, schema, value, j, depth, seen))
               && if shape[i].key in FORBIDDEN_KEYS then e == ForbiddenKey(Below(env, path, shape[i].key), shape[i].key)
                  else FirstFault(env, shape[i].schema, PropertyOf(value.props, shape[i].key),
                                  Below(env, path, shape[i].key), depth + 1, seen + {value.id}, e))
    case ArraySchema(item, _) =>
      || OwnFault(env, schema, value, Normalize(Some(path), env.loose), depth, seen, e)
      || (&& Entered(env, schema, value, depth, seen)
          && exists i :: 0 <= i < |value.items|
               && (forall j :: 0 <= j < i ==> ItemFine(env, schema, value, j, depth, seen))
               && FirstFault(env, item, value.items[i], Below(env, path, Decimal(i)), depth + 1, seen + {value.id}, e))
    case _ => OwnFault(env, schema, value, Normalize(Some(path), env.loose), depth, seen, e)
  }

  lemma {:induction false} FormatReported(env: Env, formats: seq<string>, text: string)
    ensures var failing := FirstFailing(env, formats, text);
      failing.Some? ==> FirstInvalid(env, formats, text, failing.value)
    decreases |formats|
  {
    if formats != [] && env.valid(formats[0], text) {
      FormatReported(env, formats[1..], text);
      var failing := FirstFailing(env, formats[1..], text);
      if failing.Some? {
        var i :| 0 <= i < |formats[1..]| && formats[1..][i] == failing.value
          && !env.valid(failing.value, text) && forall j :: 0 <= j < i ==> env.valid(formats[1..][j], text);
        assert formats[i + 1] == failing.value;
        assert forall j :: 0 < j < i + 1 ==> formats[j] == formats[1..][j - 1];
      }
    }
  }

  lemma TypeReported(value: Value)
    ensures Named(value, Describe(value))
  {
  }

  /** A parse that fails reports the first fault, at its own pointer. */
  lemma {:induction false} FaultReported(env: Env, schema: Schema, value: Value, path: string, depth: nat,
      seen: set<nat>)
    requires Parse(env, schema, value, path, depth, seen).Failure?
    ensures FirstFault(env, schema, value, path, depth, seen, Parse(env, schema, value, path, depth, seen).error)
    decreases schema, 1, 0
  {
    hide Normalize, Decode, Encode, Named, Describe;
    TypeReported(value);
    TypesTold(value);
    match schema
    case Maybe(absent, inner, _) => FaultReported(env, inner, value, path, depth, seen);
    case TextSchema(formats, _) =>
      if value.Plain? && value.scalar.Text? { FormatReported(env, formats, value.scalar.text); }
    case ObjectSchema(_, policy) =>
      if Entered(env, schema, value, depth, seen) {
        var pointer := Normalize(Some(path), env.loose);
        var i := FieldReported(env, schema, value, path, 0, depth, seen,
                               Parsed(Fields([]), map[pointer := policy]));
      }
    case ArraySchema(_, policy) =>
      if Entered(env, schema, value, depth, seen) {
        var pointer := Normalize(Some(path), env.loose);
        var i := ItemReported(env, schema, value, path, 0, depth, seen,
                              Parsed(Items([]), map[pointer := policy]));
      }
    case _ =>
  }

  lemma TypesTold(value: Value)
    ensures Named(value, "string") <==> value.Plain? && value.scalar.Text?
    ensures Named(value, "boolean") <==> value.Plain? && value.scalar.Bool?
    ensures Named(value, "object") <==> value.ObjectOf?
    ensures Named(value, "array") <==> value.ListOf?
  {
  }

  lemma {:induction false} FieldReported(env: Env, schema: Schema, value: Value, path: string, i: nat, depth: nat,
      seen: set<nat>, done: Parsed) returns (k: nat)
    requires schema.ObjectSchema? && value.ObjectOf? && i <= |schema.shape| && done.data.Fields?
    requires ParseFields(env, schema, value.props, Decode(Normalize(Some(path), env.loose)), i, depth + 1,
                         seen + {value.id}, done).Failure?
    ensures i <= k < |schema.shape|
    ensures forall j :: i <= j < k ==> FieldFine(env, schema, value, j, depth, seen)
    ensures
      var e := ParseFields(env, schema, value.props, Decode(Normalize(Some(path), env.loose)), i, depth + 1,
                           seen + {value.id}, done).error;
      var slot := schema.shape[k];
      if slot.key in FORBIDDEN_KEYS then e == ForbiddenKey(Below(env, path, slot.key), slot.key)
      else FirstFault(env, slot.schema, PropertyOf(value.props, slot.key), Below(env, path, slot.key), depth + 1,
                      seen + {value.id}, e)
    decreases schema, 0, |schema.shape| - i
  {
    hide Normalize, Decode, Encode, Parse, FirstFault, Accepted;
    var slot := schema.shape[i];
    var tokens := Decode(Normalize(Some(path), env.loose));
    var property := PropertyOf(value.props, slot.key);
    var child := Parse(env, slot.schema, property, Encode(tokens + [slot.key]), depth + 1, seen + {value.id});
    if slot.key in FORBIDDEN_KEYS {
      k := i;
    } else if child.Failure? {
      k := i;
      FaultReported(env, slot.schema, property, Encode(tokens + [slot.key]), depth + 1, seen + {value.id});
    } else {
      ParseAccepts(env, slot.schema, property, Encode(tokens + [slot.key]), depth + 1, seen + {value.id});
      k := FieldReported(env, schema, value, path, i + 1, depth, seen,
                         Parsed(Fields(done.data.fields + [Field(slot.key, child.value.data)]),
                                done.policies + child.value.policies));
    }
  }

  lemma {:induction false} ItemReported(env: Env, schema: Schema, value: Value, path: string, i: nat, depth: nat,
      seen: set<nat>, done: Parsed) returns (k: nat)
    requires schema.ArraySchema? && value.ListOf? && i <= |value.items| && done.data.Items?
    requires ParseItems(env, schema.item, value.items, Decode(Normalize(Some(path), env.loose)), i, depth + 1,
                        seen + {value.id}, done).Failure?
    ensures i <= k < |value.items|
    ensures forall j :: i <= j < k ==> ItemFine(env, schema, value, j, depth, seen)
    ensures
      var e := ParseItems(env, schema.item, value.items, Decode(Normalize(Some(path), env.loose)), i, depth + 1,
                          seen + {value.id}, done).error;
      FirstFault(env, schema.item, value.items[k], Below(env, path, Decimal(k)), depth + 1, seen + {value.id}, e)
    decreases schema, 0, |value.items| - i
  {
    hide Normalize, Decode, Encode, Parse, FirstFault, Accepted, Decimal;
    var tokens := Decode(Normalize(Some(path), env.loose));
    var child := Parse(env, schema.item, value.items[i], Encode(tokens + [Decimal(i)]), depth + 1, seen + {value.id});
    if child.Failure? {
      k := i;
      FaultReported(env, schema.item, value.items[i], Encode(tokens + [Decimal(i)]), depth + 1, seen + {value.id});
    } else {
      ParseAccepts(env, schema.item, value.items[i], Encode(tokens + [Decimal(i)]), depth + 1, seen + {value.id});
      k := ItemReported(env, schema, value, path, i + 1, depth, seen,
                        Parsed(Items(done.data.items + [child.value.data]), done.policies + child.value.policies));
    }
  }
}
