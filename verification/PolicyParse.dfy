/**
  Policy-aware parsing: a schema tree checks a value and flattens the policies it
  carries into a map keyed by JSON Pointer strings.

  A value is a finite tree whose objects and arrays have identities; a cyclic input is
  its unrolling down to the first repeated ancestor, where parsing stops. Lists of
  properties are in enumeration order.
 */
module PolicyParse {
  import opened Wrappers
  import opened JsonPointer

  datatype Redaction = Mask | Hide | Unredacted

  datatype OnDenied = DropField | RaiseError

  /** A normalised policy; its guardrails play no part here. */
  datatype Policy = Policy(redact: Redaction, pii: bool, scope: seq<string>, onDenied: OnDenied)

  datatype Scalar = Undefined | Null | Bool(b: bool) | NotANumber | Number(n: int) | Text(text: string)

  datatype Value = Plain(scalar: Scalar) | ListOf(id: nat, items: seq<Value>) | ObjectOf(id: nat, props: seq<Prop>)

  datatype Prop = Prop(key: string, value: Value)

  /** Parsed data, and what rendering returns. */
  datatype Tree = Atom(scalar: Scalar) | Items(items: seq<Tree>) | Fields(fields: seq<Field>)

  datatype Field = Field(key: string, tree: Tree)

  /** Maybe is a nullable or optional schema; its own policy is used for the absent value only. */
  datatype Schema =
    | TextSchema(formats: seq<string>, policy: Policy)
    | NumberSchema(policy: Policy)
    | BooleanSchema(policy: Policy)
    | ObjectSchema(shape: seq<Slot>, policy: Policy)
    | ArraySchema(item: Schema, policy: Policy)
    | Maybe(absent: Scalar, inner: Schema, policy: Policy)

  datatype Slot = Slot(key: string, schema: Schema)

  datatype Error =
    | InvalidType(path: string, expected: string, received: string)
    | InvalidFormat(path: string, format: string)
    | MaxDepthExceeded(path: string, maxDepth: int)
    | CyclicReference(path: string)
    | ForbiddenKey(path: string, key: string)
    | ForbiddenScope(path: string)

  /** The depth limit, the format validators and the loose-path regular expressions. */
  datatype Env = Env(maxDepth: int, valid: (string, string) -> bool, loose: string -> seq<string>)

  datatype Parsed = Parsed(data: Tree, policies: map<string, Policy>)

  const FORBIDDEN_KEYS := {"__proto__", "constructor", "prototype"}

  function Describe(value: Value): string {
    match value
    case ListOf(_, _) => "array"
    case ObjectOf(_, _) => "object"
    case Plain(Undefined) => "undefined"
    case Plain(Null) => "null"
    case Plain(Bool(_)) => "boolean"
    case Plain(Text(_)) => "string"
    case _ => "number"
  }

  /** Reading a property an object does not have gives undefined. */
  function PropertyOf(props: seq<Prop>, key: string): Value
    decreases |props|
  {
    if props == [] then Plain(Undefined)
    else if props[0].key == key then props[0].value
    else PropertyOf(props[1..], key)
  }

  function FirstFailing(env: Env, formats: seq<string>, text: string): Option<string>
    decreases |formats|
  {
    if formats == [] then None
    else if !env.valid(formats[0], text) then Some(formats[0])
    else FirstFailing(env, formats[1..], text)
  }

  function Digit(d: nat): char
    requires d < 10
  {
    ('0' as int + d) as char
  }

  /** `String(index)`. */
  function Decimal(n: nat): (r: string)
    ensures r != ""
    decreases n
  {
    if n < 10 then [Digit(n)] else Decimal(n / 10) + [Digit(n % 10)]
  }

  // ----- parsing -----

  /** `depth` and `seen` are the runtime context: the nesting and the identities of the ancestors. */
  function Parse(env: Env, schema: Schema, value: Value, path: string, depth: nat, seen: set<nat>): Result<Parsed,
      Error>
    decreases schema, 1, 0
  {
    if schema.Maybe? then
      if value == Plain(schema.absent) then Success(Parsed(Atom(schema.absent), map[path := schema.policy]))
      else Parse(env, schema.inner, value, path, depth, seen)
    else
      var pointer := Normalize(Some(path), env.loose);
      match schema
      case TextSchema(formats, policy) =>
        if !(value.Plain? && value.scalar.Text?) then Failure(InvalidType(pointer, "string", Describe(value)))
        else
          var failing := FirstFailing(env, formats, value.scalar.text);
          if failing.Some? then Failure(InvalidFormat(pointer, failing.value))
          else Success(Parsed(Atom(value.scalar), map[pointer := policy]))
      case NumberSchema(policy) =>
        if !(value.Plain? && value.scalar.Number?) then Failure(InvalidType(pointer, "number", Describe(value)))
        else Success(Parsed(Atom(value.scalar), map[pointer := policy]))
      case BooleanSchema(policy) =>
        if !(value.Plain? && value.scalar.Bool?) then Failure(InvalidType(pointer, "boolean", Describe(value)))
        else Success(Parsed(Atom(value.scalar), map[pointer := policy]))
      case ObjectSchema(shape, policy) =>
        if depth >= env.maxDepth then Failure(MaxDepthExceeded(pointer, env.maxDepth))
        else if !value.ObjectOf? then Failure(InvalidType(pointer, "object", Describe(value)))
        else if value.id in seen then Failure(CyclicReference(pointer))
        else ParseFields(env, schema, value.props, Decode(pointer), 0, depth + 1, seen + {value.id},
                         Parsed(Fields([]), map[pointer := policy]))
      case ArraySchema(item, policy) =>
        if depth >= env.maxDepth then Failure(MaxDepthExceeded(pointer, env.maxDepth))
        else if !value.ListOf? then Failure(InvalidType(pointer, "array", Describe(value)))
        else if value.id in seen then Failure(CyclicReference(pointer))
        else ParseItems(env, item, value.items, Decode(pointer), 0, depth + 1, seen + {value.id},
                        Parsed(Items([]), map[pointer := policy]))
  }

  /** The object loop from shape entry i on; `done` is what it has built. */
  function ParseFields(env: Env, schema: Schema, props: seq<Prop>, tokens: seq<string>, i: nat, depth: nat,
                       seen: set<nat>, done: Parsed): Result<Parsed, Error>
    requires schema.ObjectSchema? && i <= |schema.shape| && done.data.Fields?
    decreases schema, 0, |schema.shape| - i
  {
    if i == |schema.shape| then Success(done)
    else
      var slot := schema.shape[i];
      var childPath := Encode(tokens + [slot.key]);
      if slot.key in FORBIDDEN_KEYS then Failure(ForbiddenKey(childPath, slot.key))
      else
        var child := Parse(env, slot.schema, PropertyOf(props, slot.key), childPath, depth, seen);
        if child.Failure? then child
        else
          ParseFields(env, schema, props, tokens, i + 1, depth, seen,
                      Parsed(Fields(done.data.fields + [Field(slot.key, child.value.data)]),
                             done.policies + child.value.policies))
  }

  /** The array loop from index i on. */
  function ParseItems(env: Env, item: Schema, items: seq<Value>, tokens: seq<string>, i: nat, depth: nat,
                      seen: set<nat>, done: Parsed): Result<Parsed, Error>
    requires i <= |items| && done.data.Items?
    decreases item, 2, |items| - i
  {
    if i == |items| then Success(done)
    else
      var child := Parse(env, item, items[i], Encode(tokens + [Decimal(i)]), depth, seen);
      if child.Failure? then child
      else
        ParseItems(env, item, items, tokens, i + 1, depth, seen,
                   Parsed(Items(done.data.items + [child.value.data]), done.policies + child.value.policies))
  }

  /** The identities of the objects being parsed, shared by a whole parse. */
  class SeenSet {
    var ids: set<nat>

    constructor ()
      ensures ids == {}
    {
      ids := {};
    }
  }

  /** `parse`: whatever the outcome, the shared set of ancestors is left as it was. */
  method ParseValue(env: Env, schema: Schema, value: Value, path: string, depth: nat, seen: SeenSet)
    returns (r: Result<Parsed, Error>)
    modifies seen
    ensures seen.ids == old(seen.ids)
    ensures r == Parse(env, schema, value, path, depth, old(seen.ids))
    decreases schema
  {
    if schema.Maybe? {
      if value == Plain(schema.absent) {
        return Success(Parsed(Atom(schema.absent), map[path := schema.policy]));
      }
      r := ParseValue(env, schema.inner, value, path, depth, seen);
      return;
    }
    if !schema.ObjectSchema? && !schema.ArraySchema? {
      return Parse(env, schema, value, path, depth, seen.ids);
    }
    var pointer := Normalize(Some(path), env.loose);
    if depth >= env.maxDepth {
      return Failure(MaxDepthExceeded(pointer, env.maxDepth));
    }
    if schema.ObjectSchema? {
      if !value.ObjectOf? {
        return Failure(InvalidType(pointer, "object", Describe(value)));
      }
      if value.id in seen.ids {
        return Failure(CyclicReference(pointer));
      }
      ghost var before := seen.ids;
      seen.ids := seen.ids + {value.id};
      r := ParseShape(env, schema, value.props, pointer, depth, seen);
      seen.ids := seen.ids - {value.id};
      assert seen.ids == before;
    } else {
      if !value.ListOf? {
        return Failure(InvalidType(pointer, "array", Describe(value)));
      }
      if value.id in seen.ids {
        return Failure(CyclicReference(pointer));
      }
      ghost var before := seen.ids;
      seen.ids := seen.ids + {value.id};
      r := ParseElements(env, schema, value.items, pointer, depth, seen);
      seen.ids := seen.ids - {value.id};
      assert seen.ids == before;
    }
  }

  /** The object loop. */
  method ParseShape(env: Env, schema: Schema, props: seq<Prop>, pointer: string, depth: nat, seen: SeenSet)
    returns (r: Result<Parsed, Error>)
    requires schema.ObjectSchema?
    modifies seen
    ensures seen.ids == old(seen.ids)
    ensures r == ParseFields(env, schema, props, Decode(pointer), 0, depth + 1, old(seen.ids),
                             Parsed(Fields([]), map[pointer := schema.policy]))
    decreases schema, 0
  {
    hide Encode, Decode, Parse;
    var tokens := Decode(pointer);
    var output: seq<Field> := [];
    var policies := map[pointer := schema.policy];
    var i := 0;
    while i < |schema.shape|
      invariant 0 <= i <= |schema.shape|
      invariant seen.ids == old(seen.ids)
      invariant ParseFields(env, schema, props, tokens, i, depth + 1, old(seen.ids), Parsed(Fields(output), policies))
        == ParseFields(env, schema, props, tokens, 0, depth + 1, old(seen.ids),
          Parsed(Fields([]), map[pointer := schema.policy]))
    {
      var slot := schema.shape[i];
      if slot.key in FORBIDDEN_KEYS {
        return Failure(ForbiddenKey(Encode(tokens + [slot.key]), slot.key));
      }
      var child := ParseValue(env, slot.schema, PropertyOf(props, slot.key), Encode(tokens + [slot.key]), depth + 1,
        seen);
      if child.Failure? {
        return child;
      }
      output := output + [Field(slot.key, child.value.data)];
      policies := policies + child.value.policies;
      i := i + 1;
    }
    r := Success(Parsed(Fields(output), policies));
  }

  /** The array loop. */
  method ParseElements(env: Env, schema: Schema, items: seq<Value>, pointer: string, depth: nat, seen: SeenSet)
    returns (r: Result<Parsed, Error>)
    requires schema.ArraySchema?
    modifies seen
    ensures seen.ids == old(seen.ids)
    ensures r == ParseItems(env, schema.item, items, Decode(pointer), 0, depth + 1, old(seen.ids),
                            Parsed(Items([]), map[pointer := schema.policy]))
    decreases schema, 0
  {
    hide Encode, Decode, Parse, Decimal;
    var tokens := Decode(pointer);
    var values: seq<Tree> := [];
    var policies := map[pointer := schema.policy];
    var i := 0;
    while i < |items|
      invariant 0 <= i <= |items|
      invariant seen.ids == old(seen.ids)
      invariant ParseItems(env, schema.item, items, tokens, i, depth + 1, old(seen.ids),
        Parsed(Items(values), policies))
        == ParseItems(env, schema.item, items, tokens, 0, depth + 1, old(seen.ids),
          Parsed(Items([]), map[pointer := schema.policy]))
    {
      var child := ParseValue(env, schema.item, items[i], Encode(tokens + [Decimal(i)]), depth + 1, seen);
      if child.Failure? {
        return child;
      }
      values := values + [child.value.data];
      policies := policies + child.value.policies;
      i := i + 1;
    }
    r := Success(Parsed(Items(values), policies));
  }

  // ----- what parsing accepts and returns -----

  /** The part of a value its schema asks for. */
  function Project(schema: Schema, value: Value): Tree
    decreases schema
  {
    match schema
    case Maybe(absent, inner, _) => if value == Plain(absent) then Atom(absent) else Project(inner, value)
    case ObjectSchema(shape, _) =>
      if value.ObjectOf? then
        Fields(seq(|shape|, i requires 0 <= i < |shape| =>
          Field(shape[i].key, Project(shape[i].schema, PropertyOf(value.props, shape[i].key)))))
      else Atom(Undefined)
    case ArraySchema(item, _) =>
      if value.ListOf? then
        Items(seq(|value.items|, i requires 0 <= i < |value.items| => Project(item, value.items[i])))
      else Atom(Undefined)
    case _ => if value.Plain? then Atom(value.scalar) else Atom(Undefined)
  }

  /**
    Every part has the right type, no object is its own ancestor, nesting stays below the limit, no key is
    forbidden.
   */
  predicate Accepted(env: Env, schema: Schema, value: Value, depth: nat, seen: set<nat>)
    decreases schema
  {
    match schema
    case Maybe(absent, inner, _) => value == Plain(absent) || Accepted(env, inner, value, depth, seen)
    case TextSchema(formats, _) =>
      value.Plain? && value.scalar.Text? && forall i :: 0 <= i < |formats| ==> env.valid(formats[i], value.scalar.text)
    case NumberSchema(_) => value.Plain? && value.scalar.Number?
    case BooleanSchema(_) => value.Plain? && value.scalar.Bool?
    case ObjectSchema(shape, _) =>
      && value.ObjectOf? && depth < env.maxDepth && value.id !in seen
      && forall i :: 0 <= i < |shape| ==>
           && shape[i].key !in FORBIDDEN_KEYS
           && Accepted(env, shape[i].schema, PropertyOf(value.props, shape[i].key), depth + 1, seen + {value.id})
    case ArraySchema(item, _) =>
      && value.ListOf? && depth < env.maxDepth && value.id !in seen
      && forall i :: 0 <= i < |value.items| ==> Accepted(env, item, value.items[i], depth + 1, seen + {value.id})
  }

  lemma {:induction false} NoneFailing(env: Env, formats: seq<string>, text: string)
    ensures FirstFailing(env, formats, text).None? <==> forall i :: 0 <= i < |formats| ==> env.valid(formats[i], text)
    decreases |formats|
  {
    if formats != [] && env.valid(formats[0], text) {
      NoneFailing(env, formats[1..], text);
      assert forall i :: 1 <= i < |formats| ==> formats[i] == formats[1..][i - 1];
    }
  }

  /** Parsing succeeds exactly on accepted values, wherever they sit, and returns what the schema asks for. */
  lemma {:induction false} ParseAccepts(env: Env, schema: Schema, value: Value, path: string, depth: nat,
      seen: set<nat>)
    ensures var r := Parse(env, schema, value, path, depth, seen);
      && (r.Success? <==> Accepted(env, schema, value, depth, seen))
      && (r.Success? ==> r.value.data == Project(schema, value))
    decreases schema, 1, 0
  {
    hide Normalize, Decode;
    var pointer := Normalize(Some(path), env.loose);
    match schema
    case Maybe(absent, inner, _) => ParseAccepts(env, inner, value, path, depth, seen);
    case TextSchema(formats, _) =>
      if value.Plain? && value.scalar.Text? { NoneFailing(env, formats, value.scalar.text); }
    case ObjectSchema(_, policy) =>
      if value.ObjectOf? && depth < env.maxDepth && value.id !in seen {
        FieldsAccept(env, schema, value, Decode(pointer), 0, depth + 1, seen + {value.id},
                     Parsed(Fields([]), map[pointer := policy]));
      }
    case ArraySchema(item, policy) =>
      if value.ListOf? && depth < env.maxDepth && value.id !in seen {
        ItemsAccept(env, schema, value, Decode(pointer), 0, depth + 1, seen + {value.id},
                    Parsed(Items([]), map[pointer := policy]));
      }
    case _ =>
  }

  lemma {:induction false} FieldsAccept(env: Env, schema: Schema, value: Value, tokens: seq<string>, i: nat, depth: nat,
                                        seen: set<nat>, done: Parsed)
    requires schema.ObjectSchema? && value.ObjectOf? && i <= |schema.shape| && done.data.Fields?
    requires done.data.fields == Project(schema, value).fields[..i]
    ensures var r := ParseFields(env, schema, value.props, tokens, i, depth, seen, done);
      && (r.Success? <==> forall j :: i <= j < |schema.shape| ==>
           && schema.shape[j].key !in FORBIDDEN_KEYS
           && Accepted(env, schema.shape[j].schema, PropertyOf(value.props, schema.shape[j].key), depth, seen))
      && (r.Success? ==> r.value.data == Project(schema, value))
    decreases schema, 0, |schema.shape| - i
  {
    hide Encode, Accepted, Parse;
    var all := Project(schema, value).fields;
    if i < |schema.shape| {
      var slot := schema.shape[i];
      ParseAccepts(env, slot.schema, PropertyOf(value.props, slot.key), Encode(tokens + [slot.key]), depth, seen);
      var child := Parse(env, slot.schema, PropertyOf(value.props, slot.key), Encode(tokens + [slot.key]), depth, seen);
      if slot.key !in FORBIDDEN_KEYS && child.Success? {
        assert all[..i] + [all[i]] == all[..i + 1];
        FieldsAccept(env, schema, value, tokens, i + 1, depth, seen,
                     Parsed(Fields(done.data.fields + [Field(slot.key, child.value.data)]),
                            done.policies + child.value.policies));
      }
    } else {
      assert all[..i] == all;
    }
  }

  lemma {:induction false} ItemsAccept(env: Env, schema: Schema, value: Value, tokens: seq<string>, i: nat, depth: nat,
                                       seen: set<nat>, done: Parsed)
    requires schema.ArraySchema? && value.ListOf? && i <= |value.items| && done.data.Items?
    requires done.data.items == Project(schema, value).items[..i]
    ensures var r := ParseItems(env, schema.item, value.items, tokens, i, depth, seen, done);
      && (r.Success? <==> forall j :: i <= j < |value.items| ==>
        Accepted(env, schema.item, value.items[j], depth, seen))
      && (r.Success? ==> r.value.data == Project(schema, value))
    decreases schema, 0, |value.items| - i
  {
    hide Encode, Accepted, Parse, Decimal;
    var all := Project(schema, value).items;
    if i < |value.items| {
      ParseAccepts(env, schema.item, value.items[i], Encode(tokens + [Decimal(i)]), depth, seen);
      var child := Parse(env, schema.item, value.items[i], Encode(tokens + [Decimal(i)]), depth, seen);
      if child.Success? {
        assert all[..i] + [all[i]] == all[..i + 1];
        ItemsAccept(env, schema, value, tokens, i + 1, depth, seen,
                    Parsed(Items(done.data.items + [child.value.data]), done.policies + child.value.policies));
      }
    } else {
      assert all[..i] == all;
    }
  }
}
