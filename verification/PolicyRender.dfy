/**
  Rendering parsed data through the flat policy map, against a direct walk of the schema.
 */
module PolicyRender {
  import opened Wrappers
  import opened JsonPointer
  import opened PolicyParse
  import opened PolicyMap

  // ----- one position -----

  datatype Verdict = Show | Omit | Refuse | Cover

  const REDACTED_VALUE := Atom(Text("[REDACTED]"))

  predicate HasAccess(required: seq<string>, granted: Option<seq<string>>) {
    || required == []
    || (granted.Some? && exists scope :: scope in required && scope in granted.value)
  }

  /** What a policy, if there is one, does to the value it stands for. */
  function Judge(policy: Option<Policy>, granted: Option<seq<string>>): Verdict {
    if policy.None? then Show
    else if !HasAccess(policy.value.scope, granted) then
      if policy.value.onDenied == DropField then Omit else Refuse
    else if policy.value.pii && policy.value.redact == Hide then Omit
    else if policy.value.pii && policy.value.redact == Mask then Cover
    else Show
  }

  // ----- rendering through the map -----

  function Lookup(policies: map<string, Policy>, path: string): Option<Policy> {
    if path in policies then Some(policies[path]) else None
  }

  function KeyPath(path: string, key: string): string {
    (if path == "/" then "" else path) + "/" + Escape(key)
  }

  function IndexPath(path: string, index: nat): string {
    ReplacePair((if path == "/" then "" else path) + "/" + Decimal(index), '/', '/', '/')
  }

  /** None is a value that is not present. */
  function Render(tree: Tree, path: string, policies: map<string, Policy>, granted: Option<seq<string>>)
    : Result<Option<Tree>, Error>
    decreases tree, 1, 0
  {
    match Judge(Lookup(policies, path), granted)
    case Omit => Success(None)
    case Refuse => Failure(ForbiddenScope(path))
    case Cover => Success(Some(REDACTED_VALUE))
    case Show =>
      match tree
      case Atom(_) => Success(Some(tree))
      case Items(_) => RenderItems(tree, path, policies, granted, 0, [])
      case Fields(_) => RenderFields(tree, path, policies, granted, 0, [])
  }

  function RenderItems(tree: Tree, path: string, policies: map<string, Policy>, granted: Option<seq<string>>,
                       i: nat, done: seq<Tree>): Result<Option<Tree>, Error>
    requires tree.Items? && i <= |tree.items|
    decreases tree, 0, |tree.items| - i
  {
    if i == |tree.items| then Success(Some(Items(done)))
    else
      var child := Render(tree.items[i], IndexPath(path, i), policies, granted);
      if child.Failure? then child
      else
        var more := if child.value.Some? then [child.value.value] else [];
        RenderItems(tree, path, policies, granted, i + 1, done + more)
  }

  function RenderFields(tree: Tree, path: string, policies: map<string, Policy>, granted: Option<seq<string>>,
                        i: nat, done: seq<Field>): Result<Option<Tree>, Error>
    requires tree.Fields? && i <= |tree.fields|
    decreases tree, 0, |tree.fields| - i
  {
    if i == |tree.fields| then Success(Some(Fields(done)))
    else
      var field := tree.fields[i];
      if field.key in FORBIDDEN_KEYS then Failure(ForbiddenKey(KeyPath(path, field.key), field.key))
      else
        var child := Render(field.tree, KeyPath(path, field.key), policies, granted);
        if child.Failure? then child
        else
          var more := if child.value.Some? then [Field(field.key, child.value.value)] else [];
          RenderFields(tree, path, policies, granted, i + 1, done + more)
  }

  /** `renderValue`; its two loops follow. */
  method RenderValue(tree: Tree, path: string, policies: map<string, Policy>, granted: Option<seq<string>>)
    returns (r: Result<Option<Tree>, Error>)
    ensures r == Render(tree, path, policies, granted)
    decreases tree, 1
  {
    var policy := if path in policies then Some(policies[path]) else None;
    if policy.Some? && !HasAccess(policy.value.scope, granted) {
      if policy.value.onDenied == DropField {
        return Success(None);
      }
      return Failure(ForbiddenScope(path));
    }
    if policy.Some? && policy.value.pii && policy.value.redact == Hide {
      return Success(None);
    }
    if policy.Some? && policy.value.pii && policy.value.redact == Mask {
      return Success(Some(REDACTED_VALUE));
    }
    match tree
    case Items(_) => r := RenderArray(tree, path, policies, granted);
    case Fields(_) => r := RenderObject(tree, path, policies, granted);
    case Atom(_) => r := Success(Some(tree));
  }

  method RenderArray(tree: Tree, path: string, policies: map<string, Policy>, granted: Option<seq<string>>)
    returns (r: Result<Option<Tree>, Error>)
    requires tree.Items?
    ensures r == RenderItems(tree, path, policies, granted, 0, [])
    decreases tree, 0
  {
    hide IndexPath, Render;
    var rendered: seq<Tree> := [];
    var i := 0;
    while i < |tree.items|
      invariant 0 <= i <= |tree.items|
      invariant RenderItems(tree, path, policies, granted, i, rendered) ==
        RenderItems(tree, path, policies, granted, 0, [])
    {
      var child := RenderValue(tree.items[i], IndexPath(path, i), policies, granted);
      if child.Failure? {
        return child;
      }
      if child.value.Some? {
        rendered := rendered + [child.value.value];
      } else {
        assert rendered + [] == rendered;
      }
      i := i + 1;
    }
    r := Success(Some(Items(rendered)));
  }

  method RenderObject(tree: Tree, path: string, policies: map<string, Policy>, granted: Option<seq<string>>)
    returns (r: Result<Option<Tree>, Error>)
    requires tree.Fields?
    ensures r == RenderFields(tree, path, policies, granted, 0, [])
    decreases tree, 0
  {
    hide KeyPath, Render;
    var rendered: seq<Field> := [];
    var i := 0;
    while i < |tree.fields|
      invariant 0 <= i <= |tree.fields|
      invariant RenderFields(tree, path, policies, granted, i, rendered) ==
        RenderFields(tree, path, policies, granted, 0, [])
    {
      var field := tree.fields[i];
      if field.key in FORBIDDEN_KEYS {
        return Failure(ForbiddenKey(KeyPath(path, field.key), field.key));
      }
      var child := RenderValue(field.tree, KeyPath(path, field.key), policies, granted);
      if child.Failure? {
        return child;
      }
      if child.value.Some? {
        rendered := rendered + [Field(field.key, child.value.value)];
      } else {
        assert rendered + [] == rendered;
      }
      i := i + 1;
    }
    r := Success(Some(Fields(rendered)));
  }

  // ----- the direct walk -----

  /** What rendering should return: the schema's own policies, read beside the data they govern. */
  function Direct(schema: Schema, tree: Tree, tokens: seq<string>,
      granted: Option<seq<string>>): Result<Option<Tree>, Error>
    requires Matches(schema, tree)
    decreases schema, 1, 0
  {
    if schema.Maybe? && tree != Atom(schema.absent) then Direct(schema.inner, tree, tokens, granted)
    else
      match Judge(Some(schema.policy), granted)
      case Omit => Success(None)
      case Refuse => Failure(ForbiddenScope(Encode(tokens)))
      case Cover => Success(Some(REDACTED_VALUE))
      case Show =>
        if schema.ObjectSchema? then
          var fields := DirectFields(schema, tree, tokens, granted, 0);
          if fields.Failure? then Failure(fields.error) else Success(Some(Fields(fields.value)))
        else if schema.ArraySchema? then
          var items := DirectItems(schema, tree, tokens, granted, 0);
          if items.Failure? then Failure(items.error) else Success(Some(Items(items.value)))
        else Success(Some(tree))
  }

  /** The present fields from shape entry i on, or the first refusal among them. */
  function DirectFields(schema: Schema, tree: Tree, tokens: seq<string>, granted: Option<seq<string>>, i: nat)
    : Result<seq<Field>, Error>
    requires schema.ObjectSchema? && Matches(schema, tree) && i <= |schema.shape|
    decreases schema, 0, |schema.shape| - i
  {
    if i == |schema.shape| then Success([])
    else
      var slot := schema.shape[i];
      var child := Direct(slot.schema, tree.fields[i].tree, tokens + [slot.key], granted);
      if child.Failure? then Failure(child.error)
      else
        var rest := DirectFields(schema, tree, tokens, granted, i + 1);
        if rest.Failure? then rest
        else Success((if child.value.Some? then [Field(slot.key, child.value.value)] else []) + rest.value)
  }

  function DirectItems(schema: Schema, tree: Tree, tokens: seq<string>, granted: Option<seq<string>>, i: nat)
    : Result<seq<Tree>, Error>
    requires schema.ArraySchema? && Matches(schema, tree) && i <= |tree.items|
    decreases schema, 0, |tree.items| - i
  {
    if i == |tree.items| then Success([])
    else
      var child := Direct(schema.item, tree.items[i], tokens + [Decimal(i)], granted);
      if child.Failure? then Failure(child.error)
      else
        var rest := DirectItems(schema, tree, tokens, granted, i + 1);
        if rest.Failure? then rest
        else Success((if child.value.Some? then [child.value.value] else []) + rest.value)
  }

  // ----- the pointers rendering rebuilds -----

  predicate NoDoubleSlash(s: string) {
    forall i :: 0 <= i < |s| - 1 ==> !(s[i] == '/' && s[i + 1] == '/')
  }

  lemma {:induction false} NothingToCollapse(s: string)
    requires NoDoubleSlash(s)
    ensures ReplacePair(s, '/', '/', '/') == s
    decreases |s|
  {
    if s != "" {
      assert NoDoubleSlash(s[1..]);
      NothingToCollapse(s[1..]);
    }
  }

  lemma {:induction false} JoinAppend(parts: seq<string>, last: string)
    ensures Join(parts + [last]) == if parts == [] then last else Join(parts) + "/" + last
    decreases |parts|
  {
    if |parts| > 1 {
      assert (parts + [last])[1..] == parts[1..] + [last];
      JoinAppend(parts[1..], last);
      assert parts[0] + "/" + (Join(parts[1..]) + "/" + last) == parts[0] + "/" + Join(parts[1..]) + "/" + last;
    } else if |parts| == 1 {
      assert (parts + [last])[1..] == [last];
    }
  }

  /** Tokens that are neither empty nor contain a slash leave no double slash. */
  lemma {:induction false} JoinNoDouble(parts: seq<string>)
    requires parts != [] && SlashFree(parts) && forall i :: 0 <= i < |parts| ==> parts[i] != ""
    ensures NoDoubleSlash("/" + Join(parts)) && Join(parts) != "" && Join(parts)[|Join(parts)| - 1] != '/'
    decreases |parts|
  {
    var last := parts[|parts| - 1];
    if |parts| > 1 {
      var before := parts[..|parts| - 1];
      assert parts == before + [last];
      JoinNoDouble(before);
      JoinAppend(before, last);
      var s := "/" + Join(before);
      assert "/" + Join(parts) == s + ("/" + last);
      forall i | 0 <= i < |s + ("/" + last)| - 1
        ensures !((s + ("/" + last))[i] == '/' && (s + ("/" + last))[i + 1] == '/')
      {
        if i + 1 < |s| {
          assert !(s[i] == '/' && s[i + 1] == '/');
        } else if i + 1 > |s| {
          assert (s + ("/" + last))[i + 1] == last[i - |s|];
        }
      }
    } else {
      assert last[0] in last && last[|last| - 1] in last;
    }
  }

  lemma KeyPathEncodes(tokens: seq<string>, key: string)
    requires GoodTokens(tokens)
    ensures KeyPath(Encode(tokens), key) == Encode(tokens + [key])
  {
    assert EscapeAll(tokens + [key]) == EscapeAll(tokens) + [Escape(key)];
    JoinAppend(EscapeAll(tokens), Escape(key));
    if tokens != [] {
      assert tokens != [""];
      EncodeInjective(tokens, []);
    }
  }

  lemma {:induction false} Shorter(s: string)
    ensures |ReplacePair(s, '/', '/', '/')| <= |s|
    ensures !NoDoubleSlash(s) ==> |ReplacePair(s, '/', '/', '/')| < |s|
    decreases |s|
  {
    if |s| >= 2 && s[0] == '/' && s[1] == '/' {
      Shorter(s[2..]);
    } else if s != "" {
      Shorter(s[1..]);
      if NoDoubleSlash(s[1..]) {
        assert forall i :: 0 < i < |s| - 1 ==> s[i] == s[1..][i - 1] && s[i + 1] == s[1..][i];
      }
    }
  }

  /** An empty part that is not the last leaves a double slash. */
  lemma {:induction false} JoinDouble(parts: seq<string>, j: nat)
    requires j < |parts| - 1 && parts[j] == ""
    ensures !NoDoubleSlash("/" + Join(parts))
    decreases |parts|
  {
    var s := "/" + Join(parts);
    var rest := "/" + Join(parts[1..]);
    assert s == "/" + parts[0] + rest;
    if j == 0 {
      assert s[0] == '/' && s[1] == '/';
    } else {
      JoinDouble(parts[1..], j - 1);
      var i :| 0 <= i < |rest| - 1 && rest[i] == '/' && rest[i + 1] == '/';
      assert s[1 + |parts[0]| + i] == rest[i] && s[1 + |parts[0]| + i + 1] == rest[i + 1];
    }
  }

  /** The path of an item is the pointer stored for it exactly when no key on the way is empty. */
  lemma IndexPathEncodes(tokens: seq<string>, index: nat)
    requires GoodTokens(tokens)
    ensures IndexPath(Encode(tokens), index) == Encode(tokens + [Decimal(index)]) <==> "" !in tokens
  {
    hide Join, EndsInSpace, Decimal;
    var key := Decimal(index);
    DecimalGood(index);
    Unescaped(key);
    KeyPathEncodes(tokens, key);
    var all := tokens + [key];
    EscapedSlashFree(all);
    if "" in tokens {
      var j :| 0 <= j < |tokens| && tokens[j] == "";
      EscapeEmpty(all[j]);
      JoinDouble(EscapeAll(all), j);
      Shorter(Encode(all));
    } else {
      forall i | 0 <= i < |all|
        ensures EscapeAll(all)[i] != ""
      {
        EscapeEmpty(all[i]);
      }
      JoinNoDouble(EscapeAll(all));
      NothingToCollapse(Encode(all));
    }
  }

  lemma Unescaped(key: string)
    requires '~' !in key && '/' !in key
    ensures Escape(key) == key
  {
    NothingReplaced(key, '~', "~0");
    NothingReplaced(key, '/', "~1");
  }

  lemma {:induction false} NothingReplaced(s: string, c: char, with: string)
    requires c !in s
    ensures ReplaceChar(s, c, with) == s
    decreases |s|
  {
    if s != "" {
      NothingReplaced(s[1..], c, with);
    }
  }

  // ----- rendering is the direct walk -----

  /** No array is below an empty key; `empty` says that this schema is. */
  predicate ArraysReachable(schema: Schema, empty: bool)
    decreases schema
  {
    match schema
    case ObjectSchema(shape, _) =>
      forall i :: 0 <= i < |shape| ==> ArraysReachable(shape[i].schema, empty || shape[i].key == "")
    case ArraySchema(item, _) => !empty && ArraysReachable(item, false)
    case Maybe(_, inner, _) => ArraysReachable(inner, empty)
    case _ => true
  }

  /** Keys whose positions the map keeps and rendering finds again. */
  predicate GoodKeys(schema: Schema) {
    KeysKept(schema, true) && ArraysReachable(schema, false)
  }

  predicate GoodAt(schema: Schema, tokens: seq<string>) {
    KeysKept(schema, tokens == []) && ArraysReachable(schema, "" in tokens) && GoodTokens(tokens)
  }

  lemma GoodSlot(schema: Schema, i: nat, tokens: seq<string>)
    requires schema.ObjectSchema? && i < |schema.shape| && GoodAt(schema, tokens)
    ensures GoodAt(schema.shape[i].schema, tokens + [schema.shape[i].key])
    ensures KeyPath(Encode(tokens), schema.shape[i].key) == Encode(tokens + [schema.shape[i].key])
  {
    hide KeyPath, Encode, GoodTokens, KeysKept;
    KeptSlot(schema, i, tokens);
    KeyPathEncodes(tokens, schema.shape[i].key);
  }

  lemma GoodItem(schema: Schema, i: nat, tokens: seq<string>)
    requires schema.ArraySchema? && GoodAt(schema, tokens)
    ensures GoodAt(schema.item, tokens + [Decimal(i)])
    ensures IndexPath(Encode(tokens), i) == Encode(tokens + [Decimal(i)])
  {
    hide IndexPath, Encode, GoodTokens, KeysKept;
    KeptItem(schema, i, tokens);
    IndexPathEncodes(tokens, i);
  }

  lemma GoodInner(schema: Schema, tokens: seq<string>)
    requires schema.Maybe? && GoodAt(schema, tokens)
    ensures GoodAt(schema.inner, tokens)
  {
    hide GoodTokens;
    KeptInner(schema, tokens == []);
  }

  /** With a map that agrees with the schema, rendering is the direct walk. */
  lemma {:induction false} RenderIsDirect(schema: Schema, tree: Tree, tokens: seq<string>,
      policies: map<string, Policy>, granted: Option<seq<string>>)
    requires GoodAt(schema, tokens) && Matches(schema, tree) && Agrees(policies, schema, tree, tokens)
    ensures Render(tree, Encode(tokens), policies, granted) == Direct(schema, tree, tokens, granted)
    decreases schema, 1, 0
  {
    hide Encode, Judge, DirectFields, DirectItems, RenderFields, RenderItems, GoodAt;
    match schema
    case Maybe(absent, inner, _) =>
      if tree != Atom(absent) {
        GoodInner(schema, tokens);
        RenderIsDirect(inner, tree, tokens, policies, granted);
      }
    case ObjectSchema(_, _) =>
      FieldsAreDirect(schema, tree, tokens, policies, granted, 0, []);
      var rest := DirectFields(schema, tree, tokens, granted, 0);
      assert rest.Success? ==> [] + rest.value == rest.value;
    case ArraySchema(_, _) =>
      ItemsAreDirect(schema, tree, tokens, policies, granted, 0, []);
      var rest := DirectItems(schema, tree, tokens, granted, 0);
      assert rest.Success? ==> [] + rest.value == rest.value;
    case _ =>
  }

  lemma {:induction false} FieldsAreDirect(schema: Schema, tree: Tree, tokens: seq<string>,
      policies: map<string, Policy>, granted: Option<seq<string>>, i: nat, done: seq<Field>)
    requires schema.ObjectSchema? && i <= |schema.shape|
    requires GoodAt(schema, tokens) && Matches(schema, tree) && Agrees(policies, schema, tree, tokens)
    ensures var rest := DirectFields(schema, tree, tokens, granted, i);
      RenderFields(tree, Encode(tokens), policies, granted, i, done) ==
        if rest.Failure? then Failure(rest.error) else Success(Some(Fields(done + rest.value)))
    decreases schema, 0, |schema.shape| - i
  {
    hide Encode, Judge, GoodAt, KeyPath, Render, Direct;
    if i < |schema.shape| {
      var slot := schema.shape[i];
      GoodSlot(schema, i, tokens);
      RenderIsDirect(slot.schema, tree.fields[i].tree, tokens + [slot.key], policies, granted);
      var child := Direct(slot.schema, tree.fields[i].tree, tokens + [slot.key], granted);
      if child.Success? {
        var more := if child.value.Some? then [Field(slot.key, child.value.value)] else [];
        FieldsAreDirect(schema, tree, tokens, policies, granted, i + 1, done + more);
        var rest := DirectFields(schema, tree, tokens, granted, i + 1);
        if rest.Success? {
          assert done + more + rest.value == done + (more + rest.value);
        }
      }
    } else {
      assert done + [] == done;
    }
  }

  lemma {:induction false} ItemsAreDirect(schema: Schema, tree: Tree, tokens: seq<string>,
      policies: map<string, Policy>, granted: Option<seq<string>>, i: nat, done: seq<Tree>)
    requires schema.ArraySchema? && tree.Items? && i <= |tree.items|
    requires GoodAt(schema, tokens) && Matches(schema, tree) && Agrees(policies, schema, tree, tokens)
    ensures var rest := DirectItems(schema, tree, tokens, granted, i);
      RenderItems(tree, Encode(tokens), policies, granted, i, done) ==
        if rest.Failure? then Failure(rest.error) else Success(Some(Items(done + rest.value)))
    decreases schema, 0, |tree.items| - i
  {
    hide Encode, Judge, GoodAt, IndexPath, Render, Direct, Decimal;
    if i < |tree.items| {
      GoodItem(schema, i, tokens);
      RenderIsDirect(schema.item, tree.items[i], tokens + [Decimal(i)], policies, granted);
      var child := Direct(schema.item, tree.items[i], tokens + [Decimal(i)], granted);
      if child.Success? {
        var more := if child.value.Some? then [child.value.value] else [];
        ItemsAreDirect(schema, tree, tokens, policies, granted, i + 1, done + more);
        var rest := DirectItems(schema, tree, tokens, granted, i + 1);
        if rest.Success? {
          assert done + more + rest.value == done + (more + rest.value);
        }
      }
    } else {
      assert done + [] == done;
    }
  }

  // ----- stringify -----

  /** A rendered value as text: an absent one is null. `json` is JSON.stringify. */
  function Printed(rendered: Result<Option<Tree>, Error>, json: Tree -> string): Result<string, Error> {
    if rendered.Failure? then Failure(rendered.error)
    else if rendered.value.None? then Success("null")
    else Success(json(rendered.value.value))
  }

  /** `stringify`: parse from the root, then render through the map. */
  method Stringify(env: Env, schema: Schema, value: Value, granted: Option<seq<string>>, json: Tree -> string)
    returns (r: Result<string, Error>)
    ensures r == StringifySpec(env, schema, value, granted, json)
  {
    var seen := new SeenSet();
    var parsed := ParseValue(env, schema, value, "/", 0, seen);
    if parsed.Failure? {
      return Failure(parsed.error);
    }
    var rendered := RenderValue(parsed.value.data, "/", parsed.value.policies, granted);
    r := Printed(rendered, json);
  }

  function StringifySpec(env: Env, schema: Schema, value: Value, granted: Option<seq<string>>,
      json: Tree -> string): Result<string, Error> {
    var parsed := Parse(env, schema, value, "/", 0, {});
    if parsed.Failure? then Failure(parsed.error)
    else Printed(Render(parsed.value.data, "/", parsed.value.policies, granted), json)
  }

  /** The detour through pointer strings changes nothing: stringify prints the direct walk. */
  lemma StringifyIsDirect(env: Env, schema: Schema, value: Value, granted: Option<seq<string>>, json: Tree -> string)
    requires GoodKeys(schema) && Parse(env, schema, value, "/", 0, {}).Success?
    ensures var data := Parse(env, schema, value, "/", 0, {}).value.data;
      Matches(schema, data) &&
      StringifySpec(env, schema, value, granted, json) == Printed(Direct(schema, data, [], granted), json)
  {
    hide Render, Direct, Parse, KeysKept, ArraysReachable;
    OneEntryPerPosition(env, schema, value);
    var parsed := Parse(env, schema, value, "/", 0, {}).value;
    RenderIsDirect(schema, parsed.data, [], parsed.policies, granted);
  }

  // ----- non-interference -----

  /** The policy keeps the value from the caller: no granted scope opens it, or it is personal and redacted. */
  predicate Concealed(policy: Policy, granted: Option<seq<string>>) {
    || (policy.scope != [] && forall scope :: scope in policy.scope ==> granted.None? || scope !in granted.value)
    || (policy.pii && policy.redact != Unredacted)
  }

  lemma ShownUnlessConcealed(policy: Policy, granted: Option<seq<string>>)
    ensures Judge(Some(policy), granted) == Show <==> !Concealed(policy, granted)
  {
    if policy.scope != [] && granted.Some? && !HasAccess(policy.scope, granted) {
      assert forall scope :: scope in policy.scope ==> scope !in granted.value;
    }
  }

  /** The schema whose policy applies to a value: the wrapper's for the absent value, else the inner one's. */
  function Governing(schema: Schema, tree: Tree): (r: Schema)
    requires Matches(schema, tree)
    ensures Matches(r, tree)
    decreases schema
  {
    if schema.Maybe? && tree != Atom(schema.absent) then Governing(schema.inner, tree) else schema
  }

  predicate Dropped(schema: Schema, tree: Tree, granted: Option<seq<string>>)
    requires Matches(schema, tree)
  {
    Judge(Some(Governing(schema, tree).policy), granted) == Omit
  }

  /**
    Two data trees that differ only inside what the policies conceal. Where one side is concealed the
    other must be so too, in the same way: dropped, masked or refused. The items one array has more than
    the other are dropped.
   */
  predicate SameVisible(schema: Schema, a: Tree, b: Tree, granted: Option<seq<string>>)
    requires Matches(schema, a) && Matches(schema, b)
    decreases schema
  {
    var p, q := Governing(schema, a).policy, Governing(schema, b).policy;
    if Concealed(p, granted) || Concealed(q, granted) then Judge(Some(p), granted) == Judge(Some(q), granted)
    else
      match schema
      case Maybe(absent, inner, _) =>
        if a == Atom(absent) then a == b else b != Atom(absent) && SameVisible(inner, a, b, granted)
      case ObjectSchema(shape, _) =>
        forall i :: 0 <= i < |shape| ==> SameVisible(shape[i].schema, a.fields[i].tree, b.fields[i].tree, granted)
      case ArraySchema(item, _) =>
        && (forall i :: 0 <= i < |a.items| && i < |b.items| ==> SameVisible(item, a.items[i], b.items[i], granted))
        && (forall i :: |b.items| <= i < |a.items| ==> Dropped(item, a.items[i], granted))
        && (forall i :: |a.items| <= i < |b.items| ==> Dropped(item, b.items[i], granted))
      case _ => a == b
  }

  /** A value whose policy does not show it is walked to what the policy makes of it, whatever the value. */
  lemma {:induction false} DirectConcealed(schema: Schema, tree: Tree, tokens: seq<string>,
      granted: Option<seq<string>>)
    requires Matches(schema, tree) && Judge(Some(Governing(schema, tree).policy), granted) != Show
    ensures Direct(schema, tree, tokens, granted) ==
      match Judge(Some(Governing(schema, tree).policy), granted)
      case Omit => Success(None)
      case Refuse => Failure(ForbiddenScope(Encode(tokens)))
      case _ => Success(Some(REDACTED_VALUE))
    decreases schema
  {
    hide Encode, Judge;
    if schema.Maybe? && tree != Atom(schema.absent) {
      DirectConcealed(schema.inner, tree, tokens, granted);
    }
  }

  lemma {:induction false} ConcealedIrrelevant(schema: Schema, a: Tree, b: Tree, tokens: seq<string>,
      granted: Option<seq<string>>)
    requires Matches(schema, a) && Matches(schema, b) && SameVisible(schema, a, b, granted)
    ensures Direct(schema, a, tokens, granted) == Direct(schema, b, tokens, granted)
    decreases schema, 1, 0
  {
    hide Encode, Judge, Concealed, DirectFields, DirectItems;
    var p, q := Governing(schema, a).policy, Governing(schema, b).policy;
    ShownUnlessConcealed(p, granted);
    ShownUnlessConcealed(q, granted);
    if Concealed(p, granted) || Concealed(q, granted) {
      DirectConcealed(schema, a, tokens, granted);
      DirectConcealed(schema, b, tokens, granted);
    } else {
      match schema
      case Maybe(absent, inner, _) =>
        if a != Atom(absent) { ConcealedIrrelevant(inner, a, b, tokens, granted); }
      case ObjectSchema(_, _) => ConcealedFields(schema, a, b, tokens, granted, 0);
      case ArraySchema(_, _) => ConcealedItems(schema, a, b, tokens, granted, 0);
      case _ =>
    }
  }

  lemma {:induction false} ConcealedFields(schema: Schema, a: Tree, b: Tree, tokens: seq<string>,
      granted: Option<seq<string>>, i: nat)
    requires schema.ObjectSchema? && Matches(schema, a) && Matches(schema, b) && SameVisible(schema, a, b, granted)
    requires !Concealed(schema.policy, granted) && i <= |schema.shape|
    ensures DirectFields(schema, a, tokens, granted, i) == DirectFields(schema, b, tokens, granted, i)
    decreases schema, 0, |schema.shape| - i
  {
    hide Judge, Concealed, Direct;
    if i < |schema.shape| {
      var slot := schema.shape[i];
      ConcealedIrrelevant(slot.schema, a.fields[i].tree, b.fields[i].tree, tokens + [slot.key], granted);
      ConcealedFields(schema, a, b, tokens, granted, i + 1);
    }
  }

  /** Items that are all dropped leave nothing. */
  lemma {:induction false} DroppedItems(schema: Schema, tree: Tree, tokens: seq<string>, granted: Option<seq<string>>,
      i: nat)
    requires schema.ArraySchema? && Matches(schema, tree) && i <= |tree.items|
    requires forall j :: i <= j < |tree.items| ==> Dropped(schema.item, tree.items[j], granted)
    ensures DirectItems(schema, tree, tokens, granted, i) == Success([])
    decreases |tree.items| - i
  {
    hide Judge, Direct, Decimal, Governing;
    if i < |tree.items| {
      DirectConcealed(schema.item, tree.items[i], tokens + [Decimal(i)], granted);
      DroppedItems(schema, tree, tokens, granted, i + 1);
      var none: seq<Tree> := [];
      assert none + none == none;
    }
  }

  lemma {:induction false} ConcealedItems(schema: Schema, a: Tree, b: Tree, tokens: seq<string>,
      granted: Option<seq<string>>, i: nat)
    requires schema.ArraySchema? && Matches(schema, a) && Matches(schema, b) && SameVisible(schema, a, b, granted)
    requires !Concealed(schema.policy, granted) && i <= |a.items| && i <= |b.items|
    ensures DirectItems(schema, a, tokens, granted, i) == DirectItems(schema, b, tokens, granted, i)
    decreases schema, 0, |a.items| - i
  {
    hide Judge, Concealed, Direct, Decimal, Dropped;
    if i == |a.items| || i == |b.items| {
      DroppedItems(schema, a, tokens, granted, i);
      DroppedItems(schema, b, tokens, granted, i);
    } else {
      ConcealedIrrelevant(schema.item, a.items[i], b.items[i], tokens + [Decimal(i)], granted);
      ConcealedItems(schema, a, b, tokens, granted, i + 1);
    }
  }

  /** Masked, hidden and dropped data cannot influence the printed text. */
  lemma NonInterference(env: Env, schema: Schema, x: Value, y: Value, granted: Option<seq<string>>,
      json: Tree -> string)
    requires GoodKeys(schema)
    requires Parse(env, schema, x, "/", 0, {}).Success? && Parse(env, schema, y, "/", 0, {}).Success?
    requires
      var a, b := Parse(env, schema, x, "/", 0, {}).value.data, Parse(env, schema, y, "/", 0, {}).value.data;
      Matches(schema, a) && Matches(schema, b) && SameVisible(schema, a, b, granted)
    ensures StringifySpec(env, schema, x, granted, json) == StringifySpec(env, schema, y, granted, json)
  {
    hide Parse, Direct, StringifySpec, SameVisible, Matches, GoodKeys;
    StringifyIsDirect(env, schema, x, granted, json);
    StringifyIsDirect(env, schema, y, granted, json);
    var a, b := Parse(env, schema, x, "/", 0, {}).value.data, Parse(env, schema, y, "/", 0, {}).value.data;
    ConcealedIrrelevant(schema, a, b, [], granted);
  }

  // ----- why the keys must be good -----

  const OPEN_POLICY := Policy(Unredacted, false, [], RaiseError)

  const HIDDEN_POLICY := Policy(Hide, true, [], RaiseError)

  const SECRET := Atom(Text("secret"))

  /** Open objects nested along the keys of `above`, the innermost with one hidden text field. */
  function Nested(above: seq<string>, key: string): Schema
    decreases |above|
  {
    if above == [] then ObjectSchema([Slot(key, TextSchema([], HIDDEN_POLICY))], OPEN_POLICY)
    else ObjectSchema([Slot(above[0], Nested(above[1..], key))], OPEN_POLICY)
  }

  function NestedValue(above: seq<string>, key: string, id: nat): Value
    decreases |above|
  {
    if above == [] then ObjectOf(id, [Prop(key, Plain(Text("secret")))])
    else ObjectOf(id, [Prop(above[0], NestedValue(above[1..], key, id + 1))])
  }

  /** Such data with these fields innermost. */
  function NestedData(above: seq<string>, fields: seq<Field>): Tree
    decreases |above|
  {
    if above == [] then Fields(fields) else Fields([Field(above[0], NestedData(above[1..], fields))])
  }

  predicate Allowed(keys: seq<string>) {
    forall i :: 0 <= i < |keys| ==> keys[i] !in FORBIDDEN_KEYS
  }

  lemma OneKeyKept(key: string, inner: Schema, root: bool, empty: bool)
    ensures KeysKept(ObjectSchema([Slot(key, inner)], OPEN_POLICY), root) <==>
      GoodToken(key, root) && KeysKept(inner, false)
    ensures ArraysReachable(ObjectSchema([Slot(key, inner)], OPEN_POLICY), empty) <==>
      ArraysReachable(inner, empty || key == "")
  {
    hide GoodToken;
    assert [Slot(key, inner)][0].schema == inner;
  }

  /** Under good keys the last one decides. */
  lemma {:induction false} NestedKept(above: seq<string>, key: string, root: bool, empty: bool)
    requires forall i :: 0 <= i < |above| ==> GoodToken(above[i], root && i == 0)
    ensures KeysKept(Nested(above, key), root) <==> GoodToken(key, root && above == [])
    ensures ArraysReachable(Nested(above, key), empty)
    decreases |above|
  {
    hide KeysKept, ArraysReachable, EndsInSpace;
    if above == [] {
      TextKept(empty || key == "");
      OneKeyKept(key, TextSchema([], HIDDEN_POLICY), root, empty);
    } else {
      OneKeyKept(above[0], Nested(above[1..], key), root, empty);
      NestedKept(above[1..], key, false, empty || above[0] == "");
    }
  }

  lemma TextKept(empty: bool)
    ensures KeysKept(TextSchema([], HIDDEN_POLICY), false) && ArraysReachable(TextSchema([], HIDDEN_POLICY), empty)
  {
  }

  /** One step of acceptance and projection for an object with one key. */
  lemma OneKeyAccepted(env: Env, key: string, inner: Schema, id: nat, value: Value, depth: nat, seen: set<nat>)
    requires depth < env.maxDepth && id !in seen && key !in FORBIDDEN_KEYS
    requires Accepted(env, inner, value, depth + 1, seen + {id})
    ensures Accepted(env, ObjectSchema([Slot(key, inner)], OPEN_POLICY), ObjectOf(id, [Prop(key, value)]), depth, seen)
    ensures Project(ObjectSchema([Slot(key, inner)], OPEN_POLICY), ObjectOf(id, [Prop(key, value)])) ==
      Fields([Field(key, Project(inner, value))])
  {
    assert PropertyOf([Prop(key, value)], key) == value;
  }

  lemma {:induction false} NestedAccepted(env: Env, above: seq<string>, key: string, id: nat, depth: nat,
      seen: set<nat>)
    requires depth + |above| < env.maxDepth && Allowed(above + [key]) && forall i :: i in seen ==> i < id
    ensures Accepted(env, Nested(above, key), NestedValue(above, key, id), depth, seen)
    ensures Project(Nested(above, key), NestedValue(above, key, id)) == NestedData(above, [Field(key, SECRET)])
    decreases |above|
  {
    hide Accepted, Project;
    assert (above + [key])[|above|] == key;
    if above == [] {
      TextAccepted(env, depth + 1, seen + {id});
      OneKeyAccepted(env, key, TextSchema([], HIDDEN_POLICY), id, Plain(Text("secret")), depth, seen);
    } else {
      assert above + [key] == [above[0]] + (above[1..] + [key]);
      assert forall i :: 0 <= i < |above[1..] + [key]| ==> (above[1..] + [key])[i] == (above + [key])[i + 1];
      assert above[0] == (above + [key])[0];
      NestedAccepted(env, above[1..], key, id + 1, depth + 1, seen + {id});
      OneKeyAccepted(env, above[0], Nested(above[1..], key), id, NestedValue(above[1..], key, id + 1), depth, seen);
    }
  }

  lemma TextAccepted(env: Env, depth: nat, seen: set<nat>)
    ensures Accepted(env, TextSchema([], HIDDEN_POLICY), Plain(Text("secret")), depth, seen)
    ensures Project(TextSchema([], HIDDEN_POLICY), Plain(Text("secret"))) == SECRET
  {
  }

  lemma OneFieldDirect(key: string, inner: Schema, tree: Tree, shown: Tree, tokens: seq<string>,
      granted: Option<seq<string>>)
    requires Matches(inner, tree) && key !in FORBIDDEN_KEYS
    requires Direct(inner, tree, tokens + [key], granted) == Success(Some(shown))
    ensures var schema := ObjectSchema([Slot(key, inner)], OPEN_POLICY);
      && Matches(schema, Fields([Field(key, tree)]))
      && Direct(schema, Fields([Field(key, tree)]), tokens, granted) == Success(Some(Fields([Field(key, shown)])))
  {
    var schema, data := ObjectSchema([Slot(key, inner)], OPEN_POLICY), Fields([Field(key, tree)]);
    assert Matches(schema, data);
    var none: seq<Field> := [];
    assert DirectFields(schema, data, tokens, granted, 1) == Success(none);
    assert [Field(key, shown)] + none == [Field(key, shown)];
  }

  lemma NoFieldDirect(key: string, tokens: seq<string>, granted: Option<seq<string>>)
    requires key !in FORBIDDEN_KEYS
    ensures Matches(Nested([], key), NestedData([], [Field(key, SECRET)]))
    ensures Direct(Nested([], key), NestedData([], [Field(key, SECRET)]), tokens, granted) == Success(Some(Fields([])))
  {
    var schema, data := Nested([], key), NestedData([], [Field(key, SECRET)]);
    assert Matches(schema, data);
    assert Direct(schema.shape[0].schema, data.fields[0].tree, tokens + [key], granted) == Success(None);
    var none: seq<Field> := [];
    assert DirectFields(schema, data, tokens, granted, 1) == Success(none);
    assert none + none == none;
  }

  lemma {:induction false} NestedDirect(above: seq<string>, key: string, tokens: seq<string>,
      granted: Option<seq<string>>)
    requires Allowed(above + [key])
    ensures Matches(Nested(above, key), NestedData(above, [Field(key, SECRET)]))
    ensures Direct(Nested(above, key), NestedData(above, [Field(key, SECRET)]), tokens, granted) ==
      Success(Some(NestedData(above, [])))
    decreases |above|
  {
    hide Direct, Matches;
    assert (above + [key])[|above|] == key;
    if above == [] {
      NoFieldDirect(key, tokens, granted);
    } else {
      assert forall i :: 0 <= i < |above[1..] + [key]| ==> (above[1..] + [key])[i] == (above + [key])[i + 1];
      assert above[0] == (above + [key])[0];
      NestedDirect(above[1..], key, tokens + [above[0]], granted);
      OneFieldDirect(above[0], Nested(above[1..], key), NestedData(above[1..], [Field(key, SECRET)]),
                     NestedData(above[1..], []), tokens, granted);
    }
  }

  /** The only policy in the map that hides anything is that of the field, wherever it was filed. */
  predicate OnlyHides(policies: map<string, Policy>, pointer: string) {
    && pointer in policies && policies[pointer] == HIDDEN_POLICY
    && forall p :: p in policies && p != pointer ==> policies[p] == OPEN_POLICY
  }

  /** One step of parsing an open object with one key. */
  lemma OneKeyParse(env: Env, key: string, inner: Schema, id: nat, value: Value, tokens: seq<string>, depth: nat,
      seen: set<nat>)
    requires GoodTokens(tokens)
    requires Parse(env, ObjectSchema([Slot(key, inner)], OPEN_POLICY), ObjectOf(id, [Prop(key, value)]), Encode(tokens),
                   depth, seen).Success?
    ensures var child := Parse(env, inner, value, Encode(tokens + [key]), depth + 1, seen + {id});
      && child.Success?
      && Parse(env, ObjectSchema([Slot(key, inner)], OPEN_POLICY), ObjectOf(id, [Prop(key, value)]), Encode(tokens),
               depth, seen).value.policies == map[Encode(tokens) := OPEN_POLICY] + child.value.policies
  {
    hide Encode, Parse;
    var schema, props := ObjectSchema([Slot(key, inner)], OPEN_POLICY), [Prop(key, value)];
    ObjectParse(env, schema, ObjectOf(id, props), tokens, depth, seen);
    assert PropertyOf(props, key) == value;
    var start := Parsed(Fields([]), map[Encode(tokens) := OPEN_POLICY]);
    var child := Parse(env, inner, value, Encode(tokens + [key]), depth + 1, seen + {id});
    assert ParseFields(env, schema, props, tokens, 0, depth + 1, seen + {id}, start).Success? ==> child.Success?;
    if child.Success? {
      var end := Parsed(Fields(start.data.fields + [Field(key, child.value.data)]),
        start.policies + child.value.policies);
      assert ParseFields(env, schema, props, tokens, 1, depth + 1, seen + {id}, end) == Success(end);
    }
  }

  lemma {:induction false} NestedHides(env: Env, above: seq<string>, key: string, id: nat, tokens: seq<string>,
      depth: nat, seen: set<nat>)
    requires GoodTokens(tokens + above)
    requires Parse(env, Nested(above, key), NestedValue(above, key, id), Encode(tokens), depth, seen).Success?
    ensures var r := Parse(env, Nested(above, key), NestedValue(above, key, id), Encode(tokens), depth, seen).value;
      OnlyHides(r.policies, Normalize(Some(Encode(tokens + above + [key])), env.loose))
    decreases |above|
  {
    hide Encode, Parse, Normalize, EndsInSpace;
    assert GoodTokens(tokens) by { assert forall i :: 0 <= i < |tokens| ==> (tokens + above)[i] == tokens[i]; }
    if above == [] {
      assert tokens + above == tokens;
      OneKeyParse(env, key, TextSchema([], HIDDEN_POLICY), id, Plain(Text("secret")), tokens, depth, seen);
      TextParse(env, Encode(tokens + [key]), depth + 1, seen + {id});
    } else {
      assert tokens + [above[0]] + above[1..] == tokens + above;
      OneKeyParse(env, above[0], Nested(above[1..], key), id, NestedValue(above[1..], key, id + 1), tokens, depth,
        seen);
      NestedHides(env, above[1..], key, id + 1, tokens + [above[0]], depth + 1, seen + {id});
    }
  }

  lemma TextParse(env: Env, path: string, depth: nat, seen: set<nat>)
    ensures Parse(env, TextSchema([], HIDDEN_POLICY), Plain(Text("secret")), path, depth, seen) ==
      Success(Parsed(SECRET, map[Normalize(Some(path), env.loose) := HIDDEN_POLICY]))
  {
    hide Normalize;
  }

  /** An object with one field renders to the object of the field's result, if its own policy shows it. */
  lemma OneFieldRendered(key: string, tree: Tree, path: string, policies: map<string, Policy>,
      granted: Option<seq<string>>)
    requires Judge(Lookup(policies, path), granted) == Show && key !in FORBIDDEN_KEYS
    ensures var child := Render(tree, KeyPath(path, key), policies, granted);
      Render(Fields([Field(key, tree)]), path, policies, granted) ==
        if child.Failure? then child
        else Success(Some(Fields(if child.value.Some? then [Field(key, child.value.value)] else [])))
  {
    hide KeyPath, Judge;
    var data := Fields([Field(key, tree)]);
    var child := Render(tree, KeyPath(path, key), policies, granted);
    if child.Success? {
      var more := if child.value.Some? then [Field(key, child.value.value)] else [];
      assert [] + more == more;
      assert RenderFields(data, path, policies, granted, 1, more) == Success(Some(Fields(more)));
    }
  }

  lemma OpenShows(policies: map<string, Policy>, pointer: string, path: string, granted: Option<seq<string>>)
    requires OnlyHides(policies, pointer)
    ensures Judge(Lookup(policies, path), granted) == if path == pointer then Omit else Show
  {
  }

  /** Filed under another pointer, the policy hides too much or nothing, never just the field. */
  lemma {:induction false} NestedRendered(above: seq<string>, key: string, tokens: seq<string>,
      policies: map<string, Policy>, pointer: string, granted: Option<seq<string>>)
    requires Allowed(above + [key]) && GoodTokens(tokens + above) && OnlyHides(policies, pointer)
    requires pointer != Encode(tokens + above + [key])
    ensures var data := NestedData(above, [Field(key, SECRET)]);
      var r := Render(data, Encode(tokens), policies, granted);
      && r != Success(Some(NestedData(above, [])))
      && ((forall j :: 0 <= j <= |above| ==> pointer != Encode(tokens + above[..j])) ==> r == Success(Some(data)))
    decreases |above|
  {
    hide Encode, KeyPath, Render, EndsInSpace, OnlyHides, Judge;
    assert (above + [key])[|above|] == key;
    assert GoodTokens(tokens) by { assert forall i :: 0 <= i < |tokens| ==> (tokens + above)[i] == tokens[i]; }
    assert above[..0] == [] && tokens + [] == tokens;
    OpenShows(policies, pointer, Encode(tokens), granted);
    if pointer == Encode(tokens) {
      HiddenWhole(NestedData(above, [Field(key, SECRET)]), pointer, policies, granted);
    } else if above == [] {
      assert tokens + above == tokens;
      KeyPathEncodes(tokens, key);
      OpenShows(policies, pointer, Encode(tokens + [key]), granted);
      AtomShown(Encode(tokens + [key]), policies, granted);
      OneFieldRendered(key, SECRET, Encode(tokens), policies, granted);
    } else {
      assert tokens + [above[0]] + above[1..] == tokens + above && above[0] == (above + [key])[0];
      assert forall i :: 0 <= i < |above[1..] + [key]| ==> (above[1..] + [key])[i] == (above + [key])[i + 1];
      KeyPathEncodes(tokens, above[0]);
      NestedRendered(above[1..], key, tokens + [above[0]], policies, pointer, granted);
      OneFieldRendered(above[0], NestedData(above[1..], [Field(key, SECRET)]), Encode(tokens), policies, granted);
      assert forall j :: 0 <= j < |above| ==> tokens + [above[0]] + above[1..][..j] == tokens + above[..j + 1];
    }
  }

  lemma HiddenWhole(tree: Tree, path: string, policies: map<string, Policy>, granted: Option<seq<string>>)
    requires Judge(Lookup(policies, path), granted) == Omit
    ensures Render(tree, path, policies, granted) == Success(None)
  {
  }

  lemma AtomShown(path: string, policies: map<string, Policy>, granted: Option<seq<string>>)
    requires Judge(Lookup(policies, path), granted) == Show
    ensures Render(SECRET, path, policies, granted) == Success(Some(SECRET))
  {
  }

  lemma RootPointer()
    ensures Encode([]) == "/"
  {
  }

  /** The field's pointer is kept exactly by a key that does not end in white space, at the root not empty. */
  lemma PointerOfKey(above: seq<string>, key: string, loose: string -> seq<string>)
    requires GoodTokens(above)
    ensures var q := Normalize(Some(Encode(above + [key])), loose);
      if above == [] && key == "" then q == Encode([]) else q == Encode(above + [key]) <==> !EndsInSpace(key)
  {
    hide Encode, Decode, Normalize, EndsInSpace;
    var all := above + [key];
    assert all[|above|] == key;
    PositionKept(all, loose);
    DecodeEncode(all);
    if above == [] && key == "" {
      assert all == [""];
      EmptyRootKey(loose);
    } else {
      assert all != [""] by { assert above != [] ==> |all| > 1; }
      if !EndsInSpace(key) { NormalizeEncoded(all, loose); }
    }
  }

  lemma NoBlankEnd()
    ensures !EndsInSpace("")
  {
  }

  lemma EmptyRootKey(loose: string -> seq<string>)
    ensures Normalize(Some(Encode([""])), loose) == Encode([])
  {
    hide Encode, Normalize;
    EncodeInjective([""], []);
    NormalizeEncoded([], loose);
  }

  /**
    At whatever depth a key sits under good ones, its field's policy is rendered as the direct walk says exactly
    when the schema's keys are good, that is, when this one does not end in white space and is not the root's
    empty key. Filed under a pointer that is none on the way to it, the policy shows the field.
   */
  lemma GoodKeysNeeded(env: Env, above: seq<string>, key: string, granted: Option<seq<string>>)
    requires env.maxDepth > |above| && Allowed(above + [key]) && GoodTokens(above)
    ensures var schema := Nested(above, key); var r := Parse(env, schema, NestedValue(above, key, 0), "/", 0, {});
      var q := Normalize(Some(Encode(above + [key])), env.loose);
      && r.Success? && Matches(schema, r.value.data)
      && (GoodKeys(schema) <==>
            Render(r.value.data, "/", r.value.policies, granted) == Direct(schema, r.value.data, [], granted))
      && (GoodKeys(schema) <==> !EndsInSpace(key) && (above == [] ==> key != ""))
      && (EndsInSpace(key) && (forall j :: 0 <= j <= |above| ==> q != Encode(above[..j])) ==>
            Render(r.value.data, "/", r.value.policies, granted) == Success(Some(r.value.data)))
  {
    hide Encode, Normalize, Render, Direct, Parse, EndsInSpace, KeysKept, ArraysReachable, Allowed, Pointers;
    var schema, value := Nested(above, key), NestedValue(above, key, 0);
    NestedAccepted(env, above, key, 0, 0, {});
    ParseAccepts(env, schema, value, "/", 0, {});
    var r := Parse(env, schema, value, "/", 0, {}).value;
    NestedDirect(above, key, [], granted);
    NestedKept(above, key, true, false);
    assert [] + above == above && [] + above + [key] == above + [key];
    RootPointer();
    NestedHides(env, above, key, 0, [], 0, {});
    PointerOfKey(above, key, env.loose);
    var q := Normalize(Some(Encode(above + [key])), env.loose);
    if GoodKeys(schema) {
      OneEntryPerPosition(env, schema, value);
      RenderIsDirect(schema, r.data, [], r.policies, granted);
    } else if above == [] && key == "" {
      NoBlankEnd();
      OpenShows(r.policies, q, "/", granted);
      HiddenWhole(r.data, "/", r.policies, granted);
    } else {
      NestedRendered(above, key, [], r.policies, q, granted);
      assert forall j :: 0 <= j <= |above| ==> [] + above[..j] == above[..j];
    }
  }

  // ----- why no array may be below an empty key -----

  /** An object whose field holds, under the empty key, an array of hidden texts. */
  function HiddenList(key: string): Schema {
    ObjectSchema([Slot(key, UnderEmptyKey())], OPEN_POLICY)
  }

  function UnderEmptyKey(): Schema {
    ObjectSchema([Slot("", HiddenItems())], OPEN_POLICY)
  }

  function HiddenItems(): Schema {
    ArraySchema(TextSchema([], HIDDEN_POLICY), OPEN_POLICY)
  }

  function SecretItems(): Value {
    ObjectOf(1, [Prop("", ListOf(2, [Plain(Text("secret"))]))])
  }

  function ListData(key: string, items: seq<Tree>): Tree {
    Fields([Field(key, Fields([Field("", Items(items))]))])
  }

  lemma ListKeys(key: string)
    requires key != "" && !EndsInSpace(key)
    ensures KeysKept(HiddenList(key), true) && !ArraysReachable(HiddenList(key), false)
  {
    var inner := UnderEmptyKey();
    assert inner.shape[0].key == "" && HiddenList(key).shape[0].schema == inner;
    assert KeysKept(inner, false) && !ArraysReachable(inner, false);
  }

  lemma ParseList(env: Env, key: string)
    requires env.maxDepth >= 3 && key !in FORBIDDEN_KEYS
    ensures var r := Parse(env, HiddenList(key), ObjectOf(0, [Prop(key, SecretItems())]), "/", 0, {});
      r.Success? && r.value.data == ListData(key, [SECRET])
  {
    hide Parse, Accepted, Project;
    var list := ListOf(2, [Plain(Text("secret"))]);
    ListAccepted(env, {} + {0} + {1});
    OneKeyAccepted(env, "", HiddenItems(), 1, list, 1, {} + {0});
    OneKeyAccepted(env, key, UnderEmptyKey(), 0, SecretItems(), 0, {});
    ParseAccepts(env, HiddenList(key), ObjectOf(0, [Prop(key, SecretItems())]), "/", 0, {});
  }

  lemma ListAccepted(env: Env, seen: set<nat>)
    requires env.maxDepth >= 3 && 2 !in seen
    ensures Accepted(env, HiddenItems(), ListOf(2, [Plain(Text("secret"))]), 2, seen)
    ensures Project(HiddenItems(), ListOf(2, [Plain(Text("secret"))])) == Items([SECRET])
  {
  }

  lemma SecretRendered(path: string, policies: map<string, Policy>, granted: Option<seq<string>>)
    requires path in policies && policies[path] == OPEN_POLICY && IndexPath(path, 0) !in policies
    ensures Render(Items([SECRET]), path, policies, granted) == Success(Some(Items([SECRET])))
  {
    hide IndexPath;
    var data := Items([SECRET]);
    assert Render(data.items[0], IndexPath(path, 0), policies, granted) == Success(Some(SECRET));
    assert [] + [SECRET] == [SECRET];
    assert RenderItems(data, path, policies, granted, 1, [SECRET]) == Success(Some(data));
  }

  lemma SecretDirect(tokens: seq<string>, granted: Option<seq<string>>)
    ensures Matches(HiddenItems(), Items([SECRET]))
    ensures Direct(HiddenItems(), Items([SECRET]), tokens, granted) == Success(Some(Items([])))
  {
    var schema, data := HiddenItems(), Items([SECRET]);
    assert Direct(schema.item, data.items[0], tokens + [Decimal(0)], granted) == Success(None);
    var none: seq<Tree> := [];
    assert DirectItems(schema, data, tokens, granted, 1) == Success(none);
    assert none + none == none;
  }

  lemma {:induction false} CollapseAfter(s: string, rest: string)
    requires NoDoubleSlash(s) && s != "" && s[|s| - 1] != '/'
    ensures ReplacePair(s + rest, '/', '/', '/') == s + ReplacePair(rest, '/', '/', '/')
    decreases |s|
  {
    assert (s + rest)[0] == s[0] && (s + rest)[1..] == s[1..] + rest;
    if |s| == 1 {
      assert s[1..] + rest == rest;
    } else {
      assert NoDoubleSlash(s[1..]);
      CollapseAfter(s[1..], rest);
      assert !(s[0] == '/' && s[1] == '/') && (s + rest)[1] == s[1];
      var more := ReplacePair(rest, '/', '/', '/');
      assert [s[0]] + (s[1..] + more) == s + more;
    }
  }

  /** The path rendering builds for the item is that of a field "0" beside the empty key. */
  lemma CollapsedPath(key: string)
    requires key != ""
    ensures IndexPath(Encode([key, ""]), 0) == Encode([key, "0"])
  {
    hide Escape, Join;
    var k := Escape(key);
    EscapeEmpty(key);
    EscapeEmpty("");
    Unescaped("0");
    EscapedSlashFree([key]);
    assert EscapeAll([key]) == [k] && EscapeAll([key, ""]) == [k, ""] && EscapeAll([key, "0"]) == [k, "0"];
    JoinNoDouble([k]);
    JoinAppend([], k);
    assert [] + [k] == [k];
    JoinAppend([k], "");
    JoinAppend([k], "0");
    assert [k] + [""] == [k, ""] && [k] + ["0"] == [k, "0"];
    assert "/" + (k + "/" + "") == "/" + k + "/" && "/" + (k + "/" + "0") == "/" + k + "/0";
    assert "/" + k + "/" + "/" + Decimal(0) == "/" + k + "//0";
    CollapseAfter("/" + k, "//0");
    assert ReplacePair("//0", '/', '/', '/') == "/0";
  }

  /** The only pointers of the data are those of its four positions. */
  lemma ListPointers(key: string)
    ensures Pointers(ListData(key, [SECRET]), []) ==
      {Encode([]), Encode([key]), Encode([key, ""]), Encode([key, "", "0"])}
  {
    hide Encode;
    assert [] + [key] == [key] && [key] + [""] == [key, ""] && [key, ""] + ["0"] == [key, "", "0"];
    assert Kids(SECRET) == [];
    var items := Items([SECRET]);
    assert Kids(items) == [Kid("0", SECRET)];
    OneKid(SECRET, "0", items, [key, ""]);
    PointersOf(SECRET, [key, "", "0"]);
    NoKids(SECRET, [key, "", "0"]);
    var inner := Fields([Field("", items)]);
    assert Kids(inner) == [Kid("", items)];
    OneKid(items, "", inner, [key]);
    OneKid(inner, key, ListData(key, [SECRET]), []);
  }

  lemma OneKid(tree: Tree, token: string, parent: Tree, tokens: seq<string>)
    requires Kids(parent) == [Kid(token, tree)]
    ensures Pointers(parent, tokens) == {Encode(tokens)} + Pointers(tree, tokens + [token])
  {
    hide Encode, Pointers, KidPointers;
    PointersOf(parent, tokens);
    OneMoreKid(parent, tokens, 0);
    NoKids(parent, tokens);
  }

  /**
    An array below an empty key: every key is kept by the map, but rendering looks for the items' policies under
    other pointers, and shows the items that the direct walk hides.
   */
  lemma EmptyKeyAboveArray(env: Env, key: string, granted: Option<seq<string>>)
    requires env.maxDepth >= 3 && key !in FORBIDDEN_KEYS && key != "" && !EndsInSpace(key)
    ensures KeysKept(HiddenList(key), true) && !GoodKeys(HiddenList(key))
    ensures var r := Parse(env, HiddenList(key), ObjectOf(0, [Prop(key, SecretItems())]), "/", 0, {});
      && r.Success? && Matches(HiddenList(key), r.value.data)
      && Direct(HiddenList(key), r.value.data, [], granted) == Success(Some(ListData(key, [])))
      && Render(r.value.data, "/", r.value.policies, granted) == Success(Some(r.value.data))
      && r.value.data == ListData(key, [SECRET])
  {
    hide Parse, Direct, Render, Encode, KeyPath, IndexPath, Pointers, EndsInSpace, KeysKept, ArraysReachable;
    ListKeys(key);
    ParseList(env, key);
    OneEntryPerPosition(env, HiddenList(key), ObjectOf(0, [Prop(key, SecretItems())]));
    var policies := Parse(env, HiddenList(key), ObjectOf(0, [Prop(key, SecretItems())]), "/", 0, {}).value.policies;
    ListDirect(key, granted);
    ListPolicies(key, policies);
    ListRendered(key, policies, granted);
  }

  lemma ListDirect(key: string, granted: Option<seq<string>>)
    requires key !in FORBIDDEN_KEYS
    ensures Matches(HiddenList(key), ListData(key, [SECRET]))
    ensures Direct(HiddenList(key), ListData(key, [SECRET]), [], granted) == Success(Some(ListData(key, [])))
  {
    hide Direct, Matches;
    SecretDirect([] + [key] + [""], granted);
    OneFieldDirect("", HiddenItems(), Items([SECRET]), Items([]), [] + [key], granted);
    var inner, shown := Fields([Field("", Items([SECRET]))]), Fields([Field("", Items([]))]);
    OneFieldDirect(key, UnderEmptyKey(), inner, shown, [], granted);
  }

  lemma ListPolicies(key: string, policies: map<string, Policy>)
    requires Matches(HiddenList(key), ListData(key, [SECRET]))
    requires Agrees(policies, HiddenList(key), ListData(key, [SECRET]), [])
    ensures Has(policies, [], OPEN_POLICY) && Has(policies, [key], OPEN_POLICY) && Has(policies, [key, ""], OPEN_POLICY)
  {
    hide Encode;
    var inner := Fields([Field("", Items([SECRET]))]);
    assert [] + [key] == [key] && [key] + [""] == [key, ""];
    assert HiddenList(key).shape[0] == Slot(key, UnderEmptyKey());
    assert Agrees(policies, UnderEmptyKey(), inner, [key]);
    assert UnderEmptyKey().shape[0] == Slot("", HiddenItems());
    assert Agrees(policies, HiddenItems(), Items([SECRET]), [key, ""]);
  }

  lemma ListRendered(key: string, policies: map<string, Policy>, granted: Option<seq<string>>)
    requires key !in FORBIDDEN_KEYS && key != "" && !EndsInSpace(key)
    requires Has(policies, [], OPEN_POLICY) && Has(policies, [key], OPEN_POLICY)
      && Has(policies, [key, ""], OPEN_POLICY)
    requires policies.Keys == Pointers(ListData(key, [SECRET]), [])
    ensures Render(ListData(key, [SECRET]), "/", policies, granted) == Success(Some(ListData(key, [SECRET])))
  {
    hide Render, Encode, KeyPath, IndexPath, Pointers, EndsInSpace;
    RootPointer();
    ListPointers(key);
    CollapsedPath(key);
    NotAmong(key);
    var data := Fields([Field("", Items([SECRET]))]);
    KeyPathEncodes([], key);
    KeyPathEncodes([key], "");
    assert [] + [key] == [key] && [key] + [""] == [key, ""];
    SecretRendered(Encode([key, ""]), policies, granted);
    OneFieldRendered("", Items([SECRET]), Encode([key]), policies, granted);
    OneFieldRendered(key, data, "/", policies, granted);
  }

  lemma NotAmong(key: string)
    requires key != ""
    ensures Encode([key, "0"]) !in {Encode([]), Encode([key]), Encode([key, ""]), Encode([key, "", "0"])}
  {
    hide Encode;
    EncodeInjective([key, "0"], []);
    EncodeInjective([key, "0"], [key]);
    assert [key, "0"][1] != [key, ""][1];
    EncodeInjective([key, "0"], [key, ""]);
    EncodeInjective([key, "0"], [key, "", "0"]);
  }
}
