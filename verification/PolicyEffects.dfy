/**
  What the policies of a schema do to a field at any depth, said of the policy's own fields and the scopes
  granted: who is refused, what is left out, what is masked, and where everything else is found.
 */
module PolicyEffects {
  import opened Wrappers
  import opened JsonPointer
  import opened PolicyParse
  import opened PolicyMap
  import opened PolicyRender

  // ----- what one policy says -----

  /** A scope is asked for and none that opens the field is granted. */
  predicate Denied(p: Policy, granted: Option<seq<string>>) {
    p.scope != [] && forall scope :: scope in p.scope ==> granted.None? || scope !in granted.value
  }

  predicate Refused(p: Policy, granted: Option<seq<string>>) {
    Denied(p, granted) && p.onDenied == RaiseError
  }

  predicate LeftOut(p: Policy, granted: Option<seq<string>>) {
    if Denied(p, granted) then p.onDenied == DropField else p.pii && p.redact == Hide
  }

  predicate Masked(p: Policy, granted: Option<seq<string>>) {
    !Denied(p, granted) && p.pii && p.redact == Mask
  }

  predicate Visible(p: Policy, granted: Option<seq<string>>) {
    !Denied(p, granted) && (p.pii ==> p.redact == Unredacted)
  }

  lemma JudgeSays(p: Policy, granted: Option<seq<string>>)
    ensures Refused(p, granted) <==> Judge(Some(p), granted) == Refuse
    ensures LeftOut(p, granted) <==> Judge(Some(p), granted) == Omit
    ensures Masked(p, granted) <==> Judge(Some(p), granted) == Cover
    ensures Visible(p, granted) <==> Judge(Some(p), granted) == Show
  {
    if p.scope != [] && granted.Some? && !HasAccess(p.scope, granted) {
      assert forall scope :: scope in p.scope ==> scope !in granted.value;
    }
  }

  /** One position: refused, left out, masked or, if it holds no others, shown as it is. */
  lemma PositionRendered(schema: Schema, tree: Tree, tokens: seq<string>, granted: Option<seq<string>>)
    requires Matches(schema, tree)
    ensures var p, r := Governing(schema, tree).policy, Direct(schema, tree, tokens, granted);
      && (Refused(p, granted) ==> r == Failure(ForbiddenScope(Encode(tokens))))
      && (LeftOut(p, granted) <==> r == Success(None))
      && (Masked(p, granted) ==> r == Success(Some(Atom(Text("[REDACTED]")))))
      && (Visible(p, granted) && tree.Atom? ==> r == Success(Some(tree)))
  {
    hide Encode, Judge, DirectFields, DirectItems, Refused, LeftOut, Masked, Visible;
    JudgeSays(Governing(schema, tree).policy, granted);
    Governed(schema, tree, tokens, granted);
  }

  lemma {:induction false} Governed(schema: Schema, tree: Tree, tokens: seq<string>, granted: Option<seq<string>>)
    requires Matches(schema, tree)
    ensures var g := Governing(schema, tree);
      && Direct(schema, tree, tokens, granted) == Direct(g, tree, tokens, granted)
      && Governing(g, tree) == g && (g.Maybe? ==> tree == Atom(g.absent))
    decreases schema
  {
    hide Judge, DirectFields, DirectItems, Encode;
    if schema.Maybe? && tree != Atom(schema.absent) {
      Governed(schema.inner, tree, tokens, granted);
    }
  }

  // ----- positions -----

  /** The schema that applies to a value says what its children are: the shape's fields, or the items. */
  predicate HasChild(schema: Schema, tree: Tree, i: nat)
    requires Matches(schema, tree)
  {
    var g := Governing(schema, tree);
    (g.ObjectSchema? && i < |g.shape|) || (g.ArraySchema? && i < |tree.items|)
  }

  function ChildSchema(schema: Schema, tree: Tree, i: nat): Schema
    requires Matches(schema, tree) && HasChild(schema, tree, i)
  {
    var g := Governing(schema, tree);
    if g.ObjectSchema? then g.shape[i].schema else g.item
  }

  function ChildTree(schema: Schema, tree: Tree, i: nat): (r: Tree)
    requires Matches(schema, tree) && HasChild(schema, tree, i)
    ensures Matches(ChildSchema(schema, tree, i), r) && r < tree
  {
    if Governing(schema, tree).ObjectSchema? then tree.fields[i].tree else tree.items[i]
  }

  function ChildToken(schema: Schema, tree: Tree, i: nat): string
    requires Matches(schema, tree) && HasChild(schema, tree, i)
  {
    var g := Governing(schema, tree);
    if g.ObjectSchema? then g.shape[i].key else Decimal(i)
  }

  /** The path leads, child by child, to a value. */
  predicate Position(schema: Schema, tree: Tree, path: seq<nat>)
    requires Matches(schema, tree)
    decreases |path|
  {
    path == [] ||
    (HasChild(schema, tree, path[0]) &&
     Position(ChildSchema(schema, tree, path[0]), ChildTree(schema, tree, path[0]), path[1..]))
  }

  function TreeAt(schema: Schema, tree: Tree, path: seq<nat>): Tree
    requires Matches(schema, tree) && Position(schema, tree, path)
    decreases |path|
  {
    if path == [] then tree
    else TreeAt(ChildSchema(schema, tree, path[0]), ChildTree(schema, tree, path[0]), path[1..])
  }

  /** The schema that applies to the value there. */
  function SchemaAt(schema: Schema, tree: Tree, path: seq<nat>): (r: Schema)
    requires Matches(schema, tree) && Position(schema, tree, path)
    ensures Matches(r, TreeAt(schema, tree, path))
    decreases |path|
  {
    if path == [] then Governing(schema, tree)
    else SchemaAt(ChildSchema(schema, tree, path[0]), ChildTree(schema, tree, path[0]), path[1..])
  }

  /** The keys and indexes on the way. */
  function TokensAt(schema: Schema, tree: Tree, path: seq<nat>): seq<string>
    requires Matches(schema, tree) && Position(schema, tree, path)
    decreases |path|
  {
    if path == [] then []
    else
      var i := path[0];
      [ChildToken(schema, tree, i)] + TokensAt(ChildSchema(schema, tree, i), ChildTree(schema, tree, i), path[1..])
  }

  /** Everything above the position is visible. */
  predicate Open(schema: Schema, tree: Tree, path: seq<nat>, granted: Option<seq<string>>)
    requires Matches(schema, tree) && Position(schema, tree, path)
    decreases |path|
  {
    path == [] ||
    (Visible(Governing(schema, tree).policy, granted) &&
     Open(ChildSchema(schema, tree, path[0]), ChildTree(schema, tree, path[0]), path[1..], granted))
  }

  // ----- one level -----

  function Child(schema: Schema, tree: Tree, tokens: seq<string>, granted: Option<seq<string>>, i: nat)
    : Result<Option<Tree>, Error>
    requires Matches(schema, tree) && HasChild(schema, tree, i)
  {
    Direct(ChildSchema(schema, tree, i), ChildTree(schema, tree, i), tokens + [ChildToken(schema, tree, i)], granted)
  }

  /** The first field of this name. */
  function FieldNamed(fields: seq<Field>, key: string): Option<Tree>
    decreases |fields|
  {
    if fields == [] then None
    else if fields[0].key == key then Some(fields[0].tree)
    else FieldNamed(fields[1..], key)
  }

  function KeysOf(fields: seq<Field>): seq<string>
    decreases |fields|
  {
    if fields == [] then [] else [fields[0].key] + KeysOf(fields[1..])
  }

  /** The child is not left out. */
  predicate Present(schema: Schema, tree: Tree, i: nat, granted: Option<seq<string>>)
    requires Matches(schema, tree) && HasChild(schema, tree, i)
  {
    !LeftOut(Governing(ChildSchema(schema, tree, i), ChildTree(schema, tree, i)).policy, granted)
  }

  /** The keys from shape entry i on that are not left out. */
  function PresentKeys(schema: Schema, tree: Tree, i: nat, granted: Option<seq<string>>): seq<string>
    requires schema.ObjectSchema? && Matches(schema, tree) && i <= |schema.shape|
    decreases |schema.shape| - i
  {
    if i == |schema.shape| then []
    else
      var rest := PresentKeys(schema, tree, i + 1, granted);
      if Present(schema, tree, i, granted) then [schema.shape[i].key] + rest else rest
  }

  /** How many of the items from i up to j are not left out. */
  function PresentItems(schema: Schema, tree: Tree, i: nat, j: nat, granted: Option<seq<string>>): nat
    requires schema.ArraySchema? && Matches(schema, tree) && i <= j <= |tree.items|
    decreases j - i
  {
    if i == j then 0
    else (if Present(schema, tree, i, granted) then 1 else 0) + PresentItems(schema, tree, i + 1, j, granted)
  }

  lemma ChildPresent(schema: Schema, tree: Tree, tokens: seq<string>, granted: Option<seq<string>>, i: nat)
    requires Matches(schema, tree) && HasChild(schema, tree, i) && Child(schema, tree, tokens, granted, i).Success?
    ensures Child(schema, tree, tokens, granted, i).value.Some? <==> Present(schema, tree, i, granted)
  {
    hide Direct, LeftOut, Refused, Masked, Visible, Encode;
    PositionRendered(ChildSchema(schema, tree, i), ChildTree(schema, tree, i),
                     tokens + [ChildToken(schema, tree, i)], granted);
  }

  lemma NoFieldsLeft(schema: Schema, tree: Tree, tokens: seq<string>, granted: Option<seq<string>>)
    requires schema.ObjectSchema? && Matches(schema, tree)
    ensures DirectFields(schema, tree, tokens, granted, |schema.shape|) == Success([])
  {
  }

  /** The fields from shape entry i on are the i-th, unless left out, and those after it. */
  lemma FieldsStep(schema: Schema, tree: Tree, tokens: seq<string>, granted: Option<seq<string>>, i: nat)
    requires schema.ObjectSchema? && Matches(schema, tree) && i < |schema.shape|
    requires DirectFields(schema, tree, tokens, granted, i).Success?
    ensures var child, rest := Child(schema, tree, tokens, granted, i),
                               DirectFields(schema, tree, tokens, granted, i + 1);
      var fields := DirectFields(schema, tree, tokens, granted, i).value;
      && child.Success? && rest.Success?
      && (child.value.None? ==> fields == rest.value)
      && (child.value.Some? ==>
            fields != [] && fields[0] == Field(schema.shape[i].key, child.value.value) && fields[1..] == rest.value)
  {
    hide Direct;
  }

  lemma {:induction false} NoSuchField(schema: Schema, tree: Tree, tokens: seq<string>, granted: Option<seq<string>>,
      i: nat, key: string)
    requires schema.ObjectSchema? && Matches(schema, tree) && i <= |schema.shape|
    requires forall k :: i <= k < |schema.shape| ==> schema.shape[k].key != key
    requires DirectFields(schema, tree, tokens, granted, i).Success?
    ensures FieldNamed(DirectFields(schema, tree, tokens, granted, i).value, key) == None
    decreases |schema.shape| - i
  {
    hide Direct, DirectFields, Child;
    if i == |schema.shape| {
      NoFieldsLeft(schema, tree, tokens, granted);
    } else {
      FieldsStep(schema, tree, tokens, granted, i);
      NoSuchField(schema, tree, tokens, granted, i + 1, key);
    }
  }

  /** Of an object that renders every field does, and is found under its key; the keys present keep their order. */
  lemma {:induction false} FieldsRendered(schema: Schema, tree: Tree, tokens: seq<string>, granted: Option<seq<string>>,
      i: nat)
    requires schema.ObjectSchema? && Matches(schema, tree) && i <= |schema.shape|
    requires forall k, l :: 0 <= k < l < |schema.shape| ==> schema.shape[k].key != schema.shape[l].key
    requires DirectFields(schema, tree, tokens, granted, i).Success?
    ensures var fields := DirectFields(schema, tree, tokens, granted, i).value;
      && KeysOf(fields) == PresentKeys(schema, tree, i, granted)
      && forall k :: i <= k < |schema.shape| ==>
           && Child(schema, tree, tokens, granted, k).Success?
           && FieldNamed(fields, schema.shape[k].key) == Child(schema, tree, tokens, granted, k).value
    decreases |schema.shape| - i
  {
    hide Direct, DirectFields, Present, Child;
    if i == |schema.shape| {
      NoFieldsLeft(schema, tree, tokens, granted);
    } else {
      var key := schema.shape[i].key;
      FieldsStep(schema, tree, tokens, granted, i);
      FieldsRendered(schema, tree, tokens, granted, i + 1);
      NoSuchField(schema, tree, tokens, granted, i + 1, key);
      ChildPresent(schema, tree, tokens, granted, i);
    }
  }

  /** Of an array that renders every item does; those not left out come in their order. */
  lemma {:induction false} ItemsRendered(schema: Schema, tree: Tree, tokens: seq<string>, granted: Option<seq<string>>,
      i: nat, k: nat)
    requires schema.ArraySchema? && Matches(schema, tree) && i <= k < |tree.items|
    requires DirectItems(schema, tree, tokens, granted, i).Success?
    ensures var items := DirectItems(schema, tree, tokens, granted, i).value;
      var child := Child(schema, tree, tokens, granted, k);
      var n := PresentItems(schema, tree, i, k, granted);
      && child.Success?
      && (child.value.Some? ==> n < |items| && items[n] == child.value.value)
    decreases k - i
  {
    hide Direct, Present, Decimal;
    if i < k {
      ItemsRendered(schema, tree, tokens, granted, i + 1, k);
      ChildPresent(schema, tree, tokens, granted, i);
    }
  }

  lemma {:induction false} ItemsCounted(schema: Schema, tree: Tree, tokens: seq<string>, granted: Option<seq<string>>,
      i: nat)
    requires schema.ArraySchema? && Matches(schema, tree) && i <= |tree.items|
    requires DirectItems(schema, tree, tokens, granted, i).Success?
    ensures |DirectItems(schema, tree, tokens, granted, i).value| ==
      PresentItems(schema, tree, i, |tree.items|, granted)
    decreases |tree.items| - i
  {
    hide Direct, Present, Decimal;
    if i < |tree.items| {
      ItemsCounted(schema, tree, tokens, granted, i + 1);
      ChildPresent(schema, tree, tokens, granted, i);
    }
  }

  // ----- any depth -----

  /** Where a child stands in what its parent renders to: under its key, or at its place among the items present. */
  function OutputOf(schema: Schema, tree: Tree, i: nat, granted: Option<seq<string>>, out: Tree): Option<Tree>
    requires Matches(schema, tree) && HasChild(schema, tree, i)
  {
    var g := Governing(schema, tree);
    if g.ObjectSchema? then if out.Fields? then FieldNamed(out.fields, g.shape[i].key) else None
    else
      var n := PresentItems(g, tree, 0, i, granted);
      if out.Items? && Present(schema, tree, i, granted) && n < |out.items| then Some(out.items[n]) else None
  }

  /** What stands in the output for the value at a position. */
  function OutputAt(schema: Schema, tree: Tree, path: seq<nat>, granted: Option<seq<string>>, out: Option<Tree>)
    : Option<Tree>
    requires Matches(schema, tree) && Position(schema, tree, path)
    decreases |path|
  {
    if path == [] || out.None? then out
    else
      var i := path[0];
      OutputAt(ChildSchema(schema, tree, i), ChildTree(schema, tree, i), path[1..], granted,
               OutputOf(schema, tree, i, granted, out.value))
  }

  /** What a policy leaves in the place of its value: of objects and arrays what is not left out, and no more. */
  predicate Treated(schema: Schema, tree: Tree, granted: Option<seq<string>>, out: Option<Tree>)
    requires Matches(schema, tree)
  {
    var p := schema.policy;
    && !Refused(p, granted)
    && (LeftOut(p, granted) <==> out.None?)
    && (Masked(p, granted) ==> out == Some(Atom(Text("[REDACTED]"))))
    && (Visible(p, granted) && tree.Atom? ==> out == Some(tree))
    && (Visible(p, granted) && schema.ObjectSchema? ==>
          out.Some? && out.value.Fields? && KeysOf(out.value.fields) == PresentKeys(schema, tree, 0, granted))
    && (Visible(p, granted) && schema.ArraySchema? ==>
          out.Some? && out.value.Items?
          && |out.value.items| == PresentItems(schema, tree, 0, |tree.items|, granted))
  }

  /** The keys of the schema that applies are distinct too. */
  lemma {:induction false} GovernedKept(schema: Schema, tree: Tree, root: bool)
    requires Matches(schema, tree) && KeysKept(schema, root)
    ensures KeysKept(Governing(schema, tree), root)
    decreases schema
  {
    if schema.Maybe? && tree != Atom(schema.absent) {
      KeptInner(schema, root);
      GovernedKept(schema.inner, tree, root);
    }
  }

  lemma ChildKept(schema: Schema, tree: Tree, root: bool, i: nat)
    requires Matches(schema, tree) && KeysKept(schema, root) && HasChild(schema, tree, i)
    ensures KeysKept(ChildSchema(schema, tree, i), false)
    ensures var g := Governing(schema, tree);
      g.ObjectSchema? ==> forall k, l :: 0 <= k < l < |g.shape| ==> g.shape[k].key != g.shape[l].key
  {
    GovernedKept(schema, tree, root);
  }

  lemma WholeTreated(schema: Schema, tree: Tree, tokens: seq<string>, granted: Option<seq<string>>, root: bool)
    requires Matches(schema, tree) && KeysKept(schema, root) && Direct(schema, tree, tokens, granted).Success?
    ensures Treated(Governing(schema, tree), tree, granted, Direct(schema, tree, tokens, granted).value)
  {
    hide Encode, Judge, DirectFields, DirectItems, Refused, LeftOut, Masked, Visible, PresentKeys, PresentItems, KeysOf;
    var g := Governing(schema, tree);
    JudgeSays(g.policy, granted);
    PositionRendered(schema, tree, tokens, granted);
    Governed(schema, tree, tokens, granted);
    if Visible(g.policy, granted) {
      GovernedKept(schema, tree, root);
      if g.ObjectSchema? { FieldsRendered(g, tree, tokens, granted, 0); }
      if g.ArraySchema? { ItemsCounted(g, tree, tokens, granted, 0); }
    }
  }

  lemma ChildOutput(schema: Schema, tree: Tree, tokens: seq<string>, granted: Option<seq<string>>, root: bool, i: nat)
    requires Matches(schema, tree) && KeysKept(schema, root) && HasChild(schema, tree, i)
    requires Visible(Governing(schema, tree).policy, granted) && Direct(schema, tree, tokens, granted).Success?
    ensures var out, child := Direct(schema, tree, tokens, granted).value, Child(schema, tree, tokens, granted, i);
      out.Some? && child.Success? && OutputOf(schema, tree, i, granted, out.value) == child.value
  {
    hide KeysKept, Encode, Judge, DirectFields, DirectItems, LeftOut, Visible, Decimal;
    var g := Governing(schema, tree);
    JudgeSays(g.policy, granted);
    Governed(schema, tree, tokens, granted);
    ChildKept(schema, tree, root, i);
    if g.ObjectSchema? {
      FieldsRendered(g, tree, tokens, granted, 0);
      assert Child(g, tree, tokens, granted, i) == Child(schema, tree, tokens, granted, i);
    } else {
      ItemsRendered(g, tree, tokens, granted, 0, i);
      ChildPresent(schema, tree, tokens, granted, i);
      assert Child(g, tree, tokens, granted, i) == Child(schema, tree, tokens, granted, i);
    }
  }

  /** In what is rendered, every position below nothing but visible ones is as its own policy says. */
  lemma {:induction false} FieldAtDepth(schema: Schema, tree: Tree, tokens: seq<string>, granted: Option<seq<string>>,
      root: bool, path: seq<nat>)
    requires Matches(schema, tree) && KeysKept(schema, root) && Position(schema, tree, path)
    requires Open(schema, tree, path, granted) && Direct(schema, tree, tokens, granted).Success?
    ensures var out := OutputAt(schema, tree, path, granted, Direct(schema, tree, tokens, granted).value);
      Treated(SchemaAt(schema, tree, path), TreeAt(schema, tree, path), granted, out)
    decreases |path|
  {
    hide KeysKept, Direct, Treated, Visible, OutputOf, HasChild;
    if path == [] {
      WholeTreated(schema, tree, tokens, granted, root);
    } else {
      var i := path[0];
      ChildOutput(schema, tree, tokens, granted, root, i);
      ChildKept(schema, tree, root, i);
      FieldAtDepth(ChildSchema(schema, tree, i), ChildTree(schema, tree, i), tokens + [ChildToken(schema, tree, i)],
                   granted, false, path[1..]);
    }
  }

  // ----- refusals -----

  /** A position whose policy refuses, below nothing but visible ones. */
  predicate Refusing(schema: Schema, tree: Tree, path: seq<nat>, granted: Option<seq<string>>)
    requires Matches(schema, tree)
  {
    && Position(schema, tree, path) && Open(schema, tree, path, granted)
    && Refused(SchemaAt(schema, tree, path).policy, granted)
  }

  /** Document order. */
  predicate Earlier(a: seq<nat>, b: seq<nat>)
    decreases |a|
  {
    if a == [] || b == [] then a == [] && b != []
    else a[0] < b[0] || (a[0] == b[0] && Earlier(a[1..], b[1..]))
  }

  lemma {:induction false} FieldsFail(schema: Schema, tree: Tree, tokens: seq<string>, granted: Option<seq<string>>,
      i: nat) returns (k: nat)
    requires schema.ObjectSchema? && Matches(schema, tree) && i <= |schema.shape|
    requires DirectFields(schema, tree, tokens, granted, i).Failure?
    ensures i <= k < |schema.shape|
    ensures Child(schema, tree, tokens, granted, k) == Failure(DirectFields(schema, tree, tokens, granted, i).error)
    ensures forall j :: i <= j < k ==> Child(schema, tree, tokens, granted, j).Success?
    decreases |schema.shape| - i
  {
    hide Direct;
    if Child(schema, tree, tokens, granted, i).Failure? {
      k := i;
    } else {
      k := FieldsFail(schema, tree, tokens, granted, i + 1);
    }
  }

  lemma {:induction false} ItemsFail(schema: Schema, tree: Tree, tokens: seq<string>, granted: Option<seq<string>>,
      i: nat) returns (k: nat)
    requires schema.ArraySchema? && Matches(schema, tree) && i <= |tree.items|
    requires DirectItems(schema, tree, tokens, granted, i).Failure?
    ensures i <= k < |tree.items|
    ensures Child(schema, tree, tokens, granted, k) == Failure(DirectItems(schema, tree, tokens, granted, i).error)
    ensures forall j :: i <= j < k ==> Child(schema, tree, tokens, granted, j).Success?
    decreases |tree.items| - i
  {
    hide Direct, Decimal;
    if Child(schema, tree, tokens, granted, i).Failure? {
      k := i;
    } else {
      k := ItemsFail(schema, tree, tokens, granted, i + 1);
    }
  }

  /** A value that is not refused itself fails with its first child that does. */
  lemma ChildFails(schema: Schema, tree: Tree, tokens: seq<string>, granted: Option<seq<string>>) returns (k: nat)
    requires Matches(schema, tree) && Direct(schema, tree, tokens, granted).Failure?
    requires !Refused(Governing(schema, tree).policy, granted)
    ensures Visible(Governing(schema, tree).policy, granted) && HasChild(schema, tree, k)
    ensures Child(schema, tree, tokens, granted, k) == Failure(Direct(schema, tree, tokens, granted).error)
    ensures forall j :: 0 <= j < k && HasChild(schema, tree, j) ==> Child(schema, tree, tokens, granted, j).Success?
  {
    hide Encode, Judge, DirectFields, DirectItems, Refused, LeftOut, Masked, Visible, Decimal;
    var g := Governing(schema, tree);
    JudgeSays(g.policy, granted);
    Governed(schema, tree, tokens, granted);
    if g.ObjectSchema? {
      k := FieldsFail(g, tree, tokens, granted, 0);
    } else {
      k := ItemsFail(g, tree, tokens, granted, 0);
    }
    assert forall j :: 0 <= j < k && HasChild(schema, tree, j) ==>
      Child(g, tree, tokens, granted, j) == Child(schema, tree, tokens, granted, j);
    assert Child(g, tree, tokens, granted, k) == Child(schema, tree, tokens, granted, k);
  }

  /** A refusing position makes the whole fail. */
  lemma {:induction false} RefusalFails(schema: Schema, tree: Tree, tokens: seq<string>, granted: Option<seq<string>>,
      root: bool, path: seq<nat>)
    requires Matches(schema, tree) && KeysKept(schema, root) && Refusing(schema, tree, path, granted)
    ensures Direct(schema, tree, tokens, granted).Failure?
  {
    hide KeysKept, Direct, Position, Open, SchemaAt, TreeAt, OutputAt, Refused, LeftOut, Masked, Visible;
    if Direct(schema, tree, tokens, granted).Success? {
      FieldAtDepth(schema, tree, tokens, granted, root, path);
    }
  }

  lemma RefusingHere(schema: Schema, tree: Tree, granted: Option<seq<string>>)
    requires Matches(schema, tree) && Refused(Governing(schema, tree).policy, granted)
    ensures Refusing(schema, tree, [], granted) && TokensAt(schema, tree, []) == []
    ensures forall q :: !Earlier(q, [])
  {
    hide Refused, Governing, HasChild;
  }

  lemma RefusingBelow(schema: Schema, tree: Tree, granted: Option<seq<string>>, k: nat, below: seq<nat>)
    requires Matches(schema, tree) && HasChild(schema, tree, k) && Visible(Governing(schema, tree).policy, granted)
    requires Refusing(ChildSchema(schema, tree, k), ChildTree(schema, tree, k), below, granted)
    ensures Refusing(schema, tree, [k] + below, granted)
    ensures TokensAt(schema, tree, [k] + below) ==
      [ChildToken(schema, tree, k)] + TokensAt(ChildSchema(schema, tree, k), ChildTree(schema, tree, k), below)
  {
    hide Refused, Visible, HasChild;
    assert ([k] + below)[1..] == below;
  }

  /** What fails is refused at some position, whose pointer the error has: the first that refuses. */
  lemma {:induction false} FirstRefusal(schema: Schema, tree: Tree, tokens: seq<string>, granted: Option<seq<string>>,
      root: bool) returns (path: seq<nat>)
    requires Matches(schema, tree) && KeysKept(schema, root) && Direct(schema, tree, tokens, granted).Failure?
    ensures Refusing(schema, tree, path, granted)
    ensures Direct(schema, tree, tokens, granted).error ==
      ForbiddenScope(Encode(tokens + TokensAt(schema, tree, path)))
    ensures forall q :: Refusing(schema, tree, q, granted) ==> !Earlier(q, path)
    decreases tree
  {
    hide KeysKept, Direct, Encode, Refused, Visible, HasChild, Position, Open, TokensAt, Earlier;
    if Refused(Governing(schema, tree).policy, granted) {
      PositionRendered(schema, tree, tokens, granted);
      path := [];
      RefusingHere(schema, tree, granted);
      assert tokens + [] == tokens;
    } else {
      var k := ChildFails(schema, tree, tokens, granted);
      ChildKept(schema, tree, root, k);
      var token := ChildToken(schema, tree, k);
      var below := FirstRefusal(ChildSchema(schema, tree, k), ChildTree(schema, tree, k), tokens + [token], granted,
        false);
      path := [k] + below;
      RefusingBelow(schema, tree, granted, k, below);
      var rest := TokensAt(ChildSchema(schema, tree, k), ChildTree(schema, tree, k), below);
      assert tokens + [token] + rest == tokens + ([token] + rest);
      forall q | Refusing(schema, tree, q, granted)
        ensures !Earlier(q, path)
      {
        NotEarlier(schema, tree, tokens, granted, root, k, below, q);
      }
    }
  }

  lemma NotEarlier(schema: Schema, tree: Tree, tokens: seq<string>, granted: Option<seq<string>>, root: bool, k: nat,
      below: seq<nat>, q: seq<nat>)
    requires Matches(schema, tree) && KeysKept(schema, root) && HasChild(schema, tree, k)
    requires !Refused(Governing(schema, tree).policy, granted) && Refusing(schema, tree, q, granted)
    requires forall j :: 0 <= j < k && HasChild(schema, tree, j) ==> Child(schema, tree, tokens, granted, j).Success?
    requires forall p :: Refusing(ChildSchema(schema, tree, k), ChildTree(schema, tree, k), p, granted) ==>
      !Earlier(p, below)
    ensures !Earlier(q, [k] + below)
  {
    hide KeysKept, Direct, Refused, HasChild;
    assert q != [] && ([k] + below)[1..] == below;
    var j := q[0];
    assert Refusing(ChildSchema(schema, tree, j), ChildTree(schema, tree, j), q[1..], granted);
    if j < k {
      ChildKept(schema, tree, root, j);
      RefusalFails(ChildSchema(schema, tree, j), ChildTree(schema, tree, j), tokens + [ChildToken(schema, tree, j)],
                   granted, false, q[1..]);
    }
  }

  // ----- stringify -----

  /** Every position below visible ones is in the output as its policy says. */
  ghost predicate AllTreated(schema: Schema, tree: Tree, granted: Option<seq<string>>, out: Option<Tree>)
    requires Matches(schema, tree)
  {
    forall path :: Position(schema, tree, path) && Open(schema, tree, path, granted) ==>
      Treated(SchemaAt(schema, tree, path), TreeAt(schema, tree, path), granted,
              OutputAt(schema, tree, path, granted, out))
  }

  /** The first refusing position is this one. */
  ghost predicate RefusedFirst(schema: Schema, tree: Tree, granted: Option<seq<string>>, path: seq<nat>)
    requires Matches(schema, tree)
  {
    Refusing(schema, tree, path, granted) && forall q :: Refusing(schema, tree, q, granted) ==> !Earlier(q, path)
  }

  ghost predicate RefusedAt(schema: Schema, tree: Tree, granted: Option<seq<string>>, path: seq<nat>, error: Error)
    requires Matches(schema, tree)
  {
    && RefusedFirst(schema, tree, granted, path)
    && error == ForbiddenScope(Encode(TokensAt(schema, tree, path)))
  }

  ghost predicate PrintedAs(schema: Schema, tree: Tree, granted: Option<seq<string>>, json: Tree -> string,
      text: string, out: Option<Tree>)
    requires Matches(schema, tree)
  {
    && text == (if out.None? then "null" else json(out.value))
    && AllTreated(schema, tree, granted, out)
  }

  lemma WalkRefused(schema: Schema, tree: Tree, granted: Option<seq<string>>) returns (path: seq<nat>)
    requires Matches(schema, tree) && KeysKept(schema, true) && Direct(schema, tree, [], granted).Failure?
    ensures RefusedAt(schema, tree, granted, path, Direct(schema, tree, [], granted).error)
  {
    hide KeysKept, Direct, Encode, Position, Open, Matches, Refused;
    path := FirstRefusal(schema, tree, [], granted, true);
    assert [] + TokensAt(schema, tree, path) == TokensAt(schema, tree, path);
  }

  lemma WalkTreated(schema: Schema, tree: Tree, granted: Option<seq<string>>)
    requires Matches(schema, tree) && KeysKept(schema, true) && Direct(schema, tree, [], granted).Success?
    ensures AllTreated(schema, tree, granted, Direct(schema, tree, [], granted).value)
    ensures forall path :: !Refusing(schema, tree, path, granted)
  {
    hide KeysKept, Direct, Position, Open, Matches, Treated, Refusing;
    forall path | Position(schema, tree, path) && Open(schema, tree, path, granted)
      ensures Treated(SchemaAt(schema, tree, path), TreeAt(schema, tree, path), granted,
                      OutputAt(schema, tree, path, granted, Direct(schema, tree, [], granted).value))
    {
      FieldAtDepth(schema, tree, [], granted, true, path);
    }
    forall path
      ensures !Refusing(schema, tree, path, granted)
    {
      if Refusing(schema, tree, path, granted) {
        RefusalFails(schema, tree, [], granted, true, path);
      }
    }
  }

  /**
    `stringify` fails exactly when some position below visible ones is denied and its policy raises the error,
    and then with the pointer of the first; otherwise it prints what has every such position as its policy says.
   */
  lemma StringifyPolicies(env: Env, schema: Schema, value: Value, granted: Option<seq<string>>, json: Tree -> string)
    requires GoodKeys(schema) && Parse(env, schema, value, "/", 0, {}).Success?
    ensures var data := Parse(env, schema, value, "/", 0, {}).value.data;
      var r := StringifySpec(env, schema, value, granted, json);
      && Matches(schema, data)
      && (r.Failure? <==> exists path :: Refusing(schema, data, path, granted))
      && (r.Failure? ==> exists path :: RefusedAt(schema, data, granted, path, r.error))
      && (r.Success? ==> exists out :: PrintedAs(schema, data, granted, json, r.value, out))
  {
    hide Parse, Render, Direct, KeysKept, ArraysReachable, Refusing, AllTreated, RefusedAt, StringifySpec, Matches;
    StringifyIsDirect(env, schema, value, granted, json);
    var data := Parse(env, schema, value, "/", 0, {}).value.data;
    var walked := Direct(schema, data, [], granted);
    if walked.Failure? {
      var path := WalkRefused(schema, data, granted);
      RefusedHere(schema, data, granted, path, walked.error);
    } else {
      WalkTreated(schema, data, granted);
      var r := StringifySpec(env, schema, value, granted, json);
      assert PrintedAs(schema, data, granted, json, r.value, walked.value);
    }
  }

  lemma RefusedHere(schema: Schema, tree: Tree, granted: Option<seq<string>>, path: seq<nat>, error: Error)
    requires Matches(schema, tree) && RefusedAt(schema, tree, granted, path, error)
    ensures Refusing(schema, tree, path, granted)
  {
    hide Refusing;
  }
}
