/**
  What a successful parse leaves in the policy map: one entry for every position of the
  parsed data, under the position's pointer, holding the policy of the schema that read it.
 */
module PolicyMap {
  import opened Wrappers
  import opened JsonPointer
  import opened PolicyParse

  // ----- positions of a tree -----

  datatype Kid = Kid(token: string, tree: Tree)

  /** The children of a data tree, with the last token of their positions. */
  function Kids(tree: Tree): (r: seq<Kid>)
    ensures forall i :: 0 <= i < |r| ==> r[i].tree < tree
  {
    match tree
    case Atom(_) => []
    case Items(items) => seq(|items|, i requires 0 <= i < |items| => Kid(Decimal(i), items[i]))
    case Fields(fields) => seq(|fields|, i requires 0 <= i < |fields| => Kid(fields[i].key, fields[i].tree))
  }

  /** How many positions a tree has. */
  function Nodes(tree: Tree): nat
    decreases tree, 1, 0
  {
    1 + KidNodes(tree, |Kids(tree)|)
  }

  function KidNodes(tree: Tree, n: nat): nat
    requires n <= |Kids(tree)|
    decreases tree, 0, n
  {
    if n == 0 then 0 else KidNodes(tree, n - 1) + Nodes(Kids(tree)[n - 1].tree)
  }

  /** The pointers of all positions of a tree that sits at `tokens`. */
  function Pointers(tree: Tree, tokens: seq<string>): set<string>
    decreases tree, 1, 0
  {
    {Encode(tokens)} + KidPointers(tree, tokens, |Kids(tree)|)
  }

  function KidPointers(tree: Tree, tokens: seq<string>, n: nat): set<string>
    requires n <= |Kids(tree)|
    decreases tree, 0, n
  {
    if n == 0 then {}
    else
      var kid := Kids(tree)[n - 1];
      KidPointers(tree, tokens, n - 1) + Pointers(kid.tree, tokens + [kid.token])
  }

  /** A position that encoding and normalising keep: no token ends in white space, and the first is not empty. */
  predicate GoodTokens(tokens: seq<string>) {
    && (forall i :: 0 <= i < |tokens| ==> !EndsInSpace(tokens[i]))
    && (tokens != [] ==> tokens[0] != "")
  }

  /** A token that may follow: any that does not end in white space, at the root not the empty one. */
  predicate GoodToken(token: string, root: bool) {
    !EndsInSpace(token) && (root ==> token != "")
  }

  predicate GoodTree(tree: Tree, root: bool)
    decreases tree
  {
    var kids := Kids(tree);
    && (forall i :: 0 <= i < |kids| ==> GoodToken(kids[i].token, root) && GoodTree(kids[i].tree, false))
    && (forall i, j :: 0 <= i < j < |kids| ==> kids[i].token != kids[j].token)
  }

  /** Shape keys are distinct and do not end in white space, at every level, and none of the root's is empty. */
  predicate KeysKept(schema: Schema, root: bool)
    decreases schema
  {
    match schema
    case ObjectSchema(shape, _) =>
      && (forall i :: 0 <= i < |shape| ==> GoodToken(shape[i].key, root) && KeysKept(shape[i].schema, false))
      && (forall i, j :: 0 <= i < j < |shape| ==> shape[i].key != shape[j].key)
    case ArraySchema(item, _) => KeysKept(item, false)
    case Maybe(_, inner, _) => KeysKept(inner, root)
    case _ => true
  }

  // ----- array indexes as keys -----

  lemma {:induction false} DecimalGood(n: nat)
    ensures !EndsInSpace(Decimal(n)) && '~' !in Decimal(n) && '/' !in Decimal(n)
    decreases n
  {
    if n >= 10 {
      DecimalGood(n / 10);
    }
  }

  function DigitsValue(s: string): int
    decreases |s|
  {
    if s == "" then 0 else 10 * DigitsValue(s[..|s| - 1]) + (s[|s| - 1] as int - '0' as int)
  }

  lemma {:induction false} DecimalValue(n: nat)
    ensures DigitsValue(Decimal(n)) == n
    decreases n
  {
    if n < 10 {
      assert Decimal(n)[..0] == "";
    } else {
      DecimalValue(n / 10);
      assert Decimal(n)[..|Decimal(n)| - 1] == Decimal(n / 10);
    }
  }

  lemma DecimalInjective(m: nat, n: nat)
    requires m != n
    ensures Decimal(m) != Decimal(n)
  {
    DecimalValue(m);
    DecimalValue(n);
  }

  // ----- data fit their schema -----

  /** The data a schema can produce. */
  predicate Matches(schema: Schema, tree: Tree)
    decreases schema
  {
    match schema
    case Maybe(absent, inner, _) => tree == Atom(absent) || Matches(inner, tree)
    case TextSchema(_, _) => tree.Atom? && tree.scalar.Text?
    case NumberSchema(_) => tree.Atom? && tree.scalar.Number?
    case BooleanSchema(_) => tree.Atom? && tree.scalar.Bool?
    case ObjectSchema(shape, _) =>
      && tree.Fields? && |tree.fields| == |shape|
      && forall i :: 0 <= i < |shape| ==>
           && tree.fields[i].key == shape[i].key && shape[i].key !in FORBIDDEN_KEYS
           && Matches(shape[i].schema, tree.fields[i].tree)
    case ArraySchema(item, _) => tree.Items? && forall i :: 0 <= i < |tree.items| ==> Matches(item, tree.items[i])
  }

  /** The map has this policy for this position. */
  predicate Has(policies: map<string, Policy>, tokens: seq<string>, policy: Policy) {
    Encode(tokens) in policies && policies[Encode(tokens)] == policy
  }

  /** Every position of the data has, in the map, the policy of the schema it was read by. */
  predicate Agrees(policies: map<string, Policy>, schema: Schema, tree: Tree, tokens: seq<string>)
    requires Matches(schema, tree)
    decreases schema
  {
    match schema
    case Maybe(absent, inner, policy) =>
      if tree == Atom(absent) then Has(policies, tokens, policy) else Agrees(policies, inner, tree, tokens)
    case ObjectSchema(shape, policy) =>
      && Has(policies, tokens, policy)
      && forall i :: 0 <= i < |shape| ==>
           Agrees(policies, shape[i].schema, tree.fields[i].tree, tokens + [shape[i].key])
    case ArraySchema(item, policy) =>
      && Has(policies, tokens, policy)
      && forall i :: 0 <= i < |tree.items| ==> Agrees(policies, item, tree.items[i], tokens + [Decimal(i)])
    case _ => Has(policies, tokens, schema.policy)
  }

  lemma {:induction false} MatchesGood(schema: Schema, tree: Tree, root: bool)
    requires KeysKept(schema, root) && Matches(schema, tree)
    ensures GoodTree(tree, root)
    decreases schema
  {
    match schema
    case Maybe(absent, inner, _) =>
      if tree != Atom(absent) { MatchesGood(inner, tree, root); }
    case ObjectSchema(shape, _) =>
      forall i | 0 <= i < |shape|
        ensures GoodTree(Kids(tree)[i].tree, false)
      {
        MatchesGood(shape[i].schema, tree.fields[i].tree, false);
      }
    case ArraySchema(item, _) =>
      forall i | 0 <= i < |tree.items|
        ensures GoodToken(Kids(tree)[i].token, root) && GoodTree(Kids(tree)[i].tree, false)
      {
        DecimalGood(i);
        MatchesGood(item, tree.items[i], false);
      }
      forall i, j | 0 <= i < j < |tree.items|
        ensures Kids(tree)[i].token != Kids(tree)[j].token
      {
        DecimalInjective(i, j);
      }
    case _ =>
  }

  lemma PointersOf(tree: Tree, tokens: seq<string>)
    ensures Pointers(tree, tokens) == {Encode(tokens)} + KidPointers(tree, tokens, |Kids(tree)|)
  {
  }

  lemma OneMoreKid(tree: Tree, tokens: seq<string>, n: nat)
    requires n < |Kids(tree)|
    ensures var kid := Kids(tree)[n];
      KidPointers(tree, tokens, n + 1) == KidPointers(tree, tokens, n) + Pointers(kid.tree, tokens + [kid.token])
  {
  }

  // ----- pointers of different positions differ -----

  /** A pointer of a position at or below `tokens`. */
  ghost predicate Below(pointer: string, tokens: seq<string>) {
    exists rest: seq<string> :: GoodTokens(tokens + rest) && pointer == Encode(tokens + rest)
  }

  lemma GoodDeeper(tokens: seq<string>, token: string)
    requires GoodTokens(tokens) && GoodToken(token, tokens == [])
    ensures GoodTokens(tokens + [token])
  {
    hide EndsInSpace;
  }

  lemma {:induction false} PointersBelow(tree: Tree, tokens: seq<string>)
    requires GoodTree(tree, tokens == []) && GoodTokens(tokens)
    ensures forall p :: p in Pointers(tree, tokens) ==> Below(p, tokens)
    decreases tree, 1, 0
  {
    hide Below, Encode, GoodTokens;
    BelowItself(tokens);
    KidPointersBelow(tree, tokens, |Kids(tree)|);
  }

  lemma {:induction false} KidPointersBelow(tree: Tree, tokens: seq<string>, n: nat)
    requires GoodTree(tree, tokens == []) && GoodTokens(tokens) && n <= |Kids(tree)|
    ensures forall p :: p in KidPointers(tree, tokens, n) ==> Below(p, tokens)
    decreases tree, 0, n
  {
    hide Below, Encode, GoodTokens, GoodToken;
    if n > 0 {
      KidPointersBelow(tree, tokens, n - 1);
      var kid := Kids(tree)[n - 1];
      GoodDeeper(tokens, kid.token);
      PointersBelow(kid.tree, tokens + [kid.token]);
      forall p | p in Pointers(kid.tree, tokens + [kid.token])
        ensures Below(p, tokens)
      {
        BelowDeeper(p, tokens, kid.token);
      }
    }
  }

  lemma BelowDeeper(p: string, tokens: seq<string>, token: string)
    requires Below(p, tokens + [token])
    ensures Below(p, tokens)
  {
    hide Encode, GoodTokens;
    var rest: seq<string> :| GoodTokens(tokens + [token] + rest) && p == Encode(tokens + [token] + rest);
    assert tokens + [token] + rest == tokens + ([token] + rest);
  }

  lemma BelowItself(tokens: seq<string>)
    requires GoodTokens(tokens)
    ensures Below(Encode(tokens), tokens)
  {
    assert tokens + [] == tokens;
  }

  /** Positions under different keys of one parent have different pointers, and none is the parent's. */
  lemma BelowDifferent(tokens: seq<string>, a: string, b: string, p: string)
    requires GoodTokens(tokens) && a != b && Below(p, tokens + [a])
    ensures !Below(p, tokens + [b]) && p != Encode(tokens)
  {
    hide Encode, EndsInSpace;
    var rest: seq<string> :| GoodTokens(tokens + [a] + rest) && p == Encode(tokens + [a] + rest);
    var one := tokens + [a] + rest;
    assert one[|tokens|] == a && one != [""];
    EncodeInjective(one, tokens);
    if other: seq<string> :| GoodTokens(tokens + [b] + other) && p == Encode(tokens + [b] + other) {
      var two := tokens + [b] + other;
      assert two[|tokens|] == b;
      EncodeInjective(one, two);
    }
  }

  /** The pointers of one child are new. */
  lemma KidPointersNew(tree: Tree, tokens: seq<string>, n: nat)
    requires GoodTree(tree, tokens == []) && GoodTokens(tokens) && n < |Kids(tree)|
    ensures var kid := Kids(tree)[n];
      Pointers(kid.tree, tokens + [kid.token]) !! {Encode(tokens)} + KidPointers(tree, tokens, n)
  {
    hide Pointers, Below, Encode, GoodTokens, GoodToken;
    var kid := Kids(tree)[n];
    GoodDeeper(tokens, kid.token);
    PointersBelow(kid.tree, tokens + [kid.token]);
    forall p | p in Pointers(kid.tree, tokens + [kid.token])
      ensures p != Encode(tokens) && p !in KidPointers(tree, tokens, n)
    {
      OtherKids(tree, tokens, kid.token, n, p);
    }
  }

  lemma {:induction false} OtherKids(tree: Tree, tokens: seq<string>, token: string, n: nat, p: string)
    requires GoodTree(tree, tokens == []) && GoodTokens(tokens) && n <= |Kids(tree)|
    requires Below(p, tokens + [token]) && forall i :: 0 <= i < n ==> Kids(tree)[i].token != token
    ensures p != Encode(tokens) && p !in KidPointers(tree, tokens, n)
    decreases n
  {
    hide Pointers, Below, Encode, GoodTokens, GoodToken;
    BelowDifferent(tokens, token, token + "x", p);
    if n > 0 {
      OneMoreKid(tree, tokens, n - 1);
      OtherKids(tree, tokens, token, n - 1, p);
      var kid := Kids(tree)[n - 1];
      GoodDeeper(tokens, kid.token);
      PointersBelow(kid.tree, tokens + [kid.token]);
      BelowDifferent(tokens, token, kid.token, p);
    }
  }

  lemma SizeMore(own: string, before: set<string>, more: set<string>)
    requires more !! {own} + before
    ensures |{own} + (before + more)| == |{own} + before| + |more|
  {
    assert {own} + (before + more) == ({own} + before) + more;
  }

  lemma NoKids(tree: Tree, tokens: seq<string>)
    ensures KidPointers(tree, tokens, 0) == {} && KidNodes(tree, 0) == 0
  {
  }

  lemma OneMoreNode(tree: Tree, n: nat)
    requires n < |Kids(tree)|
    ensures KidNodes(tree, n + 1) == KidNodes(tree, n) + Nodes(Kids(tree)[n].tree)
  {
  }

  lemma {:induction false} PointersCount(tree: Tree, tokens: seq<string>)
    requires GoodTree(tree, tokens == []) && GoodTokens(tokens)
    ensures |Pointers(tree, tokens)| == Nodes(tree)
    decreases tree, 1, 0
  {
    KidPointersCount(tree, tokens, |Kids(tree)|);
  }

  lemma {:induction false} KidPointersCount(tree: Tree, tokens: seq<string>, n: nat)
    requires GoodTree(tree, tokens == []) && GoodTokens(tokens) && n <= |Kids(tree)|
    ensures |{Encode(tokens)} + KidPointers(tree, tokens, n)| == 1 + KidNodes(tree, n)
    decreases tree, 0, n
  {
    hide Encode, GoodTokens, GoodToken, Kids, Pointers, KidPointers, Nodes, KidNodes;
    if n == 0 {
      NoKids(tree, tokens);
    } else {
      var kid := Kids(tree)[n - 1];
      OneMoreKid(tree, tokens, n - 1);
      OneMoreNode(tree, n - 1);
      KidPointersCount(tree, tokens, n - 1);
      KidPointersNew(tree, tokens, n - 1);
      GoodDeeper(tokens, kid.token);
      PointersCount(kid.tree, tokens + [kid.token]);
      SizeMore(Encode(tokens), KidPointers(tree, tokens, n - 1), Pointers(kid.tree, tokens + [kid.token]));
    }
  }

  // ----- the map a parse builds -----

  /** Agreement only depends on the entries of the tree's own positions. */
  lemma {:induction false} AgreesFrame(m: map<string, Policy>, other: map<string, Policy>, schema: Schema,
      tree: Tree, tokens: seq<string>)
    requires Matches(schema, tree) && Agrees(m, schema, tree, tokens)
    requires forall p :: p in Pointers(tree, tokens) && p in m ==> p in other && other[p] == m[p]
    ensures Agrees(other, schema, tree, tokens)
    decreases schema
  {
    hide Encode, Decimal;
    assert Encode(tokens) in Pointers(tree, tokens);
    match schema
    case Maybe(absent, inner, _) =>
      if tree != Atom(absent) { AgreesFrame(m, other, inner, tree, tokens); }
    case ObjectSchema(shape, _) =>
      forall i | 0 <= i < |shape|
        ensures Agrees(other, shape[i].schema, tree.fields[i].tree, tokens + [shape[i].key])
      {
        KidPointersWithin(tree, tokens, i, |Kids(tree)|);
        AgreesFrame(m, other, shape[i].schema, tree.fields[i].tree, tokens + [shape[i].key]);
      }
    case ArraySchema(item, _) =>
      forall i | 0 <= i < |tree.items|
        ensures Agrees(other, item, tree.items[i], tokens + [Decimal(i)])
      {
        KidPointersWithin(tree, tokens, i, |Kids(tree)|);
        AgreesFrame(m, other, item, tree.items[i], tokens + [Decimal(i)]);
      }
    case _ =>
  }

  lemma {:induction false} KidPointersWithin(tree: Tree, tokens: seq<string>, i: nat, n: nat)
    requires i < n <= |Kids(tree)|
    ensures Pointers(Kids(tree)[i].tree, tokens + [Kids(tree)[i].token]) <= KidPointers(tree, tokens, n)
    decreases n
  {
    hide Encode, Kids, Pointers, KidPointers;
    OneMoreKid(tree, tokens, n - 1);
    if i < n - 1 {
      KidPointersWithin(tree, tokens, i, n - 1);
    }
  }

  lemma {:induction false} KidPointersPrefix(a: Tree, b: Tree, tokens: seq<string>, n: nat)
    requires n <= |Kids(a)| && n <= |Kids(b)| && forall i :: 0 <= i < n ==> Kids(a)[i] == Kids(b)[i]
    ensures KidPointers(a, tokens, n) == KidPointers(b, tokens, n)
    decreases n
  {
    if n > 0 {
      KidPointersPrefix(a, b, tokens, n - 1);
    }
  }

  /** A parse result as it should be. */
  predicate Sound(schema: Schema, r: Parsed, tokens: seq<string>) {
    Matches(schema, r.data) && Agrees(r.policies, schema, r.data, tokens) && r.policies.Keys == Pointers(r.data, tokens)
  }

  /** An object schema with its first n keys only: what the object loop has dealt with. */
  function Cut(schema: Schema, n: nat): Schema
    requires schema.ObjectSchema? && n <= |schema.shape|
  {
    ObjectSchema(schema.shape[..n], schema.policy)
  }

  lemma CutMatches(schema: Schema, n: nat, data: Tree, child: Tree)
    requires schema.ObjectSchema? && n < |schema.shape| && Matches(Cut(schema, n), data)
    requires schema.shape[n].key !in FORBIDDEN_KEYS && Matches(schema.shape[n].schema, child)
    ensures Matches(Cut(schema, n + 1), Fields(data.fields + [Field(schema.shape[n].key, child)]))
  {
    assert forall i :: 0 <= i < n ==> schema.shape[..n + 1][i] == schema.shape[..n][i];
  }

  /** Agreement of the first n + 1 fields, from their own maps. */
  lemma CutAgrees(m: map<string, Policy>, child: map<string, Policy>, schema: Schema, n: nat, tree: Tree,
      tokens: seq<string>)
    requires schema.ObjectSchema? && n < |schema.shape| && Matches(Cut(schema, n + 1), tree)
    requires Has(m, tokens, schema.policy) && Encode(tokens) !in child
    requires forall i :: 0 <= i < n ==>
      Agrees(m, schema.shape[i].schema, tree.fields[i].tree, tokens + [schema.shape[i].key])
    requires Agrees(child, schema.shape[n].schema, tree.fields[n].tree, tokens + [schema.shape[n].key])
    requires KidPointers(tree, tokens, n) !! child.Keys
    ensures Agrees(m + child, Cut(schema, n + 1), tree, tokens)
  {
    hide Encode, Pointers, KidPointers;
    var shape := schema.shape[..n + 1];
    forall i | 0 <= i < n + 1
      ensures Agrees(m + child, shape[i].schema, tree.fields[i].tree, tokens + [shape[i].key])
    {
      assert Kids(tree)[i] == Kid(shape[i].key, tree.fields[i].tree);
      if i < n {
        KidPointersWithin(tree, tokens, i, n);
        AgreesFrame(m, m + child, shape[i].schema, tree.fields[i].tree, tokens + [shape[i].key]);
      } else {
        AgreesFrame(child, m + child, shape[n].schema, tree.fields[n].tree, tokens + [shape[n].key]);
      }
    }
  }

  lemma CutEntries(m: map<string, Policy>, schema: Schema, n: nat, data: Tree, tokens: seq<string>)
    requires schema.ObjectSchema? && n <= |schema.shape| && Matches(Cut(schema, n), data)
    requires Agrees(m, Cut(schema, n), data, tokens)
    ensures Has(m, tokens, schema.policy)
    ensures forall i :: 0 <= i < n ==>
      Agrees(m, schema.shape[i].schema, data.fields[i].tree, tokens + [schema.shape[i].key])
  {
    assert forall i :: 0 <= i < n ==> schema.shape[i] == schema.shape[..n][i];
  }

  /** One more field leaves the earlier entries alone and adds exactly the child's. */
  lemma FieldAdded(schema: Schema, n: nat, done: Parsed, child: Parsed, tokens: seq<string>)
    requires schema.ObjectSchema? && n < |schema.shape| && KeysKept(schema, tokens == []) && GoodTokens(tokens)
    requires Sound(Cut(schema, n), done, tokens)
    requires schema.shape[n].key !in FORBIDDEN_KEYS
    requires Sound(schema.shape[n].schema, child, tokens + [schema.shape[n].key])
    ensures Sound(Cut(schema, n + 1), Parsed(Fields(done.data.fields + [Field(schema.shape[n].key, child.data)]),
                                             done.policies + child.policies), tokens)
  {
    hide Encode, Pointers, KidPointers, GoodTree, GoodTokens, KeysKept, Agrees;
    var key := schema.shape[n].key;
    var tree := Fields(done.data.fields + [Field(key, child.data)]);
    CutMatches(schema, n, done.data, child.data);
    CutKept(schema, n + 1, tokens == []);
    MatchesGood(Cut(schema, n + 1), tree, tokens == []);
    KidAdded(done.data, tree, tokens);
    KidPointersNew(tree, tokens, n);
    assert Kids(tree)[n] == Kid(key, child.data);
    CutEntries(done.policies, schema, n, done.data, tokens);
    CutAgrees(done.policies, child.policies, schema, n, tree, tokens);
  }

  lemma CutKept(schema: Schema, n: nat, root: bool)
    requires schema.ObjectSchema? && n <= |schema.shape| && KeysKept(schema, root)
    ensures KeysKept(Cut(schema, n), root)
  {
    hide GoodToken;
  }

  /** The pointers of a tree with one more child. */
  lemma KidAdded(before: Tree, after: Tree, tokens: seq<string>)
    requires |Kids(after)| == |Kids(before)| + 1 && forall i :: 0 <= i < |Kids(before)| ==>
      Kids(after)[i] == Kids(before)[i]
    ensures var kid := Kids(after)[|Kids(before)|];
      Pointers(after, tokens) == Pointers(before, tokens) + Pointers(kid.tree, tokens + [kid.token])
    ensures Pointers(before, tokens) == {Encode(tokens)} + KidPointers(after, tokens, |Kids(before)|)
  {
    hide Encode, Kids, Pointers, KidPointers;
    var n := |Kids(before)|;
    KidPointersPrefix(before, after, tokens, n);
    PointersOf(before, tokens);
    PointersOf(after, tokens);
    OneMoreKid(after, tokens, n);
  }

  lemma ItemsMore(schema: Schema, items: seq<Tree>, child: Tree)
    requires schema.ArraySchema? && Matches(schema, Items(items)) && Matches(schema.item, child)
    ensures Matches(schema, Items(items + [child]))
  {
  }

  /** Agreement of n + 1 items, from their own maps. */
  lemma ItemsAgree(m: map<string, Policy>, child: map<string, Policy>, schema: Schema, n: nat, tree: Tree,
      tokens: seq<string>)
    requires schema.ArraySchema? && Matches(schema, tree) && |tree.items| == n + 1
    requires Has(m, tokens, schema.policy) && Encode(tokens) !in child
    requires forall i :: 0 <= i < n ==> Agrees(m, schema.item, tree.items[i], tokens + [Decimal(i)])
    requires Agrees(child, schema.item, tree.items[n], tokens + [Decimal(n)])
    requires KidPointers(tree, tokens, n) !! child.Keys
    ensures Agrees(m + child, schema, tree, tokens)
  {
    hide Encode, Pointers, KidPointers, Decimal;
    forall i | 0 <= i < n + 1
      ensures Agrees(m + child, schema.item, tree.items[i], tokens + [Decimal(i)])
    {
      assert Kids(tree)[i] == Kid(Decimal(i), tree.items[i]);
      if i < n {
        KidPointersWithin(tree, tokens, i, n);
        AgreesFrame(m, m + child, schema.item, tree.items[i], tokens + [Decimal(i)]);
      } else {
        AgreesFrame(child, m + child, schema.item, tree.items[n], tokens + [Decimal(n)]);
      }
    }
  }

  lemma ItemEntries(m: map<string, Policy>, schema: Schema, data: Tree, tokens: seq<string>)
    requires schema.ArraySchema? && Matches(schema, data) && Agrees(m, schema, data, tokens)
    ensures Has(m, tokens, schema.policy)
    ensures forall i :: 0 <= i < |data.items| ==> Agrees(m, schema.item, data.items[i], tokens + [Decimal(i)])
  {
  }

  /** One more item leaves the earlier entries alone and adds exactly the child's. */
  lemma ItemAdded(schema: Schema, done: Parsed, child: Parsed, tokens: seq<string>)
    requires schema.ArraySchema? && KeysKept(schema, tokens == []) && GoodTokens(tokens) && Sound(schema, done, tokens)
    requires Sound(schema.item, child, tokens + [Decimal(|done.data.items|)])
    ensures Sound(schema, Parsed(Items(done.data.items + [child.data]), done.policies + child.policies), tokens)
  {
    hide Encode, Pointers, KidPointers, GoodTree, GoodTokens, KeysKept, Agrees, Decimal;
    var n, tree := |done.data.items|, Items(done.data.items + [child.data]);
    ItemsMore(schema, done.data.items, child.data);
    MatchesGood(schema, tree, tokens == []);
    KidAdded(done.data, tree, tokens);
    KidPointersNew(tree, tokens, n);
    assert Kids(tree)[n] == Kid(Decimal(n), child.data);
    ItemEntries(done.policies, schema, done.data, tokens);
    ItemsAgree(done.policies, child.policies, schema, n, tree, tokens);
  }

  lemma KeptSlot(schema: Schema, i: nat, tokens: seq<string>)
    requires schema.ObjectSchema? && i < |schema.shape| && KeysKept(schema, tokens == []) && GoodTokens(tokens)
    ensures KeysKept(schema.shape[i].schema, false) && GoodTokens(tokens + [schema.shape[i].key])
  {
    hide GoodToken;
    GoodDeeper(tokens, schema.shape[i].key);
  }

  lemma KeptItem(schema: Schema, i: nat, tokens: seq<string>)
    requires schema.ArraySchema? && KeysKept(schema, tokens == []) && GoodTokens(tokens)
    ensures KeysKept(schema.item, false) && GoodTokens(tokens + [Decimal(i)])
  {
    hide Decimal, EndsInSpace;
    DecimalGood(i);
    GoodDeeper(tokens, Decimal(i));
  }

  lemma {:induction false} FieldsSound(env: Env, schema: Schema, props: seq<Prop>, tokens: seq<string>, i: nat,
                                       depth: nat, seen: set<nat>, done: Parsed)
    requires schema.ObjectSchema? && KeysKept(schema, tokens == []) && GoodTokens(tokens)
    requires i <= |schema.shape| && done.data.Fields? && Sound(Cut(schema, i), done, tokens)
    requires ParseFields(env, schema, props, tokens, i, depth, seen, done).Success?
    ensures Sound(schema, ParseFields(env, schema, props, tokens, i, depth, seen, done).value, tokens)
    decreases schema, 0, |schema.shape| - i
  {
    hide Encode, Pointers, GoodTokens, KeysKept, Parse, Matches, Agrees;
    if i < |schema.shape| {
      var slot := schema.shape[i];
      KeptSlot(schema, i, tokens);
      ParseSound(env, slot.schema, PropertyOf(props, slot.key), tokens + [slot.key], depth, seen);
      var child := Parse(env, slot.schema, PropertyOf(props, slot.key), Encode(tokens + [slot.key]), depth, seen).value;
      FieldAdded(schema, i, done, child, tokens);
      FieldsSound(env, schema, props, tokens, i + 1, depth, seen,
                  Parsed(Fields(done.data.fields + [Field(slot.key, child.data)]), done.policies + child.policies));
    } else {
      assert Cut(schema, i) == schema;
    }
  }

  lemma {:induction false} ItemsSound(env: Env, schema: Schema, items: seq<Value>, tokens: seq<string>, i: nat,
                                      depth: nat, seen: set<nat>, done: Parsed)
    requires schema.ArraySchema? && KeysKept(schema, tokens == []) && GoodTokens(tokens)
    requires Sound(schema, done, tokens) && done.data.Items? && i == |done.data.items| <= |items|
    requires ParseItems(env, schema.item, items, tokens, i, depth, seen, done).Success?
    ensures Sound(schema, ParseItems(env, schema.item, items, tokens, i, depth, seen, done).value, tokens)
    decreases schema, 0, |items| - i
  {
    hide Encode, Pointers, GoodTokens, KeysKept, Parse, Decimal, Matches, Agrees;
    if i < |items| {
      KeptItem(schema, i, tokens);
      ParseSound(env, schema.item, items[i], tokens + [Decimal(i)], depth, seen);
      var child := Parse(env, schema.item, items[i], Encode(tokens + [Decimal(i)]), depth, seen).value;
      ItemAdded(schema, done, child, tokens);
      ItemsSound(env, schema, items, tokens, i + 1, depth, seen,
                 Parsed(Items(done.data.items + [child.data]), done.policies + child.policies));
    }
  }

  /** A good position's pointer comes back unchanged from normalising and decoding. */
  lemma GoodPointer(env: Env, tokens: seq<string>)
    requires GoodTokens(tokens)
    ensures Normalize(Some(Encode(tokens)), env.loose) == Encode(tokens) && Decode(Encode(tokens)) == tokens
  {
    hide Encode, Decode, Normalize, EndsInSpace;
    assert tokens != [] ==> !EndsInSpace(tokens[|tokens| - 1]);
    NormalizeEncoded(tokens, env.loose);
    DecodeEncode(tokens);
  }

  /** What a successful parse returns: data that fit the schema, and their policies. */
  lemma {:induction false} ParseSound(env: Env, schema: Schema, value: Value, tokens: seq<string>, depth: nat,
      seen: set<nat>)
    requires KeysKept(schema, tokens == []) && GoodTokens(tokens)
    requires Parse(env, schema, value, Encode(tokens), depth, seen).Success?
    ensures Sound(schema, Parse(env, schema, value, Encode(tokens), depth, seen).value, tokens)
    decreases schema, 1, 0
  {
    hide Encode, Parse, KeysKept, GoodTokens, Sound;
    match schema
    case Maybe(_, inner, _) =>
      MaybeParse(env, schema, value, tokens, depth, seen);
      if value != Plain(schema.absent) {
        KeptInner(schema, tokens == []);
        ParseSound(env, inner, value, tokens, depth, seen);
        NotAbsent(env, inner, value, Encode(tokens), depth, seen, schema.absent);
        MaybeSound(schema, Parse(env, inner, value, Encode(tokens), depth, seen).value, tokens);
      }
    case ObjectSchema(_, policy) =>
      ObjectParse(env, schema, value, tokens, depth, seen);
      EmptySound(Cut(schema, 0), Fields([]), tokens);
      FieldsSound(env, schema, value.props, tokens, 0, depth + 1, seen + {value.id},
                  Parsed(Fields([]), map[Encode(tokens) := policy]));
    case ArraySchema(_, policy) =>
      ArrayParse(env, schema, value, tokens, depth, seen);
      EmptySound(schema, Items([]), tokens);
      ItemsSound(env, schema, value.items, tokens, 0, depth + 1, seen + {value.id},
                 Parsed(Items([]), map[Encode(tokens) := policy]));
    case _ => LeafSound(env, schema, value, tokens, depth, seen);
  }

  lemma KeptInner(schema: Schema, root: bool)
    requires schema.Maybe? && KeysKept(schema, root)
    ensures KeysKept(schema.inner, root)
  {
  }

  /** One step of parsing a nullable or optional schema. */
  lemma {:induction false} MaybeParse(env: Env, schema: Schema, value: Value, tokens: seq<string>, depth: nat,
      seen: set<nat>)
    requires schema.Maybe?
    ensures value != Plain(schema.absent) ==>
      Parse(env, schema, value, Encode(tokens), depth, seen) ==
        Parse(env, schema.inner, value, Encode(tokens), depth, seen)
    ensures value == Plain(schema.absent) ==>
      var r := Parse(env, schema, value, Encode(tokens), depth, seen);
      r.Success? && Sound(schema, r.value, tokens)
  {
    hide Encode, Normalize, Decode;
    assert Kids(Atom(schema.absent)) == [];
    PointersOf(Atom(schema.absent), tokens);
    NoKids(Atom(schema.absent), tokens);
  }

  /** Data that are not the absent value fit a nullable schema as they fit its inner one. */
  lemma {:induction false} MaybeSound(schema: Schema, r: Parsed, tokens: seq<string>)
    requires schema.Maybe? && r.data != Atom(schema.absent) && Sound(schema.inner, r, tokens)
    ensures Sound(schema, r, tokens)
  {
    hide Encode, Pointers, Kids;
  }

  lemma {:induction false} ObjectParse(env: Env, schema: Schema, value: Value, tokens: seq<string>, depth: nat,
      seen: set<nat>)
    requires schema.ObjectSchema? && GoodTokens(tokens)
    requires Parse(env, schema, value, Encode(tokens), depth, seen).Success?
    ensures value.ObjectOf?
    ensures Parse(env, schema, value, Encode(tokens), depth, seen) ==
      ParseFields(env, schema, value.props, tokens, 0, depth + 1, seen + {value.id},
                  Parsed(Fields([]), map[Encode(tokens) := schema.policy]))
  {
    hide Encode, Normalize, Decode, GoodTokens, ParseFields, ParseItems;
    GoodPointer(env, tokens);
  }

  lemma {:induction false} ArrayParse(env: Env, schema: Schema, value: Value, tokens: seq<string>, depth: nat,
      seen: set<nat>)
    requires schema.ArraySchema? && GoodTokens(tokens)
    requires Parse(env, schema, value, Encode(tokens), depth, seen).Success?
    ensures value.ListOf?
    ensures Parse(env, schema, value, Encode(tokens), depth, seen) ==
      ParseItems(env, schema.item, value.items, tokens, 0, depth + 1, seen + {value.id},
                 Parsed(Items([]), map[Encode(tokens) := schema.policy]))
  {
    hide Encode, Normalize, Decode, GoodTokens, ParseFields, ParseItems;
    GoodPointer(env, tokens);
  }

  /** Before its loop, a container has its own entry and no children. */
  lemma {:induction false} EmptySound(schema: Schema, data: Tree, tokens: seq<string>)
    requires
      || (schema.ObjectSchema? && schema.shape == [] && data == Fields([]))
      || (schema.ArraySchema? && data == Items([]))
    ensures Sound(schema, Parsed(data, map[Encode(tokens) := schema.policy]), tokens)
  {
    hide Encode;
    assert Kids(data) == [];
    PointersOf(data, tokens);
    NoKids(data, tokens);
  }

  lemma {:induction false} LeafSound(env: Env, schema: Schema, value: Value, tokens: seq<string>, depth: nat,
      seen: set<nat>)
    requires !schema.Maybe? && !schema.ObjectSchema? && !schema.ArraySchema? && GoodTokens(tokens)
    requires Parse(env, schema, value, Encode(tokens), depth, seen).Success?
    ensures Sound(schema, Parse(env, schema, value, Encode(tokens), depth, seen).value, tokens)
  {
    hide Encode, Normalize, Decode, GoodTokens;
    GoodPointer(env, tokens);
    var r := Parse(env, schema, value, Encode(tokens), depth, seen).value;
    assert Kids(r.data) == [];
    PointersOf(r.data, tokens);
    NoKids(r.data, tokens);
  }

  /** Parsing keeps scalars as they are. */
  lemma {:induction false} NotAbsent(env: Env, schema: Schema, value: Value, path: string, depth: nat,
      seen: set<nat>, absent: Scalar)
    requires value != Plain(absent) && Parse(env, schema, value, path, depth, seen).Success?
    ensures Parse(env, schema, value, path, depth, seen).value.data != Atom(absent)
    decreases schema
  {
    match schema
    case Maybe(other, inner, _) =>
      if value != Plain(other) { NotAbsent(env, inner, value, path, depth, seen, absent); }
    case ObjectSchema(_, policy) =>
      var pointer := Normalize(Some(path), env.loose);
      FieldsStay(env, schema, value.props, Decode(pointer), 0, depth + 1, seen + {value.id},
                 Parsed(Fields([]), map[pointer := policy]));
    case ArraySchema(item, policy) =>
      var pointer := Normalize(Some(path), env.loose);
      ItemsStay(env, item, value.items, Decode(pointer), 0, depth + 1, seen + {value.id},
                Parsed(Items([]), map[pointer := policy]));
    case _ =>
  }

  lemma {:induction false} FieldsStay(env: Env, schema: Schema, props: seq<Prop>, tokens: seq<string>, i: nat,
      depth: nat, seen: set<nat>, done: Parsed)
    requires schema.ObjectSchema? && i <= |schema.shape| && done.data.Fields?
    ensures var r := ParseFields(env, schema, props, tokens, i, depth, seen, done); r.Success? ==> r.value.data.Fields?
    decreases |schema.shape| - i
  {
    if i < |schema.shape| {
      var slot := schema.shape[i];
      var child := Parse(env, slot.schema, PropertyOf(props, slot.key), Encode(tokens + [slot.key]), depth, seen);
      if child.Success? {
        FieldsStay(env, schema, props, tokens, i + 1, depth, seen,
                   Parsed(Fields(done.data.fields + [Field(slot.key, child.value.data)]),
                          done.policies + child.value.policies));
      }
    }
  }

  lemma {:induction false} ItemsStay(env: Env, item: Schema, items: seq<Value>, tokens: seq<string>, i: nat,
      depth: nat, seen: set<nat>, done: Parsed)
    requires i <= |items| && done.data.Items?
    ensures var r := ParseItems(env, item, items, tokens, i, depth, seen, done); r.Success? ==> r.value.data.Items?
    decreases |items| - i
  {
    if i < |items| {
      var child := Parse(env, item, items[i], Encode(tokens + [Decimal(i)]), depth, seen);
      if child.Success? {
        ItemsStay(env, item, items, tokens, i + 1, depth, seen,
                  Parsed(Items(done.data.items + [child.value.data]), done.policies + child.value.policies));
      }
    }
  }

  /**
    The policy map of a parse from the root has exactly one entry per position of the data:
    as many entries as positions, every position's pointer among them, with its own schema's policy.
   */
  lemma OneEntryPerPosition(env: Env, schema: Schema, value: Value)
    requires KeysKept(schema, true) && Parse(env, schema, value, "/", 0, {}).Success?
    ensures var r := Parse(env, schema, value, "/", 0, {}).value;
      && Sound(schema, r, [])
      && |r.policies| == Nodes(r.data)
  {
    hide Parse, KeysKept, Pointers, Nodes, GoodTree;
    assert Encode([]) == "/";
    ParseSound(env, schema, value, [], 0, {});
    var r := Parse(env, schema, value, "/", 0, {}).value;
    MatchesGood(schema, r.data, true);
    PointersCount(r.data, []);
    assert |r.policies| == |r.policies.Keys|;
  }
}
