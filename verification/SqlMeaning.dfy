/**
  Three-valued meaning of expressions and of the SQL text they compile to.
 */
module SqlMeaning {
  import opened Wrappers
  import opened SqlCompiler
  import opened SqlParser

  datatype Tri = Yes | No | Unknown

  function And3(a: Tri, b: Tri): Tri {
    if a == No || b == No then No else if a == Yes && b == Yes then Yes else Unknown
  }

  function Or3(a: Tri, b: Tri): Tri {
    if a == Yes || b == Yes then Yes else if a == No && b == No then No else Unknown
  }

  function Not3(a: Tri): Tri {
    match a
    case Yes => No
    case No => Yes
    case Unknown => Unknown
  }

  /** A database value, NULL among them. */
  type Datum = int

  /**
    A row and a database: what columns hold, what parameters bind to, how the operators and functions
    other than AND, OR and list membership work, and how truth values and data convert.
   */
  datatype World = World(
    column: (string, string) -> Datum,
    bind: Literal -> Datum,
    infix: (string, Datum, Datum) -> Datum,
    extract: (Datum, Datum) -> Datum,
    apply: (string, seq<Datum>) -> Datum,
    truth: Datum -> Tri,
    datum: Tri -> Datum)

  /** Truth values survive being data. */
  ghost predicate Lawful(w: World) {
    forall t :: w.truth(w.datum(t)) == t
  }

  /** `x IN (v1, ..., vn)` is `x = v1 OR ... OR x = vn`; of no values, no. */
  function AnyEqual(w: World, x: Datum, values: seq<Literal>): Tri
    decreases |values|
  {
    if values == [] then No
    else Or3(w.truth(w.infix("=", x, w.bind(values[0]))), AnyEqual(w, x, values[1..]))
  }

  function Membership(w: World, x: Datum, op: string, values: seq<Literal>): Datum {
    var found := AnyEqual(w, x, values);
    w.datum(if op == "NOT IN" then Not3(found) else found)
  }

  function Connect(w: World, op: string, a: Datum, b: Datum): Datum {
    if op == "AND" then w.datum(And3(w.truth(a), w.truth(b)))
    else if op == "OR" then w.datum(Or3(w.truth(a), w.truth(b)))
    else w.infix(op, a, b)
  }

  /** What an expression of the syntax tree means; JSON_EXTRACT is the operator on two arguments only. */
  function Meaning(w: World, e: Expr): Datum
    decreases e, 1, 0
  {
    match e
    case Column(name, table) => w.column(table, name)
    case Value(literal) => w.bind(literal)
    case Binary(left, operator, right) =>
      var op := Upper(operator);
      if IsListOp(op) && right.Value? && right.literal.List? then
        Membership(w, Meaning(w, left), op, right.literal.items)
      else Connect(w, op, Meaning(w, left), Meaning(w, right))
    case Function(name, args) =>
      if Upper(name) == "JSON_EXTRACT" && |args| == 2 then w.extract(Meaning(w, args[0]), Meaning(w, args[1]))
      else w.apply(Upper(name), Meanings(w, e, 0))
  }

  function Meanings(w: World, e: Expr, i: nat): seq<Datum>
    requires e.Function? && i <= |e.args|
    decreases e, 0, |e.args| - i
  {
    if i == |e.args| then [] else [Meaning(w, e.args[i])] + Meanings(w, e, i + 1)
  }

  /** What a piece of SQL text means to the database. */
  function Eval(w: World, p: Parsed): Datum
    decreases p, 1, 0
  {
    match p
    case Ref(name, table) => w.column(table, name)
    case Bound(literal) => w.bind(literal)
    case Constant(truth) => w.datum(if truth then Yes else No)
    case Infix(left, op, right) => Connect(w, op, Eval(w, left), Eval(w, right))
    case OneOf(left, op, values) => Membership(w, Eval(w, left), op, values)
    case Extract(document, path) => w.extract(Eval(w, document), Eval(w, path))
    case Call(name, args) => w.apply(name, Evals(w, args))
  }

  function Evals(w: World, args: seq<Parsed>): seq<Datum>
    decreases args, 0, 0
  {
    if args == [] then [] else [Eval(w, args[0])] + Evals(w, args[1..])
  }

  /** No JSON_EXTRACT has more than two arguments, but for the left side of an empty list, which is not compiled. */
  predicate NoExtraArgs(e: Expr)
    decreases e, 1, 0
  {
    match e
    case Binary(left, operator, right) =>
      if IsListOp(Upper(operator)) && right.Value? && right.literal.List? then
        right.literal.items == [] || NoExtraArgs(left)
      else NoExtraArgs(left) && NoExtraArgs(right)
    case Function(name, args) => (Upper(name) == "JSON_EXTRACT" ==> |args| <= 2) && NoneExtra(e, 0)
    case _ => true
  }

  predicate NoneExtra(e: Expr, i: nat)
    requires e.Function? && i <= |e.args|
    decreases e, 0, |e.args| - i
  {
    i == |e.args| || (NoExtraArgs(e.args[i]) && NoneExtra(e, i + 1))
  }

  /** The normal form keeps the meaning: an empty IN is false and an empty NOT IN true, of NULL too. */
  lemma {:induction false} NormKeepsMeaning(w: World, e: Expr)
    requires NoExtraArgs(e)
    ensures Eval(w, Norm(e)) == Meaning(w, e)
    decreases e, 1, 0
  {
    match e
    case Column(_, _) =>
    case Value(_) =>
    case Binary(left, operator, right) =>
      if !(IsListOp(Upper(operator)) && right.Value? && right.literal.List?) {
        NormKeepsMeaning(w, left);
        NormKeepsMeaning(w, right);
      } else if right.literal.items != [] {
        NormKeepsMeaning(w, left);
      }
    case Function(name, args) =>
      if Upper(name) == "JSON_EXTRACT" && |args| == 2 {
        assert NoneExtra(e, 1);
        NormKeepsMeaning(w, args[0]);
        NormKeepsMeaning(w, args[1]);
      } else {
        ArgsKeepMeaning(w, e, 0);
      }
  }

  lemma {:induction false} ArgsKeepMeaning(w: World, e: Expr, i: nat)
    requires e.Function? && i <= |e.args| && NoneExtra(e, i)
    ensures Evals(w, NormArgs(e, i)) == Meanings(w, e, i)
    decreases e, 0, |e.args| - i
  {
    if i < |e.args| {
      NormKeepsMeaning(w, e.args[i]);
      ArgsKeepMeaning(w, e, i + 1);
      assert NormArgs(e, i)[1..] == NormArgs(e, i + 1);
    }
  }

  /** Compiling keeps the meaning: the database reads in the text what the tree says. */
  lemma CompileKeepsMeaning(w: World, e: Expr)
    requires Compile(e).Success? && NoExtraArgs(e)
    ensures var c := Compile(e).value; var read := ParseExpr(c.tokens, c.params);
      read.Some? && read.value.tokens == [] && read.value.params == [] && Eval(w, read.value.found) == Meaning(w, e)
  {
    hide Compile, ParseExpr, Meaning, Eval;
    ReadBack(e);
    NormKeepsMeaning(w, e);
  }

  /**
    `x IN (...)` is true when x equals a value and false when it differs from all; `NOT IN` the other way
    round; unknown otherwise.
   */
  lemma {:induction false} InMeans(w: World, x: Datum, values: seq<Literal>)
    requires Lawful(w)
    ensures w.truth(Membership(w, x, "IN", values)) == Yes <==>
      exists i :: 0 <= i < |values| && w.truth(w.infix("=", x, w.bind(values[i]))) == Yes
    ensures w.truth(Membership(w, x, "IN", values)) == No <==>
      forall i :: 0 <= i < |values| ==> w.truth(w.infix("=", x, w.bind(values[i]))) == No
    ensures w.truth(Membership(w, x, "NOT IN", values)) == Yes <==>
      forall i :: 0 <= i < |values| ==> w.truth(w.infix("=", x, w.bind(values[i]))) == No
    ensures w.truth(Membership(w, x, "NOT IN", values)) == No <==>
      exists i :: 0 <= i < |values| && w.truth(w.infix("=", x, w.bind(values[i]))) == Yes
    decreases |values|
  {
    assert |"IN"| != |"NOT IN"|;
    if values != [] {
      InMeans(w, x, values[1..]);
      assert forall i :: 0 < i < |values| ==> values[i] == values[1..][i - 1];
      var first := w.truth(w.infix("=", x, w.bind(values[0])));
      assert (exists i :: 0 <= i < |values| && w.truth(w.infix("=", x, w.bind(values[i]))) == Yes) <==>
        first == Yes || exists i :: 0 <= i < |values[1..]| && w.truth(w.infix("=", x, w.bind(values[1..][i]))) == Yes;
    }
  }

  // ----- why JSON_EXTRACT must have no extra arguments -----

  lemma ArgsStep(e: Expr, i: nat)
    requires e.Function? && i < |e.args|
    ensures CompileArgs(e, i) == (
      var first, rest := Compile(e.args[i]), CompileArgs(e, i + 1);
      if first.Failure? then Failure(first.error)
      else if rest.Failure? then Failure(rest.error) else Success([first.value] + rest.value))
  {
    hide Compile;
  }

  lemma PairCompiled(name: string, a: Expr, b: Expr)
    requires Compile(a).Success? && Compile(b).Success?
    ensures CompileArgs(Function(name, [a, b]), 0) == Success([Compile(a).value, Compile(b).value])
  {
    hide Compile;
    var e := Function(name, [a, b]);
    var x, y := Compile(a).value, Compile(b).value;
    var none: seq<Sql> := [];
    ArgsStep(e, 0);
    ArgsStep(e, 1);
    assert CompileArgs(e, 2) == Success(none);
    assert [y] + none == [y] && [x] + [y] == [x, y];
  }

  lemma ExtractStep(e: Expr)
    requires e.Function? && Upper(e.name) == "JSON_EXTRACT" && |e.args| >= 2
    ensures Compile(e) == (
      var all := CompileArgs(e, 0);
      if all.Failure? then Failure(all.error)
      else Success(Parenthesized(Append(all.value[0], Word("->>"), all.value[1]))))
  {
    hide CompileArgs, Append, Parenthesized;
  }

  /** The compiler compiles the arguments after the second, for their errors, and drops their text and parameters. */
  lemma ExtraArgsDropped(e: Expr)
    requires e.Function? && Upper(e.name) == "JSON_EXTRACT" && |e.args| >= 2
    ensures Norm(e) == Norm(Function(e.name, e.args[..2]))
    ensures CompileArgs(e, 0).Success? ==> Compile(e) == Compile(Function(e.name, e.args[..2]))
    ensures CompileArgs(e, 0).Failure? ==> Compile(e) == Failure(CompileArgs(e, 0).error)
  {
    hide Compile, CompileArgs;
    assert e.args[..2] == [e.args[0], e.args[1]];
    ExtractStep(e);
    ArgsStep(e, 0);
    ArgsStep(e, 1);
    if CompileArgs(e, 0).Success? {
      PairCompiled(e.name, e.args[0], e.args[1]);
      ExtractStep(Function(e.name, [e.args[0], e.args[1]]));
    }
  }

  /** No AND, no OR and no empty list: what any part means shows in the whole. */
  predicate Transparent(e: Expr)
    decreases e, 1, 0
  {
    match e
    case Binary(left, operator, right) =>
      && !IsChainOp(Upper(operator))
      && Transparent(left)
      && (if IsListOp(Upper(operator)) && right.Value? && right.literal.List? then right.literal.items != []
          else Transparent(right))
    case Function(_, _) => AllTransparent(e, 0)
    case _ => true
  }

  predicate AllTransparent(e: Expr, i: nat)
    requires e.Function? && i <= |e.args|
    decreases e, 0, |e.args| - i
  {
    i == |e.args| || (Transparent(e.args[i]) && AllTransparent(e, i + 1))
  }

  /** Nothing is known but a JSON_EXTRACT with more than two arguments, and whatever depends on it. */
  const TRACER := World(
    (_, _) => 0, _ => 0, (_, a, b) => if a == 0 && b == 0 then 0 else 1, (a, b) => if a == 0 && b == 0 then 0 else 1,
    (name, args) => if (name == "JSON_EXTRACT" && |args| > 2) || exists d :: d in args && d != 0 then 1 else 0,
    d => if d == 0 then Unknown else if d == 1 then Yes else No,
    (t: Tri) => if t == Unknown then 0 else if t == Yes then 1 else 2)

  lemma {:induction false} TracedList(x: Datum, values: seq<Literal>)
    requires values != []
    ensures AnyEqual(TRACER, x, values) == if x == 0 then Unknown else Yes
    decreases |values|
  {
    if |values| > 1 {
      TracedList(x, values[1..]);
    } else {
      assert AnyEqual(TRACER, x, values[1..]) == No;
    }
  }

  /** The text of a transparent expression holds no such call, the tree may. */
  lemma {:induction false} Traced(e: Expr)
    requires Transparent(e)
    ensures Eval(TRACER, Norm(e)) == 0
    ensures Meaning(TRACER, e) == 0 <==> NoExtraArgs(e)
    decreases e, 1, 0
  {
    match e
    case Binary(left, operator, right) =>
      Traced(left);
      if IsListOp(Upper(operator)) && right.Value? && right.literal.List? {
        TracedList(Eval(TRACER, Norm(left)), right.literal.items);
        TracedList(Meaning(TRACER, left), right.literal.items);
      } else {
        Traced(right);
      }
    case Function(_, _) =>
      TracedArgs(e, 0);
      TracedCall(e);
    case _ =>
  }

  lemma {:induction false} TracedArgs(e: Expr, i: nat)
    requires e.Function? && i <= |e.args| && AllTransparent(e, i)
    ensures forall j :: i <= j < |e.args| ==> Eval(TRACER, Norm(e.args[j])) == 0
    ensures forall j :: i <= j < |e.args| ==> (Meaning(TRACER, e.args[j]) == 0 <==> NoExtraArgs(e.args[j]))
    decreases e, 0, |e.args| - i
  {
    if i < |e.args| {
      Traced(e.args[i]);
      TracedArgs(e, i + 1);
    }
  }

  lemma {:induction false} MeaningsAt(w: World, e: Expr, i: nat)
    requires e.Function? && i <= |e.args|
    ensures |Meanings(w, e, i)| == |e.args| - i
    ensures forall j :: 0 <= j < |e.args| - i ==> Meanings(w, e, i)[j] == Meaning(w, e.args[i + j])
    decreases |e.args| - i
  {
    hide Meaning;
    if i < |e.args| {
      MeaningsAt(w, e, i + 1);
    }
  }

  lemma {:induction false} EvalsAt(w: World, e: Expr, i: nat)
    requires e.Function? && i <= |e.args|
    ensures |Evals(w, NormArgs(e, i))| == |e.args| - i
    ensures forall j :: 0 <= j < |e.args| - i ==> Evals(w, NormArgs(e, i))[j] == Eval(w, Norm(e.args[i + j]))
    decreases |e.args| - i
  {
    hide Eval, Norm;
    if i < |e.args| {
      EvalsAt(w, e, i + 1);
      assert NormArgs(e, i)[1..] == NormArgs(e, i + 1);
    }
  }

  lemma {:induction false} NoneExtraAt(e: Expr, i: nat)
    requires e.Function? && i <= |e.args|
    ensures NoneExtra(e, i) <==> forall j :: i <= j < |e.args| ==> NoExtraArgs(e.args[j])
    decreases |e.args| - i
  {
    hide NoExtraArgs;
    if i < |e.args| {
      NoneExtraAt(e, i + 1);
    }
  }

  lemma CallSteps(w: World, e: Expr)
    requires e.Function?
    ensures Eval(w, Norm(e)) ==
      if Upper(e.name) == "JSON_EXTRACT" && |e.args| >= 2 then
        w.extract(Eval(w, Norm(e.args[0])), Eval(w, Norm(e.args[1])))
      else w.apply(Upper(e.name), Evals(w, NormArgs(e, 0)))
    ensures Meaning(w, e) ==
      if Upper(e.name) == "JSON_EXTRACT" && |e.args| == 2 then w.extract(Meaning(w, e.args[0]), Meaning(w, e.args[1]))
      else w.apply(Upper(e.name), Meanings(w, e, 0))
  {
    hide Evals, NormArgs, Meanings;
  }

  lemma TracedCall(e: Expr)
    requires e.Function?
    requires forall j :: 0 <= j < |e.args| ==> Eval(TRACER, Norm(e.args[j])) == 0
    requires forall j :: 0 <= j < |e.args| ==> (Meaning(TRACER, e.args[j]) == 0 <==> NoExtraArgs(e.args[j]))
    ensures Eval(TRACER, Norm(e)) == 0
    ensures Meaning(TRACER, e) == 0 <==> NoExtraArgs(e)
  {
    hide Eval, Meaning, Norm, Meanings, Evals, NormArgs, NoneExtra, NoExtraArgs, Upper;
    CallSteps(TRACER, e);
    MeaningsAt(TRACER, e, 0);
    EvalsAt(TRACER, e, 0);
    NoneExtraAt(e, 0);
    CallCountedExtra(e);
    var meanings, evals := Meanings(TRACER, e, 0), Evals(TRACER, NormArgs(e, 0));
    assert forall j :: 0 <= j < |evals| ==> evals[j] == Eval(TRACER, Norm(e.args[0 + j])) == 0;
    if j :| 0 <= j < |e.args| && !NoExtraArgs(e.args[j]) {
      assert meanings[j] != 0 && meanings[j] in meanings;
    } else {
      assert forall j :: 0 <= j < |meanings| ==> meanings[j] == Meaning(TRACER, e.args[0 + j]) == 0;
    }
  }

  lemma CallCountedExtra(e: Expr)
    requires e.Function?
    ensures NoExtraArgs(e) <==> (Upper(e.name) == "JSON_EXTRACT" ==> |e.args| <= 2) && NoneExtra(e, 0)
  {
    hide NoneExtra;
  }

  /** The text means what the tree means, in every database, exactly when no JSON_EXTRACT has extra arguments. */
  lemma ExtraArgsLost(e: Expr)
    requires Transparent(e)
    ensures (forall w: World :: Lawful(w) ==> Eval(w, Norm(e)) == Meaning(w, e)) <==> NoExtraArgs(e)
  {
    hide Eval, Meaning, Norm, NoExtraArgs, Transparent;
    if NoExtraArgs(e) {
      forall w: World
        ensures Eval(w, Norm(e)) == Meaning(w, e)
      {
        NormKeepsMeaning(w, e);
      }
    } else {
      Traced(e);
      assert Lawful(TRACER);
    }
  }

  /** For a call of JSON_EXTRACT itself the arguments may be anything whose own meaning is kept. */
  lemma ExtractExact(e: Expr)
    requires e.Function? && Upper(e.name) == "JSON_EXTRACT" && |e.args| >= 2 && NoneExtra(e, 0)
    ensures (forall w: World :: Lawful(w) ==> Eval(w, Norm(e)) == Meaning(w, e)) <==> |e.args| == 2
  {
    hide Eval, Meaning, Norm;
    if |e.args| == 2 {
      forall w: World
        ensures Eval(w, Norm(e)) == Meaning(w, e)
      {
        NormKeepsMeaning(w, e);
      }
    } else {
      CallCounted(e);
    }
  }

  /** A database whose function, unlike the operator, counts its arguments. */
  const COUNTER := World((_, _) => 0, _ => 0, (_, _, _) => 0, (_, _) => 0, (_, args) => |args|,
    TRACER.truth, TRACER.datum)

  lemma CallCounted(e: Expr)
    requires e.Function? && Upper(e.name) == "JSON_EXTRACT" && |e.args| > 2
    ensures Lawful(COUNTER) && Eval(COUNTER, Norm(e)) != Meaning(COUNTER, e)
  {
    assert |Meanings(COUNTER, e, 0)| > 0;
  }

  /** An OR with a part that is always true hides the difference: no count of arguments is exact there. */
  lemma ExtraArgsAbsorbed(w: World, e: Expr, x: Expr)
    requires Lawful(w)
    ensures var always := Binary(x, "NOT IN", Value(List([]))); var either := Binary(e, "OR", always);
      w.truth(Eval(w, Norm(either))) == Yes && w.truth(Meaning(w, either)) == Yes
  {
    ChainUpper("OR");
    assert Upper("NOT IN") == "NOT IN";
    var always := Binary(x, "NOT IN", Value(List([])));
    assert Norm(always) == Constant(true);
    assert Meaning(w, always) == w.datum(Yes);
  }

  // ----- the and() and or() helpers -----

  const TRUE_LITERAL := Scalar(1)

  const FALSE_LITERAL := Scalar(0)

  /** `reduce` from the left. */
  function Spine(exprs: seq<Expr>, op: string): Expr
    requires exprs != []
    decreases |exprs|
  {
    if |exprs| == 1 then exprs[0] else Binary(Spine(exprs[..|exprs| - 1], op), op, exprs[|exprs| - 1])
  }

  function And(exprs: seq<Expr>): Expr {
    if exprs == [] then Value(TRUE_LITERAL) else Spine(exprs, "AND")
  }

  function Or(exprs: seq<Expr>): Expr {
    if exprs == [] then Value(FALSE_LITERAL) else Spine(exprs, "OR")
  }

  predicate Holds(w: World, e: Expr) {
    w.truth(Meaning(w, e)) == Yes
  }

  predicate Fails(w: World, e: Expr) {
    w.truth(Meaning(w, e)) == No
  }

  lemma OneAnd(w: World, left: Expr, right: Expr)
    requires Lawful(w)
    ensures w.truth(Meaning(w, Binary(left, "AND", right))) ==
      And3(w.truth(Meaning(w, left)), w.truth(Meaning(w, right)))
  {
    ChainUpper("AND");
  }

  lemma OneOr(w: World, left: Expr, right: Expr)
    requires Lawful(w)
    ensures w.truth(Meaning(w, Binary(left, "OR", right))) == Or3(w.truth(Meaning(w, left)), w.truth(Meaning(w, right)))
  {
    ChainUpper("OR");
  }

  /** A conjunction holds exactly when all its parts do, and fails exactly when one of them does. */
  lemma {:induction false} AndMeans(w: World, exprs: seq<Expr>)
    requires Lawful(w) && (exprs == [] ==> w.truth(w.bind(TRUE_LITERAL)) == Yes)
    ensures Holds(w, And(exprs)) <==> forall i :: 0 <= i < |exprs| ==> Holds(w, exprs[i])
    ensures Fails(w, And(exprs)) <==> exists i :: 0 <= i < |exprs| && Fails(w, exprs[i])
    decreases |exprs|
  {
    if |exprs| == 1 {
      assert And(exprs) == exprs[0];
    } else if |exprs| > 1 {
      var before, last := exprs[..|exprs| - 1], exprs[|exprs| - 1];
      AndMeans(w, before);
      OneAnd(w, Spine(before, "AND"), last);
      AllButLast(w, exprs);
    }
  }

  lemma {:induction false} OrMeans(w: World, exprs: seq<Expr>)
    requires Lawful(w) && (exprs == [] ==> w.truth(w.bind(FALSE_LITERAL)) == No)
    ensures Fails(w, Or(exprs)) <==> forall i :: 0 <= i < |exprs| ==> Fails(w, exprs[i])
    ensures Holds(w, Or(exprs)) <==> exists i :: 0 <= i < |exprs| && Holds(w, exprs[i])
    decreases |exprs|
  {
    if |exprs| == 1 {
      assert Or(exprs) == exprs[0];
    } else if |exprs| > 1 {
      var before, last := exprs[..|exprs| - 1], exprs[|exprs| - 1];
      OrMeans(w, before);
      OneOr(w, Spine(before, "OR"), last);
      AllButLast(w, exprs);
    }
  }

  lemma AllButLast(w: World, exprs: seq<Expr>)
    requires |exprs| > 1
    ensures var before, last := exprs[..|exprs| - 1], exprs[|exprs| - 1];
      && ((forall i :: 0 <= i < |exprs| ==> Holds(w, exprs[i])) <==>
        (forall i :: 0 <= i < |before| ==> Holds(w, before[i])) && Holds(w, last))
      && ((forall i :: 0 <= i < |exprs| ==> Fails(w, exprs[i])) <==>
        (forall i :: 0 <= i < |before| ==> Fails(w, before[i])) && Fails(w, last))
      && ((exists i :: 0 <= i < |exprs| && Holds(w, exprs[i])) <==>
        (exists i :: 0 <= i < |before| && Holds(w, before[i])) || Holds(w, last))
      && ((exists i :: 0 <= i < |exprs| && Fails(w, exprs[i])) <==>
        (exists i :: 0 <= i < |before| && Fails(w, before[i])) || Fails(w, last))
  {
    hide Holds, Fails;
    var before, last := exprs[..|exprs| - 1], exprs[|exprs| - 1];
    assert exprs == before + [last];
    assert forall i :: 0 <= i < |before| ==> exprs[i] == before[i];
    assert exprs[|exprs| - 1] == last;
  }
}
