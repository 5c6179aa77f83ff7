/**
  A reader of the SQL the compiler writes: AND and OR chains associate to the left, and each
  placeholder takes the next parameter. Reading a compiled expression gives the expression
  back, up to the normal form the compiler gives it.
 */
module SqlParser {
  import opened Wrappers
  import opened SqlCompiler

  /** What the text of an expression says. */
  datatype Parsed =
    | Ref(name: string, table: string)
    | Bound(literal: Literal)
    | Constant(truth: bool)
    | Infix(left: Parsed, op: string, right: Parsed)
    | OneOf(left: Parsed, op: string, values: seq<Literal>)
    | Extract(document: Parsed, path: Parsed)
    | Call(name: string, args: seq<Parsed>)

  /** A reading, with the tokens and parameters not yet used. */
  datatype Read<T> = Read(found: T, tokens: seq<Token>, params: seq<Literal>)

  // ----- reading -----

  function ParseExpr(ts: seq<Token>, ps: seq<Literal>): (r: Option<Read<Parsed>>)
    ensures r.Some? ==> |r.value.tokens| < |ts|
    decreases |ts|, 1
  {
    if ts == [] then None
    else
      match ts[0]
      case Ident(n) =>
        if |ts| >= 3 && ts[1] == Dot && ts[2].Ident? then Some(Read(Ref(ts[2].name, n), ts[3..], ps))
        else Some(Read(Ref(n, ""), ts[1..], ps))
      case Param => if ps == [] then None else Some(Read(Bound(ps[0]), ts[1..], ps[1..]))
      case Word(f) =>
        if f !in FUNCTIONS || |ts| < 3 || ts[1] != LParen then None
        else if ts[2] == RParen then Some(Read(Call(f, []), ts[3..], ps))
        else
          var args := ParseArgs(ts[2..], ps);
          if args.None? then None else Some(Read(Call(f, args.value.found), args.value.tokens, args.value.params))
      case LParen =>
        if |ts| >= 5 && ts[1] == Num(1) && ts[2] == Word("=") && ts[3].Num? && ts[4] == RParen then
          Some(Read(Constant(ts[3].n == 1), ts[5..], ps))
        else
          var left := ParseExpr(ts[1..], ps);
          if left.None? then None else ParseRest(left.value)
      case _ => None
  }

  /** Arguments up to the closing parenthesis. */
  function ParseArgs(ts: seq<Token>, ps: seq<Literal>): (r: Option<Read<seq<Parsed>>>)
    ensures r.Some? ==> |r.value.tokens| < |ts|
    decreases |ts|, 2
  {
    var first := ParseExpr(ts, ps);
    if first.None? || first.value.tokens == [] then None
    else if first.value.tokens[0] == RParen then
      Some(Read([first.value.found], first.value.tokens[1..], first.value.params))
    else if first.value.tokens[0] == Comma then
      var rest := ParseArgs(first.value.tokens[1..], first.value.params);
      if rest.None? then None
      else Some(Read([first.value.found] + rest.value.found, rest.value.tokens, rest.value.params))
    else None
  }

  /** An operand has been read after an opening parenthesis: the rest up to the closing one. */
  function ParseRest(left: Read<Parsed>): (r: Option<Read<Parsed>>)
    ensures r.Some? ==> |r.value.tokens| < |left.tokens|
    decreases |left.tokens|, 2
  {
    if left.tokens == [] || !left.tokens[0].Word? then None
    else
      var op, rest := left.tokens[0].text, left.tokens[1..];
      if IsListOp(op) && StartsList(rest) then
        var values := ParseValues(rest[1..], left.params);
        if values.None? || values.value.tokens == [] || values.value.tokens[0] != RParen then None
        else Some(Read(OneOf(left.found, op, values.value.found), values.value.tokens[1..], values.value.params))
      else if IsChainOp(op) then ParseChain(left, op)
      else if op != "->>" && op !in OPERATORS then None
      else
        var right := ParseExpr(rest, left.params);
        if right.None? || right.value.tokens == [] || right.value.tokens[0] != RParen then None
        else
          var whole := if op == "->>" then Extract(left.found, right.value.found)
            else Infix(left.found, op, right.value.found);
          Some(Read(whole, right.value.tokens[1..], right.value.params))
  }

  /** A parenthesis, a placeholder, and then a comma or the end: a list of values. */
  predicate StartsList(ts: seq<Token>) {
    |ts| >= 3 && ts[0] == LParen && ts[1] == Param && (ts[2] == Comma || ts[2] == RParen)
  }

  function ParseValues(ts: seq<Token>, ps: seq<Literal>): (r: Option<Read<seq<Literal>>>)
    ensures r.Some? ==> |r.value.tokens| < |ts|
    decreases |ts|
  {
    if |ts| < 2 || ts[0] != Param || ps == [] then None
    else if ts[1] == RParen then Some(Read([ps[0]], ts[2..], ps[1..]))
    else if ts[1] == Comma then
      var rest := ParseValues(ts[2..], ps[1..]);
      if rest.None? then None else Some(Read([ps[0]] + rest.value.found, rest.value.tokens, rest.value.params))
    else None
  }

  /** A chain of one operator, associating to the left. */
  function ParseChain(acc: Read<Parsed>, op: string): (r: Option<Read<Parsed>>)
    ensures r.Some? ==> |r.value.tokens| < |acc.tokens|
    decreases |acc.tokens|, 1
  {
    if acc.tokens == [] then None
    else if acc.tokens[0] == RParen then Some(Read(acc.found, acc.tokens[1..], acc.params))
    else if acc.tokens[0] == Word(op) then
      var right := ParseExpr(acc.tokens[1..], acc.params);
      if right.None? then None
      else ParseChain(Read(Infix(acc.found, op, right.value.found), right.value.tokens, right.value.params), op)
    else None
  }

  // ----- the normal form -----

  /** Upper-cased operators and names, literal lists expanded, empty lists as constants, JSON_EXTRACT as an operator. */
  function Norm(e: Expr): Parsed
    decreases e, 1, 0
  {
    match e
    case Column(name, table) => Ref(name, table)
    case Value(literal) => Bound(literal)
    case Binary(left, operator, right) =>
      var op := Upper(operator);
      if IsListOp(op) && right.Value? && right.literal.List? then
        if right.literal.items == [] then Constant(op == "NOT IN") else OneOf(Norm(left), op, right.literal.items)
      else Infix(Norm(left), op, Norm(right))
    case Function(name, args) =>
      if Upper(name) == "JSON_EXTRACT" && |args| >= 2 then Extract(Norm(args[0]), Norm(args[1]))
      else Call(Upper(name), NormArgs(e, 0))
  }

  function NormArgs(e: Expr, i: nat): seq<Parsed>
    requires e.Function? && i <= |e.args|
    decreases e, 0, |e.args| - i
  {
    if i == |e.args| then [] else [Norm(e.args[i])] + NormArgs(e, i + 1)
  }

  // ----- what compiled text looks like -----

  /**
    Text of an operand: not empty, a first token that starts one, and a leading placeholder stands alone or
    before an operator.
   */
  predicate OperandText(ts: seq<Token>) {
    && ts != []
    && (ts[0].Ident? || ts[0] == Param || ts[0] == LParen || ts[0].Word?)
    && (ts[0] == Param && |ts| > 1 ==> ts[1].Word?)
    && (ts[0] == LParen ==> |ts| >= 3 && !StartsList(ts))
  }

  lemma {:induction false} CompiledIsOperand(e: Expr)
    requires Compile(e).Success?
    ensures OperandText(Compile(e).value.tokens)
    decreases e, 1
  {
    match e
    case Binary(left, operator, right) =>
      if IsChainOp(operator) {
        ChainIsOperand(left, operator);
        InParentheses(CompileChain(left, operator).value, Word(operator), Compile(right).value);
      } else if IsListOp(Upper(operator)) && right.Value? && right.literal.List? {
        var values := right.literal.items;
        if values != [] {
          CompiledIsOperand(left);
          InParentheses(Compile(left).value, Word(Upper(operator)), Parenthesized(Sql(Placeholders(|values|), values)));
        }
      } else {
        CompiledIsOperand(left);
        InParentheses(Compile(left).value, Word(Upper(operator)), Compile(right).value);
      }
    case Function(name, args) =>
      if Upper(name) == "JSON_EXTRACT" {
        var all := CompileArgs(e, 0).value;
        CompiledIsOperand(args[0]);
        InParentheses(all[0], Word("->>"), all[1]);
      }
    case _ =>
  }

  lemma InParentheses(l: Sql, w: Token, r: Sql)
    requires OperandText(l.tokens) && w.Word?
    ensures OperandText(Parenthesized(Append(l, w, r)).tokens)
  {
    var ts := Parenthesized(Append(l, w, r)).tokens;
    assert ts[1] == l.tokens[0];
    assert |ts| >= 3 && ts[2] == if |l.tokens| > 1 then l.tokens[1] else w;
  }

  lemma {:induction false} ChainIsOperand(e: Expr, op: string)
    requires CompileChain(e, op).Success?
    ensures OperandText(CompileChain(e, op).value.tokens)
    decreases e, 2
  {
    if e.Binary? && e.operator == op {
      ChainIsOperand(e.left, op);
      var l, r := CompileChain(e.left, op).value, Compile(e.right).value;
      var ts := Append(l, Word(op), r).tokens;
      assert ts[0] == l.tokens[0];
      assert |ts| > 1 && ts[1] == if |l.tokens| > 1 then l.tokens[1] else Word(op);
      assert |l.tokens| == 2 ==> ts[2] == Word(op);
      assert |l.tokens| == 1 ==> ts[1] == Word(op);
      assert |l.tokens| > 2 ==> ts[2] == l.tokens[2];
    } else {
      CompiledIsOperand(e);
    }
  }

  // ----- sequences -----

  lemma Parenthesis(l: seq<Token>, w: Token, r: seq<Token>, tail: seq<Token>)
    ensures [LParen] + (l + [w] + r) + [RParen] + tail == [LParen] + (l + ([w] + (r + ([RParen] + tail))))
  {
  }

  lemma Cons(x: Token, rest: seq<Token>)
    ensures ([x] + rest)[0] == x && ([x] + rest)[1..] == rest && [x] + rest != []
  {
  }

  lemma Params(a: seq<Literal>, b: seq<Literal>, more: seq<Literal>)
    ensures a + b + more == a + (b + more)
  {
  }

  // ----- reading undoes compiling -----

  lemma {:induction false} ValuesParsed(values: seq<Literal>, ts: seq<Token>, ps: seq<Literal>, tail: seq<Token>,
      more: seq<Literal>)
    requires values != [] && ts == Placeholders(|values|) + ([RParen] + tail) && ps == values + more
    ensures ParseValues(ts, ps) == Some(Read(values, tail, more))
    decreases |values|
  {
    if |values| == 1 {
      assert ts == [Param, RParen] + tail && ts[2..] == tail;
      assert values == [ps[0]] && ps[1..] == more;
    } else {
      var rest := Placeholders(|values| - 1) + ([RParen] + tail);
      assert ts == [Param, Comma] + rest && ts[2..] == rest;
      assert ps[1..] == values[1..] + more;
      ValuesParsed(values[1..], rest, ps[1..], tail, more);
      assert [values[0]] + values[1..] == values;
    }
  }

  lemma ListRest(left: Parsed, op: string, values: seq<Literal>, tail: seq<Token>, more: seq<Literal>)
    requires values != [] && IsListOp(op)
    ensures ParseRest(Read(left, [Word(op)] + ([LParen] + Placeholders(|values|) + [RParen] + ([RParen] + tail)),
      values + more))
      == Some(Read(OneOf(left, op, values), tail, more))
  {
    var list := Placeholders(|values|) + ([RParen] + ([RParen] + tail));
    var rest := [LParen] + Placeholders(|values|) + [RParen] + ([RParen] + tail);
    assert rest == [LParen] + list;
    assert rest[1..] == list;
    assert StartsList(rest);
    Cons(Word(op), rest);
    ValuesParsed(values, list, values + more, [RParen] + tail, more);
    Cons(RParen, tail);
  }

  /** After a left operand: an operator, a right operand, and the closing parenthesis. */
  lemma InfixRest(left: Parsed, op: string, right: Expr, rightTokens: seq<Token>, ps: seq<Literal>,
      tail: seq<Token>, more: seq<Literal>)
    requires op == "->>" || (op in OPERATORS && !IsChainOp(op))
    requires OperandText(rightTokens)
    requires ParseExpr(rightTokens + ([RParen] + tail), ps) == Some(Read(Norm(right), [RParen] + tail, more))
    ensures ParseRest(Read(left, [Word(op)] + (rightTokens + ([RParen] + tail)), ps)) ==
      Some(Read(if op == "->>" then Extract(left, Norm(right)) else Infix(left, op, Norm(right)), tail, more))
  {
    hide ParseExpr;
    var rest := rightTokens + ([RParen] + tail);
    Cons(Word(op), rest);
    Cons(RParen, tail);
    NotAList(rightTokens, RParen, tail);
  }

  lemma NotAList(ts: seq<Token>, next: Token, tail: seq<Token>)
    requires OperandText(ts)
    ensures !StartsList(ts + ([next] + tail))
  {
    var all := ts + ([next] + tail);
    assert all[0] == ts[0];
    if |ts| >= 3 {
      assert all[1] == ts[1] && all[2] == ts[2];
    }
  }

  /** What may follow an expression: anything but the dot of a qualified name. */
  predicate Follows(tail: seq<Token>) {
    tail == [] || tail[0] != Dot
  }

  /** After an opening parenthesis comes the left operand, not the constant of an empty list. */
  lemma ParenthesisRead(l: seq<Token>, more: seq<Token>, ps: seq<Literal>, left: Read<Parsed>)
    requires OperandText(l) && ParseExpr(l + more, ps) == Some(left)
    ensures ParseExpr([LParen] + (l + more), ps) == ParseRest(left)
  {
    hide ParseRest;
    Cons(LParen, l + more);
    assert ([LParen] + (l + more))[1] == l[0];
  }

  /** Two operands and an operator that is no chain operator, or a chain of two in another case. */
  lemma PairParsed(left: Expr, op: string, right: Expr, l: Sql, r: Sql, tail: seq<Token>, more: seq<Literal>)
    requires op == "->>" || op in OPERATORS
    requires OperandText(l.tokens) && OperandText(r.tokens)
    requires var rest := [Word(op)] + (r.tokens + ([RParen] + tail));
      ParseExpr(l.tokens + rest, l.params + (r.params + more)) == Some(Read(Norm(left), rest, r.params + more))
    requires ParseExpr(r.tokens + ([RParen] + tail), r.params + more) == Some(Read(Norm(right), [RParen] + tail, more))
    ensures ParseExpr(Parenthesized(Append(l, Word(op), r)).tokens + tail, Append(l, Word(op), r).params + more) ==
      Some(Read(if op == "->>" then Extract(Norm(left), Norm(right)) else Infix(Norm(left), op, Norm(right)),
                tail, more))
  {
    hide ParseExpr, ParseRest, OperandText;
    var rest := [Word(op)] + (r.tokens + ([RParen] + tail));
    Parenthesis(l.tokens, Word(op), r.tokens, tail);
    Params(l.params, r.params, more);
    ParenthesisRead(l.tokens, rest, l.params + (r.params + more), Read(Norm(left), rest, r.params + more));
    if IsChainOp(op) {
      PairChain(Norm(left), op, Norm(right), r.tokens, r.params + more, tail, more);
    } else {
      InfixRest(Norm(left), op, right, r.tokens, r.params + more, tail, more);
    }
  }

  lemma PairChain(left: Parsed, op: string, right: Parsed, rightTokens: seq<Token>, ps: seq<Literal>,
      tail: seq<Token>, more: seq<Literal>)
    requires IsChainOp(op)
    requires ParseExpr(rightTokens + ([RParen] + tail), ps) == Some(Read(right, [RParen] + tail, more))
    ensures ParseRest(Read(left, [Word(op)] + (rightTokens + ([RParen] + tail)), ps)) ==
      Some(Read(Infix(left, op, right), tail, more))
  {
    hide ParseExpr;
    Cons(Word(op), rightTokens + ([RParen] + tail));
    Cons(RParen, tail);
    ChainEnd(Infix(left, op, right), op, tail, more);
  }

  lemma ChainEnd(acc: Parsed, op: string, tail: seq<Token>, more: seq<Literal>)
    ensures ParseChain(Read(acc, [RParen] + tail, more), op) == Some(Read(acc, tail, more))
  {
    Cons(RParen, tail);
  }

  lemma ChainStep(acc: Parsed, op: string, rest: seq<Token>, ps: seq<Literal>, right: Read<Parsed>)
    requires ParseExpr(rest, ps) == Some(right)
    ensures ParseChain(Read(acc, [Word(op)] + rest, ps), op) ==
      ParseChain(Read(Infix(acc, op, right.found), right.tokens, right.params), op)
  {
    Cons(Word(op), rest);
  }

  /** Reading a compiled expression returns its normal form and leaves exactly what follows it. */
  lemma {:induction false} ParseCompiled(e: Expr, tail: seq<Token>, more: seq<Literal>)
    requires Compile(e).Success? && Follows(tail)
    ensures var c := Compile(e).value; ParseExpr(c.tokens + tail, c.params + more) == Some(Read(Norm(e), tail, more))
    decreases e, 1, 0
  {
    match e
    case Column(_, _) => LeafParsed(e, tail, more);
    case Value(_) => LeafParsed(e, tail, more);
    case Binary(left, operator, right) =>
      if IsChainOp(operator) {
        FlattenedParsed(e, tail, more);
      } else if IsListOp(Upper(operator)) && right.Value? && right.literal.List? {
        ListParsed(e, tail, more);
      } else {
        BinaryParsed(e, tail, more);
      }
    case Function(name, args) =>
      if Upper(name) == "JSON_EXTRACT" {
        ExtractParsed(e, tail, more);
      } else {
        CallParsed(e, tail, more);
      }
  }

  lemma LeafParsed(e: Expr, tail: seq<Token>, more: seq<Literal>)
    requires (e.Column? || e.Value?) && Compile(e).Success? && Follows(tail)
    ensures var c := Compile(e).value; ParseExpr(c.tokens + tail, c.params + more) == Some(Read(Norm(e), tail, more))
  {
    var ts, ps := Compile(e).value.tokens + tail, Compile(e).value.params + more;
    if e.Value? {
      assert ts == [Param] + tail && ts[1..] == tail && ps[1..] == more;
    } else if e.table == "" {
      assert ts == [Ident(e.name)] + tail && ts[1..] == tail && ps == more;
    } else {
      assert ts == [Ident(e.table), Dot, Ident(e.name)] + tail && ts[3..] == tail && ps == more;
    }
  }

  lemma BinaryShape(e: Expr)
    requires e.Binary? && Compile(e).Success?
    requires !IsChainOp(e.operator) && !(IsListOp(Upper(e.operator)) && e.right.Value? && e.right.literal.List?)
    ensures Compile(e.left).Success? && Compile(e.right).Success? && Upper(e.operator) in OPERATORS
    ensures Compile(e).value == Parenthesized(Append(Compile(e.left).value, Word(Upper(e.operator)),
      Compile(e.right).value))
    ensures Norm(e) == Infix(Norm(e.left), Upper(e.operator), Norm(e.right))
  {
  }

  lemma {:induction false} BinaryParsed(e: Expr, tail: seq<Token>, more: seq<Literal>)
    requires e.Binary? && Compile(e).Success?
    requires !IsChainOp(e.operator) && !(IsListOp(Upper(e.operator)) && e.right.Value? && e.right.literal.List?)
    ensures var c := Compile(e).value; ParseExpr(c.tokens + tail, c.params + more) == Some(Read(Norm(e), tail, more))
    decreases e, 0, 0
  {
    hide ParseExpr, ParseRest, OperandText, Compile, Norm, Upper;
    BinaryShape(e);
    var op := Upper(e.operator);
    var l, r := Compile(e.left).value, Compile(e.right).value;
    assert Follows([RParen] + tail) && Follows([Word(op)] + (r.tokens + ([RParen] + tail)));
    CompiledIsOperand(e.left);
    CompiledIsOperand(e.right);
    ParseCompiled(e.left, [Word(op)] + (r.tokens + ([RParen] + tail)), r.params + more);
    ParseCompiled(e.right, [RParen] + tail, more);
    PairParsed(e.left, op, e.right, l, r, tail, more);
  }

  lemma {:induction false} ListParsed(e: Expr, tail: seq<Token>, more: seq<Literal>)
    requires e.Binary? && Compile(e).Success?
    requires !IsChainOp(e.operator) && IsListOp(Upper(e.operator)) && e.right.Value? && e.right.literal.List?
    ensures var c := Compile(e).value; ParseExpr(c.tokens + tail, c.params + more) == Some(Read(Norm(e), tail, more))
    decreases e, 0, 0
  {
    var op, values := Upper(e.operator), e.right.literal.items;
    if values == [] {
      var ts := Compile(e).value.tokens + tail;
      assert ts[5..] == tail && [] + more == more;
    } else {
      hide ParseExpr, ParseRest, OperandText;
      var l := Compile(e.left).value;
      var list := [LParen] + Placeholders(|values|) + [RParen];
      var rest := [Word(op)] + (list + ([RParen] + tail));
      CompiledIsOperand(e.left);
      ParseCompiled(e.left, rest, values + more);
      Parenthesis(l.tokens, Word(op), list, tail);
      Params(l.params, values, more);
      ParenthesisRead(l.tokens, rest, l.params + (values + more), Read(Norm(e.left), rest, values + more));
      ListRest(Norm(e.left), op, values, tail, more);
    }
  }

  lemma {:induction false} ExtractParsed(e: Expr, tail: seq<Token>, more: seq<Literal>)
    requires e.Function? && Upper(e.name) == "JSON_EXTRACT" && Compile(e).Success?
    ensures var c := Compile(e).value; ParseExpr(c.tokens + tail, c.params + more) == Some(Read(Norm(e), tail, more))
    decreases e, 0, 0
  {
    hide ParseExpr, OperandText;
    assert CompileArgs(e, 0).Success? && CompileArgs(e, 1).Success?;
    var l, r := Compile(e.args[0]).value, Compile(e.args[1]).value;
    assert CompileArgs(e, 0).value[0] == l && CompileArgs(e, 0).value[1] == r;
    CompiledIsOperand(e.args[0]);
    CompiledIsOperand(e.args[1]);
    ParseCompiled(e.args[0], [Word("->>")] + (r.tokens + ([RParen] + tail)), r.params + more);
    ParseCompiled(e.args[1], [RParen] + tail, more);
    PairParsed(e.args[0], "->>", e.args[1], l, r, tail, more);
  }

  /** Reading a chain takes its first operand and folds the others onto it. */
  lemma {:induction false} ChainParsed(e: Expr, op: string, tail: seq<Token>, more: seq<Literal>)
    requires IsChainOp(op) && CompileChain(e, op).Success? && Follows(tail)
    ensures var c := CompileChain(e, op).value;
      var first := ParseExpr(c.tokens + tail, c.params + more);
      && first.Some?
      && ParseChain(first.value, op) == ParseChain(Read(Norm(e), tail, more), op)
      && (e.Binary? && e.operator == op ==> first.value.tokens != [] && first.value.tokens[0] == Word(op))
      && (!(e.Binary? && e.operator == op) ==> first.value == Read(Norm(e), tail, more))
    decreases e, if e.Binary? && e.operator == op then 0 else 2, 0
  {
    hide ParseExpr, ParseChain;
    if e.Binary? && e.operator == op {
      var l, r := CompileChain(e.left, op).value, Compile(e.right).value;
      var rest := [Word(op)] + (r.tokens + tail);
      assert (l.tokens + [Word(op)] + r.tokens) + tail == l.tokens + rest;
      Params(l.params, r.params, more);
      Cons(Word(op), r.tokens + tail);
      ChainParsed(e.left, op, rest, r.params + more);
      ParseCompiled(e.right, tail, more);
      ChainStep(Norm(e.left), op, r.tokens + tail, r.params + more, Read(Norm(e.right), tail, more));
      ChainUpper(op);
    } else {
      ParseCompiled(e, tail, more);
    }
  }

  lemma ChainUpper(op: string)
    requires IsChainOp(op)
    ensures Upper(op) == op && !IsListOp(op)
  {
    assert "AND"[0] == 'A' && "OR"[0] == 'O';
  }

  lemma {:induction false} FlattenedParsed(e: Expr, tail: seq<Token>, more: seq<Literal>)
    requires e.Binary? && IsChainOp(e.operator) && Compile(e).Success?
    ensures var c := Compile(e).value; ParseExpr(c.tokens + tail, c.params + more) == Some(Read(Norm(e), tail, more))
    decreases e, 0, 1
  {
    hide ParseExpr, ParseChain, OperandText;
    var op := e.operator;
    ChainUnfolds(e);
    var chain := CompileChain(e, op).value;
    var end := [RParen] + tail;
    ChainIsOperand(e, op);
    ChainParsed(e, op, end, more);
    var first := ParseExpr(chain.tokens + end, chain.params + more).value;
    assert [LParen] + chain.tokens + [RParen] + tail == [LParen] + (chain.tokens + end);
    ParenthesisRead(chain.tokens, end, chain.params + more, first);
    ChainRest(first, op);
    ChainEnd(Norm(e), op, tail, more);
  }

  lemma ChainRest(first: Read<Parsed>, op: string)
    requires first.tokens != [] && first.tokens[0] == Word(op) && IsChainOp(op)
    ensures ParseRest(first) == ParseChain(first, op)
  {
  }

  lemma CallShape(e: Expr)
    requires e.Function? && Upper(e.name) != "JSON_EXTRACT" && Compile(e).Success?
    ensures CompileArgs(e, 0).Success? && Upper(e.name) in FUNCTIONS
    ensures var list := Listed(CompileArgs(e, 0).value);
      Compile(e).value == Sql([Word(Upper(e.name)), LParen] + list.tokens + [RParen], list.params)
    ensures Norm(e) == Call(Upper(e.name), NormArgs(e, 0))
  {
  }

  lemma CallRead(f: string, inner: seq<Token>, ps: seq<Literal>)
    requires f in FUNCTIONS && inner != [] && inner[0] != RParen
    ensures ParseExpr([Word(f), LParen] + inner, ps) ==
      (var args := ParseArgs(inner, ps);
       if args.None? then None else Some(Read(Call(f, args.value.found), args.value.tokens, args.value.params)))
  {
    hide ParseArgs;
    var ts := [Word(f), LParen] + inner;
    assert ts[2..] == inner;
  }

  lemma {:induction false} CallParsed(e: Expr, tail: seq<Token>, more: seq<Literal>)
    requires e.Function? && Upper(e.name) != "JSON_EXTRACT" && Compile(e).Success?
    ensures var c := Compile(e).value; ParseExpr(c.tokens + tail, c.params + more) == Some(Read(Norm(e), tail, more))
    decreases e, 0, |e.args| + 1
  {
    CallShape(e);
    hide Compile, CompileArgs, ParseArgs, NormArgs, Norm;
    var list := Listed(CompileArgs(e, 0).value);
    var end := [RParen] + tail;
    var ts := [Word(Upper(e.name)), LParen] + (list.tokens + end);
    assert Compile(e).value.tokens + tail == ts;
    if e.args == [] {
      assert list == Sql([], []) && ts[2] == RParen && ts[3..] == tail && [] + more == more;
      NoArgs(e);
    } else {
      hide ParseExpr;
      ArgsParsed(e, 0, tail, more);
      ArgsStart(e, 0);
      assert (list.tokens + end)[0] == list.tokens[0];
      CallRead(Upper(e.name), list.tokens + end, list.params + more);
    }
  }

  lemma NoArgs(e: Expr)
    requires e.Function? && e.args == []
    ensures NormArgs(e, 0) == []
  {
  }

  lemma ArgsStart(e: Expr, i: nat)
    requires e.Function? && i < |e.args| && CompileArgs(e, i).Success?
    ensures var list := Listed(CompileArgs(e, i).value); list.tokens != [] && list.tokens[0] != RParen
  {
    CompiledIsOperand(e.args[i]);
    var all := CompileArgs(e, i).value;
    assert all[0] == Compile(e.args[i]).value;
  }

  lemma {:induction false} ArgsParsed(e: Expr, i: nat, tail: seq<Token>, more: seq<Literal>)
    requires e.Function? && i < |e.args| && CompileArgs(e, i).Success?
    ensures var list := Listed(CompileArgs(e, i).value);
      ParseArgs(list.tokens + ([RParen] + tail), list.params + more) == Some(Read(NormArgs(e, i), tail, more))
    decreases e, 0, |e.args| - i
  {
    hide ParseExpr, Compile, Norm;
    var all := CompileArgs(e, i).value;
    var first := Compile(e.args[i]).value;
    var end := [RParen] + tail;
    if i + 1 == |e.args| {
      assert all == [first] && NormArgs(e, i) == [Norm(e.args[i])];
      ParseCompiled(e.args[i], end, more);
      Cons(RParen, tail);
    } else {
      var rest := CompileArgs(e, i + 1).value;
      assert all[1..] == rest;
      var list := Listed(rest);
      assert first.tokens + [Comma] + list.tokens + end == first.tokens + ([Comma] + (list.tokens + end));
      Params(first.params, list.params, more);
      ParseCompiled(e.args[i], [Comma] + (list.tokens + end), list.params + more);
      Cons(Comma, list.tokens + end);
      ArgsParsed(e, i + 1, tail, more);
    }
  }

  // ----- consequences -----

  /** The compiled text alone reads back, with every parameter used. */
  lemma ReadBack(e: Expr)
    requires Compile(e).Success?
    ensures ParseExpr(Compile(e).value.tokens, Compile(e).value.params) == Some(Read(Norm(e), [], []))
  {
    hide ParseExpr, Compile, Norm;
    var c := Compile(e).value;
    ParseCompiled(e, [], []);
    assert c.tokens + [] == c.tokens && c.params + [] == c.params;
  }

  /** Expressions with the same text and parameters have the same normal form. */
  lemma SameTextSameExpression(a: Expr, b: Expr)
    requires Compile(a).Success? && Compile(a) == Compile(b)
    ensures Norm(a) == Norm(b)
  {
    ReadBack(a);
    ReadBack(b);
  }
}
