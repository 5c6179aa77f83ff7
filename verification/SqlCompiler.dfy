/**
  The SQL compiler's expressions: the syntax tree, the checks on names and operators, and
  the compilation to tokens with their parameters. A token stands for its text; an
  identifier token for the name in double quotes.
 */
module SqlCompiler {
  import opened Wrappers

  /** A bound value; `IN` lists are arrays. */
  datatype Literal = Scalar(handle: nat) | List(items: seq<Literal>)

  /** An absent table is the empty string, which the compiler treats alike. */
  datatype Expr =
    | Column(name: string, table: string)
    | Value(literal: Literal)
    | Binary(left: Expr, operator: string, right: Expr)
    | Function(name: string, args: seq<Expr>)

  datatype Token = Ident(name: string) | Word(text: string) | Dot | Param | LParen | RParen | Comma | Num(n: int)

  datatype Sql = Sql(tokens: seq<Token>, params: seq<Literal>)

  datatype Error =
    | BadIdentifier(name: string)
    | BadOperator(operator: string)
    | BadFunction(name: string)
    | JsonExtractArity
    | BadJoinType(kind: string)
    | NoTable

  const OPERATORS := {"=", "!=", "<", "<=", ">", ">=", "LIKE", "ILIKE", "IN", "NOT IN", "IS", "IS NOT", "AND", "OR",
    "||"}

  const FUNCTIONS := {"COUNT", "SUM", "AVG", "MIN", "MAX", "COALESCE", "LOWER", "UPPER", "NOW", "DATE", "SUBSTR",
                      "SUBSTRING", "JSON_EXTRACT"}

  // ----- names -----

  predicate Letter(c: char) {
    'a' <= c <= 'z' || 'A' <= c <= 'Z' || c == '_'
  }

  /** The ASCII identifier pattern. */
  predicate ValidIdentifier(name: string) {
    name != "" && Letter(name[0]) && forall i :: 0 < i < |name| ==> Letter(name[i]) || '0' <= name[i] <= '9'
  }

  /** `toUpperCase` on ASCII text. */
  function Upper(s: string): (r: string)
    ensures |r| == |s|
  {
    seq(|s|, i requires 0 <= i < |s| => if 'a' <= s[i] <= 'z' then (s[i] as int - 32) as char else s[i])
  }

  function Quote(name: string): Result<Token, Error> {
    if ValidIdentifier(name) then Success(Ident(name)) else Failure(BadIdentifier(name))
  }

  predicate IsListOp(op: string) {
    op == "IN" || op == "NOT IN"
  }

  /** The operators whose chains are flattened; only this exact case is. */
  predicate IsChainOp(op: string) {
    op == "AND" || op == "OR"
  }

  // ----- compilation -----

  function Append(a: Sql, w: Token, b: Sql): Sql {
    Sql(a.tokens + [w] + b.tokens, a.params + b.params)
  }

  function Parenthesized(a: Sql): Sql {
    Sql([LParen] + a.tokens + [RParen], a.params)
  }

  /** n placeholders with commas between. */
  function Placeholders(n: nat): seq<Token> {
    if n == 0 then [] else if n == 1 then [Param] else [Param, Comma] + Placeholders(n - 1)
  }

  /** Compiled arguments with commas between. */
  function Listed(args: seq<Sql>): Sql
    decreases |args|
  {
    if args == [] then Sql([], [])
    else if |args| == 1 then args[0]
    else Append(args[0], Comma, Listed(args[1..]))
  }

  /** `compileExpression`. */
  function Compile(e: Expr): Result<Sql, Error>
    decreases e, 1, 0
  {
    match e
    case Column(name, table) =>
      var column :- Quote(name);
      if table == "" then Success(Sql([column], []))
      else
        var prefix :- Quote(table);
        Success(Sql([prefix, Dot, column], []))
    case Value(literal) => Success(Sql([Param], [literal]))
    case Binary(left, operator, right) =>
      if IsChainOp(operator) then
        var l :- CompileChain(left, operator);
        var r :- Compile(right);
        Success(Parenthesized(Append(l, Word(operator), r)))
      else
        var op := Upper(operator);
        if op !in OPERATORS then Failure(BadOperator(operator))
        else if IsListOp(op) && right.Value? && right.literal.List? then
          var values := right.literal.items;
          if values == [] then Success(Sql([LParen, Num(1), Word("="), Num(if op == "IN" then 0 else 1), RParen], []))
          else
            var l :- Compile(left);
            Success(Parenthesized(Append(l, Word(op), Parenthesized(Sql(Placeholders(|values|), values)))))
        else
          var l :- Compile(left);
          var r :- Compile(right);
          Success(Parenthesized(Append(l, Word(op), r)))
    case Function(name, args) =>
      if Upper(name) == "JSON_EXTRACT" then
        var all :- CompileArgs(e, 0);
        if |all| < 2 then Failure(JsonExtractArity)
        else Success(Parenthesized(Append(all[0], Word("->>"), all[1])))
      else if Upper(name) !in FUNCTIONS then Failure(BadFunction(name))
      else
        var all :- CompileArgs(e, 0);
        var list := Listed(all);
        Success(Sql([Word(Upper(name)), LParen] + list.tokens + [RParen], list.params))
  }

  /** A left-heavy chain of one operator, without the parentheses. */
  function CompileChain(e: Expr, op: string): Result<Sql, Error>
    decreases e, 2, 0
  {
    if e.Binary? && e.operator == op then
      var l :- CompileChain(e.left, op);
      var r :- Compile(e.right);
      Success(Append(l, Word(op), r))
    else Compile(e)
  }

  /** The arguments of a function from i on, each compiled. */
  function CompileArgs(e: Expr, i: nat): (r: Result<seq<Sql>, Error>)
    requires e.Function? && i <= |e.args|
    ensures r.Success? ==> |r.value| == |e.args| - i
    decreases e, 0, |e.args| - i
  {
    if i == |e.args| then Success([])
    else
      var first :- Compile(e.args[i]);
      var rest :- CompileArgs(e, i + 1);
      Success([first] + rest)
  }

  // ----- the compiler's own loop over chains -----

  /** Continues a chain with the operands on a stack, top first. */
  function ChainFold(acc: Result<Sql, Error>, op: string, stack: seq<Expr>): Result<Sql, Error>
    decreases |stack|
  {
    if acc.Failure? || stack == [] then acc
    else
      var r := Compile(stack[|stack| - 1]);
      ChainFold(if r.Failure? then r else Success(Append(acc.value, Word(op), r.value)), op, stack[..|stack| - 1])
  }

  /** `parts.join(op)`. */
  function JoinParts(parts: seq<seq<Token>>, op: string): seq<Token>
    decreases |parts|
  {
    if parts == [] then []
    else if |parts| == 1 then parts[0]
    else JoinParts(parts[..|parts| - 1], op) + [Word(op)] + parts[|parts| - 1]
  }

  method CompileExpression(e: Expr) returns (r: Result<Sql, Error>)
    ensures r == Compile(e)
    decreases e, 2
  {
    if e.Binary? && IsChainOp(e.operator) {
      r := CompileFlattened(e);
      return;
    }
    match e
    case Binary(left, operator, right) =>
      var op := Upper(operator);
      if op !in OPERATORS {
        return Failure(BadOperator(operator));
      }
      if IsListOp(op) && right.Value? && right.literal.List? {
        var values := right.literal.items;
        if |values| == 0 {
          return Success(Sql([LParen, Num(1), Word("="), Num(if op == "IN" then 0 else 1), RParen], []));
        }
        var l :- CompileExpression(left);
        return Success(Parenthesized(Append(l, Word(op), Parenthesized(Sql(Placeholders(|values|), values)))));
      }
      var l :- CompileExpression(left);
      var r2 :- CompileExpression(right);
      return Success(Parenthesized(Append(l, Word(op), r2)));
    case Function(name, _) =>
      var funcName := Upper(name);
      if funcName == "JSON_EXTRACT" {
        var all :- CompileArguments(e);
        if |all| < 2 {
          return Failure(JsonExtractArity);
        }
        return Success(Parenthesized(Append(all[0], Word("->>"), all[1])));
      }
      if funcName !in FUNCTIONS {
        return Failure(BadFunction(name));
      }
      var all :- CompileArguments(e);
      var list := Listed(all);
      return Success(Sql([Word(funcName), LParen] + list.tokens + [RParen], list.params));
    case _ => r := Compile(e);
  }

  method CompileArguments(e: Expr) returns (r: Result<seq<Sql>, Error>)
    requires e.Function?
    ensures r == CompileArgs(e, 0)
    decreases e, 1
  {
    var done: seq<Sql> := [];
    var i := 0;
    ghost var all := CompileArgs(e, 0);
    assert all.Success? ==> done + all.value == all.value;
    while i < |e.args|
      invariant 0 <= i <= |e.args|
      invariant CompileArgs(e, 0) == Prepend(done, CompileArgs(e, i))
    {
      var one := CompileExpression(e.args[i]);
      if one.Failure? {
        return Failure(one.error);
      }
      ghost var rest := CompileArgs(e, i + 1);
      if rest.Success? {
        assert done + ([one.value] + rest.value) == done + [one.value] + rest.value;
      }
      done := done + [one.value];
      i := i + 1;
    }
    assert done + [] == done;
    r := Success(done);
  }

  function Prepend(done: seq<Sql>, rest: Result<seq<Sql>, Error>): Result<seq<Sql>, Error> {
    if rest.Failure? then rest else Success(done + rest.value)
  }

  /** The AND/OR branch: an explicit stack instead of recursion on the left spine. */
  method CompileFlattened(e: Expr) returns (r: Result<Sql, Error>)
    requires e.Binary? && IsChainOp(e.operator)
    ensures r == Compile(e)
    decreases e, 0, 1
  {
    var stack := Flatten(e, e.operator);
    var parts := CompileStack(e, e.operator, stack);
    ChainUnfolds(e);
    if parts.Failure? {
      return parts;
    }
    r := Success(Parenthesized(parts.value));
  }

  lemma ChainUnfolds(e: Expr)
    requires e.Binary? && IsChainOp(e.operator)
    ensures Compile(e) ==
      (var chain := CompileChain(e, e.operator);
       if chain.Failure? then chain else Success(Parenthesized(chain.value)))
  {
  }

  /** The right operands of a left-heavy chain, rightmost first, and on top its leftmost operand. */
  method Flatten(e: Expr, op: string) returns (stack: seq<Expr>)
    requires e.Binary? && e.operator == op
    ensures stack != [] && forall i :: 0 <= i < |stack| ==> stack[i] < e
    ensures CompileFirst(op, stack) == CompileChain(e, op)
  {
    hide Compile, CompileChain, ChainFold;
    var current := e;
    stack := [];
    FoldNothing(CompileChain(e, op), op);
    while current.Binary? && current.operator == op
      invariant current == e || current < e
      invariant forall i :: 0 <= i < |stack| ==> stack[i] < e
      invariant stack == [] ==> current == e
      invariant stack != [] ==> current < e
      invariant ChainFold(CompileChain(current, op), op, stack) == CompileChain(e, op)
      decreases current
    {
      UnfoldChain(current, op, stack);
      stack := stack + [current.right];
      current := current.left;
    }
    FoldStarts(current, op, stack);
    stack := stack + [current];
  }

  /** Pops and compiles the operands, leftmost first, and joins them. */
  method CompileStack(e: Expr, op: string, operands: seq<Expr>) returns (r: Result<Sql, Error>)
    requires operands != [] && forall i :: 0 <= i < |operands| ==> operands[i] < e
    ensures r == CompileFirst(op, operands)
    decreases e, 0, 0
  {
    hide Compile, ChainFold, JoinParts, Append;
    var stack := operands[..|operands| - 1];
    var first := CompileExpression(operands[|operands| - 1]);
    if first.Failure? {
      FoldFailure(first, op, stack);
      return first;
    }
    var parts, params := [first.value.tokens], first.value.params;
    OnePart(first.value.tokens, op);
    while |stack| > 0
      invariant forall i :: 0 <= i < |stack| ==> stack[i] < e
      invariant parts != []
      invariant ChainFold(Success(Sql(JoinParts(parts, op), params)), op, stack) == CompileFirst(op, operands)
      decreases |stack|
    {
      FoldStep(parts, params, op, stack);
      var node := stack[|stack| - 1];
      stack := stack[..|stack| - 1];
      var compiled := CompileExpression(node);
      if compiled.Failure? {
        return compiled;
      }
      parts := parts + [compiled.value.tokens];
      params := params + compiled.value.params;
    }
    FoldNothing(Success(Sql(JoinParts(parts, op), params)), op);
    r := Success(Sql(JoinParts(parts, op), params));
  }

  lemma FoldNothing(acc: Result<Sql, Error>, op: string)
    ensures ChainFold(acc, op, []) == acc
  {
  }

  lemma FoldFailure(acc: Result<Sql, Error>, op: string, stack: seq<Expr>)
    requires acc.Failure?
    ensures ChainFold(acc, op, stack) == acc
  {
  }

  lemma OnePart(part: seq<Token>, op: string)
    ensures JoinParts([part], op) == part
  {
  }

  lemma FoldStep(parts: seq<seq<Token>>, params: seq<Literal>, op: string, stack: seq<Expr>)
    requires parts != [] && stack != []
    ensures var top := Compile(stack[|stack| - 1]);
      ChainFold(Success(Sql(JoinParts(parts, op), params)), op, stack) ==
        if top.Failure? then top
        else ChainFold(Success(Sql(JoinParts(parts + [top.value.tokens], op), params + top.value.params)), op,
          stack[..|stack| - 1])
  {
    hide Compile;
    var top := Compile(stack[|stack| - 1]);
    if top.Success? {
      var more := parts + [top.value.tokens];
      assert more[..|more| - 1] == parts && more[|more| - 1] == top.value.tokens;
    } else {
      FoldFailure(top, op, stack[..|stack| - 1]);
    }
  }

  /** The fold of a whole stack: its top is the leftmost operand. */
  function CompileFirst(op: string, stack: seq<Expr>): Result<Sql, Error>
    requires stack != []
  {
    ChainFold(Compile(stack[|stack| - 1]), op, stack[..|stack| - 1])
  }

  lemma FoldStarts(current: Expr, op: string, stack: seq<Expr>)
    requires !(current.Binary? && current.operator == op)
    ensures CompileFirst(op, stack + [current]) == ChainFold(CompileChain(current, op), op, stack)
  {
    assert (stack + [current])[..|stack|] == stack;
  }

  lemma UnfoldChain(current: Expr, op: string, stack: seq<Expr>)
    requires current.Binary? && current.operator == op
    ensures ChainFold(CompileChain(current.left, op), op, stack + [current.right]) ==
      ChainFold(CompileChain(current, op), op, stack)
  {
    var more := stack + [current.right];
    assert more[|more| - 1] == current.right && more[..|more| - 1] == stack;
  }
}
