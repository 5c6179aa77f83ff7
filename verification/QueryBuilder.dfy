/**
  The query builders on one table: conditions gathered by `where`, the row filter pushed
  into a copy of the statement when it is executed, and what the compiled WHERE then admits.
 */
module QueryBuilder {
  import opened Wrappers
  import opened SqlCompiler
  import opened SqlParser
  import opened SqlMeaning
  import opened SqlStatements
  import opened SqlReader
  import opened SqlSafety

  // ----- what builders accept -----

  /** `validateExpression`: the first objection, if any. Bound values are finite trees, never circular. */
  function Objection(e: Expr): Option<Error>
    decreases e, 1, 0
  {
    match e
    case Column(name, table) =>
      if table != "" && !ValidIdentifier(table) then Some(BadIdentifier(table))
      else if !ValidIdentifier(name) then Some(BadIdentifier(name))
      else None
    case Value(_) => None
    case Binary(left, operator, right) =>
      if Upper(operator) !in OPERATORS then Some(BadOperator(operator))
      else if Objection(left).Some? then Objection(left)
      else Objection(right)
    case Function(name, args) =>
      if Upper(name) !in FUNCTIONS then Some(BadFunction(name)) else ArgsObjection(e, 0)
  }

  function ArgsObjection(e: Expr, i: nat): Option<Error>
    requires e.Function? && i <= |e.args|
    decreases e, 0, |e.args| - i
  {
    if i == |e.args| then None
    else if Objection(e.args[i]).Some? then Objection(e.args[i])
    else ArgsObjection(e, i + 1)
  }

  /**
    Every JSON_EXTRACT that gets compiled has at least two arguments; the left side of an empty list is not
    compiled.
   */
  predicate EnoughArgs(e: Expr)
    decreases e, 1, 0
  {
    match e
    case Binary(left, operator, right) =>
      if IsListOp(Upper(operator)) && right.Value? && right.literal.List? then
        right.literal.items == [] || EnoughArgs(left)
      else EnoughArgs(left) && EnoughArgs(right)
    case Function(name, args) => (Upper(name) == "JSON_EXTRACT" ==> |args| >= 2) && ArgsEnough(e, 0)
    case _ => true
  }

  predicate ArgsEnough(e: Expr, i: nat)
    requires e.Function? && i <= |e.args|
    decreases e, 0, |e.args| - i
  {
    i == |e.args| || (EnoughArgs(e.args[i]) && ArgsEnough(e, i + 1))
  }

  predicate CompilesIff(r: Result<Sql, Error>, ok: bool) {
    (r.Success? <==> ok) && (r.Failure? ==> r.error == JsonExtractArity)
  }

  /** The error names something in the expression that is wrong. */
  predicate Wrong(e: Expr, error: Error)
    decreases e, 1, 0
  {
    match e
    case Column(name, table) =>
      || (error == BadIdentifier(name) && !ValidIdentifier(name))
      || (error == BadIdentifier(table) && table != "" && !ValidIdentifier(table))
    case Value(_) => false
    case Binary(left, operator, right) =>
      || (error == BadOperator(operator) && Upper(operator) !in OPERATORS)
      || Wrong(left, error) || Wrong(right, error)
    case Function(name, args) => (error == BadFunction(name) && Upper(name) !in FUNCTIONS) || ArgWrong(e, 0, error)
  }

  predicate ArgWrong(e: Expr, i: nat, error: Error)
    requires e.Function? && i <= |e.args|
    decreases e, 0, |e.args| - i
  {
    i < |e.args| && (Wrong(e.args[i], error) || ArgWrong(e, i + 1, error))
  }

  /** A builder objects exactly to what holds something wrong, and says what. */
  lemma {:induction false} ObjectionSays(e: Expr, error: Error)
    ensures Objection(e).Some? ==> Wrong(e, Objection(e).value)
    ensures Wrong(e, error) ==> Objection(e).Some?
    decreases e, 1, 0
  {
    hide ValidIdentifier, Upper;
    match e
    case Column(_, _) =>
    case Value(_) =>
    case Binary(left, operator, right) =>
      ObjectionSays(left, error);
      ObjectionSays(right, error);
    case Function(_, _) => ArgsObjectionSays(e, 0, error);
  }

  lemma {:induction false} ArgsObjectionSays(e: Expr, i: nat, error: Error)
    requires e.Function? && i <= |e.args|
    ensures ArgsObjection(e, i).Some? ==> ArgWrong(e, i, ArgsObjection(e, i).value)
    ensures ArgWrong(e, i, error) ==> ArgsObjection(e, i).Some?
    decreases e, 0, |e.args| - i
  {
    if i < |e.args| {
      ObjectionSays(e.args[i], error);
      ArgsObjectionSays(e, i + 1, error);
    }
  }

  /** What a builder accepts compiles, but for JSON_EXTRACT with fewer than two arguments. */
  lemma {:induction false} AcceptedCompiles(e: Expr)
    requires Objection(e).None?
    ensures CompilesIff(Compile(e), EnoughArgs(e))
    decreases e, 1, 0
  {
    match e
    case Column(_, _) =>
    case Value(_) =>
    case Binary(left, operator, right) =>
      AcceptedCompiles(left);
      AcceptedCompiles(right);
      if IsChainOp(operator) {
        ChainUpper(operator);
        ChainCompiles(left, operator);
      }
    case Function(_, _) => ArgsCompile(e, 0);
  }

  lemma {:induction false} ChainCompiles(e: Expr, op: string)
    requires IsChainOp(op) && Objection(e).None?
    ensures CompilesIff(CompileChain(e, op), EnoughArgs(e))
    decreases e, 2, 0
  {
    if e.Binary? && e.operator == op {
      ChainUpper(op);
      ChainCompiles(e.left, op);
      AcceptedCompiles(e.right);
    } else {
      AcceptedCompiles(e);
    }
  }

  lemma {:induction false} ArgsCompile(e: Expr, i: nat)
    requires e.Function? && i <= |e.args| && ArgsObjection(e, i).None?
    ensures CompileArgs(e, i).Success? <==> ArgsEnough(e, i)
    ensures CompileArgs(e, i).Failure? ==> CompileArgs(e, i).error == JsonExtractArity
    decreases e, 0, |e.args| - i
  {
    if i < |e.args| {
      AcceptedCompiles(e.args[i]);
      ArgsCompile(e, i + 1);
    }
  }

  // ----- statements as objects -----

  /** What a statement holds beside its table and its condition. */
  datatype Body =
    | SelectBody(columns: Columns, groupBy: seq<string>, having: Option<Expr>, orderBy: seq<Order>, limit: Option<int>,
      offset: Option<int>)
    | UpdateBody(values: seq<Assignment>)
    | DeleteBody

  function StatementText(table: string, where: Option<Expr>, body: Body): Result<Sql, Error> {
    match body
    case SelectBody(columns, groupBy, having, orderBy, limit, offset) =>
      CompileSelect(Select(columns, table, [], where, groupBy, having, orderBy, limit, offset))
    case UpdateBody(values) => CompileUpdate(Update(table, values, where))
    case DeleteBody => CompileDelete(Delete(table, where))
  }

  class Statement {
    var table: string
    var where: Option<Expr>
    var body: Body

    constructor (table: string, where: Option<Expr>, body: Body)
      ensures this.table == table && this.where == where && this.body == body
    {
      this.table, this.where, this.body := table, where, body;
    }

    method CompileStatement() returns (r: Result<Sql, Error>)
      ensures r == StatementText(table, where, body)
    {
      match body
      case SelectBody(columns, groupBy, having, orderBy, limit, offset) =>
        r := BuildSelect(Select(columns, table, [], where, groupBy, having, orderBy, limit, offset));
      case UpdateBody(values) => r := BuildUpdate(Update(table, values, where));
      case DeleteBody => r := BuildDelete(Delete(table, where));
    }
  }

  function Conjoin(where: Option<Expr>, e: Expr): Expr {
    if where.None? then e else Binary(where.value, "AND", e)
  }

  method AddWhereClause(statement: Statement, e: Expr)
    modifies statement
    ensures statement.where == Some(Conjoin(old(statement.where), e))
    ensures statement.table == old(statement.table) && statement.body == old(statement.body)
  {
    if statement.where.Some? {
      statement.where := Some(Binary(statement.where.value, "AND", e));
    } else {
      statement.where := Some(e);
    }
  }

  // ----- row filters -----

  datatype Context = Context(userId: Option<Literal>, scopes: seq<string>)

  /** A table's row-filter policy, and what column security makes of a list of columns. */
  datatype Table = Table(
    name: string, hasUserId: bool, rls: Option<Context -> Option<Expr>>, secure: (Columns, Context) -> Columns)

  function FilterFor(table: Table, context: Context): Option<Expr> {
    if table.rls.Some? then table.rls.value(context)
    else if context.userId.Some? && table.hasUserId then
      Some(Binary(Column("userId", table.name), "=", Value(context.userId.value)))
    else None
  }

  function Pushed(where: Option<Expr>, filter: Option<Expr>): Option<Expr> {
    if filter.None? then where else Some(Conjoin(where, filter.value))
  }

  /** `applyRLS` for the statement's own table. */
  method ApplyRls(statement: Statement, table: Table, context: Context)
    modifies statement
    ensures statement.where == Pushed(old(statement.where), FilterFor(table, context))
    ensures statement.table == old(statement.table) && statement.body == old(statement.body)
  {
    var filter: Option<Expr> := None;
    if table.rls.Some? {
      filter := table.rls.value(context);
    } else if context.userId.Some? && table.hasUserId {
      filter := Some(Binary(Column("userId", table.name), "=", Value(context.userId.value)));
    }
    if filter.None? {
      return;
    }
    AddWhereClause(statement, filter.value);
  }

  // ----- builders -----

  /** The arguments of `where`; an expression may come without an operator. */
  datatype Condition =
    | OnColumn(column: string, operator: string, value: Literal)
    | OnExpression(expr: Expr, comparison: Option<(string, Literal)>)

  /** The expression a `where` call adds, or its objection. Only SELECT compares an expression with a value. */
  function ConditionExpr(c: Condition, select: bool): Result<Expr, Error> {
    match c
    case OnColumn(column, operator, value) =>
      if !ValidIdentifier(column) then Failure(BadIdentifier(column))
      else if Upper(operator) !in OPERATORS then Failure(BadOperator(operator))
      else Success(Binary(Column(column, ""), operator, Value(value)))
    case OnExpression(expr, comparison) =>
      if Objection(expr).Some? then Failure(Objection(expr).value)
      else if !select || comparison.None? || comparison.value.0 == "" then Success(expr)
      else if Upper(comparison.value.0) !in OPERATORS then Failure(BadOperator(comparison.value.0))
      else Success(Binary(expr, comparison.value.0, Value(comparison.value.1)))
  }

  /** A statement's condition after these `where` calls. */
  function WhereOf(conditions: seq<Expr>): Option<Expr> {
    if conditions == [] then None else Some(Spine(conditions, "AND"))
  }

  lemma WhereMore(conditions: seq<Expr>, e: Expr)
    ensures WhereOf(conditions + [e]) == Some(Conjoin(WhereOf(conditions), e))
  {
    assert (conditions + [e])[..|conditions|] == conditions;
  }

  /** What executing compiles: the filter is added to the condition, and a SELECT's columns are secured. */
  function Executed(table: string, where: Option<Expr>, body: Body, tableObj: Option<Table>,
      context: Option<Context>): Result<Sql, Error> {
    if body.SelectBody? && table == "" then Failure(NoTable)
    else if context.None? || tableObj.None? then StatementText(table, where, body)
    else StatementText(table, Pushed(where, FilterFor(tableObj.value, context.value)),
      SecuredBody(body, tableObj.value, context.value))
  }

  function SecuredBody(body: Body, table: Table, context: Context): Body {
    if body.SelectBody? then body.(columns := table.secure(body.columns, context)) else body
  }

  /** Whatever is executed, its text holds plain names, fixed words and a placeholder for each parameter. */
  lemma ExecutedSafe(table: string, where: Option<Expr>, body: Body, tableObj: Option<Table>,
      context: Option<Context>)
    ensures var r := Executed(table, where, body, tableObj, context); r.Success? ==> Sound(r.value)
  {
    hide Sound, CompileSelect, CompileUpdate, CompileDelete, FilterFor, Pushed;
    var secured := context.Some? && tableObj.Some?;
    var w := if secured then Pushed(where, FilterFor(tableObj.value, context.value)) else where;
    match if secured then SecuredBody(body, tableObj.value, context.value) else body
    case SelectBody(columns, groupBy, having, orderBy, limit, offset) =>
      SelectSafe(Select(columns, table, [], w, groupBy, having, orderBy, limit, offset));
    case UpdateBody(values) => UpdateSafe(Update(table, values, w));
    case DeleteBody => DeleteSafe(Delete(table, w));
  }

  class Builder {
    const statement: Statement
    var tableObj: Option<Table>
    var context: Option<Context>
    ghost var conditions: seq<Expr>

    /** An UPDATE or DELETE builder has its table from the start, a SELECT builder from `from`. */
    constructor (body: Body, tableObj: Option<Table>)
      ensures Valid() && conditions == [] && context == None && this.tableObj == tableObj && fresh(statement)
      ensures statement.body == body && statement.table == if tableObj.Some? then tableObj.value.name else ""
    {
      statement := new Statement(if tableObj.Some? then tableObj.value.name else "", None, body);
      this.tableObj, this.context, this.conditions := tableObj, None, [];
    }

    ghost predicate Valid()
      reads this, statement
    {
      statement.where == WhereOf(conditions)
    }

    method From(table: Table)
      requires Valid()
      modifies this`tableObj, statement
      ensures Valid() && tableObj == Some(table) && statement.table == table.name
      ensures statement.body == old(statement.body)
    {
      statement.table := table.name;
      tableObj := Some(table);
    }

    method WithContext(context: Context)
      requires Valid()
      modifies this`context
      ensures Valid() && this.context == Some(context)
    {
      this.context := Some(context);
    }

    /** `where`: adds one condition, or rejects it and changes nothing. */
    method Where(c: Condition) returns (error: Option<Error>)
      requires Valid()
      modifies this`conditions, statement
      ensures Valid() && statement.table == old(statement.table) && statement.body == old(statement.body)
      ensures
        var added := ConditionExpr(c, statement.body.SelectBody?);
        if added.Failure? then error == Some(added.error) && conditions == old(conditions)
        else error == None && conditions == old(conditions) + [added.value]
    {
      var added := ConditionExpr(c, statement.body.SelectBody?);
      if added.Failure? {
        return Some(added.error);
      }
      AddWhereClause(statement, added.value);
      WhereMore(conditions, added.value);
      conditions := conditions + [added.value];
      return None;
    }

    /** `execute`, up to handing the text to the driver. It changes no object that existed before. */
    method Execute() returns (r: Result<Sql, Error>)
      requires Valid()
      ensures r == Executed(statement.table, WhereOf(conditions), statement.body, tableObj, context)
      ensures r.Success? ==> Sound(r.value)
    {
      ExecutedSafe(statement.table, WhereOf(conditions), statement.body, tableObj, context);
      if statement.body.SelectBody? {
        if statement.table == "" {
          return Failure(NoTable);
        }
        if context.None? {
          r := statement.CompileStatement();
          return;
        }
      }
      var copy := new Statement(statement.table, statement.where, statement.body);
      if tableObj.Some? && context.Some? {
        ApplyRls(copy, tableObj.value, context.value);
        copy.body := SecuredBody(copy.body, tableObj.value, context.value);
      }
      r := copy.CompileStatement();
    }
  }

  // ----- what the compiled WHERE admits -----

  /** The condition the database reads in a statement's text: none if the text is no statement of the kind. */
  function ReadCondition(body: Body, sql: Sql): Option<Option<Parsed>> {
    match body
    case SelectBody(_, _, _, _, _, _) =>
      var s := ParseSelect(sql.tokens, sql.params);
      if s.None? then None else Some(s.value.where)
    case UpdateBody(_) =>
      var s := ParseUpdate(sql.tokens, sql.params);
      if s.None? then None else Some(s.value.where)
    case DeleteBody =>
      var s := ParseDelete(sql.tokens, sql.params);
      if s.None? then None else Some(s.value.where)
  }

  lemma ConditionReadBack(table: string, where: Option<Expr>, body: Body)
    requires StatementText(table, where, body).Success?
    ensures ReadCondition(body, StatementText(table, where, body).value) == Some(NormOption(where))
  {
    hide ParseSelect, ParseUpdate, ParseDelete, CompileSelect, CompileUpdate, CompileDelete, NormOption, NormColumns,
      NormOrders, NormJoins;
    match body
    case SelectBody(columns, groupBy, having, orderBy, limit, offset) =>
      var s := Select(columns, table, [], where, groupBy, having, orderBy, limit, offset);
      SelectReadBack(s);
    case UpdateBody(values) => UpdateReadBack(Update(table, values, where));
    case DeleteBody => DeleteReadBack(Delete(table, where));
  }

  /** A row passes a WHERE that is true of it, false and unknown being alike. */
  predicate Passes(w: World, condition: Option<Parsed>) {
    condition.None? || w.truth(Eval(w, condition.value)) == Yes
  }

  /** The database reads this condition as true of the row. */
  predicate Reads(w: World, e: Expr) {
    w.truth(Eval(w, Norm(e))) == Yes
  }

  lemma AndReads(w: World, left: Expr, right: Expr)
    requires Lawful(w)
    ensures Reads(w, Binary(left, "AND", right)) <==> Reads(w, left) && Reads(w, right)
  {
    ChainUpper("AND");
  }

  lemma {:induction false} WhereOfReads(w: World, conditions: seq<Expr>)
    requires Lawful(w)
    ensures Passes(w, NormOption(WhereOf(conditions))) <==>
      forall i :: 0 <= i < |conditions| ==> Reads(w, conditions[i])
    decreases |conditions|
  {
    hide Norm, Eval, Lawful;
    if |conditions| > 1 {
      var before, last := conditions[..|conditions| - 1], conditions[|conditions| - 1];
      WhereOfReads(w, before);
      AndReads(w, Spine(before, "AND"), last);
      assert forall i :: 0 <= i < |before| ==> conditions[i] == before[i];
    }
  }

  /** The filter in force: that of the builder's table in its context. */
  function FilterInForce(tableObj: Option<Table>, context: Option<Context>): Option<Expr> {
    if tableObj.None? || context.None? then None else FilterFor(tableObj.value, context.value)
  }

  /** The text a builder executes admits a row exactly when the text of every condition and of the filter does. */
  lemma ExecutedReads(w: World, table: string, conditions: seq<Expr>, body: Body, tableObj: Option<Table>,
      context: Option<Context>)
    requires Lawful(w) && Executed(table, WhereOf(conditions), body, tableObj, context).Success?
    ensures var condition := ReadCondition(body, Executed(table, WhereOf(conditions), body, tableObj, context).value);
      var filter := FilterInForce(tableObj, context);
      && condition.Some?
      && (Passes(w, condition.value) <==>
           (forall i :: 0 <= i < |conditions| ==> Reads(w, conditions[i])) && (filter.Some? ==> Reads(w, filter.value)))
  {
    hide StatementText, ReadCondition, NormOption, Passes, Reads, FilterFor, Lawful, Spine;
    var filter := FilterInForce(tableObj, context);
    var pushed := Pushed(WhereOf(conditions), filter);
    var actual := if filter.None? then conditions else conditions + [filter.value];
    if filter.Some? { WhereMore(conditions, filter.value); }
    assert pushed == WhereOf(actual);
    var compiled := if tableObj.Some? && context.Some? then SecuredBody(body, tableObj.value, context.value) else body;
    ConditionReadBack(table, pushed, compiled);
    SameKind(body, compiled, Executed(table, WhereOf(conditions), body, tableObj, context).value);
    WhereOfReads(w, actual);
    if filter.Some? {
      assert actual[|conditions|] == filter.value;
      assert forall i :: 0 <= i < |conditions| ==> actual[i] == conditions[i];
    }
  }

  /**
    The text a builder executes admits a row exactly when every `where` condition and the row filter
    are true of it under three-valued logic, whatever the kind of statement.
   */
  lemma ExecutedAdmits(w: World, table: string, conditions: seq<Expr>, body: Body, tableObj: Option<Table>,
      context: Option<Context>)
    requires Lawful(w) && Executed(table, WhereOf(conditions), body, tableObj, context).Success?
    requires forall i :: 0 <= i < |conditions| ==> NoExtraArgs(conditions[i])
    requires FilterInForce(tableObj, context).Some? ==> NoExtraArgs(FilterInForce(tableObj, context).value)
    ensures var condition := ReadCondition(body, Executed(table, WhereOf(conditions), body, tableObj, context).value);
      var filter := FilterInForce(tableObj, context);
      && condition.Some?
      && (Passes(w, condition.value) <==>
           (forall i :: 0 <= i < |conditions| ==> Holds(w, conditions[i])) && (filter.Some? ==> Holds(w, filter.value)))
  {
    hide ReadCondition, Passes, Reads, Holds, FilterInForce, Lawful, Executed, NoExtraArgs;
    ExecutedReads(w, table, conditions, body, tableObj, context);
    forall i | 0 <= i < |conditions|
      ensures Reads(w, conditions[i]) <==> Holds(w, conditions[i])
    {
      ReadsAsMeant(w, conditions[i]);
    }
    if FilterInForce(tableObj, context).Some? {
      ReadsAsMeant(w, FilterInForce(tableObj, context).value);
    }
  }

  lemma ReadsAsMeant(w: World, e: Expr)
    requires NoExtraArgs(e)
    ensures Reads(w, e) <==> Holds(w, e)
  {
    hide Eval, Meaning, Norm, NoExtraArgs;
    NormKeepsMeaning(w, e);
  }

  lemma SameKind(a: Body, b: Body, sql: Sql)
    requires a.SelectBody? == b.SelectBody? && a.UpdateBody? == b.UpdateBody?
    ensures ReadCondition(a, sql) == ReadCondition(b, sql)
  {
    hide ParseSelect, ParseUpdate, ParseDelete;
  }

  // ----- the rows admitted, said of the table's policy and the context -----

  /** The database reads the row's user id as equal to this one. */
  predicate OwnedBy(w: World, table: Table, user: Literal) {
    w.truth(w.infix("=", w.column(table.name, "userId"), w.bind(user))) == Yes
  }

  lemma EqualityRead(w: World, table: string, user: Literal)
    ensures Reads(w, Binary(Column("userId", table), "=", Value(user))) <==>
      w.truth(w.infix("=", w.column(table, "userId"), w.bind(user))) == Yes
  {
    assert Upper("=") == "=" && |"="| != |"AND"| && |"="| != |"OR"| && |"="| != |"IN"| && |"="| != |"NOT IN"|;
    var e := Binary(Column("userId", table), "=", Value(user));
    assert Norm(e) == Infix(Ref("userId", table), "=", Bound(user));
    assert Eval(w, Norm(e)) == w.infix("=", w.column(table, "userId"), w.bind(user));
  }

  /** What the row filter asks of a row, if anything, beside the conditions. */
  lemma FilterSaid(w: World, tableObj: Option<Table>, context: Option<Context>)
    ensures var filter := FilterInForce(tableObj, context);
      && (tableObj.None? || context.None? ==> filter == None)
      && (tableObj.Some? && context.Some? ==>
           var table, user := tableObj.value, context.value.userId;
           && (table.rls.Some? ==> filter == table.rls.value(context.value))
           && (table.rls.None? && user.Some? && table.hasUserId ==>
                filter.Some? && (Reads(w, filter.value) <==> OwnedBy(w, table, user.value)))
           && (table.rls.None? && (user.None? || !table.hasUserId) ==> filter == None))
  {
    hide Reads;
    if tableObj.Some? && context.Some? && context.value.userId.Some? {
      EqualityRead(w, tableObj.value.name, context.value.userId.value);
    }
  }

  /** Every condition given to `where` is true of the row. */
  predicate AllHold(w: World, conditions: seq<Expr>) {
    forall i :: 0 <= i < |conditions| ==> Holds(w, conditions[i])
  }

  /**
    The rows an executed statement admits. With a policy of the table's own, those of which all conditions and
    the policy's filter are true, or all conditions if it gives none, even for a known user. Without one, those
    that are the user's own, if there is a user and a column for one. Without a context, and without a table, no
    filter applies.
   */
  lemma RowsAdmitted(w: World, name: string, conditions: seq<Expr>, body: Body, tableObj: Option<Table>,
      context: Option<Context>)
    requires Lawful(w) && Executed(name, WhereOf(conditions), body, tableObj, context).Success?
    requires forall i :: 0 <= i < |conditions| ==> NoExtraArgs(conditions[i])
    ensures var read := ReadCondition(body, Executed(name, WhereOf(conditions), body, tableObj, context).value);
      && read.Some?
      && (tableObj.None? || context.None? ==> (Passes(w, read.value) <==> AllHold(w, conditions)))
      && (tableObj.Some? && context.Some? ==>
           var table, user := tableObj.value, context.value.userId;
           && (table.rls.Some? ==>
                match table.rls.value(context.value)
                case None => Passes(w, read.value) <==> AllHold(w, conditions)
                case Some(f) => NoExtraArgs(f) ==> (Passes(w, read.value) <==> AllHold(w, conditions) && Holds(w, f)))
           && (table.rls.None? && user.Some? && table.hasUserId ==>
                (Passes(w, read.value) <==> AllHold(w, conditions) && OwnedBy(w, table, user.value)))
           && (table.rls.None? && (user.None? || !table.hasUserId) ==>
                (Passes(w, read.value) <==> AllHold(w, conditions))))
  {
    hide ReadCondition, Passes, Reads, Holds, FilterInForce, Lawful, Executed, NoExtraArgs, OwnedBy;
    ExecutedReads(w, name, conditions, body, tableObj, context);
    FilterSaid(w, tableObj, context);
    ConditionsAsMeant(w, conditions);
    if tableObj.Some? && context.Some? && tableObj.value.rls.Some? {
      var f := tableObj.value.rls.value(context.value);
      if f.Some? && NoExtraArgs(f.value) { ReadsAsMeant(w, f.value); }
    }
  }

  lemma ConditionsAsMeant(w: World, conditions: seq<Expr>)
    requires forall i :: 0 <= i < |conditions| ==> NoExtraArgs(conditions[i])
    ensures AllHold(w, conditions) <==> forall i :: 0 <= i < |conditions| ==> Reads(w, conditions[i])
  {
    hide Reads, Holds, NoExtraArgs;
    forall i | 0 <= i < |conditions|
      ensures Reads(w, conditions[i]) <==> Holds(w, conditions[i])
    {
      ReadsAsMeant(w, conditions[i]);
    }
  }

  /**
    Without a policy of its own, a table with a user id column shows a user, of the rows the conditions select,
    exactly those holding that id.
   */
  lemma OwnRowsOnly(w: World, table: Table, conditions: seq<Expr>, body: Body, user: Literal, scopes: seq<string>)
    requires Lawful(w) && table.rls.None? && table.hasUserId
    requires Executed(table.name, WhereOf(conditions), body, Some(table), Some(Context(Some(user), scopes))).Success?
    ensures
      var sql := Executed(table.name, WhereOf(conditions), body, Some(table), Some(Context(Some(user), scopes))).value;
      var read := ReadCondition(body, sql);
      && read.Some?
      && (Passes(w, read.value) <==>
           (forall i :: 0 <= i < |conditions| ==> Reads(w, conditions[i]))
           && w.truth(w.infix("=", w.column(table.name, "userId"), w.bind(user))) == Yes)
  {
    hide ReadCondition, Passes, Executed, Lawful, Reads;
    var context := Context(Some(user), scopes);
    ExecutedReads(w, table.name, conditions, body, Some(table), Some(context));
    FilterSaid(w, Some(table), Some(context));
  }

  // ----- what a `where` call asks for -----

  /** The operators that compare two values. */
  predicate Compares(op: string) {
    op in {"=", "!=", "<", "<=", ">", ">=", "LIKE", "ILIKE", "IS", "IS NOT", "||"}
  }

  lemma ComparisonMeans(w: World, left: Expr, operator: string, value: Literal)
    requires Compares(Upper(operator))
    ensures Meaning(w, Binary(left, operator, Value(value))) ==
      w.infix(Upper(operator), Meaning(w, left), w.bind(value))
  {
    var op := Upper(operator);
    assert op != "AND" && op != "OR" && op != "IN" && op != "NOT IN" by { OperatorsDiffer(op); }
  }

  lemma OperatorsDiffer(op: string)
    requires Compares(op)
    ensures op != "AND" && op != "OR" && op != "IN" && op != "NOT IN"
  {
    if |op| == 2 {
      assert "OR"[0] == 'O' && "IN"[0] == 'I' && "IN"[1] == 'N' && "IS"[1] == 'S';
      assert "!="[0] == '!' && "<="[0] == '<' && ">="[0] == '>' && "||"[0] == '|';
    } else if |op| == 6 {
      assert "NOT IN"[0] == 'N' && "IS NOT"[0] == 'I';
    }
  }

  /** What a `where` call on a column adds holds of a row exactly when the column compares so. */
  lemma WhereColumn(w: World, column: string, operator: string, value: Literal, select: bool)
    requires ConditionExpr(OnColumn(column, operator, value), select).Success?
    ensures var e := ConditionExpr(OnColumn(column, operator, value), select).value;
      && (Compares(Upper(operator)) ==>
           (Holds(w, e) <==> w.truth(w.infix(Upper(operator), w.column("", column), w.bind(value))) == Yes))
      && (IsListOp(Upper(operator)) && value.List? ==>
           (Holds(w, e) <==> w.truth(Membership(w, w.column("", column), Upper(operator), value.items)) == Yes))
  {
    hide Compares;
    if Compares(Upper(operator)) {
      ComparisonMeans(w, Column(column, ""), operator, value);
    } else if IsListOp(Upper(operator)) && value.List? {
      var e := Binary(Column(column, ""), operator, Value(value));
      assert Meaning(w, e) == Membership(w, Meaning(w, Column(column, "")), Upper(operator), value.items);
    }
  }

  /** An expression is added as it is, or, by a SELECT builder given an operator, compared with the value. */
  lemma WhereExpression(w: World, expr: Expr, comparison: Option<(string, Literal)>, select: bool)
    requires ConditionExpr(OnExpression(expr, comparison), select).Success?
    ensures var e := ConditionExpr(OnExpression(expr, comparison), select).value;
      if select && comparison.Some? && comparison.value.0 != "" then
        var op, value := Upper(comparison.value.0), comparison.value.1;
        Compares(op) ==> (Holds(w, e) <==> w.truth(w.infix(op, Meaning(w, expr), w.bind(value))) == Yes)
      else e == expr
  {
    hide Compares, Objection;
    if comparison.Some? && Compares(Upper(comparison.value.0)) {
      ComparisonMeans(w, expr, comparison.value.0, comparison.value.1);
    }
  }

  /** Something is given where the operator should be, and it is none. */
  predicate NoOperator(op: string) {
    op != "" && Upper(op) !in OPERATORS
  }

  /** When a `where` call is rejected, and for what. */
  lemma WhereRejected(c: Condition, select: bool)
    ensures var r := ConditionExpr(c, select);
      && (c.OnColumn? ==>
            && (r.Failure? <==> !ValidIdentifier(c.column) || Upper(c.operator) !in OPERATORS)
            && (r == Failure(BadIdentifier(c.column)) <==> !ValidIdentifier(c.column))
            && (r.Failure? && ValidIdentifier(c.column) ==> r.error == BadOperator(c.operator)))
      && (c.OnExpression? && Objection(c.expr).Some? ==> r.Failure? && Wrong(c.expr, r.error))
      && (c.OnExpression? && Objection(c.expr).None? ==>
            if select && c.comparison.Some? && NoOperator(c.comparison.value.0)
            then r == Failure(BadOperator(c.comparison.value.0)) else r.Success?)
  {
    hide ValidIdentifier, Upper, Objection, Wrong;
    if c.OnExpression? && Objection(c.expr).Some? {
      ObjectionSays(c.expr, Objection(c.expr).value);
    }
  }

  // ----- the whole executed statement -----

  /** The condition a statement's text should carry. */
  function ReadOf(conditions: seq<Expr>, filter: Option<Expr>): Option<Parsed> {
    NormOption(WhereOf(if filter.None? then conditions else conditions + [filter.value]))
  }

  /**
    The text of an executed statement reads back as the builder's own table, columns (secured, where there is
    a table and a context), grouping, order, limits and assigned values.
   */
  lemma ExecutedReadBack(name: string, conditions: seq<Expr>, body: Body, tableObj: Option<Table>,
      context: Option<Context>)
    requires Executed(name, WhereOf(conditions), body, tableObj, context).Success?
    ensures
      var sql := Executed(name, WhereOf(conditions), body, tableObj, context).value;
      var where := ReadOf(conditions, FilterInForce(tableObj, context));
      match body
      case SelectBody(columns, groupBy, having, orderBy, limit, offset) =>
        var shown := if tableObj.Some? && context.Some? then tableObj.value.secure(columns, context.value) else columns;
        ParseSelect(sql.tokens, sql.params) ==
          Some(ReadSelect(NormColumns(shown, false), name, [], where, groupBy, NormOption(having), NormOrders(orderBy),
                          limit, offset))
      case UpdateBody(values) => ParseUpdate(sql.tokens, sql.params) == Some(ReadUpdate(name, values, where))
      case DeleteBody => ParseDelete(sql.tokens, sql.params) == Some(ReadDelete(name, where))
  {
    hide ParseSelect, ParseUpdate, ParseDelete, CompileSelect, CompileUpdate, CompileDelete, NormOption, NormColumns,
      NormOrders, FilterFor, Spine;
    var filter := FilterInForce(tableObj, context);
    if filter.Some? { WhereMore(conditions, filter.value); }
    var pushed := Pushed(WhereOf(conditions), filter);
    assert NormJoins([]) == [];
    match body
    case SelectBody(columns, groupBy, having, orderBy, limit, offset) =>
      var shown := if tableObj.Some? && context.Some? then tableObj.value.secure(columns, context.value) else columns;
      SelectReadBack(Select(shown, name, [], pushed, groupBy, having, orderBy, limit, offset));
    case UpdateBody(values) => UpdateReadBack(Update(name, values, pushed));
    case DeleteBody => DeleteReadBack(Delete(name, pushed));
  }

  /** The direction a database reads: descending exactly when the given one spells DESC, in any case. */
  lemma DirectionRead(orders: seq<Order>, i: nat)
    requires i < |orders|
    ensures var d, read := orders[i].direction, NormOrders(orders)[i];
      && read.column == orders[i].column && read.direction in {"ASC", "DESC"}
      && (read.direction == "DESC" <==>
           |d| == 4 && d[0] in "dD" && d[1] in "eE" && d[2] in "sS" && d[3] in "cC")
  {
    var d := orders[i].direction;
    assert |"ASC"| != |"DESC"|;
    if |d| == 4 {
      assert Upper(d) == "DESC" <==>
        Upper(d)[0] == 'D' && Upper(d)[1] == 'E' && Upper(d)[2] == 'S' && Upper(d)[3] == 'C';
    }
  }
}
