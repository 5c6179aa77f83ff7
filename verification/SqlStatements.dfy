/**
  SELECT, UPDATE and DELETE statements: their compilation, and a reader of the compiled
  text that gives the statement back with every placeholder bound to its parameter.
 */
module SqlStatements {
  import opened Wrappers
  import opened SqlCompiler
  import opened SqlParser

  datatype Item = Named(name: string) | Computed(expr: Expr)

  datatype Columns = All | These(items: seq<Item>)

  datatype Join = Join(kind: string, table: string, on: Expr)

  datatype Order = Order(column: string, direction: string)

  datatype Select = Select(
    columns: Columns, table: string, joins: seq<Join>, where: Option<Expr>, groupBy: seq<string>,
    having: Option<Expr>, orderBy: seq<Order>, limit: Option<int>, offset: Option<int>)

  datatype Assignment = Assignment(key: string, value: Literal)

  datatype Update = Update(table: string, values: seq<Assignment>, where: Option<Expr>)

  datatype Delete = Delete(table: string, where: Option<Expr>)

  const JOIN_TYPES := {"INNER", "LEFT", "RIGHT", "FULL"}

  // ----- compilation -----

  function Words(tokens: seq<Token>): Sql {
    Sql(tokens, [])
  }

  function Plus(a: Sql, b: Sql): Sql {
    Sql(a.tokens + b.tokens, a.params + b.params)
  }

  /** The alias of a qualified column in a query with joins. */
  function AliasOf(item: Item, joined: bool): Option<string> {
    if joined && item.Computed? && item.expr.Column? && item.expr.table != ""
    then Some("__" + item.expr.table + "__" + item.expr.name)
    else None
  }

  /** Only a column that names its table has an alias, and only where tables are joined: "__table__column". */
  lemma AliasSays(item: Item, joined: bool)
    ensures AliasOf(item, joined).Some? <==>
      joined && exists table, name :: item == Computed(Column(name, table)) && table != ""
    ensures forall table, name :: joined && table != "" && item == Computed(Column(name, table)) ==>
      AliasOf(item, joined) == Some("__" + table + "__" + name)
  {
    if AliasOf(item, joined).Some? {
      assert item == Computed(Column(item.expr.name, item.expr.table));
    }
  }

  function CompileItem(item: Item, joined: bool): Result<Sql, Error> {
    match item
    case Named(name) =>
      var column :- Quote(name);
      Success(Words([column]))
    case Computed(expr) =>
      var compiled :- Compile(expr);
      var alias := AliasOf(item, joined);
      if alias.None? then Success(compiled)
      else
        var column :- Quote(alias.value);
        Success(Plus(compiled, Words([Word("AS"), column])))
  }

  /** Columns with commas between. */
  function CompileItems(items: seq<Item>, joined: bool): Result<Sql, Error>
    decreases |items|
  {
    if items == [] then Success(Words([]))
    else
      var first :- CompileItem(items[0], joined);
      if |items| == 1 then Success(first)
      else
        var rest :- CompileItems(items[1..], joined);
        Success(Append(first, Comma, rest))
  }

  function CompileColumns(columns: Columns, joined: bool): Result<Sql, Error> {
    if columns.All? then Success(Words([Word("*")])) else CompileItems(columns.items, joined)
  }

  /** `compileJoin`: the condition is compiled before the type and the table are checked. */
  function CompileJoin(join: Join): Result<Sql, Error> {
    var on :- Compile(join.on);
    if Upper(join.kind) !in JOIN_TYPES then Failure(BadJoinType(join.kind))
    else
      var table :- Quote(join.table);
      Success(Plus(Words([Word(Upper(join.kind)), Word("JOIN"), table, Word("ON")]), on))
  }

  function CompileJoins(joins: seq<Join>): Result<Sql, Error>
    decreases |joins|
  {
    if joins == [] then Success(Words([]))
    else
      var first :- CompileJoin(joins[0]);
      var rest :- CompileJoins(joins[1..]);
      Success(Plus(first, rest))
  }

  /** A keyword and an expression, if there is one. */
  function CompileClause(keyword: string, e: Option<Expr>): Result<Sql, Error> {
    if e.None? then Success(Words([]))
    else
      var compiled :- Compile(e.value);
      Success(Plus(Words([Word(keyword)]), compiled))
  }

  function CompileNames(names: seq<string>): Result<Sql, Error>
    decreases |names|
  {
    if names == [] then Success(Words([]))
    else
      var first :- Quote(names[0]);
      var rest :- CompileNames(names[1..]);
      Success(Words([first] + (if |names| == 1 then [] else [Comma]) + rest.tokens))
  }

  function CompileGroups(names: seq<string>): Result<Sql, Error> {
    if names == [] then Success(Words([]))
    else
      var list :- CompileNames(names);
      Success(Plus(Words([Word("GROUP BY")]), list))
  }

  /** Any direction that is not DESC in some case is ASC. */
  function DirectionOf(o: Order): string {
    if Upper(o.direction) == "DESC" then "DESC" else "ASC"
  }

  function CompileOrderList(orders: seq<Order>): Result<Sql, Error>
    decreases |orders|
  {
    if orders == [] then Success(Words([]))
    else
      var column :- Quote(orders[0].column);
      var rest :- CompileOrderList(orders[1..]);
      Success(Words([column, Word(DirectionOf(orders[0]))] + (if |orders| == 1 then [] else [Comma]) + rest.tokens))
  }

  function CompileOrders(orders: seq<Order>): Result<Sql, Error> {
    if orders == [] then Success(Words([]))
    else
      var list :- CompileOrderList(orders);
      Success(Plus(Words([Word("ORDER BY")]), list))
  }

  function CompileNumber(keyword: string, n: Option<int>): Sql {
    if n.None? then Words([]) else Words([Word(keyword), Num(n.value)])
  }

  /** `compileSelect`. */
  function CompileSelect(s: Select): Result<Sql, Error> {
    var columns :- CompileColumns(s.columns, s.joins != []);
    var table :- Quote(s.table);
    var joins :- CompileJoins(s.joins);
    var where :- CompileClause("WHERE", s.where);
    var groups :- CompileGroups(s.groupBy);
    var having :- CompileClause("HAVING", s.having);
    var orders :- CompileOrders(s.orderBy);
    Success(
      Plus(Words([Word("SELECT")]), Plus(columns,
        Plus(Words([Word("FROM"), table]), Plus(joins, Plus(where, Plus(groups,
        Plus(having, Plus(orders, Plus(CompileNumber("LIMIT", s.limit), CompileNumber("OFFSET", s.offset)))))))))))
  }

  function CompileAssignments(values: seq<Assignment>): Result<Sql, Error>
    decreases |values|
  {
    if values == [] then Success(Words([]))
    else
      var key :- Quote(values[0].key);
      var rest :- CompileAssignments(values[1..]);
      Success(Sql([key, Word("="), Param] + (if |values| == 1 then [] else [Comma]) + rest.tokens,
        [values[0].value] + rest.params))
  }

  /** `compileUpdate`. */
  function CompileUpdate(s: Update): Result<Sql, Error> {
    var targets :- CompileAssignments(s.values);
    var table :- Quote(s.table);
    var where :- CompileClause("WHERE", s.where);
    Success(Plus(Words([Word("UPDATE"), table, Word("SET")]), Plus(targets, where)))
  }

  /** `compileDelete`. */
  function CompileDelete(s: Delete): Result<Sql, Error> {
    var table :- Quote(s.table);
    var where :- CompileClause("WHERE", s.where);
    Success(Plus(Words([Word("DELETE FROM"), table]), where))
  }

  // ----- the compiler's own loops -----

  lemma PlusAssoc(a: Sql, b: Sql, c: Sql)
    ensures Plus(Plus(a, b), c) == Plus(a, Plus(b, c))
  {
    assert (a.tokens + b.tokens) + c.tokens == a.tokens + (b.tokens + c.tokens);
    assert (a.params + b.params) + c.params == a.params + (b.params + c.params);
  }

  lemma PlusNothing(a: Sql)
    ensures Plus(a, Words([])) == a && Plus(Words([]), a) == a
  {
    assert a.tokens + [] == a.tokens && [] + a.tokens == a.tokens;
    assert a.params + [] == a.params && [] + a.params == a.params;
  }

  method CompileColumnList(items: seq<Item>, joined: bool) returns (r: Result<Sql, Error>)
    ensures r == CompileItems(items, joined)
  {
    var done: Sql := Words([]);
    var i := 0;
    ghost var all := CompileItems(items, joined);
    if all.Success? { PlusNothing(all.value); }
    assert items[0..] == items;
    while i < |items|
      invariant 0 <= i <= |items|
      invariant all == Onto(done, CompileItems(items[i..], joined))
    {
      var one: Result<Sql, Error>;
      match items[i] {
        case Named(name) =>
          var column := Quote(name);
          one := if column.Failure? then Failure(column.error) else Success(Words([column.value]));
        case Computed(expr) =>
          one := CompileExpression(expr);
          if one.Success? && joined && expr.Column? && expr.table != "" {
            var column := Quote("__" + expr.table + "__" + expr.name);
            one := if column.Failure? then Failure(column.error)
              else Success(Plus(one.value, Words([Word("AS"), column.value])));
          }
      }
      assert one == CompileItem(items[i], joined);
      if one.Failure? {
        return one;
      }
      assert items[i..][1..] == items[i + 1..];
      ghost var rest := CompileItems(items[i + 1..], joined);
      if i + 1 < |items| && rest.Success? {
        OntoNext(done, one.value, rest.value);
      }
      done := Plus(done, one.value);
      if i + 1 < |items| {
        done := Plus(done, Words([Comma]));
      }
      i := i + 1;
    }
    PlusNothing(done);
    r := Success(done);
  }

  function Onto(done: Sql, rest: Result<Sql, Error>): Result<Sql, Error> {
    if rest.Failure? then rest else Success(Plus(done, rest.value))
  }

  lemma OntoNext(done: Sql, one: Sql, rest: Sql)
    ensures Plus(Plus(Plus(done, one), Words([Comma])), rest) == Plus(done, Append(one, Comma, rest))
  {
    PlusAssoc(Plus(done, one), Words([Comma]), rest);
    PlusAssoc(done, one, Plus(Words([Comma]), rest));
    assert Plus(one, Plus(Words([Comma]), rest)) == Append(one, Comma, rest);
  }

  /** `compileSelect`: the text grows clause by clause and the parameters are pushed as they come. */
  method BuildSelect(s: Select) returns (r: Result<Sql, Error>)
    ensures r == CompileSelect(s)
  {
    hide CompileItems, CompileItem, CompileClause, CompileGroups, CompileOrders, Compile;
    var columns: Sql := Words([Word("*")]);
    if s.columns.These? {
      columns :- CompileColumnList(s.columns.items, s.joins != []);
    }
    var table :- Quote(s.table);
    var sql := Plus(Words([Word("SELECT")]), Plus(columns, Words([Word("FROM"), table])));
    ghost var head := sql;
    PlusNothing(sql);
    var i := 0;
    ghost var joins := CompileJoins(s.joins);
    assert s.joins[0..] == s.joins;
    while i < |s.joins|
      invariant 0 <= i <= |s.joins|
      invariant Onto(head, joins) == Onto(sql, CompileJoins(s.joins[i..]))
    {
      assert s.joins[i..][1..] == s.joins[i + 1..];
      var on := CompileExpression(s.joins[i].on);
      if on.Failure? {
        return on;
      }
      if Upper(s.joins[i].kind) !in JOIN_TYPES {
        return Failure(BadJoinType(s.joins[i].kind));
      }
      var joined := Quote(s.joins[i].table);
      if joined.Failure? {
        return Failure(joined.error);
      }
      var one := Plus(Words([Word(Upper(s.joins[i].kind)), Word("JOIN"), joined.value, Word("ON")]), on.value);
      assert CompileJoin(s.joins[i]) == Success(one);
      ghost var rest := CompileJoins(s.joins[i + 1..]);
      if rest.Success? {
        PlusAssoc(sql, one, rest.value);
      }
      sql := Plus(sql, one);
      i := i + 1;
    }
    PlusNothing(sql);
    var where :- BuildClause("WHERE", s.where);
    var groups :- CompileGroups(s.groupBy);
    var having :- BuildClause("HAVING", s.having);
    var orders :- CompileOrders(s.orderBy);
    var limit, offset := CompileNumber("LIMIT", s.limit), CompileNumber("OFFSET", s.offset);
    sql := Plus(Plus(Plus(Plus(Plus(Plus(sql, where), groups), having), orders), limit), offset);
    SelectAssoc(columns, Words([Word("FROM"), table]), joins.value, where, groups, having, orders, limit, offset);
    r := Success(sql);
  }

  lemma SelectAssoc(columns: Sql, from: Sql, joins: Sql, where: Sql, groups: Sql, having: Sql, orders: Sql,
      limit: Sql, offset: Sql)
    ensures var select := Words([Word("SELECT")]);
      Plus(Plus(Plus(Plus(Plus(Plus(Plus(Plus(select, Plus(columns, from)), joins), where), groups), having), orders),
        limit), offset)
      == Plus(select, Plus(columns, Plus(from,
        Plus(joins, Plus(where, Plus(groups, Plus(having, Plus(orders, Plus(limit, offset)))))))))
  {
    hide Plus;
    var select := Words([Word("SELECT")]);
    var head := Plus(select, Plus(columns, from));
    var a1 := Plus(head, joins);
    var a2 := Plus(a1, where);
    var a3 := Plus(a2, groups);
    var a4 := Plus(a3, having);
    var a5 := Plus(a4, orders);
    PlusAssoc(a5, limit, offset);
    PlusAssoc(a4, orders, Plus(limit, offset));
    var b5 := Plus(orders, Plus(limit, offset));
    PlusAssoc(a3, having, b5);
    var b4 := Plus(having, b5);
    PlusAssoc(a2, groups, b4);
    var b3 := Plus(groups, b4);
    PlusAssoc(a1, where, b3);
    var b2 := Plus(where, b3);
    PlusAssoc(head, joins, b2);
    var b1 := Plus(joins, b2);
    PlusAssoc(select, Plus(columns, from), b1);
    PlusAssoc(columns, from, b1);
  }

  method BuildClause(keyword: string, e: Option<Expr>) returns (r: Result<Sql, Error>)
    ensures r == CompileClause(keyword, e)
  {
    if e.None? {
      return Success(Words([]));
    }
    var compiled :- CompileExpression(e.value);
    r := Success(Plus(Words([Word(keyword)]), compiled));
  }

  method BuildUpdate(s: Update) returns (r: Result<Sql, Error>)
    ensures r == CompileUpdate(s)
  {
    var targets :- CompileAssignments(s.values);
    var table :- Quote(s.table);
    var sql := Plus(Words([Word("UPDATE"), table, Word("SET")]), targets);
    var where :- BuildClause("WHERE", s.where);
    PlusAssoc(Words([Word("UPDATE"), table, Word("SET")]), targets, where);
    r := Success(Plus(sql, where));
  }

  method BuildDelete(s: Delete) returns (r: Result<Sql, Error>)
    ensures r == CompileDelete(s)
  {
    var table :- Quote(s.table);
    var where :- BuildClause("WHERE", s.where);
    r := Success(Plus(Words([Word("DELETE FROM"), table]), where));
  }
}
