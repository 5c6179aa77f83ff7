/**
  Reading compiled statements back: the text of a SELECT, UPDATE or DELETE determines the
  statement, and each placeholder takes the parameter that belongs there.
 */
module SqlReader {
  import opened Wrappers
  import opened SqlCompiler
  import opened SqlParser
  import opened SqlStatements

  datatype ReadItem = ReadItem(expr: Parsed, alias: Option<string>)

  datatype ReadColumns = AllColumns | TheseColumns(items: seq<ReadItem>)

  datatype ReadJoin = ReadJoin(kind: string, table: string, on: Parsed)

  datatype ReadOrder = ReadOrder(column: string, direction: string)

  datatype ReadSelect = ReadSelect(
    columns: ReadColumns, table: string, joins: seq<ReadJoin>, where: Option<Parsed>, groupBy: seq<string>,
    having: Option<Parsed>, orderBy: seq<ReadOrder>, limit: Option<int>, offset: Option<int>)

  datatype ReadUpdate = ReadUpdate(table: string, values: seq<Assignment>, where: Option<Parsed>)

  datatype ReadDelete = ReadDelete(table: string, where: Option<Parsed>)

  // ----- reading -----

  predicate Starts(ts: seq<Token>, word: string) {
    ts != [] && ts[0] == Word(word)
  }

  function ParseItem(ts: seq<Token>, ps: seq<Literal>): (r: Option<Read<ReadItem>>)
    ensures r.Some? ==> |r.value.tokens| < |ts|
  {
    var e := ParseExpr(ts, ps);
    if e.None? then None
    else
      var rest := e.value.tokens;
      if |rest| >= 2 && rest[0] == Word("AS") && rest[1].Ident?
      then Some(Read(ReadItem(e.value.found, Some(rest[1].name)), rest[2..], e.value.params))
      else Some(Read(ReadItem(e.value.found, None), rest, e.value.params))
  }

  function ParseItems(ts: seq<Token>, ps: seq<Literal>): Option<Read<seq<ReadItem>>>
    decreases |ts|
  {
    var first := ParseItem(ts, ps);
    if first.None? then None
    else if first.value.tokens != [] && first.value.tokens[0] == Comma then
      var rest := ParseItems(first.value.tokens[1..], first.value.params);
      if rest.None? then None
      else Some(Read([first.value.found] + rest.value.found, rest.value.tokens, rest.value.params))
    else Some(Read([first.value.found], first.value.tokens, first.value.params))
  }

  function ParseColumns(ts: seq<Token>, ps: seq<Literal>): Option<Read<ReadColumns>> {
    if Starts(ts, "*") then Some(Read(AllColumns, ts[1..], ps))
    else if Starts(ts, "FROM") then Some(Read(TheseColumns([]), ts, ps))
    else
      var items := ParseItems(ts, ps);
      if items.None? then None else Some(Read(TheseColumns(items.value.found), items.value.tokens, items.value.params))
  }

  function ParseJoins(ts: seq<Token>, ps: seq<Literal>): Option<Read<seq<ReadJoin>>>
    decreases |ts|
  {
    if |ts| >= 4 && ts[0].Word? && ts[0].text in JOIN_TYPES && ts[1] == Word("JOIN") && ts[2].Ident?
       && ts[3] == Word("ON") then
      var on := ParseExpr(ts[4..], ps);
      if on.None? then None
      else
        var rest := ParseJoins(on.value.tokens, on.value.params);
        if rest.None? then None
        else
          var join := ReadJoin(ts[0].text, ts[2].name, on.value.found);
          Some(Read([join] + rest.value.found, rest.value.tokens, rest.value.params))
    else Some(Read([], ts, ps))
  }

  function ParseClause(keyword: string, ts: seq<Token>, ps: seq<Literal>): Option<Read<Option<Parsed>>> {
    if Starts(ts, keyword) then
      var e := ParseExpr(ts[1..], ps);
      if e.None? then None else Some(Read(Some(e.value.found), e.value.tokens, e.value.params))
    else Some(Read(None, ts, ps))
  }

  function ParseNames(ts: seq<Token>, ps: seq<Literal>): Option<Read<seq<string>>>
    decreases |ts|
  {
    if ts == [] || !ts[0].Ident? then None
    else if |ts| >= 2 && ts[1] == Comma then
      var rest := ParseNames(ts[2..], ps);
      if rest.None? then None else Some(Read([ts[0].name] + rest.value.found, rest.value.tokens, rest.value.params))
    else Some(Read([ts[0].name], ts[1..], ps))
  }

  function ParseGroups(ts: seq<Token>, ps: seq<Literal>): Option<Read<seq<string>>> {
    if Starts(ts, "GROUP BY") then ParseNames(ts[1..], ps) else Some(Read([], ts, ps))
  }

  function ParseOrderList(ts: seq<Token>, ps: seq<Literal>): Option<Read<seq<ReadOrder>>>
    decreases |ts|
  {
    if |ts| < 2 || !ts[0].Ident? || !(ts[1] == Word("ASC") || ts[1] == Word("DESC")) then None
    else if |ts| >= 3 && ts[2] == Comma then
      var rest := ParseOrderList(ts[3..], ps);
      if rest.None? then None
      else Some(Read([ReadOrder(ts[0].name, ts[1].text)] + rest.value.found, rest.value.tokens, rest.value.params))
    else Some(Read([ReadOrder(ts[0].name, ts[1].text)], ts[2..], ps))
  }

  function ParseOrders(ts: seq<Token>, ps: seq<Literal>): Option<Read<seq<ReadOrder>>> {
    if Starts(ts, "ORDER BY") then ParseOrderList(ts[1..], ps) else Some(Read([], ts, ps))
  }

  function ParseNumber(keyword: string, ts: seq<Token>, ps: seq<Literal>): Read<Option<int>> {
    if Starts(ts, keyword) && |ts| >= 2 && ts[1].Num? then Read(Some(ts[1].n), ts[2..], ps) else Read(None, ts, ps)
  }

  function ParseTable(keyword: string, ts: seq<Token>, ps: seq<Literal>): Option<Read<string>> {
    if Starts(ts, keyword) && |ts| >= 2 && ts[1].Ident? then Some(Read(ts[1].name, ts[2..], ps)) else None
  }

  /** The whole of a SELECT; nothing may be left over. */
  function ParseSelect(ts: seq<Token>, ps: seq<Literal>): Option<ReadSelect> {
    if !Starts(ts, "SELECT") then None
    else
      var columns := ParseColumns(ts[1..], ps);
      if columns.None? then None
      else
        var table := ParseTable("FROM", columns.value.tokens, columns.value.params);
        if table.None? then None
        else
          var joins := ParseJoins(table.value.tokens, table.value.params);
          if joins.None? then None
          else ParseFilters(columns.value.found, table.value.found, joins.value.found, joins.value.tokens,
            joins.value.params)
  }

  /** The clauses after the joins. */
  function ParseFilters(columns: ReadColumns, table: string, joins: seq<ReadJoin>, ts: seq<Token>,
      ps: seq<Literal>): Option<ReadSelect> {
    var where := ParseClause("WHERE", ts, ps);
    if where.None? then None
    else
      var groups := ParseGroups(where.value.tokens, where.value.params);
      if groups.None? then None
      else
        var having := ParseClause("HAVING", groups.value.tokens, groups.value.params);
        if having.None? then None
        else
          var orders := ParseOrders(having.value.tokens, having.value.params);
          if orders.None? then None
          else
            var limit := ParseNumber("LIMIT", orders.value.tokens, orders.value.params);
            var offset := ParseNumber("OFFSET", limit.tokens, limit.params);
            if offset.tokens != [] || offset.params != [] then None
            else
              Some(ReadSelect(columns, table, joins, where.value.found, groups.value.found, having.value.found,
                              orders.value.found, limit.found, offset.found))
  }

  function ParseAssignments(ts: seq<Token>, ps: seq<Literal>): Option<Read<seq<Assignment>>>
    decreases |ts|
  {
    if |ts| < 3 || !ts[0].Ident? || ts[1] != Word("=") || ts[2] != Param || ps == [] then None
    else if |ts| >= 4 && ts[3] == Comma then
      var rest := ParseAssignments(ts[4..], ps[1..]);
      if rest.None? then None
      else Some(Read([Assignment(ts[0].name, ps[0])] + rest.value.found, rest.value.tokens, rest.value.params))
    else Some(Read([Assignment(ts[0].name, ps[0])], ts[3..], ps[1..]))
  }

  function ParseUpdate(ts: seq<Token>, ps: seq<Literal>): Option<ReadUpdate> {
    var table := ParseTable("UPDATE", ts, ps);
    if table.None? || !Starts(table.value.tokens, "SET") then None
    else
      var rest := table.value.tokens[1..];
      var values := if rest == [] || Starts(rest, "WHERE") then Some(Read([], rest, table.value.params))
                    else ParseAssignments(rest, table.value.params);
      if values.None? then None
      else
        var where := ParseClause("WHERE", values.value.tokens, values.value.params);
        if where.None? || where.value.tokens != [] || where.value.params != [] then None
        else Some(ReadUpdate(table.value.found, values.value.found, where.value.found))
  }

  function ParseDelete(ts: seq<Token>, ps: seq<Literal>): Option<ReadDelete> {
    var table := ParseTable("DELETE FROM", ts, ps);
    if table.None? then None
    else
      var where := ParseClause("WHERE", table.value.tokens, table.value.params);
      if where.None? || where.value.tokens != [] || where.value.params != [] then None
      else Some(ReadDelete(table.value.found, where.value.found))
  }

  // ----- normal forms -----

  function NormOption(e: Option<Expr>): Option<Parsed> {
    if e.None? then None else Some(Norm(e.value))
  }

  function NormItem(item: Item, joined: bool): ReadItem {
    ReadItem(if item.Named? then Ref(item.name, "") else Norm(item.expr), AliasOf(item, joined))
  }

  function NormItems(items: seq<Item>, joined: bool): seq<ReadItem> {
    seq(|items|, i requires 0 <= i < |items| => NormItem(items[i], joined))
  }

  function NormColumns(columns: Columns, joined: bool): ReadColumns {
    if columns.All? then AllColumns else TheseColumns(NormItems(columns.items, joined))
  }

  function NormJoins(joins: seq<Join>): seq<ReadJoin> {
    seq(|joins|, i requires 0 <= i < |joins| => ReadJoin(Upper(joins[i].kind), joins[i].table, Norm(joins[i].on)))
  }

  function NormOrders(orders: seq<Order>): seq<ReadOrder> {
    seq(|orders|, i requires 0 <= i < |orders| => ReadOrder(orders[i].column, DirectionOf(orders[i])))
  }

  function NormSelect(s: Select): ReadSelect {
    ReadSelect(NormColumns(s.columns, s.joins != []), s.table, NormJoins(s.joins), NormOption(s.where), s.groupBy,
               NormOption(s.having), NormOrders(s.orderBy), s.limit, s.offset)
  }

  // ----- pieces -----

  /** The rest of a statement starts with one of these words, if there is a rest. */
  predicate Late(ts: seq<Token>, words: set<string>) {
    ts == [] || (ts[0].Word? && ts[0].text in words)
  }

  const AFTER_LIMIT := {"OFFSET"}

  const AFTER_ORDER := {"LIMIT", "OFFSET"}

  const AFTER_HAVING := {"ORDER BY", "LIMIT", "OFFSET"}

  const AFTER_GROUP := {"HAVING", "ORDER BY", "LIMIT", "OFFSET"}

  const AFTER_WHERE := {"GROUP BY", "HAVING", "ORDER BY", "LIMIT", "OFFSET"}

  const AFTER_JOIN := {"WHERE", "GROUP BY", "HAVING", "ORDER BY", "LIMIT", "OFFSET"}

  lemma LatePlus(a: Sql, b: Sql, words: set<string>)
    requires Late(a.tokens, words) && Late(b.tokens, words)
    ensures Late(Plus(a, b).tokens, words)
  {
    if a.tokens != [] {
      assert Plus(a, b).tokens[0] == a.tokens[0];
    } else {
      assert Plus(a, b).tokens == b.tokens;
    }
  }

  lemma ItemParsed(item: Item, joined: bool, tail: seq<Token>, more: seq<Literal>)
    requires CompileItem(item, joined).Success? && tail != [] && (tail[0] == Comma || tail[0] == Word("FROM"))
    ensures var c := CompileItem(item, joined).value;
      ParseItem(c.tokens + tail, c.params + more) == Some(Read(NormItem(item, joined), tail, more))
  {
    hide ParseExpr, Compile, Norm;
    match item
    case Named(name) =>
      ColumnAlone(name);
      LeafParsed(Column(name, ""), tail, more);
    case Computed(expr) =>
      var c := Compile(expr).value;
      var alias := AliasOf(item, joined);
      if alias.Some? {
        var rest := [Word("AS"), Ident(alias.value)] + tail;
        assert Plus(c, Words([Word("AS"), Ident(alias.value)])).tokens + tail == c.tokens + rest;
        assert c.params + [] + more == c.params + more;
        ParseCompiled(expr, rest, more);
        assert rest[2..] == tail;
      } else {
        ParseCompiled(expr, tail, more);
      }
  }

  lemma ColumnAlone(name: string)
    ensures Compile(Column(name, "")) == CompileItem(Named(name), false)
    ensures Norm(Column(name, "")) == Ref(name, "")
  {
  }

  lemma {:induction false} ItemsParsed(items: seq<Item>, joined: bool, tail: seq<Token>, more: seq<Literal>)
    requires items != [] && CompileItems(items, joined).Success? && Starts(tail, "FROM")
    ensures var c := CompileItems(items, joined).value;
      ParseItems(c.tokens + tail, c.params + more) == Some(Read(NormItems(items, joined), tail, more))
    decreases |items|
  {
    hide ParseItem, CompileItem, NormItem;
    var first := CompileItem(items[0], joined).value;
    if |items| == 1 {
      ItemParsed(items[0], joined, tail, more);
      assert NormItems(items, joined) == [NormItem(items[0], joined)];
    } else {
      var rest := CompileItems(items[1..], joined).value;
      var next := [Comma] + (rest.tokens + tail);
      assert first.tokens + [Comma] + rest.tokens + tail == first.tokens + next;
      Params(first.params, rest.params, more);
      Cons(Comma, rest.tokens + tail);
      ItemParsed(items[0], joined, next, rest.params + more);
      ItemsParsed(items[1..], joined, tail, more);
      assert NormItems(items, joined) == [NormItem(items[0], joined)] + NormItems(items[1..], joined);
    }
  }

  lemma {:induction false} ColumnsParsed(columns: Columns, joined: bool, tail: seq<Token>, more: seq<Literal>)
    requires CompileColumns(columns, joined).Success? && Starts(tail, "FROM")
    ensures var c := CompileColumns(columns, joined).value;
      ParseColumns(c.tokens + tail, c.params + more) == Some(Read(NormColumns(columns, joined), tail, more))
  {
    hide ParseItems, NormItem;
    var c := CompileColumns(columns, joined).value;
    if columns.All? {
      assert (c.tokens + tail)[1..] == tail && c.params + more == more;
    } else if columns.items == [] {
      assert c.tokens + tail == tail && c.params + more == more && NormItems([], joined) == [];
    } else {
      ItemsParsed(columns.items, joined, tail, more);
      ItemsStart(columns.items, joined);
      assert (c.tokens + tail)[0] == c.tokens[0];
    }
  }

  lemma {:induction false} ItemsStart(items: seq<Item>, joined: bool)
    requires items != [] && CompileItems(items, joined).Success?
    ensures var ts := CompileItems(items, joined).value.tokens; ts != [] && !Starts(ts, "*") && !Starts(ts, "FROM")
  {
    var first := CompileItem(items[0], joined).value;
    assert first.tokens != [] && !Starts(first.tokens, "*") && !Starts(first.tokens, "FROM") by {
      if items[0].Computed? {
        CompiledStart(items[0].expr);
        assert first.tokens[0] == Compile(items[0].expr).value.tokens[0];
      }
    }
    assert CompileItems(items, joined).value.tokens[0] == first.tokens[0];
  }

  /** A compiled expression that starts with a word starts with a function name. */
  lemma CompiledStart(e: Expr)
    requires Compile(e).Success?
    ensures var ts := Compile(e).value.tokens; ts != [] && (ts[0].Word? ==> ts[0].text in FUNCTIONS)
  {
    CompiledIsOperand(e);
  }

  lemma {:induction false} JoinsShape(joins: seq<Join>)
    requires joins != [] && CompileJoins(joins).Success?
    ensures Compile(joins[0].on).Success? && CompileJoins(joins[1..]).Success? && Upper(joins[0].kind) in JOIN_TYPES
    ensures CompileJoins(joins).value ==
      Plus(Plus(Words([Word(Upper(joins[0].kind)), Word("JOIN"), Ident(joins[0].table), Word("ON")]),
        Compile(joins[0].on).value),
           CompileJoins(joins[1..]).value)
  {
    hide Compile, Upper;
  }

  lemma {:induction false} JoinRead(kind: string, table: string, ts: seq<Token>, ps: seq<Literal>, on: Read<Parsed>)
    requires kind in JOIN_TYPES && ParseExpr(ts, ps) == Some(on)
    ensures ParseJoins([Word(kind), Word("JOIN"), Ident(table), Word("ON")] + ts, ps) ==
      (var rest := ParseJoins(on.tokens, on.params);
       if rest.None? then None
       else Some(Read([ReadJoin(kind, table, on.found)] + rest.value.found, rest.value.tokens, rest.value.params)))
  {
    hide ParseExpr;
    assert ([Word(kind), Word("JOIN"), Ident(table), Word("ON")] + ts)[4..] == ts;
  }

  lemma {:induction false} JoinsParsed(joins: seq<Join>, tail: seq<Token>, more: seq<Literal>)
    requires CompileJoins(joins).Success? && Late(tail, AFTER_JOIN)
    ensures var c := CompileJoins(joins).value;
      ParseJoins(c.tokens + tail, c.params + more) == Some(Read(NormJoins(joins), tail, more))
    decreases |joins|
  {
    hide ParseExpr, ParseJoins, Compile, CompileJoins, Norm, NormJoins, Upper, Late, Follows, Plus, Words;
    if joins == [] {
      NoJoins(tail, more);
    } else {
      JoinsShape(joins);
      JoinsStart(joins[1..], tail);
      NormJoinsCons(joins);
      var on, rest := Compile(joins[0].on).value, CompileJoins(joins[1..]).value;
      var after := rest.tokens + tail;
      ParseCompiled(joins[0].on, after, rest.params + more);
      JoinsParsed(joins[1..], tail, more);
      JoinRead(Upper(joins[0].kind), joins[0].table, on.tokens + after, on.params + (rest.params + more),
               Read(Norm(joins[0].on), after, rest.params + more));
      JoinSides(Upper(joins[0].kind), joins[0].table, on, rest, tail, more);
    }
  }

  lemma NoJoins(tail: seq<Token>, more: seq<Literal>)
    requires Late(tail, AFTER_JOIN)
    ensures CompileJoins([]) == Success(Sql([], [])) && NormJoins([]) == []
    ensures ParseJoins([] + tail, [] + more) == Some(Read([], tail, more))
  {
    assert [] + tail == tail && [] + more == more;
  }

  lemma NormJoinsCons(joins: seq<Join>)
    requires joins != []
    ensures NormJoins(joins) ==
      [ReadJoin(Upper(joins[0].kind), joins[0].table, Norm(joins[0].on))] + NormJoins(joins[1..])
  {
    hide Norm, Upper;
  }

  lemma JoinSides(kind: string, table: string, on: Sql, rest: Sql, tail: seq<Token>, more: seq<Literal>)
    ensures var head := [Word(kind), Word("JOIN"), Ident(table), Word("ON")];
      var c := Plus(Plus(Words(head), on), rest);
      && c.tokens + tail == head + (on.tokens + (rest.tokens + tail))
      && c.params + more == on.params + (rest.params + more)
  {
  }

  lemma {:induction false} JoinsStart(joins: seq<Join>, tail: seq<Token>)
    requires CompileJoins(joins).Success? && Late(tail, AFTER_JOIN)
    ensures Follows(CompileJoins(joins).value.tokens + tail)
  {
    var c := CompileJoins(joins).value;
    if joins == [] {
      assert c.tokens + tail == tail;
    } else {
      assert (c.tokens + tail)[0] == Word(Upper(joins[0].kind));
    }
  }

  lemma ClauseParsed(keyword: string, e: Option<Expr>, tail: seq<Token>, more: seq<Literal>)
    requires CompileClause(keyword, e).Success? && Follows(tail) && !Starts(tail, keyword)
    ensures var c := CompileClause(keyword, e).value;
      ParseClause(keyword, c.tokens + tail, c.params + more) == Some(Read(NormOption(e), tail, more))
  {
    hide ParseExpr, Compile, Norm;
    var c := CompileClause(keyword, e).value;
    if e.None? {
      assert c.tokens + tail == tail && c.params + more == more;
    } else {
      var inner := Compile(e.value).value;
      assert c.tokens + tail == [Word(keyword)] + (inner.tokens + tail);
      assert [] + inner.params == inner.params;
      Cons(Word(keyword), inner.tokens + tail);
      ParseCompiled(e.value, tail, more);
    }
  }

  /** The text of a list: an element, then a comma and the rest if there is a rest. */
  function ListText(one: seq<Token>, last: bool, rest: seq<Token>): seq<Token> {
    if last then one else one + ([Comma] + rest)
  }

  lemma ListTail(one: seq<Token>, last: bool, rest: seq<Token>, tail: seq<Token>)
    ensures ListText(one, last, rest) + tail == if last then one + tail else one + [Comma] + (rest + tail)
  {
  }

  lemma JoinedList(one: seq<Token>, last: bool, rest: seq<Token>)
    requires last ==> rest == []
    ensures one + (if last then [] else [Comma]) + rest == ListText(one, last, rest)
  {
  }

  lemma {:induction false} NamesShape(names: seq<string>)
    requires names != [] && CompileNames(names).Success?
    ensures CompileNames(names[1..]).Success?
    ensures CompileNames(names).value ==
      Words(ListText([Ident(names[0])], |names| == 1, CompileNames(names[1..]).value.tokens))
  {
    JoinedList([Ident(names[0])], |names| == 1, CompileNames(names[1..]).value.tokens);
  }

  lemma {:induction false} NamesRead(name: string, last: bool, ts: seq<Token>, ps: seq<Literal>)
    requires last ==> ts == [] || ts[0] != Comma
    ensures ParseNames(if last then [Ident(name)] + ts else [Ident(name)] + [Comma] + ts, ps) ==
      if last then Some(Read([name], ts, ps))
      else (var rest := ParseNames(ts, ps);
            if rest.None? then None else Some(Read([name] + rest.value.found, rest.value.tokens, rest.value.params)))
  {
    if last {
      Cons(Ident(name), ts);
    } else {
      assert ([Ident(name)] + [Comma] + ts)[2..] == ts;
    }
  }

  lemma {:induction false} NamesParsed(names: seq<string>, tail: seq<Token>, more: seq<Literal>)
    requires names != [] && CompileNames(names).Success? && (tail == [] || tail[0] != Comma)
    ensures var c := CompileNames(names).value;
      c.params == [] && ParseNames(c.tokens + tail, more) == Some(Read(names, tail, more))
    decreases |names|
  {
    hide CompileNames, ParseNames, ListText, Quote;
    NamesShape(names);
    var rest := CompileNames(names[1..]).value;
    ListTail([Ident(names[0])], |names| == 1, rest.tokens, tail);
    assert names == [names[0]] + names[1..];
    if |names| == 1 {
      assert names[1..] == [] && names == [names[0]];
      NamesRead(names[0], true, tail, more);
    } else {
      NamesRead(names[0], false, rest.tokens + tail, more);
      NamesParsed(names[1..], tail, more);
    }
  }

  lemma {:induction false} GroupsParsed(names: seq<string>, tail: seq<Token>, more: seq<Literal>)
    requires CompileGroups(names).Success? && Late(tail, AFTER_GROUP)
    ensures var c := CompileGroups(names).value;
      ParseGroups(c.tokens + tail, c.params + more) == Some(Read(names, tail, more))
  {
    var c := CompileGroups(names).value;
    if names == [] {
      assert c.tokens + tail == tail && c.params + more == more;
    } else {
      var list := CompileNames(names).value;
      NamesParsed(names, tail, more);
      assert c.tokens + tail == [Word("GROUP BY")] + (list.tokens + tail) && c.params + more == more;
      Cons(Word("GROUP BY"), list.tokens + tail);
    }
  }

  function OrderText(o: Order): seq<Token> {
    [Ident(o.column), Word(DirectionOf(o))]
  }

  lemma {:induction false} OrdersShape(orders: seq<Order>)
    requires orders != [] && CompileOrderList(orders).Success?
    ensures CompileOrderList(orders[1..]).Success?
    ensures CompileOrderList(orders).value ==
      Words(ListText(OrderText(orders[0]), |orders| == 1, CompileOrderList(orders[1..]).value.tokens))
  {
    hide DirectionOf;
    JoinedList(OrderText(orders[0]), |orders| == 1, CompileOrderList(orders[1..]).value.tokens);
  }

  lemma {:induction false} OrdersRead(o: Order, last: bool, ts: seq<Token>, ps: seq<Literal>)
    requires last ==> ts == [] || ts[0] != Comma
    ensures ParseOrderList(if last then OrderText(o) + ts else OrderText(o) + [Comma] + ts, ps) ==
      if last then Some(Read([ReadOrder(o.column, DirectionOf(o))], ts, ps))
      else (var rest := ParseOrderList(ts, ps);
            if rest.None? then None
            else Some(Read([ReadOrder(o.column, DirectionOf(o))] + rest.value.found, rest.value.tokens,
              rest.value.params)))
  {
    hide Upper;
    if last {
      assert (OrderText(o) + ts)[2..] == ts;
    } else {
      assert (OrderText(o) + [Comma] + ts)[3..] == ts;
    }
  }

  lemma {:induction false} OrderListParsed(orders: seq<Order>, tail: seq<Token>, more: seq<Literal>)
    requires orders != [] && CompileOrderList(orders).Success? && (tail == [] || tail[0] != Comma)
    ensures var c := CompileOrderList(orders).value;
      c.params == [] && ParseOrderList(c.tokens + tail, more) == Some(Read(NormOrders(orders), tail, more))
    decreases |orders|
  {
    hide DirectionOf, CompileOrderList, ParseOrderList, NormOrders, ListText, OrderText;
    OrdersShape(orders);
    var rest := CompileOrderList(orders[1..]).value;
    ListTail(OrderText(orders[0]), |orders| == 1, rest.tokens, tail);
    NormOrdersCons(orders);
    if |orders| == 1 {
      OrdersRead(orders[0], true, tail, more);
    } else {
      OrdersRead(orders[0], false, rest.tokens + tail, more);
      OrderListParsed(orders[1..], tail, more);
    }
  }

  lemma NormOrdersCons(orders: seq<Order>)
    requires orders != []
    ensures var one := [ReadOrder(orders[0].column, DirectionOf(orders[0]))];
      NormOrders(orders) == if |orders| == 1 then one else one + NormOrders(orders[1..])
  {
    hide DirectionOf;
  }

  lemma {:induction false} OrdersParsed(orders: seq<Order>, tail: seq<Token>, more: seq<Literal>)
    requires CompileOrders(orders).Success? && Late(tail, AFTER_ORDER)
    ensures var c := CompileOrders(orders).value;
      ParseOrders(c.tokens + tail, c.params + more) == Some(Read(NormOrders(orders), tail, more))
  {
    var c := CompileOrders(orders).value;
    if orders == [] {
      assert c.tokens + tail == tail && c.params + more == more && NormOrders(orders) == [];
    } else {
      var list := CompileOrderList(orders).value;
      OrderListParsed(orders, tail, more);
      assert c.tokens + tail == [Word("ORDER BY")] + (list.tokens + tail) && c.params + more == more;
      Cons(Word("ORDER BY"), list.tokens + tail);
    }
  }

  lemma NumberParsed(keyword: string, n: Option<int>, tail: seq<Token>, more: seq<Literal>)
    requires !Starts(tail, keyword)
    ensures var c := CompileNumber(keyword, n);
      ParseNumber(keyword, c.tokens + tail, c.params + more) == Read(n, tail, more)
  {
    var c := CompileNumber(keyword, n);
    assert c.params + more == more;
    if n.None? {
      assert c.tokens + tail == tail;
    } else {
      assert (c.tokens + tail)[2..] == tail;
    }
  }

  // ----- SELECT -----

  /** The text after the joins. */
  function FiltersOf(s: Select): Sql
    requires CompileSelect(s).Success?
  {
    Plus(CompileClause("WHERE", s.where).value,
      Plus(CompileGroups(s.groupBy).value, Plus(CompileClause("HAVING", s.having).value,
      Plus(CompileOrders(s.orderBy).value, Plus(CompileNumber("LIMIT", s.limit), CompileNumber("OFFSET", s.offset))))))
  }

  lemma {:induction false} SelectShape(s: Select)
    requires CompileSelect(s).Success?
    ensures CompileColumns(s.columns, s.joins != []).Success? && CompileJoins(s.joins).Success?
    ensures CompileClause("WHERE", s.where).Success? && CompileGroups(s.groupBy).Success?
    ensures CompileClause("HAVING", s.having).Success? && CompileOrders(s.orderBy).Success?
    ensures CompileSelect(s).value ==
      Plus(Words([Word("SELECT")]), Plus(CompileColumns(s.columns, s.joins != []).value,
        Plus(Words([Word("FROM"), Ident(s.table)]), Plus(CompileJoins(s.joins).value, FiltersOf(s)))))
  {
    hide CompileColumns, CompileJoins, CompileClause, CompileGroups, CompileOrders, CompileNumber, Plus;
  }

  lemma ClauseLate(keyword: string, e: Option<Expr>, words: set<string>)
    requires CompileClause(keyword, e).Success? && keyword in words
    ensures Late(CompileClause(keyword, e).value.tokens, words)
  {
  }

  lemma {:induction false} FiltersLate(s: Select)
    requires CompileSelect(s).Success?
    ensures
      var groups, having, orders := CompileGroups(s.groupBy).value, CompileClause("HAVING", s.having).value,
        CompileOrders(s.orderBy).value;
      var limit, offset := CompileNumber("LIMIT", s.limit), CompileNumber("OFFSET", s.offset);
      && Late(offset.tokens, AFTER_LIMIT)
      && Late(Plus(limit, offset).tokens, AFTER_ORDER)
      && Late(Plus(orders, Plus(limit, offset)).tokens, AFTER_HAVING)
      && Late(Plus(having, Plus(orders, Plus(limit, offset))).tokens, AFTER_GROUP)
      && Late(Plus(groups, Plus(having, Plus(orders, Plus(limit, offset)))).tokens, AFTER_WHERE)
      && Late(FiltersOf(s).tokens, AFTER_JOIN)
  {
    hide CompileClause, CompileNames, CompileOrderList, CompileItems, CompileJoins, Plus, Quote;
    var where, groups := CompileClause("WHERE", s.where).value, CompileGroups(s.groupBy).value;
    var having, orders := CompileClause("HAVING", s.having).value, CompileOrders(s.orderBy).value;
    var limit, offset := CompileNumber("LIMIT", s.limit), CompileNumber("OFFSET", s.offset);
    ClauseLate("WHERE", s.where, AFTER_JOIN);
    ClauseLate("HAVING", s.having, AFTER_GROUP);
    GroupsLate(s.groupBy);
    OrdersLate(s.orderBy);
    LatePlus(limit, offset, AFTER_ORDER);
    LatePlus(orders, Plus(limit, offset), AFTER_HAVING);
    LatePlus(having, Plus(orders, Plus(limit, offset)), AFTER_GROUP);
    LatePlus(groups, Plus(having, Plus(orders, Plus(limit, offset))), AFTER_WHERE);
    LatePlus(where, Plus(groups, Plus(having, Plus(orders, Plus(limit, offset)))), AFTER_JOIN);
  }

  lemma {:induction false} GroupsLate(names: seq<string>)
    requires CompileGroups(names).Success?
    ensures Late(CompileGroups(names).value.tokens, AFTER_WHERE)
  {
  }

  lemma {:induction false} OrdersLate(orders: seq<Order>)
    requires CompileOrders(orders).Success?
    ensures Late(CompileOrders(orders).value.tokens, AFTER_HAVING)
  {
  }

  lemma LateFollows()
    ensures forall ts: seq<Token> :: Late(ts, AFTER_WHERE) || Late(ts, AFTER_HAVING) ==> Follows(ts)
    ensures forall ts: seq<Token> :: Late(ts, AFTER_WHERE) ==> !Starts(ts, "WHERE")
    ensures forall ts: seq<Token> :: Late(ts, AFTER_HAVING) ==> !Starts(ts, "HAVING")
    ensures forall ts: seq<Token> :: Late(ts, AFTER_LIMIT) ==> !Starts(ts, "LIMIT")
    ensures !Starts([], "OFFSET")
  {
  }

  /** The clauses read one after another. */
  lemma FilterSteps(
    columns: ReadColumns, table: string, joins: seq<ReadJoin>, ts: seq<Token>, ps: seq<Literal>,
      where: Read<Option<Parsed>>,
    groups: Read<seq<string>>, having: Read<Option<Parsed>>, orders: Read<seq<ReadOrder>>, limit: Read<Option<int>>,
    offset: Read<Option<int>>)
    requires ParseClause("WHERE", ts, ps) == Some(where)
    requires ParseGroups(where.tokens, where.params) == Some(groups)
    requires ParseClause("HAVING", groups.tokens, groups.params) == Some(having)
    requires ParseOrders(having.tokens, having.params) == Some(orders)
    requires ParseNumber("LIMIT", orders.tokens, orders.params) == limit
    requires ParseNumber("OFFSET", limit.tokens, limit.params) == offset
    requires offset.tokens == [] && offset.params == []
    ensures ParseFilters(columns, table, joins, ts, ps) ==
      Some(ReadSelect(columns, table, joins, where.found, groups.found, having.found, orders.found, limit.found,
        offset.found))
  {
    hide ParseClause, ParseGroups, ParseOrders, ParseNumber;
  }

  lemma {:induction false} FiltersParsed(s: Select, columns: ReadColumns, table: string, joins: seq<ReadJoin>)
    requires CompileSelect(s).Success?
    ensures ParseFilters(columns, table, joins, FiltersOf(s).tokens, FiltersOf(s).params) ==
        Some(ReadSelect(columns, table, joins, NormOption(s.where), s.groupBy, NormOption(s.having),
          NormOrders(s.orderBy), s.limit, s.offset))
  {
    hide Late, Follows, Starts, CompileClause, CompileGroups, CompileOrders, CompileNumber, ParseClause, ParseGroups,
      ParseOrders, ParseNumber, ParseFilters, NormOption, NormOrders, CompileSelect;
    FiltersLate(s);
    LateFollows();
    SelectShape(s);
    var where, groups := CompileClause("WHERE", s.where).value, CompileGroups(s.groupBy).value;
    var having, orders := CompileClause("HAVING", s.having).value, CompileOrders(s.orderBy).value;
    var limit, offset := CompileNumber("LIMIT", s.limit), CompileNumber("OFFSET", s.offset);
    var a1 := Plus(limit, offset);
    var a2 := Plus(orders, a1);
    var a3 := Plus(having, a2);
    var a4 := Plus(groups, a3);
    ClauseParsed("WHERE", s.where, a4.tokens, a4.params);
    GroupsParsed(s.groupBy, a3.tokens, a3.params);
    ClauseParsed("HAVING", s.having, a2.tokens, a2.params);
    OrdersParsed(s.orderBy, a1.tokens, a1.params);
    NumberParsed("LIMIT", s.limit, offset.tokens, offset.params);
    NumberParsed("OFFSET", s.offset, [], []);
    assert offset.tokens + [] == offset.tokens && offset.params + [] == offset.params;
    FilterSteps(columns, table, joins, FiltersOf(s).tokens, FiltersOf(s).params,
                Read(NormOption(s.where), a4.tokens, a4.params), Read(s.groupBy, a3.tokens, a3.params),
                Read(NormOption(s.having), a2.tokens, a2.params), Read(NormOrders(s.orderBy), a1.tokens, a1.params),
                Read(s.limit, offset.tokens, offset.params), Read(s.offset, [], []));
  }

  lemma SelectSteps(columns: Read<ReadColumns>, table: string, joins: Read<seq<ReadJoin>>, ts: seq<Token>,
      ps: seq<Literal>,
                    rest: seq<Token>)
    requires ParseColumns(ts, ps) == Some(columns)
    requires columns.tokens == [Word("FROM"), Ident(table)] + rest
    requires ParseJoins(rest, columns.params) == Some(joins)
    ensures ParseSelect([Word("SELECT")] + ts, ps) ==
      ParseFilters(columns.found, table, joins.found, joins.tokens, joins.params)
  {
    hide ParseColumns, ParseJoins, ParseFilters;
    Cons(Word("SELECT"), ts);
    assert columns.tokens[2..] == rest;
  }

  /** Reading the text of a SELECT gives the statement back, every parameter at its placeholder. */
  lemma {:induction false} SelectReadBack(s: Select)
    requires CompileSelect(s).Success?
    ensures var c := CompileSelect(s).value; ParseSelect(c.tokens, c.params) == Some(NormSelect(s))
  {
    hide CompileSelect, CompileColumns, CompileJoins, CompileClause, CompileGroups, CompileOrders, FiltersOf, Late,
      ParseColumns, ParseJoins, ParseFilters, ParseSelect, NormColumns, NormJoins, NormOption, NormOrders;
    SelectShape(s);
    FiltersLate(s);
    FiltersParsed(s, NormColumns(s.columns, s.joins != []), s.table, NormJoins(s.joins));
    var columns, joins, filters := CompileColumns(s.columns, s.joins != []).value, CompileJoins(s.joins).value,
      FiltersOf(s);
    var a1 := Plus(joins, filters);
    var a2 := Plus(Words([Word("FROM"), Ident(s.table)]), a1);
    var a3 := Plus(columns, a2);
    assert [] + a3.params == a3.params && [] + a1.params == a1.params;
    ColumnsParsed(s.columns, s.joins != [], a2.tokens, a2.params);
    JoinsParsed(s.joins, filters.tokens, filters.params);
    SelectSteps(Read(NormColumns(s.columns, s.joins != []), a2.tokens, a2.params), s.table,
                Read(NormJoins(s.joins), filters.tokens, filters.params), a3.tokens, a3.params, a1.tokens);
  }

  // ----- UPDATE and DELETE -----

  function AssignmentText(key: string): seq<Token> {
    [Ident(key), Word("="), Param]
  }

  lemma {:induction false} AssignmentsShape(values: seq<Assignment>)
    requires values != [] && CompileAssignments(values).Success?
    ensures CompileAssignments(values[1..]).Success?
    ensures var rest := CompileAssignments(values[1..]).value;
      && CompileAssignments(values).value ==
         Sql(ListText(AssignmentText(values[0].key), |values| == 1, rest.tokens), [values[0].value] + rest.params)
      && (|values| == 1 ==> rest == Words([]))
  {
    JoinedList(AssignmentText(values[0].key), |values| == 1, CompileAssignments(values[1..]).value.tokens);
  }

  lemma {:induction false} AssignmentsRead(a: Assignment, last: bool, ts: seq<Token>, ps: seq<Literal>)
    requires last ==> ts == [] || ts[0] != Comma
    ensures ParseAssignments(if last then AssignmentText(a.key) + ts
      else AssignmentText(a.key) + [Comma] + ts, [a.value] + ps) ==
      if last then Some(Read([a], ts, ps))
      else (var rest := ParseAssignments(ts, ps);
            if rest.None? then None else Some(Read([a] + rest.value.found, rest.value.tokens, rest.value.params)))
  {
    assert ([a.value] + ps)[1..] == ps;
    if last {
      assert (AssignmentText(a.key) + ts)[3..] == ts;
    } else {
      assert (AssignmentText(a.key) + [Comma] + ts)[4..] == ts;
    }
  }

  lemma {:induction false} AssignmentsParsed(values: seq<Assignment>, tail: seq<Token>, more: seq<Literal>)
    requires values != [] && CompileAssignments(values).Success? && (tail == [] || tail[0] != Comma)
    ensures var c := CompileAssignments(values).value;
      ParseAssignments(c.tokens + tail, c.params + more) == Some(Read(values, tail, more))
    decreases |values|
  {
    hide CompileAssignments, ParseAssignments, ListText, AssignmentText, Quote;
    AssignmentsShape(values);
    var rest := CompileAssignments(values[1..]).value;
    ListTail(AssignmentText(values[0].key), |values| == 1, rest.tokens, tail);
    Params([values[0].value], rest.params, more);
    assert values == [values[0]] + values[1..];
    if |values| == 1 {
      assert [] + more == more && values[1..] == [] && values == [values[0]];
      AssignmentsRead(values[0], true, tail, more);
    } else {
      AssignmentsRead(values[0], false, rest.tokens + tail, rest.params + more);
      AssignmentsParsed(values[1..], tail, more);
    }
  }

  lemma {:induction false} UpdateShape(s: Update)
    requires CompileUpdate(s).Success?
    ensures CompileAssignments(s.values).Success? && CompileClause("WHERE", s.where).Success?
    ensures CompileUpdate(s).value ==
      Plus(Words([Word("UPDATE"), Ident(s.table), Word("SET")]),
        Plus(CompileAssignments(s.values).value, CompileClause("WHERE", s.where).value))
    ensures s.values != [] ==> StartsName(CompileAssignments(s.values).value.tokens, s.values[0].key)
    ensures s.values == [] ==> CompileAssignments(s.values).value == Words([])
  {
    hide CompileClause;
    if s.values != [] { AssignmentsShape(s.values); }
  }

  predicate StartsName(ts: seq<Token>, name: string) {
    ts != [] && ts[0] == Ident(name)
  }

  lemma UpdateSteps(table: string, ts: seq<Token>, ps: seq<Literal>, values: Read<seq<Assignment>>,
      where: Read<Option<Parsed>>)
    requires if ts == [] || Starts(ts, "WHERE") then values == Read([], ts, ps)
      else ParseAssignments(ts, ps) == Some(values)
    requires ParseClause("WHERE", values.tokens, values.params) == Some(where)
    requires where.tokens == [] && where.params == []
    ensures ParseUpdate([Word("UPDATE"), Ident(table), Word("SET")] + ts, ps) ==
      Some(ReadUpdate(table, values.found, where.found))
  {
    hide ParseClause, ParseAssignments;
    var all := [Word("UPDATE"), Ident(table), Word("SET")] + ts;
    assert all[2..] == [Word("SET")] + ts;
    Cons(Word("SET"), ts);
  }

  lemma {:induction false} UpdateReadBack(s: Update)
    requires CompileUpdate(s).Success?
    ensures var c := CompileUpdate(s).value;
      ParseUpdate(c.tokens, c.params) == Some(ReadUpdate(s.table, s.values, NormOption(s.where)))
  {
    hide CompileClause, ParseClause, NormOption, CompileUpdate, CompileAssignments, ParseAssignments, ParseUpdate,
      Norm, Compile;
    UpdateShape(s);
    WhereStarts(s.where);
    var values, where := CompileAssignments(s.values).value, CompileClause("WHERE", s.where).value;
    var rest := Plus(values, where);
    var c := CompileUpdate(s).value;
    assert c.params == rest.params;
    assert where.tokens + [] == where.tokens && where.params + [] == where.params;
    ClauseParsed("WHERE", s.where, [], []);
    if s.values == [] {
      PlusNothing(where);
    } else {
      AssignmentsParsed(s.values, where.tokens, where.params);
      assert rest.tokens[0] == values.tokens[0];
    }
    UpdateSteps(s.table, rest.tokens, rest.params, Read(s.values, where.tokens, where.params),
                Read(NormOption(s.where), [], []));
  }

  lemma WhereStarts(e: Option<Expr>)
    requires CompileClause("WHERE", e).Success?
    ensures var ts := CompileClause("WHERE", e).value.tokens; ts == [] || Starts(ts, "WHERE")
  {
  }

  lemma DeleteReadBack(s: Delete)
    requires CompileDelete(s).Success?
    ensures var c := CompileDelete(s).value;
      ParseDelete(c.tokens, c.params) == Some(ReadDelete(s.table, NormOption(s.where)))
  {
    var where := CompileClause("WHERE", s.where).value;
    var c := CompileDelete(s).value;
    assert c.tokens == [Word("DELETE FROM"), Ident(s.table)] + where.tokens && c.params == where.params;
    assert c.tokens[2..] == where.tokens + [] && where.params + [] == where.params;
    ClauseParsed("WHERE", s.where, [], []);
  }
}
