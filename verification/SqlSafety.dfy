/**
  What can get into the text of a statement: identifiers of plain letters, digits and underscores, words of
  fixed lists, and placeholders. Whatever the caller binds stays out of it.
 */
module SqlSafety {
  import opened Wrappers
  import opened SqlCompiler
  import opened SqlStatements

  // ----- tokens -----

  /** A letter or an underscore, then any of these and digits. */
  predicate PlainName(name: string) {
    name != "" && forall i :: 0 <= i < |name| ==>
      || 'a' <= name[i] <= 'z' || 'A' <= name[i] <= 'Z' || name[i] == '_'
      || (i > 0 && '0' <= name[i] <= '9')
  }

  const KEYWORDS := {"SELECT", "*", "FROM", "AS", "INNER", "LEFT", "RIGHT", "FULL", "JOIN", "ON", "WHERE", "GROUP BY",
    "HAVING", "ORDER BY", "ASC", "DESC", "LIMIT", "OFFSET", "UPDATE", "SET", "DELETE FROM"}

  const COMPARISONS := {"=", "!=", "<", "<=", ">", ">=", "LIKE", "ILIKE", "IN", "NOT IN", "IS", "IS NOT", "AND", "OR",
    "||", "->>"}

  const CALLS := {"COUNT", "SUM", "AVG", "MIN", "MAX", "COALESCE", "LOWER", "UPPER", "NOW", "DATE", "SUBSTR",
    "SUBSTRING", "JSON_EXTRACT"}

  predicate Safe(t: Token) {
    match t
    case Ident(name) => PlainName(name)
    case Word(text) => text in KEYWORDS + COMPARISONS + CALLS
    case _ => true
  }

  predicate AllSafe(ts: seq<Token>) {
    forall i :: 0 <= i < |ts| ==> Safe(ts[i])
  }

  /** Safe tokens, and a parameter for every placeholder. */
  predicate Sound(sql: Sql) {
    AllSafe(sql.tokens) && |sql.params| == Holes(sql.tokens)
  }

  function Holes(ts: seq<Token>): nat {
    if ts == [] then 0 else (if ts[0] == Param then 1 else 0) + Holes(ts[1..])
  }

  lemma {:induction false} HolesConcat(a: seq<Token>, b: seq<Token>)
    ensures Holes(a + b) == Holes(a) + Holes(b)
    decreases |a|
  {
    if a == [] {
      assert a + b == b;
    } else {
      assert (a + b)[0] == a[0] && (a + b)[1..] == a[1..] + b;
      HolesConcat(a[1..], b);
    }
  }

  lemma OneToken(t: Token)
    ensures AllSafe([t]) <==> Safe(t)
    ensures Holes([t]) == if t == Param then 1 else 0
  {
    assert [t][0] == t && [t][1..] == [];
  }

  lemma SafeConcat(a: seq<Token>, b: seq<Token>)
    ensures AllSafe(a + b) <==> AllSafe(a) && AllSafe(b)
    ensures Holes(a + b) == Holes(a) + Holes(b)
  {
    hide Safe, Holes;
    HolesConcat(a, b);
    if AllSafe(a + b) {
      assert forall i :: 0 <= i < |a| ==> (a + b)[i] == a[i];
      assert forall i :: 0 <= i < |b| ==> (a + b)[|a| + i] == b[i];
    }
  }

  lemma QuotedSafe(name: string)
    ensures Quote(name).Success? <==> PlainName(name)
    ensures Quote(name).Success? ==> Safe(Quote(name).value) && Quote(name).value == Ident(name)
  {
  }

  lemma NothingSound()
    ensures Sound(Sql([], []))
  {
  }

  lemma AppendSound(a: Sql, w: Token, b: Sql)
    requires Sound(a) && Sound(b) && Safe(w) && w != Param
    ensures Sound(Append(a, w, b))
  {
    hide Safe, Holes, AllSafe;
    OneToken(w);
    SafeConcat(a.tokens, [w]);
    SafeConcat(a.tokens + [w], b.tokens);
  }

  lemma PlusSound(a: Sql, b: Sql)
    requires Sound(a) && Sound(b)
    ensures Sound(Plus(a, b))
  {
    hide Safe, Holes, AllSafe;
    SafeConcat(a.tokens, b.tokens);
  }

  lemma TokenSound(t: Token)
    requires Safe(t) && t != Param
    ensures Sound(Words([t]))
  {
    hide Safe, Holes, AllSafe;
    OneToken(t);
  }

  lemma ParenthesesSound(a: Sql)
    requires Sound(a)
    ensures Sound(Parenthesized(a))
  {
    hide Sound, Safe;
    PunctuationSafe();
    WrappedSound(a, LParen);
  }

  lemma PunctuationSafe()
    ensures Safe(LParen) && Safe(RParen) && Safe(Comma) && Safe(Dot)
  {
  }

  lemma WrappedSound(a: Sql, open: Token)
    requires Sound(a) && Safe(open) && open != Param
    ensures Sound(Sql([open] + a.tokens + [RParen], a.params))
  {
    hide Holes, AllSafe, Safe;
    PunctuationSafe();
    OneToken(open);
    OneToken(RParen);
    SafeConcat([open], a.tokens);
    SafeConcat([open] + a.tokens, [RParen]);
  }

  lemma {:induction false} PlaceholdersSound(n: nat)
    ensures AllSafe(Placeholders(n)) && Holes(Placeholders(n)) == n
    decreases n
  {
    if n > 1 {
      PlaceholdersSound(n - 1);
      OneToken(Param);
      OneToken(Comma);
      assert [Param, Comma] == [Param] + [Comma];
      SafeConcat([Param], [Comma]);
      SafeConcat([Param, Comma], Placeholders(n - 1));
    } else if n == 1 {
      OneToken(Param);
    }
  }

  // ----- expressions -----

  /** What an empty list compares to. */
  lemma ConstantSafe(op: string)
    ensures Sound(Sql([LParen, Num(1), Word("="), Num(if op == "IN" then 0 else 1), RParen], []))
  {
    hide Sound, Safe;
    var b := if op == "IN" then 0 else 1;
    NumSafe(1);
    OperatorSafe("=");
    TokenSound(Word("="));
    NumSafe(b);
    TwoWords([Num(1)], [Word("=")]);
    assert [Num(1)] + [Word("=")] == [Num(1), Word("=")];
    TwoWords([Num(1), Word("=")], [Num(b)]);
    assert [Num(1), Word("=")] + [Num(b)] == [Num(1), Word("="), Num(b)];
    ParenthesesSound(Words([Num(1), Word("="), Num(b)]));
    assert [LParen] + [Num(1), Word("="), Num(b)] + [RParen] == [LParen, Num(1), Word("="), Num(b), RParen];
  }

  lemma TwoWords(a: seq<Token>, b: seq<Token>)
    requires Sound(Words(a)) && Sound(Words(b))
    ensures Sound(Words(a + b))
  {
    hide Sound;
    PlusSound(Words(a), Words(b));
    assert Words(a).params + Words(b).params == [];
  }

  lemma NumSafe(n: int)
    ensures Sound(Words([Num(n)]))
  {
    OneToken(Num(n));
  }

  /** Whatever the expression, only safe tokens come out, and as many placeholders as parameters. */
  lemma {:induction false} ExpressionSafe(e: Expr)
    ensures Compile(e).Success? ==> Sound(Compile(e).value)
    decreases e, 1, 0
  {
    hide Sound, Safe, CompileChain, CompileArgs, Listed, Placeholders, Upper;
    match e
    case Column(name, table) => ColumnSafe(name, table);
    case Value(literal) => ValueSafe(literal);
    case Binary(left, operator, right) =>
      ExpressionSafe(left);
      ExpressionSafe(right);
      if IsChainOp(operator) {
        ChainSafe(left, operator);
        OperatorSafe(operator);
        if CompileChain(left, operator).Success? && Compile(right).Success? {
          var l, r := CompileChain(left, operator).value, Compile(right).value;
          AppendSound(l, Word(operator), r);
          ParenthesesSound(Append(l, Word(operator), r));
        }
      } else {
        PairSafe(left, Upper(operator), right);
        ConstantSafe(Upper(operator));
      }
    case Function(name, args) =>
      ArgsSafe(e, 0);
      CallSafe(e);
  }

  lemma ColumnSafe(name: string, table: string)
    ensures Compile(Column(name, table)).Success? ==> Sound(Compile(Column(name, table)).value)
  {
    hide Sound, ValidIdentifier, PlainName;
    QuotedSafe(name);
    QuotedSafe(table);
    if ValidIdentifier(name) {
      TokenSound(Ident(name));
      if ValidIdentifier(table) {
        TokenSound(Ident(table));
        TokenSound(Dot);
        TwoWords([Ident(table)], [Dot]);
        TwoWords([Ident(table)] + [Dot], [Ident(name)]);
        assert [Ident(table)] + [Dot] + [Ident(name)] == [Ident(table), Dot, Ident(name)];
      }
    }
  }

  lemma ValueSafe(literal: Literal)
    ensures Sound(Sql([Param], [literal]))
  {
    OneToken(Param);
  }

  lemma OperatorSafe(op: string)
    requires op in OPERATORS || op == "->>"
    ensures Safe(Word(op))
  {
  }

  /** A comparison that is no chain. */
  lemma PairSafe(left: Expr, op: string, right: Expr)
    requires Compile(left).Success? ==> Sound(Compile(left).value)
    requires Compile(right).Success? ==> Sound(Compile(right).value)
    ensures op in OPERATORS && Compile(left).Success? && Compile(right).Success? ==>
      Sound(Parenthesized(Append(Compile(left).value, Word(op), Compile(right).value)))
    ensures op in OPERATORS && Compile(left).Success? && right.Value? && right.literal.List? ==>
      var values := right.literal.items;
      Sound(Parenthesized(Append(Compile(left).value, Word(op),
                                 Parenthesized(Sql(Placeholders(|values|), values)))))
  {
    hide Sound, Safe, Compile, Placeholders, Append, Parenthesized;
    if op in OPERATORS && Compile(left).Success? {
      OperatorSafe(op);
      var l := Compile(left).value;
      if Compile(right).Success? {
        AppendSound(l, Word(op), Compile(right).value);
        ParenthesesSound(Append(l, Word(op), Compile(right).value));
      }
      if right.Value? && right.literal.List? {
        var values := right.literal.items;
        HolesSound(values);
        ParenthesesSound(Sql(Placeholders(|values|), values));
        AppendSound(l, Word(op), Parenthesized(Sql(Placeholders(|values|), values)));
        ParenthesesSound(Append(l, Word(op), Parenthesized(Sql(Placeholders(|values|), values))));
      }
    }
  }

  lemma HolesSound(values: seq<Literal>)
    ensures Sound(Sql(Placeholders(|values|), values))
  {
    PlaceholdersSound(|values|);
  }

  lemma {:induction false} ChainSafe(e: Expr, op: string)
    requires IsChainOp(op)
    ensures CompileChain(e, op).Success? ==> Sound(CompileChain(e, op).value)
    decreases e, 2, 0
  {
    hide Sound, Safe, Compile, Append;
    if e.Binary? && e.operator == op {
      ChainSafe(e.left, op);
      ExpressionSafe(e.right);
      OperatorSafe(op);
      if CompileChain(e.left, op).Success? && Compile(e.right).Success? {
        AppendSound(CompileChain(e.left, op).value, Word(op), Compile(e.right).value);
      }
    } else {
      ExpressionSafe(e);
    }
  }

  lemma {:induction false} ArgsSafe(e: Expr, i: nat)
    requires e.Function? && i <= |e.args|
    ensures CompileArgs(e, i).Success? ==>
      forall k :: 0 <= k < |CompileArgs(e, i).value| ==> Sound(CompileArgs(e, i).value[k])
    decreases e, 0, |e.args| - i
  {
    hide Sound, Compile;
    if i < |e.args| {
      ExpressionSafe(e.args[i]);
      ArgsSafe(e, i + 1);
    }
  }

  lemma {:induction false} ListedSound(args: seq<Sql>)
    requires forall k :: 0 <= k < |args| ==> Sound(args[k])
    ensures Sound(Listed(args))
    decreases |args|
  {
    hide Sound, Append;
    if args == [] {
      NothingSound();
    } else if |args| > 1 {
      ListedSound(args[1..]);
      AppendSound(args[0], Comma, Listed(args[1..]));
    }
  }

  lemma CallSafe(e: Expr)
    requires e.Function?
    requires CompileArgs(e, 0).Success? ==>
      forall k :: 0 <= k < |CompileArgs(e, 0).value| ==> Sound(CompileArgs(e, 0).value[k])
    ensures Compile(e).Success? ==> Sound(Compile(e).value)
  {
    hide Sound, CompileArgs, Append, Parenthesized, Listed, Upper;
    if CompileArgs(e, 0).Success? {
      var all := CompileArgs(e, 0).value;
      if Upper(e.name) == "JSON_EXTRACT" {
        if |all| >= 2 {
          OperatorSafe("->>");
          AppendSound(all[0], Word("->>"), all[1]);
          ParenthesesSound(Append(all[0], Word("->>"), all[1]));
        }
      } else if Upper(e.name) in FUNCTIONS {
        ListedSound(all);
        NamedSound(Upper(e.name), Listed(all));
      }
    }
  }

  lemma CallNameSafe(name: string)
    requires name in FUNCTIONS
    ensures Safe(Word(name))
  {
  }

  lemma NamedSound(name: string, list: Sql)
    requires name in FUNCTIONS && Sound(list)
    ensures Sound(Sql([Word(name), LParen] + list.tokens + [RParen], list.params))
  {
    hide Sound, Safe;
    CallNameSafe(name);
    TokenSound(Word(name));
    ParenthesesSound(list);
    PlusSound(Words([Word(name)]), Parenthesized(list));
    CallText(name, list);
  }

  lemma CallText(name: string, list: Sql)
    ensures Plus(Words([Word(name)]), Parenthesized(list)) ==
      Sql([Word(name), LParen] + list.tokens + [RParen], list.params)
  {
    assert [Word(name)] + ([LParen] + list.tokens + [RParen]) == [Word(name), LParen] + list.tokens + [RParen];
    assert [] + list.params == list.params;
  }

  // ----- statements -----

  lemma KeywordSound(word: string)
    requires word in KEYWORDS
    ensures Sound(Words([Word(word)]))
  {
    TokenSound(Word(word));
  }

  lemma KeywordThenName(word: string, name: string)
    requires word in KEYWORDS && PlainName(name)
    ensures Sound(Words([Word(word), Ident(name)]))
  {
    KeywordSound(word);
    TokenSound(Ident(name));
    PlusSound(Words([Word(word)]), Words([Ident(name)]));
    assert [Word(word)] + [Ident(name)] == [Word(word), Ident(name)];
  }

  lemma ItemSafe(item: Item, joined: bool)
    ensures CompileItem(item, joined).Success? ==> Sound(CompileItem(item, joined).value)
  {
    hide Sound, Compile, ValidIdentifier, PlainName, KEYWORDS;
    match item
    case Named(name) =>
      QuotedSafe(name);
      if Quote(name).Success? { TokenSound(Ident(name)); }
    case Computed(expr) =>
      ExpressionSafe(expr);
      var alias := AliasOf(item, joined);
      if Compile(expr).Success? && alias.Some? {
        QuotedSafe(alias.value);
        if Quote(alias.value).Success? {
          AliasSound(alias.value);
          PlusSound(Compile(expr).value, Words([Word("AS"), Ident(alias.value)]));
        }
      }
  }

  lemma AliasSound(alias: string)
    requires PlainName(alias)
    ensures Sound(Words([Word("AS"), Ident(alias)]))
  {
    KeywordThenName("AS", alias);
  }

  lemma {:induction false} ItemsSafe(items: seq<Item>, joined: bool)
    ensures CompileItems(items, joined).Success? ==> Sound(CompileItems(items, joined).value)
    decreases |items|
  {
    hide Sound, CompileItem, Append;
    if items == [] {
      NothingSound();
    } else {
      ItemSafe(items[0], joined);
      if CompileItem(items[0], joined).Success? && |items| > 1 {
        ItemsSafe(items[1..], joined);
        if CompileItems(items[1..], joined).Success? {
          AppendSound(CompileItem(items[0], joined).value, Comma, CompileItems(items[1..], joined).value);
        }
      }
    }
  }

  lemma ColumnsSafe(columns: Columns, joined: bool)
    ensures CompileColumns(columns, joined).Success? ==> Sound(CompileColumns(columns, joined).value)
  {
    hide Sound, CompileItems;
    if columns.All? { KeywordSound("*"); } else { ItemsSafe(columns.items, joined); }
  }

  lemma JoinSafe(join: Join)
    ensures CompileJoin(join).Success? ==> Sound(CompileJoin(join).value)
  {
    hide Sound, Compile, ValidIdentifier, PlainName, Upper;
    ExpressionSafe(join.on);
    QuotedSafe(join.table);
    if CompileJoin(join).Success? {
      JoinHead(Upper(join.kind), join.table);
      PlusSound(Words([Word(Upper(join.kind)), Word("JOIN"), Ident(join.table), Word("ON")]), Compile(join.on).value);
    }
  }

  lemma JoinHead(kind: string, table: string)
    requires kind in JOIN_TYPES && PlainName(table)
    ensures Sound(Words([Word(kind), Word("JOIN"), Ident(table), Word("ON")]))
  {
    hide PlainName;
    KeywordSound(kind);
    KeywordThenName("JOIN", table);
    KeywordSound("ON");
    PlusSound(Words([Word(kind)]), Words([Word("JOIN"), Ident(table)]));
    var three := [Word(kind)] + [Word("JOIN"), Ident(table)];
    PlusSound(Words(three), Words([Word("ON")]));
    assert three + [Word("ON")] == [Word(kind), Word("JOIN"), Ident(table), Word("ON")];
  }

  lemma {:induction false} JoinsSafe(joins: seq<Join>)
    ensures CompileJoins(joins).Success? ==> Sound(CompileJoins(joins).value)
    decreases |joins|
  {
    hide Sound, CompileJoin, Plus;
    if joins == [] {
      NothingSound();
    } else {
      JoinSafe(joins[0]);
      JoinsSafe(joins[1..]);
      if CompileJoin(joins[0]).Success? && CompileJoins(joins[1..]).Success? {
        PlusSound(CompileJoin(joins[0]).value, CompileJoins(joins[1..]).value);
      }
    }
  }

  lemma ClauseSafe(keyword: string, e: Option<Expr>)
    requires keyword in KEYWORDS
    ensures CompileClause(keyword, e).Success? ==> Sound(CompileClause(keyword, e).value)
  {
    hide Sound, Compile, Plus;
    if e.None? {
      NothingSound();
    } else {
      ExpressionSafe(e.value);
      KeywordSound(keyword);
      if Compile(e.value).Success? { PlusSound(Words([Word(keyword)]), Compile(e.value).value); }
    }
  }

  /** One entry of a list of names, and the comma after it unless it is the last. */
  lemma EntrySound(entry: Sql, last: bool, rest: Sql)
    requires Sound(entry) && Sound(rest)
    ensures Sound(Sql(entry.tokens + (if last then [] else [Comma]) + rest.tokens, entry.params + rest.params))
  {
    hide Sound, Safe;
    if last {
      PlusSound(entry, rest);
      assert entry.tokens + [] == entry.tokens;
    } else {
      PunctuationSafe();
      AppendSound(entry, Comma, rest);
    }
  }

  lemma {:induction false} NamesSafe(names: seq<string>)
    ensures CompileNames(names).Success? ==> Sound(CompileNames(names).value)
    ensures CompileNames(names).Success? ==> CompileNames(names).value.params == []
    decreases |names|
  {
    hide Sound, ValidIdentifier, PlainName;
    if names == [] {
      NothingSound();
    } else {
      NamesSafe(names[1..]);
      QuotedSafe(names[0]);
      if CompileNames(names).Success? {
        TokenSound(Ident(names[0]));
        var rest := CompileNames(names[1..]).value;
        EntrySound(Words([Ident(names[0])]), |names| == 1, rest);
        assert Words([Ident(names[0])]).params + rest.params == [];
      }
    }
  }

  lemma GroupsSafe(names: seq<string>)
    ensures CompileGroups(names).Success? ==> Sound(CompileGroups(names).value)
  {
    hide Sound, CompileNames, Plus;
    if names == [] {
      NothingSound();
    } else {
      NamesSafe(names);
      KeywordSound("GROUP BY");
      if CompileNames(names).Success? { PlusSound(Words([Word("GROUP BY")]), CompileNames(names).value); }
    }
  }

  lemma OrderSound(o: Order)
    requires PlainName(o.column)
    ensures Sound(Words([Ident(o.column), Word(DirectionOf(o))]))
  {
    TokenSound(Ident(o.column));
    KeywordSound(DirectionOf(o));
    PlusSound(Words([Ident(o.column)]), Words([Word(DirectionOf(o))]));
    assert [Ident(o.column)] + [Word(DirectionOf(o))] == [Ident(o.column), Word(DirectionOf(o))];
  }

  lemma {:induction false} OrderListSafe(orders: seq<Order>)
    ensures CompileOrderList(orders).Success? ==> Sound(CompileOrderList(orders).value)
    ensures CompileOrderList(orders).Success? ==> CompileOrderList(orders).value.params == []
    decreases |orders|
  {
    hide Sound, ValidIdentifier, PlainName, DirectionOf;
    if orders == [] {
      NothingSound();
    } else {
      OrderListSafe(orders[1..]);
      QuotedSafe(orders[0].column);
      if CompileOrderList(orders).Success? {
        OrderSound(orders[0]);
        var rest := CompileOrderList(orders[1..]).value;
        EntrySound(Words([Ident(orders[0].column), Word(DirectionOf(orders[0]))]), |orders| == 1, rest);
        assert Words([]).params + rest.params == [];
      }
    }
  }

  lemma OrdersSafe(orders: seq<Order>)
    ensures CompileOrders(orders).Success? ==> Sound(CompileOrders(orders).value)
  {
    hide Sound, CompileOrderList, Plus;
    if orders == [] {
      NothingSound();
    } else {
      OrderListSafe(orders);
      KeywordSound("ORDER BY");
      if CompileOrderList(orders).Success? { PlusSound(Words([Word("ORDER BY")]), CompileOrderList(orders).value); }
    }
  }

  lemma NumberSafe(keyword: string, n: Option<int>)
    requires keyword in KEYWORDS
    ensures Sound(CompileNumber(keyword, n))
  {
    hide Sound, KEYWORDS;
    if n.None? {
      NothingSound();
    } else {
      KeywordSound(keyword);
      NumSafe(n.value);
      TwoWords([Word(keyword)], [Num(n.value)]);
      assert [Word(keyword)] + [Num(n.value)] == [Word(keyword), Num(n.value)];
    }
  }

  /** Whatever a SELECT is made of, only safe tokens come out, and as many placeholders as parameters. */
  lemma SelectSafe(s: Select)
    ensures CompileSelect(s).Success? ==> Sound(CompileSelect(s).value)
  {
    hide Sound, CompileColumns, CompileJoins, CompileClause, CompileGroups, CompileOrders, CompileNumber, Plus,
      ValidIdentifier, PlainName;
    if CompileSelect(s).Success? {
      ColumnsSafe(s.columns, s.joins != []);
      QuotedSafe(s.table);
      JoinsSafe(s.joins);
      ClauseSafe("WHERE", s.where);
      GroupsSafe(s.groupBy);
      ClauseSafe("HAVING", s.having);
      OrdersSafe(s.orderBy);
      NumberSafe("LIMIT", s.limit);
      NumberSafe("OFFSET", s.offset);
      KeywordSound("SELECT");
      KeywordThenName("FROM", s.table);
      var orders, having := CompileOrders(s.orderBy).value, CompileClause("HAVING", s.having).value;
      var groups, where := CompileGroups(s.groupBy).value, CompileClause("WHERE", s.where).value;
      var joins, columns := CompileJoins(s.joins).value, CompileColumns(s.columns, s.joins != []).value;
      var numbers := Plus(CompileNumber("LIMIT", s.limit), CompileNumber("OFFSET", s.offset));
      PlusSound(CompileNumber("LIMIT", s.limit), CompileNumber("OFFSET", s.offset));
      PlusSound(orders, numbers);
      PlusSound(having, Plus(orders, numbers));
      PlusSound(groups, Plus(having, Plus(orders, numbers)));
      PlusSound(where, Plus(groups, Plus(having, Plus(orders, numbers))));
      var filters := Plus(where, Plus(groups, Plus(having, Plus(orders, numbers))));
      PlusSound(joins, filters);
      PlusSound(Words([Word("FROM"), Ident(s.table)]), Plus(joins, filters));
      PlusSound(columns, Plus(Words([Word("FROM"), Ident(s.table)]), Plus(joins, filters)));
      PlusSound(Words([Word("SELECT")]),
        Plus(columns, Plus(Words([Word("FROM"), Ident(s.table)]), Plus(joins, filters))));
    }
  }

  lemma AssignmentSound(a: Assignment)
    requires PlainName(a.key)
    ensures Sound(Sql([Ident(a.key), Word("="), Param], [a.value]))
  {
    TokenSound(Ident(a.key));
    TokenSound(Word("="));
    ValueSafe(a.value);
    PlusSound(Words([Ident(a.key)]), Words([Word("=")]));
    PlusSound(Words([Ident(a.key)] + [Word("=")]), Sql([Param], [a.value]));
    assert [Ident(a.key)] + [Word("=")] + [Param] == [Ident(a.key), Word("="), Param];
  }

  lemma {:induction false} AssignmentsSafe(values: seq<Assignment>)
    ensures CompileAssignments(values).Success? ==> Sound(CompileAssignments(values).value)
    decreases |values|
  {
    hide Sound, ValidIdentifier, PlainName;
    if values == [] {
      NothingSound();
    } else {
      AssignmentsSafe(values[1..]);
      QuotedSafe(values[0].key);
      if CompileAssignments(values).Success? {
        AssignmentSound(values[0]);
        EntrySound(Sql([Ident(values[0].key), Word("="), Param], [values[0].value]), |values| == 1,
          CompileAssignments(values[1..]).value);
      }
    }
  }

  lemma UpdateSafe(s: Update)
    ensures CompileUpdate(s).Success? ==> Sound(CompileUpdate(s).value)
  {
    hide Sound, CompileAssignments, CompileClause, Plus, ValidIdentifier, PlainName;
    if CompileUpdate(s).Success? {
      AssignmentsSafe(s.values);
      QuotedSafe(s.table);
      ClauseSafe("WHERE", s.where);
      UpdateHead(s.table);
      var targets, where := CompileAssignments(s.values).value, CompileClause("WHERE", s.where).value;
      PlusSound(targets, where);
      PlusSound(Words([Word("UPDATE"), Ident(s.table), Word("SET")]), Plus(targets, where));
    }
  }

  lemma UpdateHead(table: string)
    requires PlainName(table)
    ensures Sound(Words([Word("UPDATE"), Ident(table), Word("SET")]))
  {
    hide PlainName;
    KeywordThenName("UPDATE", table);
    KeywordSound("SET");
    PlusSound(Words([Word("UPDATE"), Ident(table)]), Words([Word("SET")]));
    assert [Word("UPDATE"), Ident(table)] + [Word("SET")] == [Word("UPDATE"), Ident(table), Word("SET")];
  }

  lemma DeleteSafe(s: Delete)
    ensures CompileDelete(s).Success? ==> Sound(CompileDelete(s).value)
  {
    hide Sound, CompileClause, Plus, ValidIdentifier, PlainName;
    if CompileDelete(s).Success? {
      QuotedSafe(s.table);
      ClauseSafe("WHERE", s.where);
      KeywordThenName("DELETE FROM", s.table);
      PlusSound(Words([Word("DELETE FROM"), Ident(s.table)]), CompileClause("WHERE", s.where).value);
    }
  }
}
