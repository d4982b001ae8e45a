/** The statements the builder compiles (query/builder.go), as functions of its clauses, and the
    numbering of their placeholders. */
module SqlStatements {
  import opened Prelude
  import opened SqlConditions
  import opened SqlReading
  import opened Ordering

  datatype Dialect = Sqlite | Mysql | Postgres

  datatype Join = Join(kind: string, table: string, on: string, args: seq<SqlValue>)

  datatype Order = Order(column: string, dir: string, raw: bool)

  // ---- Placeholders ----

  /** The number of placeholders after n once the text is bound by position, provided that every
      numbered one carries its position. */
  function Numbering(ts: seq<Tok>, n: nat): Option<nat> {
    if ts == [] then Some(n)
    else
      match ts[0]
      case Param(k) => if k == n + 1 then Numbering(ts[1..], n + 1) else None
      case RawText(_, slots) => Numbering(ts[1..], n + slots)
      case _ => Numbering(ts[1..], n)
  }

  lemma {:induction false} NumberingOfConcat(a: seq<Tok>, b: seq<Tok>, n: nat, m: nat)
    requires Numbering(a, n) == Some(m)
    ensures Numbering(a + b, n) == Numbering(b, m)
    decreases |a|
  {
    if a == [] {
      assert a + b == b;
    } else {
      assert (a + b)[1..] == a[1..] + b;
      match a[0]
      case Param(_) => NumberingOfConcat(a[1..], b, n + 1, m);
      case RawText(_, slots) => NumberingOfConcat(a[1..], b, n + slots, m);
      case _ => NumberingOfConcat(a[1..], b, n, m);
    }
  }

  lemma Joined(a: seq<Tok>, b: seq<Tok>, n: nat, m: nat, k: nat)
    requires Numbering(a, n) == Some(m) && Numbering(b, m) == Some(k)
    ensures Numbering(a + b, n) == Some(k)
  {
    NumberingOfConcat(a, b, n, m);
  }

  lemma NumberingSkips(t: Tok, b: seq<Tok>, n: nat)
    requires !t.Param? && !t.RawText?
    ensures Numbering([t] + b, n) == Numbering(b, n)
  {
    assert ([t] + b)[1..] == b;
  }

  lemma NumberingTakes(b: seq<Tok>, n: nat)
    ensures Numbering([Param(n + 1)] + b, n) == Numbering(b, n + 1)
  {
    assert ([Param(n + 1)] + b)[1..] == b;
  }

  lemma {:induction false} PlainNumbered(ts: seq<Tok>, n: nat)
    requires forall t | t in ts :: !t.Param? && !t.RawText?
    ensures Numbering(ts, n) == Some(n)
  {
    if ts != [] {
      assert ts[0] in ts;
      PlainNumbered(ts[1..], n);
    }
  }

  lemma {:induction false} ParamsNumbered(n: nat, k: nat)
    ensures Numbering(Params(n, k), n) == Some(n + k)
    decreases k
  {
    if k == 1 {
      assert [Param(n + 1)][1..] == [];
    } else if k > 1 {
      ParamsNumbered(n + 1, k - 1);
      assert Params(n, k)[1..] == [Comma] + Params(n + 1, k - 1);
      NumberingSkips(Comma, Params(n + 1, k - 1), n + 1);
    }
  }

  lemma MembersNumbered(col: string, word: Tok, n: nat, k: nat)
    requires word == InWord || word == NotInWord
    ensures Numbering([Column(col), word, Open] + (Params(n, k) + [Close]), n) == Some(n + k)
  {
    var members := Params(n, k) + [Close];
    ParamsNumbered(n, k);
    NumberingOfConcat(Params(n, k), [Close], n, n + k);
    NumberingSkips(Close, [], n + k);
    NumberingSkips(Open, members, n);
    NumberingSkips(word, [Open] + members, n);
    NumberingSkips(Column(col), [word] + ([Open] + members), n);
    assert [Column(col), word, Open] + members == [Column(col)] + ([word] + ([Open] + members));
    assert [Close] + [] == [Close];
  }

  lemma RangeNumbered(col: string, word: Tok, n: nat)
    requires word == BetweenWord || word == NotBetweenWord
    ensures Numbering([Column(col), word, Param(n + 1), AndWord, Param(n + 2)], n) == Some(n + 2)
  {
    PlainNumbered([Column(col), word], n);
    NumberingOfConcat([Column(col), word], [Param(n + 1)] + ([AndWord] + ([Param(n + 2)] + [])), n, n);
    NumberingTakes([AndWord] + ([Param(n + 2)] + []), n);
    NumberingSkips(AndWord, [Param(n + 2)] + [], n + 1);
    NumberingTakes([], n + 1);
    assert [Column(col), word, Param(n + 1), AndWord, Param(n + 2)] == [Column(col), word] + ([Param(n + 1)] + ([AndWord] + ([Param(n + 2)] + [])));
  }

  lemma ComparisonNumbered(col: string, op: Operator, n: nat)
    ensures Numbering([Column(col), OperatorWord(op), Param(n + 1)], n) == Some(n + 1)
  {
    var plain := [Column(col), OperatorWord(op)];
    PlainNumbered(plain, n);
    NumberingTakes([], n);
    Joined(plain, [Param(n + 1)] + [], n, n, n + 1);
    assert [Column(col), OperatorWord(op), Param(n + 1)] == plain + ([Param(n + 1)] + []);
  }

  lemma LeafNumbered(c: Condition, n: nat)
    requires !c.body.Nested?
    ensures Numbering(TextOne(c, n), n) == Some(n + |Args(c)|)
  {
    match c.body
    case Raw(_, _) => assert TextOne(c, n)[1..] == [];
    case In(col, values) =>
      if values == [] {
        PlainNumbered(TextOne(c, n), n);
      } else {
        MembersNumbered(col, InWord, n, |values|);
      }
    case NotIn(col, values) =>
      if values == [] {
        PlainNumbered(TextOne(c, n), n);
      } else {
        MembersNumbered(col, NotInWord, n, |values|);
      }
    case Between(col, _, _) => RangeNumbered(col, BetweenWord, n);
    case NotBetween(col, _, _) => RangeNumbered(col, NotBetweenWord, n);
    case IsNull(col) => PlainNumbered(TextOne(c, n), n);
    case NotNull(col) => PlainNumbered(TextOne(c, n), n);
    case Compare(col, op, _) =>
      ComparisonNumbered(col, op, n);
  }

  lemma {:induction false} OneNumbered(c: Condition, n: nat)
    ensures Numbering(TextOne(c, n), n) == Some(n + |Args(c)|)
    decreases SizeOne(c), 0
  {
    match c.body
    case Nested(conds) =>
      var m := n + |Args(c)|;
      TextNumbered(conds, n);
      PlainNumbered([Open], n);
      PlainNumbered([Close], m);
      Joined(Text(conds, n), [Close], n, m, m);
      Joined([Open], Text(conds, n) + [Close], n, n, m);
    case _ => LeafNumbered(c, n);
  }

  lemma FirstAndRestNumbered(conds: seq<Condition>, n: nat)
    requires conds != []
    requires Numbering(TextOne(conds[0], n), n) == Some(n + |Args(conds[0])|)
    requires var m := n + |Args(conds[0])|; Numbering(TextAfter(conds[1..], m), m) == Some(m + |ArgsOf(conds[1..])|)
    ensures Numbering(Text(conds, n), n) == Some(n + |ArgsOf(conds)|)
  {
    var m := n + |Args(conds[0])|;
    Joined(TextOne(conds[0], n), TextAfter(conds[1..], m), n, m, n + |ArgsOf(conds)|);
  }

  lemma {:induction false} TextNumbered(conds: seq<Condition>, n: nat)
    ensures Numbering(Text(conds, n), n) == Some(n + |ArgsOf(conds)|)
    decreases Size(conds), 1
  {
    if conds != [] {
      OneNumbered(conds[0], n);
      TextAfterNumbered(conds[1..], n + |Args(conds[0])|);
      FirstAndRestNumbered(conds, n);
    }
  }

  lemma {:induction false} TextAfterNumbered(conds: seq<Condition>, n: nat)
    ensures Numbering(TextAfter(conds, n), n) == Some(n + |ArgsOf(conds)|)
    decreases Size(conds), 2
  {
    if conds != [] {
      TextNumbered(conds, n);
      NumberingSkips(Word(conds[0].glue), Text(conds, n), n);
    }
  }

  // ---- SELECT ----

  function Columns(cols: seq<string>): seq<Tok> {
    if cols == [] then [] else if |cols| == 1 then [Column(cols[0])] else [Column(cols[0]), Comma] + Columns(cols[1..])
  }

  function JoinText(joins: seq<Join>): seq<Tok> {
    if joins == [] then []
    else
      JoinText(joins[..|joins| - 1]) + OneJoin(joins[|joins| - 1])
  }

  function OneJoin(j: Join): seq<Tok> {
    [Keyword(j.kind), Keyword("JOIN"), Table(j.table), Keyword("ON")] + [RawText(j.on, |j.args|)]
  }

  function JoinArgs(joins: seq<Join>): seq<SqlValue> {
    if joins == [] then [] else JoinArgs(joins[..|joins| - 1]) + joins[|joins| - 1].args
  }

  function SelectHead(distinct: bool, cols: seq<string>, table: string): seq<Tok> {
    [Keyword("SELECT")] + ((if distinct then [Keyword("DISTINCT")] else [])
    + ((if cols == [] then [Keyword("*")] else Columns(cols)) + [Keyword("FROM"), Table(table)]))
  }

  /** A WHERE or HAVING clause when n placeholders come before it. */
  function Clause(word: string, conds: seq<Condition>, n: nat): seq<Tok> {
    if conds == [] then [] else [Keyword(word)] + Text(conds, n)
  }

  function GroupText(groups: seq<string>): seq<Tok> {
    if groups == [] then [] else [Keyword("GROUP BY")] + Columns(groups)
  }

  function OrderText(orders: seq<Order>): seq<Tok> {
    if orders == [] then []
    else (if |orders| == 1 then [Keyword("ORDER BY")] else OrderText(orders[..|orders| - 1]) + [Comma]) + OneOrder(orders[|orders| - 1])
  }

  function OneOrder(o: Order): seq<Tok> {
    if o.raw then [RawText(o.column, 0)] else [Column(o.column), Keyword(o.dir)]
  }

  /** An offset needs a limit in front of it on two of the dialects. */
  function LimitText(dialect: Dialect, limit: int, offset: int): seq<Tok> {
    (if limit > 0 then [Keyword("LIMIT"), Number(limit)]
     else if offset > 0 && dialect == Sqlite then [Keyword("LIMIT -1")]
     else if offset > 0 && dialect == Mysql then [Keyword("LIMIT 18446744073709551615")]
     else [])
    + (if offset > 0 then [Keyword("OFFSET"), Number(offset)] else [])
  }

  lemma {:induction false} ColumnsArePlain(cols: seq<string>)
    ensures forall t | t in Columns(cols) :: !t.Param? && !t.RawText?
  {
    if |cols| > 1 {
      ColumnsArePlain(cols[1..]);
    }
  }

  lemma OneJoinNumbered(j: Join, n: nat)
    ensures Numbering(OneJoin(j), n) == Some(n + |j.args|)
  {
    var plain := [Keyword(j.kind), Keyword("JOIN"), Table(j.table), Keyword("ON")];
    PlainNumbered(plain, n);
    NumberingOfConcat(plain, [RawText(j.on, |j.args|)], n, n);
    assert [RawText(j.on, |j.args|)][1..] == [];
  }

  lemma {:induction false} JoinsNumbered(joins: seq<Join>)
    ensures Numbering(JoinText(joins), 0) == Some(|JoinArgs(joins)|)
  {
    if joins != [] {
      var before, last := joins[..|joins| - 1], joins[|joins| - 1];
      JoinsNumbered(before);
      OneJoinNumbered(last, |JoinArgs(before)|);
      NumberingOfConcat(JoinText(before), OneJoin(last), 0, |JoinArgs(before)|);
    }
  }

  lemma OneOrderNumbered(o: Order, n: nat)
    ensures Numbering(OneOrder(o), n) == Some(n)
  {
    if o.raw {
      assert [RawText(o.column, 0)][1..] == [];
    } else {
      PlainNumbered(OneOrder(o), n);
    }
  }

  lemma {:induction false} OrdersNumbered(orders: seq<Order>, n: nat)
    ensures Numbering(OrderText(orders), n) == Some(n)
  {
    if orders != [] {
      var before, last := orders[..|orders| - 1], OneOrder(orders[|orders| - 1]);
      OneOrderNumbered(orders[|orders| - 1], n);
      if |orders| == 1 {
        NumberingSkips(Keyword("ORDER BY"), last, n);
      } else {
        OrdersNumbered(before, n);
        NumberingSkips(Comma, last, n);
        NumberingOfConcat(OrderText(before), [Comma] + last, n, n);
        assert OrderText(before) + [Comma] + last == OrderText(before) + ([Comma] + last);
      }
    }
  }

  lemma ClauseNumbered(word: string, conds: seq<Condition>, n: nat)
    ensures Numbering(Clause(word, conds, n), n) == Some(n + |ArgsOf(conds)|)
  {
    if conds != [] {
      TextNumbered(conds, n);
      NumberingSkips(Keyword(word), Text(conds, n), n);
    }
  }

  lemma GroupsNumbered(groups: seq<string>, n: nat)
    ensures Numbering(GroupText(groups), n) == Some(n)
  {
    ColumnsArePlain(groups);
    PlainNumbered(GroupText(groups), n);
  }

  lemma HeadNumbered(distinct: bool, cols: seq<string>, table: string)
    ensures Numbering(SelectHead(distinct, cols, table), 0) == Some(0)
  {
    ColumnsArePlain(cols);
    PlainNumbered(SelectHead(distinct, cols, table), 0);
  }

  /** The clauses of a SELECT. */
  datatype Select = Select(
    distinct: bool, cols: seq<string>, table: string, joins: seq<Join>, wheres: seq<Condition>, groups: seq<string>,
    havings: seq<Condition>, orders: seq<Order>, limit: int, offset: int, lock: string)

  function SelectArgs(q: Select): seq<SqlValue> {
    JoinArgs(q.joins) + ArgsOf(q.wheres) + ArgsOf(q.havings)
  }

  /** What stands before the WHERE clause, and what stands after it. */
  function BeforeWhere(q: Select): seq<Tok> {
    SelectHead(q.distinct, q.cols, q.table) + JoinText(q.joins)
  }

  function AfterWhere(q: Select, dialect: Dialect): seq<Tok> {
    GroupText(q.groups)
    + (Clause("HAVING", q.havings, |JoinArgs(q.joins)| + |ArgsOf(q.wheres)|)
    + (OrderText(q.orders) + (LimitText(dialect, q.limit, q.offset) + [Keyword(q.lock)])))
  }

  function SelectText(q: Select, dialect: Dialect): seq<Tok> {
    BeforeWhere(q) + (Clause("WHERE", q.wheres, |JoinArgs(q.joins)|) + AfterWhere(q, dialect))
  }

  /** Every placeholder of a SELECT carries its own position, and there is one for each argument:
      across joins, the WHERE clause with its groups, lists and ranges, and the HAVING clause. */
  lemma SelectIsNumbered(q: Select, dialect: Dialect)
    ensures Numbering(SelectText(q, dialect), 0) == Some(|SelectArgs(q)|)
  {
    var j := |JoinArgs(q.joins)|;
    var w := j + |ArgsOf(q.wheres)|;
    HeadNumbered(q.distinct, q.cols, q.table);
    JoinsNumbered(q.joins);
    ClauseNumbered("WHERE", q.wheres, j);
    AfterWhereNumbered(q, dialect);
    Joined(SelectHead(q.distinct, q.cols, q.table), JoinText(q.joins), 0, 0, j);
    Joined(Clause("WHERE", q.wheres, j), AfterWhere(q, dialect), j, w, |SelectArgs(q)|);
    Joined(BeforeWhere(q), Clause("WHERE", q.wheres, j) + AfterWhere(q, dialect), 0, j, |SelectArgs(q)|);
  }

  lemma AfterWhereNumbered(q: Select, dialect: Dialect)
    ensures Numbering(AfterWhere(q, dialect), |JoinArgs(q.joins)| + |ArgsOf(q.wheres)|) == Some(|SelectArgs(q)|)
  {
    var w := |JoinArgs(q.joins)| + |ArgsOf(q.wheres)|;
    var h := w + |ArgsOf(q.havings)|;
    var limit := LimitText(dialect, q.limit, q.offset) + [Keyword(q.lock)];
    var having := Clause("HAVING", q.havings, w);
    GroupsNumbered(q.groups, w);
    ClauseNumbered("HAVING", q.havings, w);
    OrdersNumbered(q.orders, h);
    LimitNumbered(dialect, q.limit, q.offset, q.lock, h);
    Joined(OrderText(q.orders), limit, h, h, h);
    Joined(having, OrderText(q.orders) + limit, w, h, h);
    Joined(GroupText(q.groups), having + (OrderText(q.orders) + limit), w, w, h);
  }

  lemma LimitNumbered(dialect: Dialect, limit: int, offset: int, lock: string, n: nat)
    ensures Numbering(LimitText(dialect, limit, offset) + [Keyword(lock)], n) == Some(n)
  {
    PlainNumbered(LimitText(dialect, limit, offset) + [Keyword(lock)], n);
  }

  lemma AfterWhereEndsList(q: Select, dialect: Dialect)
    ensures EndsList(AfterWhere(q, dialect))
  {
    if q.groups == [] && q.havings == [] && q.orders != [] {
      OrderTextStarts(q.orders);
    }
  }

  lemma {:induction false} OrderTextStarts(orders: seq<Order>)
    requires orders != []
    ensures OrderText(orders) != [] && OrderText(orders)[0] == Keyword("ORDER BY")
  {
    if |orders| > 1 {
      OrderTextStarts(orders[..|orders| - 1]);
    }
  }

  /** The rows a SELECT keeps are those its condition tree accepts: reading the WHERE clause out of
      the whole text, with the whole argument list, gives the tree's meaning. */
  lemma SelectFiltersByMeaning(w: World, q: Select, dialect: Dialect)
    requires q.wheres != [] && Grouped(q.wheres)
    ensures var at := |BeforeWhere(q)| + 1;
            && at <= |SelectText(q, dialect)| && SelectText(q, dialect)[at - 1] == Keyword("WHERE")
            && var r := ReadEither(SelectText(q, dialect)[at..], |JoinArgs(q.joins)|);
               r.Some? && r.value.1 == AfterWhere(q, dialect) && Eval(w, r.value.0, SelectArgs(q)) == Meaning(w, q.wheres)
  {
    AfterWhereEndsList(q, dialect);
    ClauseMeansConditions(w, "WHERE", q.wheres, BeforeWhere(q), AfterWhere(q, dialect), JoinArgs(q.joins), ArgsOf(q.havings));
  }

  /** A clause anywhere in a statement: what is read behind its keyword, with the arguments of the
      whole statement, means its condition tree. */
  lemma ClauseMeansConditions(w: World, word: string, conds: seq<Condition>, head: seq<Tok>, tail: seq<Tok>, before: seq<SqlValue>, after: seq<SqlValue>)
    requires conds != [] && Grouped(conds) && EndsList(tail)
    ensures var text, at := head + (Clause(word, conds, |before|) + tail), |head| + 1;
            && at <= |text| && text[at - 1] == Keyword(word)
            && var r := ReadEither(text[at..], |before|);
               r.Some? && r.value.1 == tail && Eval(w, r.value.0, before + ArgsOf(conds) + after) == Meaning(w, conds)
  {
    TextMeansConditions(w, conds, tail, before, after);
    var text := Text(conds, |before|) + tail;
    assert Clause(word, conds, |before|) + tail == [Keyword(word)] + text;
    AfterKeyword(head, Keyword(word), text);
  }

  function AfterHaving(q: Select, dialect: Dialect): seq<Tok> {
    OrderText(q.orders) + (LimitText(dialect, q.limit, q.offset) + [Keyword(q.lock)])
  }

  function BeforeHaving(q: Select): seq<Tok> {
    BeforeWhere(q) + (Clause("WHERE", q.wheres, |JoinArgs(q.joins)|) + GroupText(q.groups))
  }

  /** Likewise the groups it keeps are those that the conditions of HAVING accept. */
  lemma SelectKeepsGroupsByMeaning(w: World, q: Select, dialect: Dialect)
    requires q.havings != [] && Grouped(q.havings)
    ensures var at, n := |BeforeHaving(q)| + 1, |JoinArgs(q.joins)| + |ArgsOf(q.wheres)|;
            && at <= |SelectText(q, dialect)| && SelectText(q, dialect)[at - 1] == Keyword("HAVING")
            && var r := ReadEither(SelectText(q, dialect)[at..], n);
               r.Some? && r.value.1 == AfterHaving(q, dialect) && Eval(w, r.value.0, SelectArgs(q)) == Meaning(w, q.havings)
  {
    AfterHavingEndsList(q, dialect);
    HavingSplits(q, dialect);
    ClauseMeansConditions(w, "HAVING", q.havings, BeforeHaving(q), AfterHaving(q, dialect), JoinArgs(q.joins) + ArgsOf(q.wheres), []);
    HavingArgs(q);
  }

  lemma AfterHavingEndsList(q: Select, dialect: Dialect)
    ensures EndsList(AfterHaving(q, dialect))
  {
    if q.orders != [] {
      OrderTextStarts(q.orders);
    }
  }

  lemma HavingArgs(q: Select)
    ensures JoinArgs(q.joins) + ArgsOf(q.wheres) + ArgsOf(q.havings) + [] == SelectArgs(q)
  {
  }

  lemma HavingSplits(q: Select, dialect: Dialect)
    ensures SelectText(q, dialect)
         == BeforeHaving(q) + (Clause("HAVING", q.havings, |JoinArgs(q.joins) + ArgsOf(q.wheres)|) + AfterHaving(q, dialect))
  {
    Regroup4(BeforeWhere(q), Clause("WHERE", q.wheres, |JoinArgs(q.joins)|), GroupText(q.groups),
             Clause("HAVING", q.havings, |JoinArgs(q.joins)| + |ArgsOf(q.wheres)|) + AfterHaving(q, dialect));
  }

  lemma Regroup4<T>(a: seq<T>, b: seq<T>, c: seq<T>, d: seq<T>)
    ensures a + (b + (c + d)) == (a + (b + c)) + d
  {
  }

  lemma AfterKeyword(a: seq<Tok>, t: Tok, b: seq<Tok>)
    ensures var s := a + ([t] + b); |a| + 1 <= |s| && s[|a|] == t && s[|a| + 1..] == b
  {
  }

  // ---- UPDATE and INSERT ----

  /** Assignments to the columns in turn, the first of them with the placeholder after n. */
  function Sets(cols: seq<string>): seq<Tok> {
    if cols == [] then []
    else
      var k := |cols| - 1;
      (if k == 0 then [] else Sets(cols[..k]) + [Comma]) + [Column(cols[k]), OperatorWord(Eq), Param(k + 1)]
  }

  function UpdateText(table: string, cols: seq<string>, wheres: seq<Condition>): seq<Tok> {
    [Keyword("UPDATE"), Table(table), Keyword("SET")] + (Sets(cols) + Clause("WHERE", wheres, |cols|))
  }

  lemma {:induction false} SetsNumbered(cols: seq<string>)
    ensures Numbering(Sets(cols), 0) == Some(|cols|)
  {
    if cols != [] {
      var k := |cols| - 1;
      var last := [Column(cols[k]), OperatorWord(Eq), Param(k + 1)];
      ComparisonNumbered(cols[k], Eq, k);
      if k == 0 {
        assert [] + last == last;
      } else {
        SetsNumbered(cols[..k]);
        PlainNumbered([Comma], k);
        Joined(Sets(cols[..k]), [Comma], 0, k, k);
        Joined(Sets(cols[..k]) + [Comma], last, 0, k, k + 1);
      }
    }
  }

  lemma HeadedNumbered(head: seq<Tok>, a: seq<Tok>, b: seq<Tok>, m: nat, k: nat)
    requires forall t | t in head :: !t.Param? && !t.RawText?
    requires Numbering(a, 0) == Some(m) && Numbering(b, m) == Some(k)
    ensures Numbering(head + (a + b), 0) == Some(k)
  {
    PlainNumbered(head, 0);
    Joined(a, b, 0, m, k);
    Joined(head, a + b, 0, 0, k);
  }

  /** The values assigned come first, so the placeholders of the WHERE clause go on after them. */
  lemma UpdateIsNumbered(table: string, cols: seq<string>, wheres: seq<Condition>)
    ensures Numbering(UpdateText(table, cols, wheres), 0) == Some(|cols| + |ArgsOf(wheres)|)
  {
    SetsNumbered(cols);
    ClauseNumbered("WHERE", wheres, |cols|);
    HeadedNumbered([Keyword("UPDATE"), Table(table), Keyword("SET")], Sets(cols), Clause("WHERE", wheres, |cols|), |cols|, |cols| + |ArgsOf(wheres)|);
  }

  /** The rows an UPDATE changes are those its condition tree accepts, whatever it assigns. */
  lemma UpdateFiltersByMeaning(w: World, table: string, cols: seq<string>, wheres: seq<Condition>, values: seq<SqlValue>)
    requires wheres != [] && Grouped(wheres) && |values| == |cols|
    ensures var text, at := UpdateText(table, cols, wheres), 3 + |Sets(cols)| + 1;
            && at <= |text| && text[at - 1] == Keyword("WHERE")
            && var r := ReadEither(text[at..], |cols|);
               r.Some? && r.value.1 == [] && Eval(w, r.value.0, values + ArgsOf(wheres)) == Meaning(w, wheres)
  {
    var head := [Keyword("UPDATE"), Table(table), Keyword("SET")];
    ClauseMeansConditions(w, "WHERE", wheres, head + Sets(cols), [], values, []);
    var clause := Clause("WHERE", wheres, |cols|);
    assert head + Sets(cols) + (clause + []) == head + (Sets(cols) + clause);
    assert values + ArgsOf(wheres) + [] == values + ArgsOf(wheres);
  }

  /** The placeholder assigned to the i-th column is the one that carries its value. */
  lemma {:induction false} SetAt(cols: seq<string>, i: nat)
    requires i < |cols|
    ensures |Sets(cols)| == 4 * |cols| - 1
    ensures Sets(cols)[4 * i] == Column(cols[i]) && Sets(cols)[4 * i + 1] == OperatorWord(Eq) && Sets(cols)[4 * i + 2] == Param(i + 1)
    decreases |cols|
  {
    var k := |cols| - 1;
    if k > 0 {
      SetAt(cols[..k], if i < k then i else 0);
    }
  }

  lemma {:induction false} RowArgAt(row: Row, cols: seq<string>, i: nat)
    requires i < |cols|
    ensures |RowArgs(row, cols)| == |cols| && RowArgs(row, cols)[i] == Lookup(row, cols[i])
  {
  }

  /** So an UPDATE gives each column the value its row has for it. */
  lemma UpdateAssigns(table: string, row: Row, cols: seq<string>, wheres: seq<Condition>, i: nat)
    requires i < |cols|
    ensures var text, at := UpdateText(table, cols, wheres), 3 + 4 * i;
            && at + 2 < |text| && text[at] == Column(cols[i]) && text[at + 1] == OperatorWord(Eq) && text[at + 2] == Param(i + 1)
            && |RowArgs(row, cols) + ArgsOf(wheres)| > i && (RowArgs(row, cols) + ArgsOf(wheres))[i] == Lookup(row, cols[i])
  {
    SetAt(cols, i);
    RowArgAt(row, cols, i);
  }

  function DeleteText(table: string, wheres: seq<Condition>): seq<Tok> {
    [Keyword("DELETE FROM"), Table(table)] + Clause("WHERE", wheres, 0)
  }

  /** The rows a DELETE removes are those its condition tree accepts. */
  lemma DeleteFiltersByMeaning(w: World, table: string, wheres: seq<Condition>)
    requires wheres != [] && Grouped(wheres)
    ensures var text := DeleteText(table, wheres);
            && 3 <= |text| && text[2] == Keyword("WHERE")
            && var r := ReadEither(text[3..], 0);
               r.Some? && r.value.1 == [] && Eval(w, r.value.0, ArgsOf(wheres)) == Meaning(w, wheres)
  {
    var head := [Keyword("DELETE FROM"), Table(table)];
    ClauseMeansConditions(w, "WHERE", wheres, head, [], [], []);
    assert head + (Clause("WHERE", wheres, 0) + []) == DeleteText(table, wheres);
    assert [] + ArgsOf(wheres) + [] == ArgsOf(wheres);
  }

  lemma DeleteIsNumbered(table: string, wheres: seq<Condition>)
    ensures Numbering(DeleteText(table, wheres), 0) == Some(|ArgsOf(wheres)|)
  {
    PlainNumbered([Keyword("DELETE FROM"), Table(table)], 0);
    ClauseNumbered("WHERE", wheres, 0);
    NumberingOfConcat([Keyword("DELETE FROM"), Table(table)], Clause("WHERE", wheres, 0), 0, 0);
  }

  type Row = map<string, SqlValue>

  /** A column a row does not have is inserted as null. */
  function Lookup(row: Row, col: string): SqlValue {
    if col in row then row[col] else Null
  }

  function RowArgs(row: Row, cols: seq<string>): seq<SqlValue> {
    seq(|cols|, i requires 0 <= i < |cols| => Lookup(row, cols[i]))
  }

  function BatchArgs(rows: seq<Row>, cols: seq<string>): seq<SqlValue> {
    if rows == [] then [] else BatchArgs(rows[..|rows| - 1], cols) + RowArgs(rows[|rows| - 1], cols)
  }

  function Tuples(rows: nat, width: nat): seq<Tok> {
    if rows == 0 then []
    else
      (if rows == 1 then [] else Tuples(rows - 1, width) + [Comma]) + ([Open] + (Params((rows - 1) * width, width) + [Close]))
  }

  function InsertText(table: string, cols: seq<string>, rows: nat): seq<Tok> {
    [Keyword("INSERT INTO"), Table(table), Open] + (Columns(cols) + ([Close, Keyword("VALUES")] + Tuples(rows, |cols|)))
  }

  lemma RowProduct(rows: nat, width: nat)
    requires rows > 0
    ensures (rows - 1) * width + width == rows * width && (rows - 1) * width >= 0
  {
  }

  lemma {:induction false} TuplesNumbered(rows: nat, width: nat)
    ensures Numbering(Tuples(rows, width), 0) == Some(rows * width)
  {
    if rows > 0 {
      RowProduct(rows, width);
      var n := (rows - 1) * width;
      var last := [Open] + (Params(n, width) + [Close]);
      OneTupleNumbered(n, width);
      if rows == 1 {
        assert [] + last == last;
      } else {
        TuplesNumbered(rows - 1, width);
        PlainNumbered([Comma], n);
        Joined(Tuples(rows - 1, width), [Comma], 0, n, n);
        Joined(Tuples(rows - 1, width) + [Comma], last, 0, n, n + width);
      }
    }
  }

  lemma OneTupleNumbered(n: nat, width: nat)
    ensures Numbering([Open] + (Params(n, width) + [Close]), n) == Some(n + width)
  {
    PlainNumbered([Open], n);
    ParamsNumbered(n, width);
    PlainNumbered([Close], n + width);
    Joined(Params(n, width), [Close], n, n + width, n + width);
    Joined([Open], Params(n, width) + [Close], n, n, n + width);
  }

  lemma {:induction false} BatchArgAt(rows: seq<Row>, cols: seq<string>, r: nat, i: nat)
    requires r < |rows| && i < |cols|
    ensures |BatchArgs(rows, cols)| == |rows| * |cols|
    ensures r * |cols| + i < |rows| * |cols|
    ensures BatchArgs(rows, cols)[r * |cols| + i] == Lookup(rows[r], cols[i])
    decreases |rows|
  {
    BatchArgsSize(rows, cols);
    var before := rows[..|rows| - 1];
    BatchArgsSize(before, cols);
    RowProduct(|rows|, |cols|);
    if r < |rows| - 1 {
      BatchArgAt(before, cols, r, i);
    }
  }

  lemma {:induction false} BatchArgsSize(rows: seq<Row>, cols: seq<string>)
    ensures |BatchArgs(rows, cols)| == |rows| * |cols|
  {
    if rows != [] {
      BatchArgsSize(rows[..|rows| - 1], cols);
      RowProduct(|rows|, |cols|);
    }
  }

  lemma InsertIsNumbered(table: string, cols: seq<string>, rows: nat)
    ensures Numbering(InsertText(table, cols, rows), 0) == Some(rows * |cols|)
  {
    var head := [Keyword("INSERT INTO"), Table(table), Open] + (Columns(cols) + [Close, Keyword("VALUES")]);
    ColumnsArePlain(cols);
    PlainNumbered(head, 0);
    TuplesNumbered(rows, |cols|);
    NumberingOfConcat(head, Tuples(rows, |cols|), 0, 0);
    assert InsertText(table, cols, rows) == head + Tuples(rows, |cols|);
  }
}
