/** The fluent builder (query/builder.go): clause lists that grow in place, a binding counter that
    the compiler advances, and the soft-delete scope of the ORM (orm/query.go) on a copy of it. */
module SqlBuilder {
  import opened Prelude
  import opened SqlConditions
  import opened SqlReading
  import opened SqlScopes
  import opened SqlStatements
  import opened Ordering

  /** A panic is an outcome of its own. */
  datatype SqlError = Panic | NoTable | NoRows | NoValues | NoPrimaryKey

  /** The operators accepted by name; anything else panics. Spaces and case are folded before. */
  function NormalizeOp(op: string): Option<Operator> {
    if op == "=" then Some(Eq)
    else if op == "<>" || op == "!=" then Some(Ne)
    else if op == "<" then Some(Lt)
    else if op == "<=" then Some(Lte)
    else if op == ">" then Some(Gt)
    else if op == ">=" then Some(Gte)
    else if op == "like" then Some(Like)
    else if op == "ilike" then Some(ILike)
    else None
  }

  /** An empty raw fragment is taken for a comparison without a value, which panics. */
  predicate Compiles(conds: seq<Condition>)
    decreases conds, 1
  {
    conds != [] ==> CompilesOne(conds[0]) && Compiles(conds[1..])
  }

  predicate CompilesOne(c: Condition)
    decreases c, 0
  {
    match c.body
    case Nested(conds) => Compiles(conds)
    case Raw(expr, _) => expr != ""
    case _ => true
  }

  lemma {:induction false} GroupedOfConcat(a: seq<Condition>, b: seq<Condition>)
    ensures Grouped(a + b) <==> Grouped(a) && Grouped(b)
    decreases |a|
  {
    if a == [] {
      assert a + b == b;
    } else {
      assert (a + b)[1..] == a[1..] + b;
      GroupedOfConcat(a[1..], b);
    }
  }

  // ---- Sorting the columns in place ----

  /** a[..i + 1] is sorted once the element at j is put aside, and that element is below those after it. */
  ghost predicate SortedAround(s: seq<string>, i: nat, j: nat)
    requires j <= i < |s|
  {
    && (forall p, q | 0 <= p < q <= i && p != j && q != j :: AtMost(s[p], s[q]))
    && (forall q | j < q <= i :: AtMost(s[j], s[q]))
  }

  function Swapped(s: seq<string>, j: nat): seq<string>
    requires 0 < j < |s|
  {
    s[j - 1 := s[j]][j := s[j - 1]]
  }

  lemma SwapKeeps(s: seq<string>, i: nat, j: nat)
    requires 0 < j <= i < |s| && SortedAround(s, i, j) && Less(s[j], s[j - 1])
    ensures SortedAround(Swapped(s, j), i, j - 1)
    ensures multiset(Swapped(s, j)) == multiset(s)
  {
    LessIsAsymmetric(s[j], s[j - 1]);
    var t := Swapped(s, j);
    forall q | j - 1 < q <= i ensures AtMost(t[j - 1], t[q]) {
    }
  }

  lemma SortedAroundDone(s: seq<string>, i: nat, j: nat)
    requires j <= i < |s| && SortedAround(s, i, j) && (j == 0 || AtMost(s[j - 1], s[j]))
    ensures SortedBy(s[..i + 1], AtMost)
  {
    AtMostIsTotalOrder();
    forall p, q | 0 <= p < q <= i ensures AtMost(s[p], s[q]) {
      if q == j && p < j - 1 {
        assert AtMost(s[p], s[j - 1]);
      }
    }
  }

  method SortStrings(a: array<string>)
    modifies a
    ensures a[..] == Sort(old(a[..]), AtMost)
  {
    var i := 1;
    while i < a.Length
      invariant 1 <= i
      invariant i <= a.Length || a.Length == 0
      invariant SortedBy(a[..if i <= a.Length then i else a.Length], AtMost)
      invariant multiset(a[..]) == multiset(old(a[..]))
    {
      var j := i;
      while j > 0 && Less(a[j], a[j - 1])
        invariant 0 <= j <= i < a.Length
        invariant SortedAround(a[..], i, j)
        invariant multiset(a[..]) == multiset(old(a[..]))
      {
        ghost var before := a[..];
        SwapKeeps(before, i, j);
        a[j - 1], a[j] := a[j], a[j - 1];
        assert a[..] == Swapped(before, j);
        j := j - 1;
      }
      SortedAroundDone(a[..], i, j);
      assert a[..][..i + 1] == a[..i + 1];
      i := i + 1;
    }
    AtMostIsTotalOrder();
    SortSorts(old(a[..]), AtMost);
    SortPermutes(old(a[..]), AtMost);
    assert a[..] == a[..if i <= a.Length then i else a.Length];
    SortedIsUnique(a[..], Sort(old(a[..]), AtMost), AtMost);
  }

  /** The columns of a row in the order in which they are written: each once, sorted. */
  ghost predicate ColumnsOf(cols: seq<string>, keys: set<string>) {
    SortedBy(cols, AtMost) && multiset(cols) == multiset(keys)
  }

  /** The range over a map yields its keys in some order; sorting makes the statement stable. */
  method SortedColumns(row: Row) returns (cols: seq<string>)
    ensures ColumnsOf(cols, row.Keys) && |cols| == |row|
  {
    var found: seq<string> := [];
    var todo := row.Keys;
    while todo != {}
      invariant todo <= row.Keys
      invariant multiset(found) + multiset(todo) == multiset(row.Keys)
      decreases todo
    {
      var c :| c in todo;
      found := found + [c];
      todo := todo - {c};
    }
    var a := new string[|found|](i requires 0 <= i < |found| => found[i]);
    assert a[..] == found;
    SortStrings(a);
    cols := a[..];
    AtMostIsTotalOrder();
    SortSorts(found, AtMost);
    SortPermutes(found, AtMost);
    assert |multiset(cols)| == |cols| && |multiset(row.Keys)| == |row.Keys|;
  }

  lemma ColumnsAreUnique(a: seq<string>, b: seq<string>, keys: set<string>)
    requires ColumnsOf(a, keys) && ColumnsOf(b, keys)
    ensures a == b
  {
    AtMostIsTotalOrder();
    SortedIsUnique(a, b, AtMost);
  }

  // ---- What the compiler's loop has done so far ----

  function ArgsUpTo(conds: seq<Condition>, i: nat): seq<SqlValue>
    requires i <= |conds|
  {
    if i == 0 then [] else ArgsUpTo(conds, i - 1) + Args(conds[i - 1])
  }

  function TextUpTo(conds: seq<Condition>, i: nat, start: nat): seq<Tok>
    requires i <= |conds|
  {
    if i == 0 then []
    else
      var text := TextUpTo(conds, i - 1, start);
      (if i == 1 then text else text + [Word(conds[i - 1].glue)]) + TextOne(conds[i - 1], start + |ArgsUpTo(conds, i - 1)|)
  }

  lemma {:induction false} ArgsUpToGoOn(conds: seq<Condition>, i: nat)
    requires i <= |conds|
    ensures ArgsUpTo(conds, i) + ArgsOf(conds[i..]) == ArgsOf(conds)
  {
    if i == 0 {
      assert conds[0..] == conds;
    } else {
      ArgsUpToGoOn(conds, i - 1);
      assert conds[i - 1..][1..] == conds[i..];
      Regroup(ArgsUpTo(conds, i - 1), Args(conds[i - 1]), ArgsOf(conds[i..]));
    }
  }

  lemma TextAfterUnfolds(conds: seq<Condition>, i: nat, n: nat)
    requires i < |conds|
    ensures TextAfter(conds[i..], n) == [Word(conds[i].glue)] + (TextOne(conds[i], n) + TextAfter(conds[i + 1..], n + |Args(conds[i])|))
  {
    var rest := conds[i..];
    assert rest[0] == conds[i] && rest[1..] == conds[i + 1..];
    assert TextAfter(rest, n) == [Word(rest[0].glue)] + Text(rest, n);
  }

  lemma {:induction false} TextUpToGoesOn(conds: seq<Condition>, i: nat, start: nat)
    requires 1 <= i <= |conds|
    ensures TextUpTo(conds, i, start) + TextAfter(conds[i..], start + |ArgsUpTo(conds, i)|) == Text(conds, start)
  {
    if i == 1 {
      FirstText(conds, start);
    } else {
      TextUpToGoesOn(conds, i - 1, start);
      OneMoreText(conds, i - 1, start);
    }
  }

  lemma FirstText(conds: seq<Condition>, start: nat)
    requires conds != []
    ensures TextUpTo(conds, 1, start) + TextAfter(conds[1..], start + |ArgsUpTo(conds, 1)|) == Text(conds, start)
  {
    var one := TextOne(conds[0], start);
    assert ArgsUpTo(conds, 0) == [] && TextUpTo(conds, 0, start) == [];
    assert TextUpTo(conds, 1, start) == one && ArgsUpTo(conds, 1) == [] + Args(conds[0]);
  }

  lemma OneMoreText(conds: seq<Condition>, k: nat, start: nat)
    requires 1 <= k < |conds|
    ensures TextUpTo(conds, k + 1, start) + TextAfter(conds[k + 1..], start + |ArgsUpTo(conds, k + 1)|)
         == TextUpTo(conds, k, start) + TextAfter(conds[k..], start + |ArgsUpTo(conds, k)|)
  {
    var n := start + |ArgsUpTo(conds, k)|;
    var text, one, after := TextUpTo(conds, k, start), TextOne(conds[k], n), TextAfter(conds[k + 1..], n + |Args(conds[k])|);
    assert start + |ArgsUpTo(conds, k + 1)| == n + |Args(conds[k])|;
    assert TextUpTo(conds, k + 1, start) == text + [Word(conds[k].glue)] + one;
    TextAfterUnfolds(conds, k, n);
    Splice(text, [Word(conds[k].glue)], one, after, TextAfter(conds[k..], n));
  }

  lemma Splice<T>(text: seq<T>, word: seq<T>, one: seq<T>, after: seq<T>, whole: seq<T>)
    requires whole == word + (one + after)
    ensures text + word + one + after == text + whole
  {
    Regroup(text, word, one + after);
    Regroup(text + word, one, after);
  }

  lemma Regroup<T>(a: seq<T>, b: seq<T>, c: seq<T>)
    ensures a + (b + c) == (a + b) + c
  {
  }

  lemma {:induction false} CompilesAll(conds: seq<Condition>)
    ensures Compiles(conds) <==> forall k | 0 <= k < |conds| :: CompilesOne(conds[k])
    decreases |conds|
  {
    if conds != [] {
      CompilesAll(conds[1..]);
    }
  }

  /** The first i conditions have been compiled, from the counter start on. */
  ghost predicate UpTo(conds: seq<Condition>, i: nat, start: nat, text: seq<Tok>, args: seq<SqlValue>, counter: nat) {
    && i <= |conds| && (forall k | 0 <= k < i :: CompilesOne(conds[k]))
    && text == TextUpTo(conds, i, start) && args == ArgsUpTo(conds, i) && counter == start + |args|
  }

  lemma UpToNext(conds: seq<Condition>, i: nat, start: nat, text: seq<Tok>, args: seq<SqlValue>, counter: nat)
    requires i < |conds| && UpTo(conds, i, start, text, args, counter)
    ensures if CompilesOne(conds[i]) then
              UpTo(conds, i + 1, start, (if i > 0 then text + [Word(conds[i].glue)] else text) + TextOne(conds[i], counter),
                   args + Args(conds[i]), counter + |Args(conds[i])|)
            else !Compiles(conds)
  {
    CompilesAll(conds);
  }

  lemma UpToEnd(conds: seq<Condition>, start: nat, text: seq<Tok>, args: seq<SqlValue>, counter: nat)
    requires UpTo(conds, |conds|, start, text, args, counter)
    ensures Compiles(conds) && text == Text(conds, start) && args == ArgsOf(conds)
  {
    CompilesAll(conds);
    if conds != [] {
      TextUpToGoesOn(conds, |conds|, start);
    }
    ArgsUpToGoOn(conds, |conds|);
    assert conds[|conds|..] == [] && text + [] == text && args + [] == args;
  }

  datatype SelectParts = SelectParts(head: seq<Tok>, where: seq<Tok>, having: seq<Tok>, args: seq<SqlValue>)

  class Builder {
    const dialect: Dialect
    var table: string
    var cols: seq<string>
    var distinct: bool
    var wheres: seq<Condition>
    var joins: seq<Join>
    var groups: seq<string>
    var havings: seq<Condition>
    var orders: seq<Order>
    var limit: int
    var offset: int
    var bindings: nat
    var lock: string

    /** No builder that its own methods produce holds an empty group. */
    ghost predicate Valid()
      reads this
    {
      Grouped(wheres) && Grouped(havings)
    }

    ghost function Clauses(): Select
      reads this
    {
      Select(distinct, cols, table, joins, wheres, groups, havings, orders, limit, offset, lock)
    }

    constructor (dialect: Dialect, table: string)
      ensures Valid() && this.dialect == dialect
      ensures Clauses() == Select(false, [], table, [], [], [], [], [], 0, 0, "")
    {
      this.dialect, this.table := dialect, table;
      cols, distinct, wheres, joins, groups, havings, orders := [], false, [], [], [], [], [];
      limit, offset, bindings, lock := 0, 0, 0, "";
    }

    constructor Copy(b: Builder)
      requires b.Valid()
      ensures Valid() && dialect == b.dialect && Clauses() == b.Clauses() && bindings == b.bindings
    {
      dialect, table, cols, distinct, wheres, joins := b.dialect, b.table, b.cols, b.distinct, b.wheres, b.joins;
      groups, havings, orders, limit, offset, lock := b.groups, b.havings, b.orders, b.limit, b.offset, b.lock;
      bindings := b.bindings;
    }

    method Append(glue: Glue, body: Body)
      requires Valid() && GroupedOne(Condition(glue, body))
      modifies this`wheres
      ensures Valid() && wheres == old(wheres) + [Condition(glue, body)]
    {
      GroupedOfConcat(wheres, [Condition(glue, body)]);
      wheres := wheres + [Condition(glue, body)];
    }

    /** Where(col, op, value) and OrWhere(col, op, value). */
    method AddWhere(glue: Glue, col: string, op: string, value: SqlValue) returns (r: Outcome<SqlError>)
      requires Valid()
      modifies this`wheres
      ensures Valid()
      ensures r.Pass? <==> NormalizeOp(op).Some?
      ensures wheres == if r.Pass? then old(wheres) + [Condition(glue, NullAware(col, NormalizeOp(op).value, value))] else old(wheres)
    {
      var normal := NormalizeOp(op);
      if normal.None? {
        return Fail(Panic);
      }
      Append(glue, NullAware(col, normal.value, value));
      return Pass;
    }

    /** Where(func): the callback has filled nested, a builder of its own. */
    method AddGroup(glue: Glue, nested: Builder)
      requires Valid() && nested.Valid()
      modifies this`wheres
      ensures Valid()
      ensures wheres == if old(nested.wheres) == [] then old(wheres) else old(wheres) + [Condition(glue, Nested(old(nested.wheres)))]
    {
      // Keeps groups non-empty, without which the text of a filter has no reading.
      if |nested.wheres| > 0 {
        Append(glue, Nested(nested.wheres));
      }
    }

    method WhereIn(col: string, values: seq<SqlValue>)
      requires Valid()
      modifies this`wheres
      ensures Valid() && wheres == old(wheres) + [Condition(AndGlue, In(col, values))]
    {
      Append(AndGlue, In(col, values));
    }

    method WhereNotIn(col: string, values: seq<SqlValue>)
      requires Valid()
      modifies this`wheres
      ensures Valid() && wheres == old(wheres) + [Condition(AndGlue, NotIn(col, values))]
    {
      Append(AndGlue, NotIn(col, values));
    }

    method WhereNull(col: string)
      requires Valid()
      modifies this`wheres
      ensures Valid() && wheres == old(wheres) + [Condition(AndGlue, IsNull(col))]
    {
      Append(AndGlue, IsNull(col));
    }

    method WhereNotNull(col: string)
      requires Valid()
      modifies this`wheres
      ensures Valid() && wheres == old(wheres) + [Condition(AndGlue, NotNull(col))]
    {
      Append(AndGlue, NotNull(col));
    }

    method WhereBetween(col: string, lo: SqlValue, hi: SqlValue)
      requires Valid()
      modifies this`wheres
      ensures Valid() && wheres == old(wheres) + [Condition(AndGlue, Between(col, lo, hi))]
    {
      Append(AndGlue, Between(col, lo, hi));
    }

    method WhereRaw(expr: string, args: seq<SqlValue>)
      requires Valid()
      modifies this`wheres
      ensures Valid() && wheres == old(wheres) + [Condition(AndGlue, Raw(expr, args))]
    {
      Append(AndGlue, Raw(expr, args));
    }

    method AddJoin(kind: string, table: string, on: string, args: seq<SqlValue>)
      requires Valid()
      modifies this`joins
      ensures Valid() && joins == old(joins) + [Join(kind, table, on, args)]
    {
      joins := joins + [Join(kind, table, on, args)];
    }

    /** Unlike Where, a HAVING comparison with null stays one. */
    method Having(col: string, op: string, value: SqlValue) returns (r: Outcome<SqlError>)
      requires Valid()
      modifies this`havings
      ensures Valid()
      ensures r.Pass? <==> NormalizeOp(op).Some?
      ensures havings == if r.Pass? then old(havings) + [Condition(AndGlue, Compare(col, NormalizeOp(op).value, value))] else old(havings)
    {
      var normal := NormalizeOp(op);
      if normal.None? {
        return Fail(Panic);
      }
      GroupedOfConcat(havings, [Condition(AndGlue, Compare(col, normal.value, value))]);
      havings := havings + [Condition(AndGlue, Compare(col, normal.value, value))];
      return Pass;
    }

    method WrapWheres()
      requires Valid()
      modifies this`wheres
      ensures Valid() && wheres == Wrap(old(wheres))
    {
      var hasOr := false;
      var i := 0;
      while i < |wheres| && !hasOr
        invariant 0 <= i <= |wheres|
        invariant !hasOr ==> forall k | 0 <= k < i :: wheres[k].glue != OrGlue
        invariant hasOr ==> HasOr(wheres)
      {
        if wheres[i].glue == OrGlue {
          hasOr := true;
        }
        i := i + 1;
      }
      if !hasOr {
        return;
      }
      wheres := [Condition(AndGlue, Nested(wheres))];
    }

    /** A copy that shares nothing that either can still change. */
    method Clone() returns (c: Builder)
      requires Valid()
      ensures fresh(c) && c.Valid() && c.dialect == dialect && c.Clauses() == Clauses() && c.bindings == bindings
    {
      c := new Builder.Copy(this);
    }

    // ---- Compilation ----

    /** The text and arguments of a condition list; the counter ends up past its placeholders. */
    method CompileWheres(conds: seq<Condition>) returns (r: Option<(seq<Tok>, seq<SqlValue>)>)
      modifies this`bindings
      ensures r.Some? <==> Compiles(conds)
      ensures r.Some? ==> r.value == (Text(conds, old(bindings)), ArgsOf(conds)) && bindings == old(bindings) + |r.value.1|
      decreases conds, 1
    {
      var text: seq<Tok> := [];
      var args: seq<SqlValue> := [];
      ghost var start := bindings;
      var i := 0;
      while i < |conds|
        invariant UpTo(conds, i, start, text, args, bindings)
      {
        UpToNext(conds, i, start, text, args, bindings);
        if i > 0 {
          text := text + [Word(conds[i].glue)];
        }
        var one := CompileOne(conds[i]);
        if one.None? {
          return None;
        }
        text, args := text + one.value.0, args + one.value.1;
        i := i + 1;
      }
      UpToEnd(conds, start, text, args, bindings);
      return Some((text, args));
    }

    /** The loop body of CompileWheres. */
    method CompileOne(c: Condition) returns (r: Option<(seq<Tok>, seq<SqlValue>)>)
      modifies this`bindings
      ensures r.Some? <==> CompilesOne(c)
      ensures r.Some? ==> r.value == (TextOne(c, old(bindings)), Args(c)) && bindings == old(bindings) + |r.value.1|
      decreases c, 0
    {
      match c.body {
        case Nested(conds) =>
          var inner := CompileWheres(conds);
          if inner.None? {
            return None;
          }
          return Some(([Open] + (inner.value.0 + [Close]), inner.value.1));
        case Raw(expr, args) =>
          if expr == "" {
            return None;
          }
          bindings := bindings + |args|;
          return Some(([RawText(expr, |args|)], args));
        case IsNull(col) => return Some(([Column(col), IsNullWord], []));
        case NotNull(col) => return Some(([Column(col), IsNotNullWord], []));
        case In(col, values) =>
          if |values| == 0 {
            return Some(([Number(1), OperatorWord(Eq), Number(0)], []));
          }
          var params := Placeholders(|values|);
          return Some(([Column(col), InWord, Open] + (params + [Close]), values));
        case NotIn(col, values) =>
          if |values| == 0 {
            return Some(([Number(1), OperatorWord(Eq), Number(1)], []));
          }
          var params := Placeholders(|values|);
          return Some(([Column(col), NotInWord, Open] + (params + [Close]), values));
        case Between(col, lo, hi) =>
          bindings := bindings + 2;
          return Some(([Column(col), BetweenWord, Param(bindings - 1), AndWord, Param(bindings)], [lo, hi]));
        case NotBetween(col, lo, hi) =>
          bindings := bindings + 2;
          return Some(([Column(col), NotBetweenWord, Param(bindings - 1), AndWord, Param(bindings)], [lo, hi]));
        case Compare(col, op, value) =>
          bindings := bindings + 1;
          return Some(([Column(col), OperatorWord(op), Param(bindings)], [value]));
      }
    }

    /** The comma-separated placeholders of a list. */
    method Placeholders(k: nat) returns (params: seq<Tok>)
      modifies this`bindings
      ensures params == Params(old(bindings), k) && bindings == old(bindings) + k
    {
      params := [];
      ghost var start := bindings;
      for i := 0 to k
        invariant params == Params(start, i) && bindings == start + i
      {
        ParamsSnoc(start, i);
        bindings := bindings + 1;
        params := params + (if i > 0 then [Comma] else []) + [Param(bindings)];
      }
    }

    // ---- Statements ----

    method CompileClause(word: string, conds: seq<Condition>) returns (r: Result<(seq<Tok>, seq<SqlValue>), SqlError>)
      modifies this`bindings
      ensures r.Success? <==> Compiles(conds)
      ensures r.Success? ==> r.value == (Clause(word, conds, old(bindings)), ArgsOf(conds)) && bindings == old(bindings) + |r.value.1|
      ensures r.Failure? ==> r.error == Panic
    {
      if |conds| == 0 {
        return Success(([], []));
      }
      var c := CompileWheres(conds);
      if c.None? {
        return Failure(Panic);
      }
      return Success(([Keyword(word)] + c.value.0, c.value.1));
    }

    /** The SELECT of the clauses, with the counter at the number of arguments collected. */
    method ToSQL() returns (r: Result<(seq<Tok>, seq<SqlValue>), SqlError>)
      modifies this`bindings
      ensures r.Success? <==> table != "" && Compiles(wheres) && Compiles(havings)
      ensures r.Success? ==> r.value == (SelectText(Clauses(), dialect), SelectArgs(Clauses())) && bindings == |r.value.1|
      ensures r.Failure? ==> r.error == if table == "" then NoTable else Panic
    {
      if table == "" {
        return Failure(NoTable);
      }
      bindings := 0;
      var parts :- CompileParts();
      var order := OrderBy();
      var tail := GroupText(groups) + (parts.having + (order + (LimitText(dialect, limit, offset) + [Keyword(lock)])));
      SelectAssembles(Clauses(), dialect, parts.head, parts.where, parts.having, order);
      return Success((parts.head + (parts.where + tail), parts.args));
    }

    /** The parts of a SELECT that take arguments, in the order of their text. */
    method CompileParts() returns (r: Result<SelectParts, SqlError>)
      requires bindings == 0
      modifies this`bindings
      ensures r.Success? <==> Compiles(wheres) && Compiles(havings)
      ensures r.Success? ==>
                && r.value.head == BeforeWhere(Clauses()) && r.value.where == Clause("WHERE", wheres, |JoinArgs(joins)|)
                && r.value.having == Clause("HAVING", havings, |JoinArgs(joins)| + |ArgsOf(wheres)|)
                && r.value.args == SelectArgs(Clauses()) && bindings == |r.value.args|
      ensures r.Failure? ==> r.error == Panic
    {
      var head, args := FromClause();
      assert bindings == |JoinArgs(joins)|;
      var where :- CompileClause("WHERE", wheres);
      assert bindings == |JoinArgs(joins)| + |ArgsOf(wheres)|;
      var having :- CompileClause("HAVING", havings);
      return Success(SelectParts(head, where.0, having.0, args + where.1 + having.1));
    }

    /** Everything up to the joins, whose arguments take the first positions. */
    method FromClause() returns (text: seq<Tok>, args: seq<SqlValue>)
      modifies this`bindings
      ensures text == BeforeWhere(Clauses()) && args == JoinArgs(joins) && bindings == old(bindings) + |args|
    {
      text, args := SelectHead(distinct, cols, table), [];
      for i := 0 to |joins|
        invariant text == SelectHead(distinct, cols, table) + JoinText(joins[..i])
        invariant args == JoinArgs(joins[..i]) && bindings == old(bindings) + |args|
      {
        assert joins[..i + 1][..i] == joins[..i];
        text := text + OneJoin(joins[i]);
        args := args + joins[i].args;
        bindings := bindings + |joins[i].args|;
      }
      assert joins[..|joins|] == joins;
    }

    method OrderBy() returns (text: seq<Tok>)
      ensures text == OrderText(orders)
    {
      text := [];
      for i := 0 to |orders|
        invariant text == OrderText(orders[..i])
      {
        assert orders[..i + 1][..i] == orders[..i];
        text := (if i == 0 then [Keyword("ORDER BY")] else text + [Comma]) + OneOrder(orders[i]);
      }
      assert orders[..|orders|] == orders;
    }

    /** UPDATE: the sorted columns first, then the WHERE clause. */
    method Update(values: Row) returns (r: Result<(seq<Tok>, seq<SqlValue>), SqlError>, ghost cols: seq<string>)
      modifies this`bindings
      ensures ColumnsOf(cols, values.Keys)
      ensures r.Success? <==> |values| > 0 && Compiles(wheres)
      ensures r.Success? ==> r.value == (UpdateText(table, cols, wheres), RowArgs(values, cols) + ArgsOf(wheres)) && bindings == |r.value.1|
      ensures r.Failure? ==> r.error == if |values| == 0 then NoValues else Panic
    {
      var columns := SortedColumns(values);
      cols := columns;
      if |values| == 0 {
        return Failure(NoValues), cols;
      }
      var args: seq<SqlValue> := [];
      var sets: seq<Tok> := [];
      for i := 0 to |columns|
        invariant args == RowArgs(values, columns[..i]) && sets == Sets(columns[..i])
      {
        assert columns[..i + 1][..i] == columns[..i];
        args := args + [Lookup(values, columns[i])];
        sets := (if i == 0 then [] else sets + [Comma]) + [Column(columns[i]), OperatorWord(Eq), Param(i + 1)];
      }
      assert columns[..|columns|] == columns;
      bindings := |columns|;
      var where := CompileClause("WHERE", wheres);
      if where.Failure? {
        return Failure(where.error), cols;
      }
      return Success(([Keyword("UPDATE"), Table(table), Keyword("SET")] + (sets + where.value.0), args + where.value.1)), cols;
    }

    method Delete() returns (r: Result<(seq<Tok>, seq<SqlValue>), SqlError>)
      modifies this`bindings
      ensures r.Success? <==> Compiles(wheres)
      ensures r.Success? ==> r.value == (DeleteText(table, wheres), ArgsOf(wheres)) && bindings == |r.value.1|
    {
      bindings := 0;
      var where :- CompileClause("WHERE", wheres);
      return Success(([Keyword("DELETE FROM"), Table(table)] + where.0, where.1));
    }

    /** The columns are those of the first row; a later row that lacks one inserts null. */
    method InsertBatch(rows: seq<Row>) returns (r: Result<(seq<Tok>, seq<SqlValue>), SqlError>, ghost cols: seq<string>)
      ensures r.Success? <==> rows != []
      ensures r.Success? ==> ColumnsOf(cols, rows[0].Keys) && r.value == (InsertText(table, cols, |rows|), BatchArgs(rows, cols))
      ensures r.Failure? ==> r.error == NoRows
    {
      cols := [];
      if |rows| == 0 {
        return Failure(NoRows), cols;
      }
      var columns := SortedColumns(rows[0]);
      cols := columns;
      var args: seq<SqlValue> := [];
      var tuples: seq<Tok> := [];
      var binding := 0;
      for i := 0 to |rows|
        invariant args == BatchArgs(rows[..i], columns) && tuples == Tuples(i, |columns|) && binding == i * |columns|
      {
        assert rows[..i + 1][..i] == rows[..i];
        RowProduct(i + 1, |columns|);
        var params, values;
        binding, params, values := OneRow(rows[i], columns, binding);
        tuples := (if i == 0 then [] else tuples + [Comma]) + ([Open] + (params + [Close]));
        args := args + values;
      }
      assert rows[..|rows|] == rows;
      return Success(([Keyword("INSERT INTO"), Table(table), Open] + (Columns(columns) + ([Close, Keyword("VALUES")] + tuples)), args)), cols;
    }
  }

  lemma SelectAssembles(q: Select, dialect: Dialect, head: seq<Tok>, where: seq<Tok>, having: seq<Tok>, order: seq<Tok>)
    requires head == BeforeWhere(q) && order == OrderText(q.orders)
    requires where == Clause("WHERE", q.wheres, |JoinArgs(q.joins)|)
    requires having == Clause("HAVING", q.havings, |JoinArgs(q.joins)| + |ArgsOf(q.wheres)|)
    ensures head + (where + (GroupText(q.groups) + (having + (order + (LimitText(dialect, q.limit, q.offset) + [Keyword(q.lock)])))))
         == SelectText(q, dialect)
  {
  }

  /** The inner loop of InsertBatch. */
  method OneRow(row: Row, cols: seq<string>, from: nat) returns (binding: nat, params: seq<Tok>, values: seq<SqlValue>)
    ensures binding == from + |cols| && params == Params(from, |cols|) && values == RowArgs(row, cols)
  {
    binding, params, values := from, [], [];
    for i := 0 to |cols|
      invariant binding == from + i && params == Params(from, i) && values == RowArgs(row, cols[..i])
    {
      ParamsSnoc(from, i);
      binding := binding + 1;
      params := params + (if i > 0 then [Comma] else []) + [Param(binding)];
      values := values + [Lookup(row, cols[i])];
    }
    assert cols[..|cols|] == cols;
  }

  lemma {:induction false} ParamsSnoc(n: nat, k: nat)
    ensures Params(n, k + 1) == Params(n, k) + (if k > 0 then [Comma] else []) + [Param(n + k + 1)]
    decreases k
  {
    if k > 0 {
      ParamsSnoc(n + 1, k - 1);
    }
  }

  // ---- The ORM's view of a builder ----

  datatype Trashed = TrashedDefault | TrashedOnly | TrashedWith

  /** The condition a soft-delete scope adds, if it adds one. */
  function Scope(deletedAt: Option<string>, trashed: Trashed): seq<Condition> {
    if deletedAt.None? then []
    else
      match trashed
      case TrashedDefault => [Condition(AndGlue, IsNull(deletedAt.value))]
      case TrashedOnly => [Condition(AndGlue, NotNull(deletedAt.value))]
      case TrashedWith => []
  }

  /** Whether the scope lets a row through. */
  predicate InScope(w: World, deletedAt: Option<string>, trashed: Trashed) {
    deletedAt.None? || trashed.TrashedWith? || (w.column(deletedAt.value) == Null <==> trashed.TrashedDefault?)
  }

  class Model {
    const qb: Builder
    const deletedAt: Option<string>
    const primaryKey: Option<string>
    const trashed: Trashed

    constructor (qb: Builder, deletedAt: Option<string>, primaryKey: Option<string>, trashed: Trashed)
      ensures this.qb == qb && this.deletedAt == deletedAt && this.primaryKey == primaryKey && this.trashed == trashed
    {
      this.qb, this.deletedAt, this.primaryKey, this.trashed := qb, deletedAt, primaryKey, trashed;
    }

    /** The scope goes onto a copy: the model's own builder keeps its clauses. */
    method ScopedQB() returns (c: Builder)
      requires qb.Valid()
      ensures fresh(c) && c.Valid() && c.dialect == qb.dialect
      ensures c.Clauses() == qb.Clauses().(wheres := Wrap(qb.wheres) + Scope(deletedAt, trashed))
    {
      c := qb.Clone();
      c.WrapWheres();
      if deletedAt.None? {
        assert c.wheres + [] == c.wheres;
        return;
      }
      match trashed {
        case TrashedDefault => c.WhereNull(deletedAt.value);
        case TrashedOnly => c.WhereNotNull(deletedAt.value);
        case TrashedWith => assert c.wheres + [] == c.wheres;
      }
    }

    /** The query of Find, which looks one row up by its key. */
    method FindQuery(id: SqlValue) returns (r: Result<(seq<Tok>, seq<SqlValue>), SqlError>, ghost q: Select)
      requires qb.Valid()
      ensures primaryKey.None? ==> r == Failure(NoPrimaryKey)
      ensures primaryKey.Some? ==>
                && q == qb.Clauses().(wheres := Wrap(qb.wheres) + Scope(deletedAt, trashed) + [Condition(AndGlue, NullAware(primaryKey.value, Eq, id))], limit := 1)
                && (r.Success? ==> r.value == (SelectText(q, qb.dialect), SelectArgs(q)))
    {
      q := qb.Clauses();
      if primaryKey.None? {
        return Failure(NoPrimaryKey), q;
      }
      var c := ScopedQB();
      var _ := c.AddWhere(AndGlue, primaryKey.value, "=", id);
      c.limit := 1;
      q := c.Clauses();
      r := c.ToSQL();
    }
  }

  /** The scoped query accepts exactly the rows that the caller's own filter accepts and the scope
      lets through, whatever ORs the filter holds. */
  lemma ScopedFilterMeans(w: World, wheres: seq<Condition>, deletedAt: Option<string>, trashed: Trashed)
    ensures var scoped := Wrap(wheres) + Scope(deletedAt, trashed);
            && AndOnly(scoped)
            && Meaning(w, scoped) == And3(Meaning(w, wheres), Lift(InScope(w, deletedAt, trashed)))
  {
    WrapKeepsMeaning(w, wheres);
    var scope := Scope(deletedAt, trashed);
    if scope == [] {
      assert Wrap(wheres) + [] == Wrap(wheres);
    } else {
      AndOnlyTakesAnd(w, Wrap(wheres), scope[0]);
    }
  }

  /** Find accepts a row exactly when the filter does, the scope lets it through, and its key is
      the one asked for; a null key asks for rows whose key is null. */
  lemma FindMeans(w: World, wheres: seq<Condition>, deletedAt: Option<string>, trashed: Trashed, key: string, id: SqlValue)
    ensures var found := Wrap(wheres) + Scope(deletedAt, trashed) + [Condition(AndGlue, NullAware(key, Eq, id))];
            Meaning(w, found) == Yes <==>
            && Meaning(w, wheres) == Yes
            && InScope(w, deletedAt, trashed)
            && (if id == Null then w.column(key) == Null else w.Test(Eq, w.column(key), id) == Yes)
  {
    ScopedFilterMeans(w, wheres, deletedAt, trashed);
    AndOnlyTakesAnd(w, Wrap(wheres) + Scope(deletedAt, trashed), Condition(AndGlue, NullAware(key, Eq, id)));
  }

  /** A page of Chunk holds rows that the filter and the scope accept and that lie past the cursor. */
  lemma CursorMeans(w: World, wheres: seq<Condition>, deletedAt: Option<string>, trashed: Trashed, key: string, last: SqlValue)
    requires last != Null
    ensures var page := Wrap(wheres) + Scope(deletedAt, trashed) + [Condition(AndGlue, NullAware(key, Gt, last))];
            Meaning(w, page) == And3(And3(Meaning(w, wheres), Lift(InScope(w, deletedAt, trashed))), w.Test(Gt, w.column(key), last))
  {
    ScopedFilterMeans(w, wheres, deletedAt, trashed);
    AndOnlyTakesAnd(w, Wrap(wheres) + Scope(deletedAt, trashed), Condition(AndGlue, NullAware(key, Gt, last)));
  }
}
