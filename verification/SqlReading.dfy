/** Reading the compiled text gives back the meaning of the tree it was compiled from. */
module SqlReading {
  import opened Prelude
  import opened SqlConditions

  /** What may follow a condition list: nothing that would go on with it. */
  predicate EndsList(tail: seq<Tok>) {
    tail == [] || (tail[0] != AndWord && tail[0] != OrWord)
  }

  lemma {:induction false} ParamsRead(n: nat, k: nat, tail: seq<Tok>)
    requires k > 0 && tail != [] && tail[0] == Close
    ensures ReadParams(Params(n, k) + tail, n) == Some((k, tail, n + k))
    decreases k
  {
    if k == 1 {
      assert ([Param(n + 1)] + tail)[1..] == tail;
    } else {
      ParamsRead(n + 1, k - 1, tail);
      assert Params(n, k) + tail == [Param(n + 1), Comma] + (Params(n + 1, k - 1) + tail);
      assert (Params(n, k) + tail)[2..] == Params(n + 1, k - 1) + tail;
    }
  }

  lemma MembersRead(col: string, negated: bool, n: nat, k: nat, tail: seq<Tok>)
    requires k > 0
    ensures ReadMembers(col, negated, [Open] + (Params(n, k) + ([Close] + tail)), n) == Some((Membership(col, negated, n, k), tail, n + k))
  {
    var ts := [Open] + (Params(n, k) + ([Close] + tail));
    assert ts[1..] == Params(n, k) + ([Close] + tail);
    ParamsRead(n, k, [Close] + tail);
    assert ([Close] + tail)[1..] == tail;
  }

  lemma ColumnReads(col: string, after: seq<Tok>, n: nat)
    requires after != []
    ensures ReadPredicate([Column(col)] + after, n) == ReadColumn(col, after, n)
  {
    assert ([Column(col)] + after)[1..] == after;
  }

  /** The leaves of a tree read as themselves. */
  lemma LeafReads(c: Condition, n: nat, tail: seq<Tok>)
    requires !c.body.Nested?
    ensures ReadPredicate(TextOne(c, n) + tail, n) == Some((ExprOne(c, n), tail, n + |Args(c)|))
  {
    match c.body
    case Raw(_, _) => RawReads(c, n, tail);
    case IsNull(_) => NullReads(c, n, tail);
    case NotNull(_) => NullReads(c, n, tail);
    case In(col, values) => MembershipReads(c, col, InWord, false, values, n, tail);
    case NotIn(col, values) => MembershipReads(c, col, NotInWord, true, values, n, tail);
    case Between(col, _, _) => RangeReads(c, col, BetweenWord, false, n, tail);
    case NotBetween(col, _, _) => RangeReads(c, col, NotBetweenWord, true, n, tail);
    case Compare(_, _, _) => CompareReads(c, n, tail);
  }

  lemma RawReads(c: Condition, n: nat, tail: seq<Tok>)
    requires c.body.Raw?
    ensures ReadPredicate(TextOne(c, n) + tail, n) == Some((ExprOne(c, n), tail, n + |Args(c)|))
  {
    FragmentReads(c.body.expr, |c.body.args|, n, tail);
  }

  lemma NullReads(c: Condition, n: nat, tail: seq<Tok>)
    requires c.body.IsNull? || c.body.NotNull?
    ensures ReadPredicate(TextOne(c, n) + tail, n) == Some((ExprOne(c, n), tail, n + |Args(c)|))
  {
    var word := if c.body.IsNull? then IsNullWord else IsNotNullWord;
    assert TextOne(c, n) + tail == [Column(c.body.col)] + ([word] + tail);
    NullnessReads(c.body.col, word, c.body.NotNull?, n, tail);
  }

  lemma CompareReads(c: Condition, n: nat, tail: seq<Tok>)
    requires c.body.Compare?
    ensures ReadPredicate(TextOne(c, n) + tail, n) == Some((ExprOne(c, n), tail, n + |Args(c)|))
  {
    assert TextOne(c, n) + tail == [Column(c.body.col)] + ([OperatorWord(c.body.op), Param(n + 1)] + tail);
    ComparisonReads(c.body.col, c.body.op, n, tail);
  }

  lemma FragmentReads(expr: string, k: nat, n: nat, tail: seq<Tok>)
    ensures ReadPredicate([RawText(expr, k)] + tail, n) == Some((Fragment(expr, n, k), tail, n + k))
  {
    assert ([RawText(expr, k)] + tail)[1..] == tail;
  }

  lemma NullnessReads(col: string, word: Tok, negated: bool, n: nat, tail: seq<Tok>)
    requires word == if negated then IsNotNullWord else IsNullWord
    ensures ReadPredicate([Column(col)] + ([word] + tail), n) == Some((Nullness(col, negated), tail, n))
  {
    ColumnReads(col, [word] + tail, n);
    assert ([word] + tail)[1..] == tail;
  }

  lemma ComparisonReads(col: string, op: Operator, n: nat, tail: seq<Tok>)
    ensures ReadPredicate([Column(col)] + ([OperatorWord(op), Param(n + 1)] + tail), n) == Some((Comparison(col, op, n), tail, n + 1))
  {
    var after := [OperatorWord(op), Param(n + 1)] + tail;
    ColumnReads(col, after, n);
    assert after[2..] == tail;
  }

  lemma ConstantReads(a: nat, n: nat, tail: seq<Tok>)
    ensures ReadPredicate([Number(1), OperatorWord(Eq), Number(a)] + tail, n) == Some((Constant(1 == a), tail, n))
  {
    assert ([Number(1), OperatorWord(Eq), Number(a)] + tail)[3..] == tail;
  }

  lemma MembershipReads(c: Condition, col: string, word: Tok, negated: bool, values: seq<SqlValue>, n: nat, tail: seq<Tok>)
    requires if negated then c.body == NotIn(col, values) && word == NotInWord else c.body == In(col, values) && word == InWord
    ensures ReadPredicate(TextOne(c, n) + tail, n) == Some((ExprOne(c, n), tail, n + |values|))
  {
    if values == [] {
      NoMembersRead(c, col, negated, n, tail);
    } else {
      var members := [Open] + (Params(n, |values|) + ([Close] + tail));
      MembersText(c, col, word, negated, values, n, tail);
      assert TextOne(c, n) + tail == [Column(col)] + ([word] + members);
      ColumnThenMembersRead(col, word, negated, n, |values|, tail);
    }
  }

  lemma NoMembersRead(c: Condition, col: string, negated: bool, n: nat, tail: seq<Tok>)
    requires c.body == if negated then NotIn(col, []) else In(col, [])
    ensures ReadPredicate(TextOne(c, n) + tail, n) == Some((ExprOne(c, n), tail, n))
  {
    var a: nat := if negated then 1 else 0;
    assert TextOne(c, n) == [Number(1), OperatorWord(Eq), Number(a)];
    ConstantReads(a, n, tail);
  }

  lemma MembersText(c: Condition, col: string, word: Tok, negated: bool, values: seq<SqlValue>, n: nat, tail: seq<Tok>)
    requires values != [] && word == if negated then NotInWord else InWord
    requires c.body == if negated then NotIn(col, values) else In(col, values)
    ensures TextOne(c, n) + tail == [Column(col)] + ([word] + ([Open] + (Params(n, |values|) + ([Close] + tail))))
    ensures ExprOne(c, n) == Membership(col, negated, n, |values|)
  {
    var params := Params(n, |values|);
    assert TextOne(c, n) == [Column(col), word, Open] + (params + [Close]);
    MembersRegroup(col, word, params, tail);
  }

  lemma MembersRegroup(col: string, word: Tok, params: seq<Tok>, tail: seq<Tok>)
    ensures [Column(col), word, Open] + (params + [Close]) + tail == [Column(col)] + ([word] + ([Open] + (params + ([Close] + tail))))
  {
  }

  lemma ColumnThenMembersRead(col: string, word: Tok, negated: bool, n: nat, k: nat, tail: seq<Tok>)
    requires k > 0 && word == if negated then NotInWord else InWord
    ensures var members := [Open] + (Params(n, k) + ([Close] + tail));
            ReadPredicate([Column(col)] + ([word] + members), n) == Some((Membership(col, negated, n, k), tail, n + k))
  {
    var members := [Open] + (Params(n, k) + ([Close] + tail));
    ColumnReads(col, [word] + members, n);
    assert ([word] + members)[1..] == members;
    MembersRead(col, negated, n, k, tail);
  }

  lemma RangeReads(c: Condition, col: string, word: Tok, negated: bool, n: nat, tail: seq<Tok>)
    requires if negated then c.body.NotBetween? && c.body.col == col && word == NotBetweenWord else c.body.Between? && c.body.col == col && word == BetweenWord
    ensures ReadPredicate(TextOne(c, n) + tail, n) == Some((Range(col, negated, n), tail, n + 2))
  {
    var after := [Param(n + 1), AndWord, Param(n + 2)] + tail;
    assert TextOne(c, n) + tail == [Column(col)] + ([word] + after);
    ColumnReads(col, [word] + after, n);
    assert ([word] + after)[1..] == after;
    assert after[3..] == tail;
  }

  lemma GroupReads(inner: seq<Tok>, n: nat, e: Expr, m: nat, tail: seq<Tok>)
    requires ReadEither(inner + ([Close] + tail), n) == Some((e, [Close] + tail, m))
    ensures ReadPredicate([Open] + (inner + ([Close] + tail)), n) == Some((e, tail, m))
  {
    assert ([Open] + (inner + ([Close] + tail)))[1..] == inner + ([Close] + tail);
    assert ([Close] + tail)[1..] == tail;
  }

  lemma {:induction false} OneReads(c: Condition, n: nat, tail: seq<Tok>)
    requires GroupedOne(c)
    ensures ReadPredicate(TextOne(c, n) + tail, n) == Some((ExprOne(c, n), tail, n + |Args(c)|))
    decreases SizeOne(c), 0
  {
    if c.body.Nested? {
      ListReads(c.body.conds, n, [Close] + tail);
      assert TextOne(c, n) + tail == [Open] + (Text(c.body.conds, n) + ([Close] + tail));
      GroupReads(Text(c.body.conds, n), n, ExprOf(c.body.conds, n), n + |Args(c)|, tail);
    } else {
      LeafReads(c, n, tail);
    }
  }

  lemma BothStops(ts: seq<Tok>, n: nat, e: Expr, rest: seq<Tok>, m: nat)
    requires ReadPredicate(ts, n) == Some((e, rest, m)) && (rest == [] || rest[0] != AndWord)
    ensures ReadBoth(ts, n) == Some((e, rest, m))
  {
  }

  lemma BothGoesOn(ts: seq<Tok>, n: nat, e: Expr, mid: seq<Tok>, m: nat, e': Expr, rest: seq<Tok>, m': nat)
    requires ReadPredicate(ts, n) == Some((e, mid, m)) && mid != [] && mid[0] == AndWord
    requires ReadBoth(mid[1..], m) == Some((e', rest, m'))
    ensures ReadBoth(ts, n) == Some((Both(e, e'), rest, m'))
  {
  }

  lemma EitherStops(ts: seq<Tok>, n: nat, e: Expr, rest: seq<Tok>, m: nat)
    requires ReadBoth(ts, n) == Some((e, rest, m)) && (rest == [] || rest[0] != OrWord)
    ensures ReadEither(ts, n) == Some((e, rest, m))
  {
  }

  lemma EitherGoesOn(ts: seq<Tok>, n: nat, e: Expr, mid: seq<Tok>, m: nat, e': Expr, rest: seq<Tok>, m': nat)
    requires ReadBoth(ts, n) == Some((e, mid, m)) && mid != [] && mid[0] == OrWord
    requires ReadEither(mid[1..], m) == Some((e', rest, m'))
    ensures ReadEither(ts, n) == Some((Either(e, e'), rest, m'))
  {
  }

  lemma TextSplits(conds: seq<Condition>, n: nat, tail: seq<Tok>)
    requires conds != []
    ensures Text(conds, n) + tail == TextOne(conds[0], n) + (TextAfter(conds[1..], n + |Args(conds[0])|) + tail)
  {
  }

  lemma NoTextAfter(n: nat, tail: seq<Tok>)
    ensures TextAfter([], n) + tail == tail
  {
  }

  lemma {:induction false} RunReads(conds: seq<Condition>, n: nat, tail: seq<Tok>)
    requires conds != [] && Grouped(conds) && EndsList(tail)
    ensures var (rest, m) := AfterRun(conds, n);
            ReadBoth(Text(conds, n) + tail, n) == Some((ExprRun(conds, n), TextAfter(rest, m) + tail, m))
    decreases Size(conds), 1
  {
    var m := n + |Args(conds[0])|;
    OneReads(conds[0], n, TextAfter(conds[1..], m) + tail);
    FirstReads(conds, n, tail);
    if |conds| == 1 || conds[1].glue == OrGlue {
      RunStops(conds[1..], m, tail);
      BothStops(Text(conds, n) + tail, n, ExprOne(conds[0], n), TextAfter(conds[1..], m) + tail, m);
    } else {
      RunReads(conds[1..], m, tail);
      RunGoesOn(conds, n, tail);
    }
  }

  lemma FirstReads(conds: seq<Condition>, n: nat, tail: seq<Tok>)
    requires conds != [] && GroupedOne(conds[0])
    requires var m := n + |Args(conds[0])|; var after := TextAfter(conds[1..], m) + tail;
             ReadPredicate(TextOne(conds[0], n) + after, n) == Some((ExprOne(conds[0], n), after, m))
    ensures var m := n + |Args(conds[0])|;
            ReadPredicate(Text(conds, n) + tail, n) == Some((ExprOne(conds[0], n), TextAfter(conds[1..], m) + tail, m))
  {
    TextSplits(conds, n, tail);
  }

  /** A run is its first condition AND the run after it. */
  lemma RunGoesOn(conds: seq<Condition>, n: nat, tail: seq<Tok>)
    requires |conds| > 1 && conds[1].glue == AndGlue && Grouped(conds)
    requires var m := n + |Args(conds[0])|;
             ReadPredicate(Text(conds, n) + tail, n) == Some((ExprOne(conds[0], n), TextAfter(conds[1..], m) + tail, m))
    requires var m := n + |Args(conds[0])|; var (rest, m') := AfterRun(conds[1..], m);
             ReadBoth(Text(conds[1..], m) + tail, m) == Some((ExprRun(conds[1..], m), TextAfter(rest, m') + tail, m'))
    ensures var (rest, m') := AfterRun(conds, n);
            ReadBoth(Text(conds, n) + tail, n) == Some((ExprRun(conds, n), TextAfter(rest, m') + tail, m'))
  {
    var m := n + |Args(conds[0])|;
    var (rest, m') := AfterRun(conds[1..], m);
    TextAfterStarts(conds[1..], m, tail);
    BothGoesOn(Text(conds, n) + tail, n, ExprOne(conds[0], n), TextAfter(conds[1..], m) + tail, m, ExprRun(conds[1..], m), TextAfter(rest, m') + tail, m');
  }

  lemma RunStops(conds: seq<Condition>, n: nat, tail: seq<Tok>)
    requires EndsList(tail) && (conds == [] || conds[0].glue == OrGlue)
    ensures var ts := TextAfter(conds, n) + tail; ts == [] || ts[0] != AndWord
  {
    if conds == [] {
      NoTextAfter(n, tail);
    } else {
      TextAfterStarts(conds, n, tail);
    }
  }

  lemma TextAfterStarts(conds: seq<Condition>, n: nat, tail: seq<Tok>)
    requires conds != []
    ensures var ts := TextAfter(conds, n) + tail;
            ts != [] && ts[0] == Word(conds[0].glue) && ts[1..] == Text(conds, n) + tail
  {
    HeadOff(Word(conds[0].glue), Text(conds, n), tail);
  }

  lemma HeadOff(w: Tok, text: seq<Tok>, tail: seq<Tok>)
    ensures var ts := ([w] + text) + tail; ts != [] && ts[0] == w && ts[1..] == text + tail
  {
  }

  lemma {:induction false} AfterRunCounts(conds: seq<Condition>, n: nat)
    requires conds != []
    ensures var (rest, m) := AfterRun(conds, n); m + |ArgsOf(rest)| == n + |ArgsOf(conds)|
    decreases |conds|
  {
    if |conds| > 1 && conds[1].glue == AndGlue {
      AfterRunCounts(conds[1..], n + |Args(conds[0])|);
    }
  }

  /** The text of a condition list is read whole, with its placeholders numbered by position. */
  lemma {:induction false} ListReads(conds: seq<Condition>, n: nat, tail: seq<Tok>)
    requires conds != [] && Grouped(conds) && EndsList(tail)
    ensures ReadEither(Text(conds, n) + tail, n) == Some((ExprOf(conds, n), tail, n + |ArgsOf(conds)|))
    decreases Size(conds), 2
  {
    var (rest, m) := AfterRun(conds, n);
    RunReads(conds, n, tail);
    if rest == [] {
      ListStops(conds, n, tail, m);
    } else {
      ListReads(rest, m, tail);
      ListGoesOn(conds, n, tail, rest, m);
    }
  }

  lemma ListStops(conds: seq<Condition>, n: nat, tail: seq<Tok>, m: nat)
    requires conds != [] && Grouped(conds) && EndsList(tail) && ([], m) == AfterRun(conds, n)
    requires ReadBoth(Text(conds, n) + tail, n) == Some((ExprRun(conds, n), TextAfter([], m) + tail, m))
    ensures ReadEither(Text(conds, n) + tail, n) == Some((ExprOf(conds, n), tail, n + |ArgsOf(conds)|))
  {
    AfterRunCounts(conds, n);
    NoTextAfter(m, tail);
    EitherStops(Text(conds, n) + tail, n, ExprRun(conds, n), tail, m);
  }

  /** A list is its first run OR the list after it. */
  lemma ListGoesOn(conds: seq<Condition>, n: nat, tail: seq<Tok>, rest: seq<Condition>, m: nat)
    requires conds != [] && Grouped(conds) && (rest, m) == AfterRun(conds, n) && rest != []
    requires ReadBoth(Text(conds, n) + tail, n) == Some((ExprRun(conds, n), TextAfter(rest, m) + tail, m))
    requires ReadEither(Text(rest, m) + tail, m) == Some((ExprOf(rest, m), tail, m + |ArgsOf(rest)|))
    ensures ReadEither(Text(conds, n) + tail, n) == Some((ExprOf(conds, n), tail, n + |ArgsOf(conds)|))
  {
    AfterRunCounts(conds, n);
    TextAfterStarts(rest, m, tail);
    EitherGoesOn(Text(conds, n) + tail, n, ExprRun(conds, n), TextAfter(rest, m) + tail, m, ExprOf(rest, m), tail, m + |ArgsOf(rest)|);
  }

  // ---- Meaning ----

  /** The values of a list are bound to the slots from n on. */
  predicate Bound(args: seq<SqlValue>, n: nat, values: seq<SqlValue>) {
    n + |values| <= |args| && args[n..n + |values|] == values
  }

  lemma {:induction false} SlotsOfBound(args: seq<SqlValue>, n: nat, values: seq<SqlValue>)
    requires Bound(args, n, values)
    ensures Slots(args, n, |values|) == values
    decreases |values|
  {
    if values != [] {
      assert args[n..n + |values|][0] == args[n];
      assert args[n + 1..n + |values|] == values[1..];
      SlotsOfBound(args, n + 1, values[1..]);
    }
  }

  lemma BoundSplits(args: seq<SqlValue>, n: nat, a: seq<SqlValue>, b: seq<SqlValue>)
    requires Bound(args, n, a + b)
    ensures Bound(args, n, a) && Bound(args, n + |a|, b)
  {
    var all := args[n..n + |a + b|];
    assert args[n..n + |a|] == all[..|a|] == a;
    assert args[n + |a|..n + |a| + |b|] == all[|a|..] == b;
  }

  lemma {:induction false} OneMeans(w: World, c: Condition, n: nat, args: seq<SqlValue>)
    requires GroupedOne(c) && Bound(args, n, Args(c))
    ensures Eval(w, ExprOne(c, n), args) == MeanOne(w, c)
    decreases SizeOne(c), 0
  {
    match c.body
    case Nested(conds) =>
      ListMeans(w, conds, n, args);
    case Between(_, lo, hi) => assert args[n..n + 2][0] == args[n] && args[n..n + 2][1] == args[n + 1];
    case NotBetween(_, lo, hi) => assert args[n..n + 2][0] == args[n] && args[n..n + 2][1] == args[n + 1];
    case Compare(_, _, v) => assert args[n..n + 1][0] == args[n];
    case _ => SlotsOfBound(args, n, Args(c));
  }

  lemma And3Associates(a: Truth, b: Truth, c: Truth)
    ensures And3(And3(a, b), c) == And3(a, And3(b, c))
  {
  }

  /** A list is worth its first run, continued by what the OR after it starts. */
  lemma {:induction false} RunMeans(w: World, acc: Truth, conds: seq<Condition>, n: nat, args: seq<SqlValue>)
    requires conds != [] && Grouped(conds) && Bound(args, n, ArgsOf(conds))
    ensures var (rest, m) := AfterRun(conds, n);
            var run := And3(acc, Eval(w, ExprRun(conds, n), args));
            && Bound(args, m, ArgsOf(rest))
            && MeaningFrom(w, And3(acc, MeanOne(w, conds[0])), conds[1..]) == if rest == [] then run else Or3(run, Meaning(w, rest))
    decreases Size(conds), 1
  {
    BoundSplits(args, n, Args(conds[0]), ArgsOf(conds[1..]));
    OneMeans(w, conds[0], n, args);
    if |conds| > 1 && conds[1].glue == AndGlue {
      RunMeans(w, And3(acc, MeanOne(w, conds[0])), conds[1..], n + |Args(conds[0])|, args);
      LongerRunMeans(w, acc, conds, n, args);
    }
  }

  /** What a run after the first condition means carries over to the run with it. */
  lemma LongerRunMeans(w: World, acc: Truth, conds: seq<Condition>, n: nat, args: seq<SqlValue>)
    requires |conds| > 1 && conds[1].glue == AndGlue && Grouped(conds)
    requires Eval(w, ExprOne(conds[0], n), args) == MeanOne(w, conds[0])
    requires var (rest, m) := AfterRun(conds[1..], n + |Args(conds[0])|);
             var before := And3(acc, MeanOne(w, conds[0]));
             var run := And3(before, Eval(w, ExprRun(conds[1..], n + |Args(conds[0])|), args));
             && Bound(args, m, ArgsOf(rest))
             && MeaningFrom(w, And3(before, MeanOne(w, conds[1])), conds[1..][1..]) == if rest == [] then run else Or3(run, Meaning(w, rest))
    ensures var (rest, m) := AfterRun(conds, n);
            var run := And3(acc, Eval(w, ExprRun(conds, n), args));
            && Bound(args, m, ArgsOf(rest))
            && MeaningFrom(w, And3(acc, MeanOne(w, conds[0])), conds[1..]) == if rest == [] then run else Or3(run, Meaning(w, rest))
  {
    And3Associates(acc, MeanOne(w, conds[0]), Eval(w, ExprRun(conds[1..], n + |Args(conds[0])|), args));
  }

  lemma {:induction false} ListMeans(w: World, conds: seq<Condition>, n: nat, args: seq<SqlValue>)
    requires conds != [] && Grouped(conds) && Bound(args, n, ArgsOf(conds))
    ensures Eval(w, ExprOf(conds, n), args) == Meaning(w, conds)
    decreases Size(conds), 2
  {
    var (rest, m) := AfterRun(conds, n);
    RunMeans(w, Yes, conds, n, args);
    if rest != [] {
      ListMeans(w, rest, m, args);
    }
  }

  /** SQL reads the compiled text of any well-grouped list, wherever it stands in a statement and
      whatever precedes it, as a predicate with the three-valued meaning of the list. */
  lemma TextMeansConditions(w: World, conds: seq<Condition>, tail: seq<Tok>, before: seq<SqlValue>, after: seq<SqlValue>)
    requires conds != [] && Grouped(conds) && EndsList(tail)
    ensures var r := ReadEither(Text(conds, |before|) + tail, |before|);
            && r.Some? && r.value.1 == tail && r.value.2 == |before + ArgsOf(conds)|
            && Eval(w, r.value.0, before + ArgsOf(conds) + after) == Meaning(w, conds)
  {
    ListReads(conds, |before|, tail);
    ListMeans(w, conds, |before|, before + ArgsOf(conds) + after);
  }

  /** An empty group cannot be read: keeping groups non-empty is what makes every text SQL. */
  lemma EmptyGroupIsUnreadable(glue: Glue, n: nat)
    ensures ReadEither(Text([Condition(glue, Nested([]))], n), n) == None
  {
    var c := Condition(glue, Nested([]));
    assert TextOne(c, n) == [Open, Close];
    assert [c][1..] == [] && Text([c], n) == TextOne(c, n) + TextAfter([], n + |Args(c)|);
    var ts := Text([c], n);
    assert ts == [Open, Close] && ts[1..] == [Close];
    assert ReadPredicate([Close], n) == None;
    assert ReadBoth([Close], n) == None;
    assert ReadEither([Close], n) == None;
    assert ReadPredicate(ts, n) == None;
  }
}
