/** The condition tree of the SQL builder (query/builder.go): the text it compiles to, how SQL
    reads that text, and what it means under three-valued logic. */
module SqlConditions {
  import opened Prelude

  datatype SqlValue = Null | Datum(id: int)

  datatype Operator = Eq | Ne | Lt | Lte | Gt | Gte | Like | ILike

  datatype Glue = AndGlue | OrGlue

  datatype Body =
    | Nested(conds: seq<Condition>)
    | Raw(expr: string, args: seq<SqlValue>)
    | IsNull(col: string)
    | NotNull(col: string)
    | In(col: string, values: seq<SqlValue>)
    | NotIn(col: string, values: seq<SqlValue>)
    | Between(col: string, lo: SqlValue, hi: SqlValue)
    | NotBetween(col: string, lo: SqlValue, hi: SqlValue)
    | Compare(col: string, op: Operator, value: SqlValue)

  /** The glue stands before the condition; that of a first condition is never written. */
  datatype Condition = Condition(glue: Glue, body: Body)

  // ---- Three-valued logic ----

  datatype Truth = Yes | No | Unknown

  function And3(a: Truth, b: Truth): Truth {
    if a == No || b == No then No else if a == Yes && b == Yes then Yes else Unknown
  }

  function Or3(a: Truth, b: Truth): Truth {
    if a == Yes || b == Yes then Yes else if a == No && b == No then No else Unknown
  }

  function Not3(a: Truth): Truth {
    match a case Yes => No case No => Yes case Unknown => Unknown
  }

  function Lift(b: bool): Truth {
    if b then Yes else No
  }

  /** One row as SQL sees it, with the comparison of non-null values and the raw fragments left open. */
  datatype World = World(column: string -> SqlValue, holds: (Operator, SqlValue, SqlValue) -> bool, fragment: (string, seq<SqlValue>) -> Truth) {
    function Test(op: Operator, a: SqlValue, b: SqlValue): Truth {
      if a == Null || b == Null then Unknown else Lift(holds(op, a, b))
    }

    function Within(a: SqlValue, lo: SqlValue, hi: SqlValue): Truth {
      And3(Test(Gte, a, lo), Test(Lte, a, hi))
    }

    function Among(a: SqlValue, values: seq<SqlValue>): Truth {
      if values == [] then No else Or3(Test(Eq, a, values[0]), Among(a, values[1..]))
    }
  }

  // ---- The meaning of a condition list: a disjunction of runs of conditions joined by AND ----

  function MeanOne(w: World, c: Condition): Truth
    decreases c, 0
  {
    match c.body
    case Nested(conds) => Meaning(w, conds)
    case Raw(expr, args) => w.fragment(expr, args)
    case IsNull(col) => Lift(w.column(col) == Null)
    case NotNull(col) => Lift(w.column(col) != Null)
    case In(col, values) => w.Among(w.column(col), values)
    case NotIn(col, values) => Not3(w.Among(w.column(col), values))
    case Between(col, lo, hi) => w.Within(w.column(col), lo, hi)
    case NotBetween(col, lo, hi) => Not3(w.Within(w.column(col), lo, hi))
    case Compare(col, op, v) => w.Test(op, w.column(col), v)
  }

  /** No condition at all filters nothing. */
  function Meaning(w: World, conds: seq<Condition>): Truth
    decreases conds, 1
  {
    if conds == [] then Yes else MeaningFrom(w, MeanOne(w, conds[0]), conds[1..])
  }

  /** The conditions after a run worth acc so far: an OR starts another run. */
  function MeaningFrom(w: World, acc: Truth, conds: seq<Condition>): Truth
    decreases conds, 0
  {
    if conds == [] then acc
    else
      var next := MeanOne(w, conds[0]);
      match conds[0].glue
      case AndGlue => MeaningFrom(w, And3(acc, next), conds[1..])
      case OrGlue => Or3(acc, MeaningFrom(w, next, conds[1..]))
  }

  // ---- The text ----

  datatype Tok =
    | Open | Close | Comma
    | AndWord | OrWord
    | Column(name: string)
    | IsNullWord | IsNotNullWord | InWord | NotInWord | BetweenWord | NotBetweenWord
    | OperatorWord(op: Operator)
    | Param(n: nat)
    | Number(value: nat)
    | RawText(expr: string, slots: nat)   // a fragment with that many placeholders of its own
    | Keyword(word: string)
    | Table(name: string)

  function Args(c: Condition): seq<SqlValue>
    decreases c, 0
  {
    match c.body
    case Nested(conds) => ArgsOf(conds)
    case Raw(_, args) => args
    case IsNull(_) => []
    case NotNull(_) => []
    case In(_, values) => values
    case NotIn(_, values) => values
    case Between(_, lo, hi) => [lo, hi]
    case NotBetween(_, lo, hi) => [lo, hi]
    case Compare(_, _, v) => [v]
  }

  function ArgsOf(conds: seq<Condition>): seq<SqlValue>
    decreases conds, 1
  {
    if conds == [] then [] else Args(conds[0]) + ArgsOf(conds[1..])
  }

  /** k placeholders after the first n, separated by commas. */
  function Params(n: nat, k: nat): seq<Tok>
    decreases k
  {
    if k == 0 then [] else if k == 1 then [Param(n + 1)] else [Param(n + 1), Comma] + Params(n + 1, k - 1)
  }

  /** The text of one condition when n placeholders come before it. */
  function TextOne(c: Condition, n: nat): seq<Tok>
    decreases c, 0
  {
    match c.body
    case Nested(conds) => [Open] + (Text(conds, n) + [Close])
    case Raw(expr, args) => [RawText(expr, |args|)]
    case IsNull(col) => [Column(col), IsNullWord]
    case NotNull(col) => [Column(col), IsNotNullWord]
    case In(col, values) =>
      if values == [] then [Number(1), OperatorWord(Eq), Number(0)]
      else [Column(col), InWord, Open] + (Params(n, |values|) + [Close])
    case NotIn(col, values) =>
      if values == [] then [Number(1), OperatorWord(Eq), Number(1)]
      else [Column(col), NotInWord, Open] + (Params(n, |values|) + [Close])
    case Between(col, _, _) => [Column(col), BetweenWord, Param(n + 1), AndWord, Param(n + 2)]
    case NotBetween(col, _, _) => [Column(col), NotBetweenWord, Param(n + 1), AndWord, Param(n + 2)]
    case Compare(col, op, _) => [Column(col), OperatorWord(op), Param(n + 1)]
  }

  function Text(conds: seq<Condition>, n: nat): seq<Tok>
    decreases conds, 1
  {
    if conds == [] then [] else TextOne(conds[0], n) + TextAfter(conds[1..], n + |Args(conds[0])|)
  }

  /** The conditions that are not first, each after its glue. */
  function TextAfter(conds: seq<Condition>, n: nat): seq<Tok>
    decreases conds, 2
  {
    if conds == [] then [] else [Word(conds[0].glue)] + Text(conds, n)
  }

  function Word(g: Glue): Tok {
    match g case AndGlue => AndWord case OrGlue => OrWord
  }

  // ---- How SQL reads a text: AND binds tighter than OR, and BETWEEN takes the next AND ----

  /** A predicate over the arguments bound to the statement; slots count from 0. */
  datatype Expr =
    | Both(left: Expr, right: Expr)
    | Either(left: Expr, right: Expr)
    | Nullness(col: string, negated: bool)
    | Membership(col: string, negated: bool, first: nat, count: nat)
    | Range(col: string, negated: bool, first: nat)
    | Comparison(col: string, op: Operator, slot: nat)
    | Constant(truth: bool)
    | Fragment(expr: string, first: nat, count: nat)

  /** What was read, the text after it, and the number of placeholders met so far. */
  type Reading<T> = Option<(T, seq<Tok>, nat)>

  function ReadEither(ts: seq<Tok>, n: nat): (r: Reading<Expr>)
    ensures r.Some? ==> |r.value.1| < |ts|
    decreases |ts|, 2
  {
    match ReadBoth(ts, n)
    case None => None
    case Some((left, rest, m)) =>
      if rest == [] || rest[0] != OrWord then Some((left, rest, m))
      else
        match ReadEither(rest[1..], m)
        case None => None
        case Some((right, rest', m')) => Some((Either(left, right), rest', m'))
  }

  function ReadBoth(ts: seq<Tok>, n: nat): (r: Reading<Expr>)
    ensures r.Some? ==> |r.value.1| < |ts|
    decreases |ts|, 1
  {
    match ReadPredicate(ts, n)
    case None => None
    case Some((left, rest, m)) =>
      if rest == [] || rest[0] != AndWord then Some((left, rest, m))
      else
        match ReadBoth(rest[1..], m)
        case None => None
        case Some((right, rest', m')) => Some((Both(left, right), rest', m'))
  }

  function ReadPredicate(ts: seq<Tok>, n: nat): (r: Reading<Expr>)
    ensures r.Some? ==> |r.value.1| < |ts|
    decreases |ts|, 0
  {
    if ts == [] then None
    else
      match ts[0]
      case Open =>
        (match ReadEither(ts[1..], n)
         case None => None
         case Some((e, rest, m)) => if rest != [] && rest[0] == Close then Some((e, rest[1..], m)) else None)
      case RawText(expr, k) => Some((Fragment(expr, n, k), ts[1..], n + k))
      case Number(a) =>
        if |ts| >= 3 && ts[1] == OperatorWord(Eq) && ts[2].Number? then Some((Constant(a == ts[2].value), ts[3..], n)) else None
      case Column(col) => if |ts| == 1 then None else ReadColumn(col, ts[1..], n)
      case _ => None
  }

  /** A predicate after its column. Each placeholder must carry its own position. */
  function ReadColumn(col: string, ts: seq<Tok>, n: nat): (r: Reading<Expr>)
    requires ts != []
    ensures r.Some? ==> |r.value.1| <= |ts|
  {
    match ts[0]
    case IsNullWord => Some((Nullness(col, false), ts[1..], n))
    case IsNotNullWord => Some((Nullness(col, true), ts[1..], n))
    case InWord => ReadMembers(col, false, ts[1..], n)
    case NotInWord => ReadMembers(col, true, ts[1..], n)
    case BetweenWord => ReadRange(col, false, ts[1..], n)
    case NotBetweenWord => ReadRange(col, true, ts[1..], n)
    case OperatorWord(op) => if |ts| >= 2 && ts[1] == Param(n + 1) then Some((Comparison(col, op, n), ts[2..], n + 1)) else None
    case _ => None
  }

  function ReadRange(col: string, negated: bool, ts: seq<Tok>, n: nat): (r: Reading<Expr>)
    ensures r.Some? ==> |r.value.1| <= |ts|
  {
    if |ts| >= 3 && ts[0] == Param(n + 1) && ts[1] == AndWord && ts[2] == Param(n + 2) then Some((Range(col, negated, n), ts[3..], n + 2))
    else None
  }

  function ReadMembers(col: string, negated: bool, ts: seq<Tok>, n: nat): (r: Reading<Expr>)
    ensures r.Some? ==> |r.value.1| <= |ts|
  {
    if ts == [] || ts[0] != Open then None
    else
      match ReadParams(ts[1..], n)
      case None => None
      case Some((k, rest, m)) => if rest != [] && rest[0] == Close then Some((Membership(col, negated, n, k), rest[1..], m)) else None
  }

  function ReadParams(ts: seq<Tok>, n: nat): (r: Reading<nat>)
    ensures r.Some? ==> |r.value.1| < |ts|
    decreases |ts|
  {
    if ts == [] || ts[0] != Param(n + 1) then None
    else if |ts| >= 2 && ts[1] == Comma then
      match ReadParams(ts[2..], n + 1)
      case None => None
      case Some((k, rest, m)) => Some((k + 1, rest, m))
    else Some((1, ts[1..], n + 1))
  }

  function Slot(args: seq<SqlValue>, i: nat): SqlValue {
    if i < |args| then args[i] else Null
  }

  function Slots(args: seq<SqlValue>, first: nat, count: nat): seq<SqlValue>
    decreases count
  {
    if count == 0 then [] else [Slot(args, first)] + Slots(args, first + 1, count - 1)
  }

  function Negate(negated: bool, t: Truth): Truth {
    if negated then Not3(t) else t
  }

  function Eval(w: World, e: Expr, args: seq<SqlValue>): Truth {
    match e
    case Both(l, r) => And3(Eval(w, l, args), Eval(w, r, args))
    case Either(l, r) => Or3(Eval(w, l, args), Eval(w, r, args))
    case Nullness(col, negated) => Lift((w.column(col) == Null) != negated)
    case Membership(col, negated, first, count) => Negate(negated, w.Among(w.column(col), Slots(args, first, count)))
    case Range(col, negated, first) => Negate(negated, w.Within(w.column(col), Slot(args, first), Slot(args, first + 1)))
    case Comparison(col, op, slot) => w.Test(op, w.column(col), Slot(args, slot))
    case Constant(b) => Lift(b)
    case Fragment(expr, first, count) => w.fragment(expr, Slots(args, first, count))
  }

  // ---- Well-grouped trees and the expressions they are read as ----

  /** No nested group is empty: "()" is not SQL. */
  predicate Grouped(conds: seq<Condition>)
    decreases conds, 1
  {
    conds != [] ==> GroupedOne(conds[0]) && Grouped(conds[1..])
  }

  predicate GroupedOne(c: Condition)
    decreases c, 0
  {
    c.body.Nested? ==> c.body.conds != [] && Grouped(c.body.conds)
  }

  /** The number of conditions at every depth. */
  function Size(conds: seq<Condition>): nat
    decreases conds, 1
  {
    if conds == [] then 0 else SizeOne(conds[0]) + Size(conds[1..])
  }

  function SizeOne(c: Condition): nat
    decreases c, 0
  {
    match c.body
    case Nested(conds) => 1 + Size(conds)
    case _ => 1
  }

  function ExprOne(c: Condition, n: nat): Expr
    requires GroupedOne(c)
    decreases SizeOne(c), 0
  {
    match c.body
    case Nested(conds) => ExprOf(conds, n)
    case Raw(expr, args) => Fragment(expr, n, |args|)
    case IsNull(col) => Nullness(col, false)
    case NotNull(col) => Nullness(col, true)
    case In(col, values) => if values == [] then Constant(false) else Membership(col, false, n, |values|)
    case NotIn(col, values) => if values == [] then Constant(true) else Membership(col, true, n, |values|)
    case Between(col, _, _) => Range(col, false, n)
    case NotBetween(col, _, _) => Range(col, true, n)
    case Compare(col, op, _) => Comparison(col, op, n)
  }

  /** The conditions after the first run, and the placeholders before them. */
  function AfterRun(conds: seq<Condition>, n: nat): (r: (seq<Condition>, nat))
    requires conds != []
    ensures |r.0| < |conds|
    ensures r.0 != [] ==> r.0[0].glue == OrGlue
    ensures Grouped(conds) ==> Grouped(r.0)
    ensures Size(r.0) < Size(conds)
    decreases |conds|
  {
    var m := n + |Args(conds[0])|;
    if |conds| == 1 || conds[1].glue == OrGlue then (conds[1..], m) else AfterRun(conds[1..], m)
  }

  function ExprRun(conds: seq<Condition>, n: nat): Expr
    requires conds != [] && Grouped(conds)
    decreases Size(conds), 1
  {
    var first := ExprOne(conds[0], n);
    if |conds| == 1 || conds[1].glue == OrGlue then first
    else Both(first, ExprRun(conds[1..], n + |Args(conds[0])|))
  }

  function ExprOf(conds: seq<Condition>, n: nat): Expr
    requires conds != [] && Grouped(conds)
    decreases Size(conds), 2
  {
    var (rest, m) := AfterRun(conds, n);
    if rest == [] then ExprRun(conds, n) else Either(ExprRun(conds, n), ExprOf(rest, m))
  }
}
