/** Adding a condition to a filter that is already there: what it means, when it means too little,
    and why the filter is wrapped first (query/builder.go, WrapWheres; orm/query.go, scopedQB). */
module SqlScopes {
  import opened Prelude
  import opened SqlConditions

  // ---- A filter holds when one of its runs does ----

  /** Every condition up to the next OR holds. */
  predicate LeadHolds(w: World, conds: seq<Condition>) {
    conds == [] || conds[0].glue == OrGlue || (MeanOne(w, conds[0]) == Yes && LeadHolds(w, conds[1..]))
  }

  /** Some run that an OR starts holds. */
  predicate LaterRunHolds(w: World, conds: seq<Condition>) {
    conds != [] &&
    ((conds[0].glue == OrGlue && MeanOne(w, conds[0]) == Yes && LeadHolds(w, conds[1..])) || LaterRunHolds(w, conds[1..]))
  }

  lemma {:induction false} ContinuationHoldsByRuns(w: World, acc: Truth, conds: seq<Condition>)
    ensures MeaningFrom(w, acc, conds) == Yes <==> (acc == Yes && LeadHolds(w, conds)) || LaterRunHolds(w, conds)
    decreases |conds|
  {
    if conds != [] {
      var next := MeanOne(w, conds[0]);
      match conds[0].glue
      case AndGlue => ContinuationHoldsByRuns(w, And3(acc, next), conds[1..]);
      case OrGlue => ContinuationHoldsByRuns(w, next, conds[1..]);
    }
  }

  /** A row passes a filter exactly when all the conditions of one of its AND-runs hold; the glue
      of the first condition does not matter. */
  lemma FilterHoldsByRuns(w: World, conds: seq<Condition>)
    requires conds != []
    ensures Meaning(w, conds) == Yes <==> (MeanOne(w, conds[0]) == Yes && LeadHolds(w, conds[1..])) || LaterRunHolds(w, conds[1..])
  {
    ContinuationHoldsByRuns(w, MeanOne(w, conds[0]), conds[1..]);
  }

  // ---- Appending ----

  lemma Or3Associates(a: Truth, b: Truth, c: Truth)
    ensures Or3(Or3(a, b), c) == Or3(a, Or3(b, c))
  {
  }

  lemma {:induction false} ContinuationSplitsAtOr(w: World, acc: Truth, a: seq<Condition>, b: seq<Condition>)
    requires b != [] && b[0].glue == OrGlue
    ensures MeaningFrom(w, acc, a + b) == Or3(MeaningFrom(w, acc, a), Meaning(w, b))
    decreases |a|
  {
    if a == [] {
      assert a + b == b;
    } else {
      assert (a + b)[1..] == a[1..] + b;
      var next := MeanOne(w, a[0]);
      match a[0].glue
      case AndGlue => ContinuationSplitsAtOr(w, And3(acc, next), a[1..], b);
      case OrGlue =>
        ContinuationSplitsAtOr(w, next, a[1..], b);
        Or3Associates(acc, MeaningFrom(w, next, a[1..]), Meaning(w, b));
    }
  }

  /** An OR after the first condition splits the filter. */
  lemma FilterSplitsAtOr(w: World, a: seq<Condition>, b: seq<Condition>)
    requires a != [] && b != [] && b[0].glue == OrGlue
    ensures Meaning(w, a + b) == Or3(Meaning(w, a), Meaning(w, b))
  {
    assert (a + b)[1..] == a[1..] + b;
    ContinuationSplitsAtOr(w, MeanOne(w, a[0]), a[1..], b);
  }

  /** Only the first condition may carry an OR, which is never written. */
  predicate AndOnly(conds: seq<Condition>) {
    forall k | 1 <= k < |conds| :: conds[k].glue == AndGlue
  }

  lemma {:induction false} ContinuationTakesAnd(w: World, acc: Truth, conds: seq<Condition>, c: Condition)
    requires c.glue == AndGlue && forall k | 0 <= k < |conds| :: conds[k].glue == AndGlue
    ensures MeaningFrom(w, acc, conds + [c]) == And3(MeaningFrom(w, acc, conds), MeanOne(w, c))
    decreases |conds|
  {
    if conds == [] {
      assert conds + [c] == [c];
      assert MeaningFrom(w, And3(acc, MeanOne(w, c)), []) == And3(acc, MeanOne(w, c));
    } else {
      assert (conds + [c])[1..] == conds[1..] + [c];
      ContinuationTakesAnd(w, And3(acc, MeanOne(w, conds[0])), conds[1..], c);
    }
  }

  lemma AndOnlyTakesAnd(w: World, conds: seq<Condition>, c: Condition)
    requires AndOnly(conds) && c.glue == AndGlue
    ensures AndOnly(conds + [c])
    ensures Meaning(w, conds + [c]) == And3(Meaning(w, conds), MeanOne(w, c))
  {
    if conds == [] {
      assert conds + [c] == [c];
    } else {
      assert (conds + [c])[1..] == conds[1..] + [c];
      ContinuationTakesAnd(w, MeanOne(w, conds[0]), conds[1..], c);
    }
  }

  // ---- Wrapping ----

  predicate HasOr(conds: seq<Condition>) {
    exists k :: 0 <= k < |conds| && conds[k].glue == OrGlue
  }

  function Wrap(conds: seq<Condition>): seq<Condition> {
    if HasOr(conds) then [Condition(AndGlue, Nested(conds))] else conds
  }

  /** Wrapping leaves the filter's meaning alone and makes it safe to append to. */
  lemma WrapKeepsMeaning(w: World, conds: seq<Condition>)
    ensures Meaning(w, Wrap(conds)) == Meaning(w, conds)
    ensures AndOnly(Wrap(conds))
    ensures Grouped(conds) ==> Grouped(Wrap(conds))
  {
    if HasOr(conds) {
      var c := Condition(AndGlue, Nested(conds));
      assert [c][1..] == [];
    }
  }

  /** A wrapped filter with a condition appended means the old filter AND the condition: this is
      what scopes, key lookups and cursors rely on. */
  lemma WrappedFilterTakesAnd(w: World, conds: seq<Condition>, c: Condition)
    requires c.glue == AndGlue
    ensures Meaning(w, Wrap(conds) + [c]) == And3(Meaning(w, conds), MeanOne(w, c))
  {
    WrapKeepsMeaning(w, conds);
    AndOnlyTakesAnd(w, Wrap(conds), c);
  }

  /** Without the wrapping, the appended condition binds to the last run alone: a row that an
      earlier run accepts passes although the condition rejects it. */
  lemma UnwrappedFilterLeaks(w: World, a: seq<Condition>, b: seq<Condition>, c: Condition)
    requires a != [] && b != [] && b[0].glue == OrGlue
    requires Meaning(w, a) == Yes && MeanOne(w, c) == No
    ensures Meaning(w, a + b + [c]) == Yes && And3(Meaning(w, a + b), MeanOne(w, c)) == No
  {
    assert a + b + [c] == a + (b + [c]);
    FilterSplitsAtOr(w, a, b + [c]);
  }

  /** Appending to an unwrapped filter is safe for every row if no OR follows the first condition. */
  lemma UnwrappedIsSafeWithoutOr(w: World, conds: seq<Condition>, c: Condition)
    requires AndOnly(conds) && c.glue == AndGlue
    ensures Meaning(w, conds + [c]) == Meaning(w, Wrap(conds) + [c])
  {
    AndOnlyTakesAnd(w, conds, c);
    WrappedFilterTakesAnd(w, conds, c);
  }

  // ---- Null-aware comparisons ----

  /** A comparison with null for equality becomes a null test, which is never unknown. */
  function NullAware(col: string, op: Operator, value: SqlValue): Body {
    if value != Null then Compare(col, op, value)
    else
      match op
      case Eq => IsNull(col)
      case Ne => NotNull(col)
      case _ => Compare(col, op, value)
  }

  /** A comparison for equality finds the rows a caller expects, nulls included; every other
      comparison with null holds of no row. */
  lemma NullAwareMeans(w: World, glue: Glue, col: string, op: Operator, value: SqlValue)
    ensures var t := MeanOne(w, Condition(glue, NullAware(col, op, value)));
            && (value != Null ==> t == w.Test(op, w.column(col), value))
            && (value == Null && op == Eq ==> t == Lift(w.column(col) == Null))
            && (value == Null && op == Ne ==> t == Lift(w.column(col) != Null))
            && (value == Null && op != Eq && op != Ne ==> t == Unknown)
  {
  }
}
