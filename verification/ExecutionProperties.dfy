/** What every execution guarantees about its data, its errors and its cost. */
module ExecutionProperties {
  import opened Prelude
  import opened GraphqlAst
  import opened Coercion
  import opened ExecutionSpec
  import opened CostLimits

  // ---- Errors and bubbling ----

  /** Every error lies at or below path, and a null that travels upward has left an error. */
  ghost predicate Honest(path: Path, errs: seq<GqlError>, bubbled: bool) {
    && (forall e | e in errs :: path <= e.path)
    && (bubbled ==> errs != [])
  }

  lemma HonestBelow(path: Path, elem: PathElem, errs: seq<GqlError>, bubbled: bool)
    requires Honest(path + [elem], errs, bubbled)
    ensures Honest(path, errs, bubbled)
  {
    forall e | e in errs ensures path <= e.path {
      assert path <= path + [elem] <= e.path;
    }
  }

  lemma {:induction false} CompleteIsHonest(env: Env, t: OutType, sel: Selection, val: GoValue, path: Path, calls: nat)
    requires Acyclic(env.doc) && sel.Field?
    ensures var r := Complete(env, t, sel, val, path, calls);
            Honest(path, r.errs, r.bubbled) && (r.bubbled ==> r.out == NullOut)
    decreases Size(env, sel), 0, t, 0, 0
  {
    match t
    case NonNullOut(of) => CompleteIsHonest(env, of, sel, val, path, calls);
    case ListOut(of) =>
      if val.Slice? {
        ItemsOfListAreHonest(env, of, sel, val.elems, 0, path, calls);
      }
    case ObjectOut(id) =>
      WeightOfHead(env.doc, [sel]);
      ExecuteSetIsHonest(env, id, sel.selSet, val, path, calls);
    case _ =>
  }

  lemma {:induction false} ItemsOfListAreHonest(env: Env, of: OutType, sel: Selection, vals: seq<GoValue>, i: nat, path: Path, calls: nat)
    requires Acyclic(env.doc) && sel.Field? && i <= |vals|
    ensures var r := CompleteItems(env, of, sel, vals, i, path, calls);
            Honest(path, r.errs, r.bubbled) && (r.bubbled ==> r.out == NullOut)
    decreases Size(env, sel), 0, of, 1, |vals| - i
  {
    if i < |vals| {
      var first := Complete(env, of, sel, vals[i], path + [Index(i)], calls);
      CompleteIsHonest(env, of, sel, vals[i], path + [Index(i)], calls);
      HonestBelow(path, Index(i), first.errs, first.bubbled);
      if !(first.bubbled && (of.NonNullOut? || env.rule == Abandon)) {
        ItemsOfListAreHonest(env, of, sel, vals, i + 1, path, first.calls);
      }
    }
  }

  /** A field bubbles only if its own type is non-null. */
  lemma {:induction false} ExecuteFieldIsHonest(env: Env, id: nat, sel: Selection, parent: GoValue, path: Path, calls: nat)
    requires Acyclic(env.doc) && sel.Field?
    ensures var r := ExecuteField(env, id, sel, parent, path, calls);
            Honest(path + [Key(ResponseKey(sel))], r.errs, r.bubbled)
    ensures ExecuteField(env, id, sel, parent, path, calls).bubbled ==>
              sel.name in env.Object(id).fields && env.Object(id).fields[sel.name].typ.NonNullOut?
    decreases Size(env, sel), 1
  {
    var fpath := path + [Key(ResponseKey(sel))];
    var obj := env.Object(id);
    if sel.name != "__typename" && sel.name in obj.fields {
      var def := obj.fields[sel.name];
      var args := CoerceArguments(env.inputs, env.vars, def.args, sel.args);
      if args.Success? {
        var outcome := env.resolve(calls, id, sel.name, parent, args.value);
        if outcome.Value? {
          CompleteIsHonest(env, def.typ, sel, outcome.v, fpath, calls + 1);
        }
      }
    }
  }

  lemma {:induction false} ExecuteItemsAreHonest(env: Env, id: nat, items: seq<Selection>, parent: GoValue, path: Path, calls: nat)
    requires Acyclic(env.doc) && Flat(env.doc, items)
    ensures var r := ExecuteItems(env, id, items, parent, path, calls);
            Honest(path, r.errs, r.bubbled)
    decreases Weight(env.doc, items), 3
  {
    if items != [] {
      WeightOfHead(env.doc, items);
      assert items[0] in items;
      var first := ExecuteItem(env, id, items[0], parent, path, calls);
      if items[0].Field? {
        ExecuteFieldIsHonest(env, id, items[0], parent, path, calls);
        HonestBelow(path, Key(ResponseKey(items[0])), first.errs, first.bubbled);
      }
      ExecuteItemsAreHonest(env, id, items[1..], parent, path, first.calls);
    }
  }

  /** Every bubble reported by a selection set has already recorded an error at or below its path. */
  lemma {:induction false} ExecuteSetIsHonest(env: Env, id: nat, sels: seq<Selection>, parent: GoValue, path: Path, calls: nat)
    requires Acyclic(env.doc)
    ensures var r := ExecuteSet(env, id, sels, parent, path, calls);
            Honest(path, r.errs, r.bubbled) && (r.bubbled <==> r.out == NullOut)
    decreases Weight(env.doc, sels), 4
  {
    var name := env.Object(id).name;
    FlattenIsFlat(env.doc, name, sels);
    FlattenLowersWeight(env.doc, name, sels);
    ExecuteItemsAreHonest(env, id, Flatten(env.doc, name, sels), parent, path, calls);
  }

  // ---- Where a null comes from ----

  /** A null that e reports travels from its place up to path, which is of type t: between the two
      every position is of a non-null type, save the list elements that the code lets through. */
  ghost predicate Travels(env: Env, t: OutType, sel: Selection, path: Path, e: GqlError)
    requires Acyclic(env.doc)
    decreases if |path| <= |e.path| then |e.path| - |path| else 0, 1, t
  {
    && path <= e.path
    && match t
       case NonNullOut(of) => e == GqlError(NullViolation(t), path) || Travels(env, of, sel, path, e)
       case ListOut(of) =>
         && |path| < |e.path| && e.path[|path|].Index?
         && (of.NonNullOut? || env.rule == Abandon)
         && Travels(env, of, sel, path + [e.path[|path|]], e)
       case ObjectOut(id) =>
         sel.Field? && exists item :: item in Flatten(env.doc, env.Object(id).name, sel.selSet) && FieldTravels(env, id, item, path, e)
       case _ => false
  }

  /** It travels out of the field item, whose type is non-null, to its object at path. */
  ghost predicate FieldTravels(env: Env, id: nat, item: Selection, path: Path, e: GqlError)
    requires Acyclic(env.doc)
    decreases if |path| <= |e.path| then |e.path| - |path| else 0, 0
  {
    && item.Field? && item.name != "__typename" && item.name in env.Object(id).fields
    && var t, fpath := env.Object(id).fields[item.name].typ, path + [Key(ResponseKey(item))];
       t.NonNullOut? && fpath <= e.path && ((e.kind.ResolverFailed? && e.path == fpath) || Travels(env, t, item, fpath, e))
  }

  /** A null that travels upward was reported, at a place it can have travelled from. */
  lemma {:induction false} BubbleIsReported(env: Env, t: OutType, sel: Selection, val: GoValue, path: Path, calls: nat) returns (e: GqlError)
    requires Acyclic(env.doc) && sel.Field? && Complete(env, t, sel, val, path, calls).bubbled
    ensures e in Complete(env, t, sel, val, path, calls).errs && Travels(env, t, sel, path, e)
    decreases Size(env, sel), 0, t, 0, 0
  {
    match t
    case NonNullOut(of) =>
      if Complete(env, of, sel, val, path, calls).bubbled {
        e := BubbleIsReported(env, of, sel, val, path, calls);
      } else {
        e := GqlError(NullViolation(t), path);
      }
    case ListOut(of) =>
      e := ListBubbleIsReported(env, of, sel, val.elems, 0, path, calls);
    case ObjectOut(id) =>
      WeightOfHead(env.doc, [sel]);
      var item;
      e, item := SetBubbleIsReported(env, id, sel.selSet, val, path, calls);
      assert item in Flatten(env.doc, env.Object(id).name, sel.selSet) && FieldTravels(env, id, item, path, e);
      assert path <= path + [Key(ResponseKey(item))];
  }

  lemma {:induction false} ListBubbleIsReported(env: Env, of: OutType, sel: Selection, vals: seq<GoValue>, i: nat, path: Path, calls: nat) returns (e: GqlError)
    requires Acyclic(env.doc) && sel.Field? && i <= |vals| && CompleteItems(env, of, sel, vals, i, path, calls).bubbled
    ensures e in CompleteItems(env, of, sel, vals, i, path, calls).errs && Travels(env, ListOut(of), sel, path, e)
    decreases Size(env, sel), 0, of, 1, |vals| - i
  {
    var here := path + [Index(i)];
    var first := Complete(env, of, sel, vals[i], here, calls);
    if first.bubbled && (of.NonNullOut? || env.rule == Abandon) {
      e := BubbleIsReported(env, of, sel, vals[i], here, calls);
      assert e.path[|path|] == here[|path|] && path <= here <= e.path;
    } else {
      e := ListBubbleIsReported(env, of, sel, vals, i + 1, path, first.calls);
    }
  }

  lemma {:induction false} FieldBubbleIsReported(env: Env, id: nat, sel: Selection, parent: GoValue, path: Path, calls: nat) returns (e: GqlError)
    requires Acyclic(env.doc) && sel.Field? && ExecuteField(env, id, sel, parent, path, calls).bubbled
    ensures e in ExecuteField(env, id, sel, parent, path, calls).errs && FieldTravels(env, id, sel, path, e)
    decreases Size(env, sel), 1
  {
    var fpath := path + [Key(ResponseKey(sel))];
    var def := env.Object(id).fields[sel.name];
    var args := CoerceArguments(env.inputs, env.vars, def.args, sel.args).value;
    match env.resolve(calls, id, sel.name, parent, args)
    case Error(m) => e := GqlError(ResolverFailed(m), fpath);
    case Value(v) => e := BubbleIsReported(env, def.typ, sel, v, fpath, calls + 1);
  }

  lemma {:induction false} ItemBubbleIsReported(env: Env, id: nat, items: seq<Selection>, parent: GoValue, path: Path, calls: nat)
    returns (e: GqlError, item: Selection)
    requires Acyclic(env.doc) && Flat(env.doc, items) && ExecuteItems(env, id, items, parent, path, calls).bubbled
    ensures e in ExecuteItems(env, id, items, parent, path, calls).errs && item in items && FieldTravels(env, id, item, path, e)
    decreases Weight(env.doc, items), 3
  {
    WeightOfHead(env.doc, items);
    assert items[0] in items;
    var first := ExecuteItem(env, id, items[0], parent, path, calls);
    if first.bubbled {
      item := items[0];
      e := FieldBubbleIsReported(env, id, item, parent, path, calls);
    } else {
      e, item := ItemBubbleIsReported(env, id, items[1..], parent, path, first.calls);
    }
  }

  lemma {:induction false} SetBubbleIsReported(env: Env, id: nat, sels: seq<Selection>, parent: GoValue, path: Path, calls: nat)
    returns (e: GqlError, item: Selection)
    requires Acyclic(env.doc) && ExecuteSet(env, id, sels, parent, path, calls).bubbled
    ensures e in ExecuteSet(env, id, sels, parent, path, calls).errs
    ensures item in Flatten(env.doc, env.Object(id).name, sels) && FieldTravels(env, id, item, path, e)
    decreases Weight(env.doc, sels), 4
  {
    var name := env.Object(id).name;
    FlattenIsFlat(env.doc, name, sels);
    FlattenLowersWeight(env.doc, name, sels);
    e, item := ItemBubbleIsReported(env, id, Flatten(env.doc, name, sels), parent, path, calls);
  }

  // ---- The data ----

  /** What explains data: the errors reported, and the resolver calls from the first to before the last. */
  datatype Evidence = Evidence(errs: seq<GqlError>, first: nat, last: nat)

  ghost predicate Extends(ev: Evidence, more: Evidence) {
    (forall e | e in ev.errs :: e in more.errs) && more.first <= ev.first && ev.last <= more.last
  }

  /** out is what the resolved value val comes to at type t. It is null only for a nil value, a
      value that is no list, or, at a nullable position below, a null that could travel no further:
      never under a non-null layer. Each object holds exactly the response keys of its flattened
      selections. */
  ghost predicate Explained(env: Env, t: OutType, sel: Selection, val: GoValue, out: Out, path: Path, ev: Evidence)
    requires Acyclic(env.doc)
    decreases out, 1, t
  {
    match t
    case NonNullOut(of) => out != NullOut && Explained(env, of, sel, val, out, path, ev)
    case ListOut(of) =>
      if val == Nil then out == NullOut
      else if !val.Slice? then out == NullOut && GqlError(NotAList, path) in ev.errs
      else out.ListData? && ListExplained(env, of, sel, val.elems, out.elems, 0, path, ev)
    case ObjectOut(id) =>
      if val == Nil then out == NullOut
      else sel.Field? && out.ObjectData? && ObjectExplained(env, id, Flatten(env.doc, env.Object(id).name, sel.selSet), val, out, path, ev)
    case ScalarOut(name) => out == SerializeLeaf(name, val)
    case _ => out == SerializeLeaf("", val)
  }

  /** The position is nullable, and the null of an error stopped here: it is the nearest position
      up from the error's own where a null may stand. */
  ghost predicate NullStopped(env: Env, t: OutType, sel: Selection, out: Out, path: Path, ev: Evidence)
    requires Acyclic(env.doc)
  {
    out == NullOut && !t.NonNullOut? && exists e :: e in ev.errs && Travels(env, t, sel, path, e)
  }

  ghost predicate ListExplained(env: Env, of: OutType, sel: Selection, vals: seq<GoValue>, elems: seq<Out>, i: nat, path: Path, ev: Evidence)
    requires Acyclic(env.doc)
    decreases elems, 1, of
  {
    && |vals| == |elems|
    && (elems != [] ==>
          && (Explained(env, of, sel, vals[0], elems[0], path + [Index(i)], ev)
              || (env.rule == Keep && NullStopped(env, of, sel, elems[0], path + [Index(i)], ev)))
          && ListExplained(env, of, sel, vals[1..], elems[1..], i + 1, path, ev))
  }

  /** The value under a response key is that of the last selection with the key. */
  ghost predicate ObjectExplained(env: Env, id: nat, items: seq<Selection>, parent: GoValue, out: Out, path: Path, ev: Evidence)
    requires Acyclic(env.doc) && out.ObjectData?
    decreases out, 0
  {
    && HasKeysOf(items, out.entries)
    && (forall i | 0 <= i < |items| && Last(items, i) && ResponseKey(items[i]) in out.entries ::
          EntryExplained(env, id, items[i], parent, out.entries[ResponseKey(items[i])], path, ev))
  }

  ghost predicate HasKeysOf(items: seq<Selection>, entries: map<string, Out>) {
    && (forall i | 0 <= i < |items| :: ResponseKey(items[i]) in entries)
    && (forall k | k in entries :: exists i :: 0 <= i < |items| && ResponseKey(items[i]) == k)
  }

  ghost predicate Last(items: seq<Selection>, i: nat)
    requires i < |items|
  {
    forall j | i < j < |items| :: ResponseKey(items[j]) != ResponseKey(items[i])
  }

  /** A field whose arguments are refused is a plain null, even at a non-null type; any other field
      holds what its resolver's outcome comes to. */
  ghost predicate EntryExplained(env: Env, id: nat, item: Selection, parent: GoValue, out: Out, path: Path, ev: Evidence)
    requires Acyclic(env.doc)
    decreases out, 3
  {
    match item
    case InlineFragment(_, _) => false
    case FragmentSpread(name) => out == NullOut && GqlError(UnknownFragment(name), path) in ev.errs
    case Field(_, name, _, _) =>
      var fpath := path + [Key(ResponseKey(item))];
      var obj := env.Object(id);
      if name == "__typename" then out == TypeName(obj.name)
      else if name !in obj.fields then out == NullOut && GqlError(UnknownField(name), fpath) in ev.errs
      else
        var args := CoerceArguments(env.inputs, env.vars, obj.fields[name].args, item.args);
        if args.Failure? then out == NullOut && GqlError(BadArguments, fpath) in ev.errs
        else exists k: nat :: ev.first <= k < ev.last && OutcomeExplained(env, obj.fields[name].typ, item, env.resolve(k, id, name, parent, args.value), out, fpath, ev)
  }

  ghost predicate OutcomeExplained(env: Env, t: OutType, item: Selection, outcome: ExecutionSpec.Outcome, out: Out, path: Path, ev: Evidence)
    requires Acyclic(env.doc)
    decreases out, 2
  {
    match outcome
    case Error(m) => out == NullOut && !t.NonNullOut? && GqlError(ResolverFailed(m), path) in ev.errs
    case Value(v) => Explained(env, t, item, v, out, path, ev) || NullStopped(env, t, item, out, path, ev)
  }

  lemma {:induction false} MoreEvidenceExplains(env: Env, t: OutType, sel: Selection, val: GoValue, out: Out, path: Path, ev: Evidence, more: Evidence)
    requires Acyclic(env.doc)
    requires Explained(env, t, sel, val, out, path, ev) && Extends(ev, more)
    ensures Explained(env, t, sel, val, out, path, more)
    decreases out, 1, t
  {
    match t
    case NonNullOut(of) => MoreEvidenceExplains(env, of, sel, val, out, path, ev, more);
    case ListOut(of) =>
      if out.ListData? {
        MoreEvidenceExplainsList(env, of, sel, val.elems, out.elems, 0, path, ev, more);
      }
    case ObjectOut(id) =>
      if out.ObjectData? {
        MoreEvidenceExplainsObject(env, id, Flatten(env.doc, env.Object(id).name, sel.selSet), val, out, path, ev, more);
      }
    case _ =>
  }

  lemma {:induction false} MoreEvidenceExplainsList(env: Env, of: OutType, sel: Selection, vals: seq<GoValue>, elems: seq<Out>, i: nat, path: Path, ev: Evidence, more: Evidence)
    requires Acyclic(env.doc)
    requires ListExplained(env, of, sel, vals, elems, i, path, ev) && Extends(ev, more)
    ensures ListExplained(env, of, sel, vals, elems, i, path, more)
    decreases elems, 1, of
  {
    if elems != [] {
      if Explained(env, of, sel, vals[0], elems[0], path + [Index(i)], ev) {
        MoreEvidenceExplains(env, of, sel, vals[0], elems[0], path + [Index(i)], ev, more);
      }
      MoreEvidenceExplainsList(env, of, sel, vals[1..], elems[1..], i + 1, path, ev, more);
    }
  }

  lemma {:induction false} MoreEvidenceExplainsObject(env: Env, id: nat, items: seq<Selection>, parent: GoValue, out: Out, path: Path, ev: Evidence, more: Evidence)
    requires Acyclic(env.doc) && out.ObjectData?
    requires ObjectExplained(env, id, items, parent, out, path, ev) && Extends(ev, more)
    ensures ObjectExplained(env, id, items, parent, out, path, more)
    decreases out, 0
  {
    forall i | 0 <= i < |items| && Last(items, i) && ResponseKey(items[i]) in out.entries
      ensures EntryExplained(env, id, items[i], parent, out.entries[ResponseKey(items[i])], path, more)
    {
      MoreEvidenceExplainsEntry(env, id, items[i], parent, out.entries[ResponseKey(items[i])], path, ev, more);
    }
  }

  lemma {:induction false} MoreEvidenceExplainsEntry(env: Env, id: nat, item: Selection, parent: GoValue, out: Out, path: Path, ev: Evidence, more: Evidence)
    requires Acyclic(env.doc)
    requires EntryExplained(env, id, item, parent, out, path, ev) && Extends(ev, more)
    ensures EntryExplained(env, id, item, parent, out, path, more)
    decreases out, 3
  {
    var obj := env.Object(id);
    if item.Field? && item.name != "__typename" && item.name in obj.fields {
      var fpath, t := path + [Key(ResponseKey(item))], obj.fields[item.name].typ;
      var args := CoerceArguments(env.inputs, env.vars, obj.fields[item.name].args, item.args);
      if args.Success? {
        var k: nat :| ev.first <= k < ev.last && OutcomeExplained(env, t, item, env.resolve(k, id, item.name, parent, args.value), out, fpath, ev);
        MoreEvidenceExplainsOutcome(env, t, item, env.resolve(k, id, item.name, parent, args.value), out, fpath, ev, more);
      }
    }
  }

  lemma {:induction false} MoreEvidenceExplainsOutcome(env: Env, t: OutType, item: Selection, outcome: ExecutionSpec.Outcome, out: Out, path: Path, ev: Evidence, more: Evidence)
    requires Acyclic(env.doc)
    requires OutcomeExplained(env, t, item, outcome, out, path, ev) && Extends(ev, more)
    ensures OutcomeExplained(env, t, item, outcome, out, path, more)
    decreases out, 2
  {
    if outcome.Value? && Explained(env, t, item, outcome.v, out, path, ev) {
      MoreEvidenceExplains(env, t, item, outcome.v, out, path, ev, more);
    }
  }

  lemma {:induction false} CompleteIsExplained(env: Env, t: OutType, sel: Selection, val: GoValue, path: Path, calls: nat)
    requires Acyclic(env.doc) && sel.Field?
    ensures var r := Complete(env, t, sel, val, path, calls);
            !r.bubbled ==> Explained(env, t, sel, val, r.out, path, Evidence(r.errs, calls, r.calls))
    decreases Size(env, sel), 0, t, 0, 0
  {
    match t
    case NonNullOut(of) => CompleteIsExplained(env, of, sel, val, path, calls);
    case ListOut(of) =>
      if val.Slice? {
        ItemsOfListAreExplained(env, of, sel, val.elems, 0, path, calls);
        assert val.elems[0..] == val.elems;
      }
    case ObjectOut(id) =>
      if val != Nil {
        WeightOfHead(env.doc, [sel]);
        ExecuteSetIsExplained(env, id, sel.selSet, val, path, calls);
      }
    case _ =>
  }

  lemma {:induction false} ItemsOfListAreExplained(env: Env, of: OutType, sel: Selection, vals: seq<GoValue>, i: nat, path: Path, calls: nat)
    requires Acyclic(env.doc) && sel.Field? && i <= |vals|
    ensures var r := CompleteItems(env, of, sel, vals, i, path, calls);
            !r.bubbled ==> ListExplained(env, of, sel, vals[i..], r.out.elems, i, path, Evidence(r.errs, calls, r.calls))
    decreases Size(env, sel), 0, of, 1, |vals| - i
  {
    var r := CompleteItems(env, of, sel, vals, i, path, calls);
    if i < |vals| && !r.bubbled {
      var here := path + [Index(i)];
      var first := Complete(env, of, sel, vals[i], here, calls);
      var rest := CompleteItems(env, of, sel, vals, i + 1, path, first.calls);
      ItemsOfListAreExplained(env, of, sel, vals, i + 1, path, first.calls);
      MoreEvidenceExplainsList(env, of, sel, vals[i + 1..], rest.out.elems, i + 1, path, Evidence(rest.errs, first.calls, rest.calls), Evidence(r.errs, calls, r.calls));
      ElementIsExplained(env, of, sel, vals[i], here, calls, Evidence(r.errs, calls, r.calls));
      assert r.out.elems[1..] == rest.out.elems && vals[i..][1..] == vals[i + 1..];
    }
  }

  /** An element that the list goes on after. */
  lemma {:induction false} ElementIsExplained(env: Env, of: OutType, sel: Selection, val: GoValue, here: Path, calls: nat, ev: Evidence)
    requires Acyclic(env.doc) && sel.Field?
    requires var r := Complete(env, of, sel, val, here, calls); Extends(Evidence(r.errs, calls, r.calls), ev)
    ensures var r := Complete(env, of, sel, val, here, calls);
            && (!r.bubbled ==> Explained(env, of, sel, val, r.out, here, ev))
            && (r.bubbled && !of.NonNullOut? ==> NullStopped(env, of, sel, r.out, here, ev))
    decreases Size(env, sel), 0, of, 0, 1
  {
    var r := Complete(env, of, sel, val, here, calls);
    if r.bubbled {
      CompleteIsHonest(env, of, sel, val, here, calls);
      var e := BubbleIsReported(env, of, sel, val, here, calls);
    } else {
      CompleteIsExplained(env, of, sel, val, here, calls);
      MoreEvidenceExplains(env, of, sel, val, r.out, here, Evidence(r.errs, calls, r.calls), ev);
    }
  }

  lemma {:induction false} ExecuteItemIsExplained(env: Env, id: nat, item: Selection, parent: GoValue, path: Path, calls: nat)
    requires Acyclic(env.doc) && !item.InlineFragment?
    ensures var r := ExecuteItem(env, id, item, parent, path, calls);
            !r.bubbled ==> EntryExplained(env, id, item, parent, r.out, path, Evidence(r.errs, calls, r.calls))
    decreases Size(env, item), 2
  {
    var obj, r := env.Object(id), ExecuteItem(env, id, item, parent, path, calls);
    if item.Field? && item.name != "__typename" && item.name in obj.fields && !r.bubbled {
      var def := obj.fields[item.name];
      var fpath := path + [Key(ResponseKey(item))];
      var args := CoerceArguments(env.inputs, env.vars, def.args, item.args);
      if args.Success? {
        var outcome := env.resolve(calls, id, item.name, parent, args.value);
        assert r == ExecuteField(env, id, item, parent, path, calls);
        if outcome.Value? {
          ElementIsExplained(env, def.typ, item, outcome.v, fpath, calls + 1, Evidence(r.errs, calls, r.calls));
        }
        assert OutcomeExplained(env, def.typ, item, outcome, r.out, fpath, Evidence(r.errs, calls, r.calls));
      }
    }
  }

  lemma {:induction false} ExecuteItemsAreExplained(env: Env, id: nat, items: seq<Selection>, parent: GoValue, path: Path, calls: nat)
    requires Acyclic(env.doc) && Flat(env.doc, items)
    ensures var r := ExecuteItems(env, id, items, parent, path, calls);
            !r.bubbled ==> ObjectExplained(env, id, items, parent, ObjectData(r.entries), path, Evidence(r.errs, calls, r.calls))
    decreases Weight(env.doc, items), 3
  {
    var r := ExecuteItems(env, id, items, parent, path, calls);
    if items != [] && !r.bubbled {
      WeightOfHead(env.doc, items);
      assert items[0] in items;
      var first := ExecuteItem(env, id, items[0], parent, path, calls);
      var rest := ExecuteItems(env, id, items[1..], parent, path, first.calls);
      ExecuteItemIsExplained(env, id, items[0], parent, path, calls);
      ExecuteItemsAreExplained(env, id, items[1..], parent, path, first.calls);
      MoreEvidenceExplainsEntry(env, id, items[0], parent, first.out, path, Evidence(first.errs, calls, first.calls), Evidence(r.errs, calls, r.calls));
      MoreEvidenceExplainsObject(env, id, items[1..], parent, ObjectData(rest.entries), path, Evidence(rest.errs, first.calls, rest.calls), Evidence(r.errs, calls, r.calls));
      ConsExplained(env, id, items, parent, first.out, rest.entries, path, Evidence(r.errs, calls, r.calls));
    }
  }

  lemma ConsHasKeys(items: seq<Selection>, first: Out, rest: map<string, Out>)
    requires items != [] && HasKeysOf(items[1..], rest)
    ensures HasKeysOf(items, map[ResponseKey(items[0]) := first] + rest)
  {
    var tail := items[1..];
    var entries := map[ResponseKey(items[0]) := first] + rest;
    forall i | 0 <= i < |items| ensures ResponseKey(items[i]) in entries {
      if i > 0 {
        assert tail[i - 1] == items[i];
      }
    }
    forall k | k in entries ensures exists i :: 0 <= i < |items| && ResponseKey(items[i]) == k {
      if k in rest {
        var j :| 0 <= j < |tail| && ResponseKey(tail[j]) == k;
        assert items[j + 1] == tail[j];
      }
    }
  }

  /** The last item with a key is the first item only if no later item has the key. */
  lemma LastOfTail(items: seq<Selection>, i: nat, rest: map<string, Out>)
    requires i < |items| && Last(items, i) && HasKeysOf(items[1..], rest)
    ensures i > 0 ==> Last(items[1..], i - 1) && items[1..][i - 1] == items[i] && ResponseKey(items[i]) in rest
    ensures i == 0 ==> ResponseKey(items[0]) !in rest
  {
    var tail := items[1..];
    forall j | 0 <= j < |tail| ensures tail[j] == items[j + 1] {
    }
  }

  lemma ConsExplained(env: Env, id: nat, items: seq<Selection>, parent: GoValue, first: Out, rest: map<string, Out>, path: Path, ev: Evidence)
    requires Acyclic(env.doc) && items != []
    requires EntryExplained(env, id, items[0], parent, first, path, ev)
    requires ObjectExplained(env, id, items[1..], parent, ObjectData(rest), path, ev)
    ensures ObjectExplained(env, id, items, parent, ObjectData(map[ResponseKey(items[0]) := first] + rest), path, ev)
  {
    var entries := map[ResponseKey(items[0]) := first] + rest;
    ConsHasKeys(items, first, rest);
    forall i | 0 <= i < |items| && Last(items, i) && ResponseKey(items[i]) in entries
      ensures EntryExplained(env, id, items[i], parent, entries[ResponseKey(items[i])], path, ev)
    {
      LastOfTail(items, i, rest);
      if i > 0 {
        assert entries[ResponseKey(items[i])] == rest[ResponseKey(items[i])];
      }
    }
  }

  /** The data of a selection set that does not bubble is explained, at every depth. */
  lemma {:induction false} ExecuteSetIsExplained(env: Env, id: nat, sels: seq<Selection>, parent: GoValue, path: Path, calls: nat)
    requires Acyclic(env.doc)
    ensures var r := ExecuteSet(env, id, sels, parent, path, calls);
            !r.bubbled ==> r.out.ObjectData? && ObjectExplained(env, id, Flatten(env.doc, env.Object(id).name, sels), parent, r.out, path, Evidence(r.errs, calls, r.calls))
    decreases Weight(env.doc, sels), 4
  {
    var name := env.Object(id).name;
    FlattenIsFlat(env.doc, name, sels);
    FlattenLowersWeight(env.doc, name, sels);
    ExecuteItemsAreExplained(env, id, Flatten(env.doc, name, sels), parent, path, calls);
  }

  // ---- The cost ----

  lemma {:induction false} FieldCountOfConcat(doc: Document, a: seq<Selection>, b: seq<Selection>)
    requires Acyclic(doc)
    ensures FieldCount(doc, a + b) == FieldCount(doc, a) + FieldCount(doc, b)
  {
    if a == [] {
      assert a + b == b;
    } else {
      FieldCountOfConcat(doc, a[1..], b);
      assert (a + b)[1..] == a[1..] + b;
      HeadAndRest(doc, a);
      HeadAndRest(doc, a + b);
    }
  }

  /** Flattening for one object type never has more fields than the whole expansion. */
  lemma {:induction false} FlattenLowersFieldCount(doc: Document, typeName: string, sels: seq<Selection>)
    requires Acyclic(doc)
    ensures FieldCount(doc, Flatten(doc, typeName, sels)) <= FieldCount(doc, sels)
    decreases Height(doc, sels), sels
  {
    if sels != [] {
      WalkLowersHeight(doc, sels);
      FlattenLowersFieldCount(doc, typeName, sels[1..]);
      FlattenHead(doc, typeName, sels);
      FieldCountOfConcat(doc, Flatten(doc, typeName, [sels[0]]), Flatten(doc, typeName, sels[1..]));
      HeadAndRest(doc, sels);
      HeadAlone(doc, sels[0]);
      assert [sels[0]][1..] == [] && [sels[0]][0] == sels[0];
      assert Flatten(doc, typeName, []) == [];
      match sels[0]
      case Field(_, _, _, _) =>
        assert Flatten(doc, typeName, [sels[0]]) == [sels[0]];
      case InlineFragment(typeOn, inner) =>
        FlattenLowersFieldCount(doc, typeName, inner);
        assert Flatten(doc, typeName, [sels[0]]) == if typeOn == "" || typeOn == typeName then Flatten(doc, typeName, inner) else [];
      case FragmentSpread(name) =>
        if name != "" && name in doc.fragments {
          var frag := doc.fragments[name];
          FlattenLowersFieldCount(doc, typeName, frag.selSet);
          assert Flatten(doc, typeName, [sels[0]]) == if frag.typeOn == "" || frag.typeOn == typeName then Flatten(doc, typeName, frag.selSet) else [];
        }
    }
  }

  /** No resolver returns a list. */
  ghost predicate ListFree(env: Env) {
    forall n, id, name, parent, args ::
      env.resolve(n, id, name, parent, args).Value? ==> !env.resolve(n, id, name, parent, args).v.Slice?
  }

  lemma {:induction false} CompleteCost(env: Env, t: OutType, sel: Selection, val: GoValue, path: Path, calls: nat)
    requires Acyclic(env.doc) && sel.Field? && ListFree(env) && !val.Slice?
    ensures calls <= Complete(env, t, sel, val, path, calls).calls <= calls + FieldCount(env.doc, sel.selSet)
    decreases Size(env, sel), 0, t
  {
    match t
    case NonNullOut(of) => CompleteCost(env, of, sel, val, path, calls);
    case ObjectOut(id) =>
      WeightOfHead(env.doc, [sel]);
      ExecuteSetCost(env, id, sel.selSet, val, path, calls);
    case _ =>
  }

  lemma {:induction false} ExecuteItemCost(env: Env, id: nat, item: Selection, parent: GoValue, path: Path, calls: nat)
    requires Acyclic(env.doc) && !item.InlineFragment? && ListFree(env)
    ensures calls <= ExecuteItem(env, id, item, parent, path, calls).calls <= calls + FieldCount(env.doc, [item])
    decreases Size(env, item), 2
  {
    HeadAlone(env.doc, item);
    var obj := env.Object(id);
    if item.Field? && item.name != "__typename" && item.name in obj.fields {
      var def := obj.fields[item.name];
      var args := CoerceArguments(env.inputs, env.vars, def.args, item.args);
      if args.Success? {
        var outcome := env.resolve(calls, id, item.name, parent, args.value);
        if outcome.Value? {
          CompleteCost(env, def.typ, item, outcome.v, path + [Key(ResponseKey(item))], calls + 1);
        }
      }
    }
  }

  lemma {:induction false} ExecuteItemsCost(env: Env, id: nat, items: seq<Selection>, parent: GoValue, path: Path, calls: nat)
    requires Acyclic(env.doc) && Flat(env.doc, items) && ListFree(env)
    ensures calls <= ExecuteItems(env, id, items, parent, path, calls).calls <= calls + FieldCount(env.doc, items)
    decreases Weight(env.doc, items), 3
  {
    if items != [] {
      WeightOfHead(env.doc, items);
      assert items[0] in items;
      HeadAndRest(env.doc, items);
      ExecuteItemCost(env, id, items[0], parent, path, calls);
      ExecuteItemsCost(env, id, items[1..], parent, path, ExecuteItem(env, id, items[0], parent, path, calls).calls);
    }
  }

  /** On list-free results an execution makes at most as many resolver calls as the expansion
      has fields, which is what the node budget bounds. */
  lemma {:induction false} ExecuteSetCost(env: Env, id: nat, sels: seq<Selection>, parent: GoValue, path: Path, calls: nat)
    requires Acyclic(env.doc) && ListFree(env)
    ensures calls <= ExecuteSet(env, id, sels, parent, path, calls).calls <= calls + FieldCount(env.doc, sels)
    decreases Weight(env.doc, sels), 4
  {
    var name := env.Object(id).name;
    FlattenIsFlat(env.doc, name, sels);
    FlattenLowersWeight(env.doc, name, sels);
    FlattenLowersFieldCount(env.doc, name, sels);
    ExecuteItemsCost(env, id, Flatten(env.doc, name, sels), parent, path, calls);
  }
}
