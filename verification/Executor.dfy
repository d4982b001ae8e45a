/** The executor (graphql/execute.go): one walk that appends to an error list and scopes a
    bubble flag to each selection set, proved to compute the flag-free meaning. */
module Executor {
  import opened Prelude
  import opened GraphqlAst
  import opened Coercion
  import opened ExecutionSpec

  /** What collecting items a and then items b amounts to. */
  function Then(a: Collected, b: Collected): Collected {
    Collected(a.entries + b.entries, a.errs + b.errs, a.bubbled || b.bubbled, b.calls)
  }

  lemma ThenIsAssociative(a: Collected, b: Collected, c: Collected)
    ensures Then(a, Then(b, c)) == Then(Then(a, b), c)
  {
    assert a.entries + (b.entries + c.entries) == a.entries + b.entries + c.entries;
    assert a.errs + (b.errs + c.errs) == a.errs + b.errs + c.errs;
  }

  function Nothing(calls: nat): Collected {
    Collected(map[], [], false, calls)
  }

  lemma ThenNothing(a: Collected)
    ensures Then(a, Nothing(a.calls)) == a
    ensures forall calls :: Then(Nothing(calls), a) == a
  {
    assert a.entries + map[] == a.entries && map[] + a.entries == a.entries;
    assert a.errs + [] == a.errs && [] + a.errs == a.errs;
  }

  /** One item as a collection of its own. */
  function Single(env: Env, id: nat, item: Selection, parent: GoValue, path: Path, calls: nat): Collected
    requires Acyclic(env.doc) && !item.InlineFragment?
  {
    var r := ExecuteItem(env, id, item, parent, path, calls);
    Collected(map[ResponseKey(item) := r.out], r.errs, r.bubbled, r.calls)
  }

  lemma ItemsHead(env: Env, id: nat, items: seq<Selection>, parent: GoValue, path: Path, calls: nat)
    requires Acyclic(env.doc) && items != [] && Flat(env.doc, items)
    ensures items[0] in items && Flat(env.doc, items[1..])
    ensures var first := Single(env, id, items[0], parent, path, calls);
            ExecuteItems(env, id, items, parent, path, calls) == Then(first, ExecuteItems(env, id, items[1..], parent, path, first.calls))
  {
  }

  lemma {:induction false} ItemsOfConcat(env: Env, id: nat, a: seq<Selection>, b: seq<Selection>, parent: GoValue, path: Path, calls: nat)
    requires Acyclic(env.doc) && Flat(env.doc, a) && Flat(env.doc, b)
    ensures Flat(env.doc, a + b)
    ensures var first := ExecuteItems(env, id, a, parent, path, calls);
            ExecuteItems(env, id, a + b, parent, path, calls) == Then(first, ExecuteItems(env, id, b, parent, path, first.calls))
    decreases |a|
  {
    if a == [] {
      assert a + b == b;
      ThenNothing(ExecuteItems(env, id, b, parent, path, calls));
    } else {
      ItemsHead(env, id, a, parent, path, calls);
      ItemsHead(env, id, a + b, parent, path, calls);
      assert (a + b)[1..] == a[1..] + b && (a + b)[0] == a[0];
      var head := Single(env, id, a[0], parent, path, calls);
      ItemsOfConcat(env, id, a[1..], b, parent, path, head.calls);
      var mid := ExecuteItems(env, id, a[1..], parent, path, head.calls);
      ThenIsAssociative(head, mid, ExecuteItems(env, id, b, parent, path, mid.calls));
    }
  }

  /** The meaning of collecting a selection set into an object. */
  function CollectSet(env: Env, id: nat, sels: seq<Selection>, parent: GoValue, path: Path, calls: nat): Collected
    requires Acyclic(env.doc)
  {
    FlattenIsFlat(env.doc, env.Object(id).name, sels);
    ExecuteItems(env, id, Flatten(env.doc, env.Object(id).name, sels), parent, path, calls)
  }

  lemma CollectHead(env: Env, id: nat, sels: seq<Selection>, parent: GoValue, path: Path, calls: nat)
    requires Acyclic(env.doc) && sels != []
    ensures var first := CollectSet(env, id, [sels[0]], parent, path, calls);
            CollectSet(env, id, sels, parent, path, calls) == Then(first, CollectSet(env, id, sels[1..], parent, path, first.calls))
  {
    var name := env.Object(id).name;
    FlattenIsFlat(env.doc, name, [sels[0]]);
    FlattenIsFlat(env.doc, name, sels[1..]);
    FlattenHead(env.doc, name, sels);
    ItemsOfConcat(env, id, Flatten(env.doc, name, [sels[0]]), Flatten(env.doc, name, sels[1..]), parent, path, calls);
  }

  /** One round of the loop over a selection set: what is collected so far, acc, and what is still
      to come add up to the same total. */
  lemma CollectNext(env: Env, id: nat, sels: seq<Selection>, i: nat, parent: GoValue, path: Path, acc: Collected, total: Collected)
    requires Acyclic(env.doc) && i < |sels|
    requires Then(acc, CollectSet(env, id, sels[i..], parent, path, acc.calls)) == total
    ensures var acc' := Then(acc, CollectSet(env, id, [sels[i]], parent, path, acc.calls));
            Then(acc', CollectSet(env, id, sels[i + 1..], parent, path, acc'.calls)) == total
  {
    assert sels[i..][0] == sels[i] && sels[i..][1..] == sels[i + 1..];
    CollectHead(env, id, sels[i..], parent, path, acc.calls);
    var first := CollectSet(env, id, [sels[i]], parent, path, acc.calls);
    ThenIsAssociative(acc, first, CollectSet(env, id, sels[i + 1..], parent, path, first.calls));
  }

  lemma CollectFirst(env: Env, id: nat, sels: seq<Selection>, parent: GoValue, path: Path, start: Collected)
    requires Acyclic(env.doc)
    ensures Then(start, CollectSet(env, id, sels[0..], parent, path, start.calls)) == Then(start, CollectSet(env, id, sels, parent, path, start.calls))
  {
    assert sels[0..] == sels;
  }

  lemma CollectLast(env: Env, id: nat, sels: seq<Selection>, parent: GoValue, path: Path, acc: Collected)
    requires Acyclic(env.doc)
    ensures Then(acc, CollectSet(env, id, sels[|sels|..], parent, path, acc.calls)) == acc
  {
    assert sels[|sels|..] == [];
    assert CollectSet(env, id, [], parent, path, acc.calls) == Nothing(acc.calls);
    ThenNothing(acc);
  }

  lemma WeightOfRest(doc: Document, sels: seq<Selection>, i: nat)
    requires Acyclic(doc) && i < |sels|
    ensures Weight(doc, [sels[i]]) <= Weight(doc, sels[i..])
    ensures Weight(doc, sels[i + 1..]) <= Weight(doc, sels[i..])
  {
    assert sels[i..][0] == sels[i] && sels[i..][1..] == sels[i + 1..];
    WeightOfHead(doc, sels[i..]);
  }

  lemma ItemsOfOne(env: Env, id: nat, item: Selection, parent: GoValue, path: Path, calls: nat)
    requires Acyclic(env.doc) && Flat(env.doc, [item])
    ensures item in [item]
    ensures ExecuteItems(env, id, [item], parent, path, calls) == Single(env, id, item, parent, path, calls)
  {
    assert item in [item] && [item][1..] == [];
    ItemsHead(env, id, [item], parent, path, calls);
    ThenNothing(Single(env, id, item, parent, path, calls));
  }

  /** What one selection collects, by the way it is written rather than flattened. */
  function CollectSelection(env: Env, id: nat, sel: Selection, parent: GoValue, path: Path, calls: nat): Collected
    requires Acyclic(env.doc)
  {
    match sel
    case Field(_, _, _, _) =>
      var f := ExecuteField(env, id, sel, parent, path, calls);
      Collected(map[ResponseKey(sel) := f.out], f.errs, f.bubbled, f.calls)
    case InlineFragment(typeOn, inner) =>
      if typeOn == "" || typeOn == env.Object(id).name then CollectSet(env, id, inner, parent, path, calls)
      else Nothing(calls)
    case FragmentSpread(n) =>
      if n == "" then Nothing(calls)
      else if n !in env.doc.fragments then Collected(map[n := NullOut], [GqlError(UnknownFragment(n), path)], false, calls)
      else if env.doc.fragments[n].typeOn == "" || env.doc.fragments[n].typeOn == env.Object(id).name then
        CollectSet(env, id, env.doc.fragments[n].selSet, parent, path, calls)
      else Nothing(calls)
  }

  lemma CollectOneMeans(env: Env, id: nat, sel: Selection, parent: GoValue, path: Path, calls: nat)
    requires Acyclic(env.doc)
    ensures CollectSet(env, id, [sel], parent, path, calls) == CollectSelection(env, id, sel, parent, path, calls)
  {
    assert [sel][1..] == [] && [sel][0] == sel;
    var name := env.Object(id).name;
    FlattenIsFlat(env.doc, name, [sel]);
    assert Flatten(env.doc, name, []) == [];
    match sel
    case Field(_, _, _, _) =>
      assert Flatten(env.doc, name, [sel]) == [sel];
      ItemsOfOne(env, id, sel, parent, path, calls);
    case InlineFragment(typeOn, inner) =>
      if typeOn == "" || typeOn == name {
        assert Flatten(env.doc, name, [sel]) == Flatten(env.doc, name, inner);
      }
    case FragmentSpread(n) =>
      if n != "" && n !in env.doc.fragments {
        assert Flatten(env.doc, name, [sel]) == [sel];
        ItemsOfOne(env, id, sel, parent, path, calls);
      } else if n != "" {
        if env.doc.fragments[n].typeOn == "" || env.doc.fragments[n].typeOn == name {
          assert Flatten(env.doc, name, [sel]) == Flatten(env.doc, name, env.doc.fragments[n].selSet);
        }
      }
  }

  /** The list elements so far, and the errors from start on, with those still to come are the whole. */
  ghost predicate Midway(env: Env, of: OutType, sel: Selection, vals: seq<GoValue>, i: nat, path: Path, calls: nat,
      elems: seq<Out>, errs: seq<GqlError>, start: seq<GqlError>, whole: Completed)
    requires Acyclic(env.doc) && sel.Field?
  {
    && i <= |vals|
    && var rest := CompleteItems(env, of, sel, vals, i, path, calls);
       && rest.bubbled == whole.bubbled && errs + rest.errs == start + whole.errs && rest.calls == whole.calls
       && (!rest.bubbled ==> ListData(elems + rest.out.elems) == whole.out)
  }

  lemma NextElement(env: Env, of: OutType, sel: Selection, vals: seq<GoValue>, i: nat, path: Path, calls: nat,
      elems: seq<Out>, errs: seq<GqlError>, start: seq<GqlError>, whole: Completed)
    requires Acyclic(env.doc) && sel.Field? && env.rule == Abandon
    requires i < |vals| && Midway(env, of, sel, vals, i, path, calls, elems, errs, start, whole)
    ensures var first := Complete(env, of, sel, vals[i], path + [Index(i)], calls);
            if first.bubbled then whole.bubbled && errs + first.errs == start + whole.errs && first.calls == whole.calls
            else Midway(env, of, sel, vals, i + 1, path, first.calls, elems + [first.out], errs + first.errs, start, whole)
  {
    var first := Complete(env, of, sel, vals[i], path + [Index(i)], calls);
    if !first.bubbled {
      var rest := CompleteItems(env, of, sel, vals, i + 1, path, first.calls);
      assert errs + (first.errs + rest.errs) == errs + first.errs + rest.errs;
      if !rest.bubbled {
        assert elems + ([first.out] + rest.out.elems) == elems + [first.out] + rest.out.elems;
      }
    }
  }

  /** The per-request state. calls counts resolver invocations. */
  class Walk {
    const env: Env
    var errs: seq<GqlError>
    var bubble: bool
    var calls: nat

    constructor (env: Env)
      ensures this.env == env && errs == [] && !bubble && calls == 0
    {
      this.env := env;
      errs, bubble, calls := [], false, 0;
    }

    method AddError(path: Path, kind: ErrorKind)
      modifies this`errs
      ensures errs == old(errs) + [GqlError(kind, path)]
    {
      errs := errs + [GqlError(kind, path)];
    }

    /** The flag is saved, cleared, read and restored: the caller's flag is left as it was. */
    method ExecuteSelectionSet(id: nat, sels: seq<Selection>, parent: GoValue, path: Path)
      returns (data: Option<map<string, Out>>, bubbled: bool)
      requires Acyclic(env.doc) && env.rule == Abandon
      modifies this
      ensures var r := ExecuteSet(env, id, sels, parent, path, old(calls));
              && errs == old(errs) + r.errs && calls == r.calls && bubbled == r.bubbled
              && (if bubbled then data == None else data.Some? && r.out == ObjectData(data.value))
      ensures bubble == old(bubble)
      decreases Weight(env.doc, sels), 4
    {
      var saved := bubble;
      bubble := false;
      var out := CollectFields(id, sels, parent, path, map[]);
      bubbled := bubble;
      bubble := saved;
      assert map[] + out == out;
      if bubbled {
        return None, true;
      }
      return Some(out), false;
    }

    /** Adds the fields of sels to the object under construction and raises the flag if one of
        them bubbles. */
    method CollectFields(id: nat, sels: seq<Selection>, parent: GoValue, path: Path, into: map<string, Out>)
      returns (out: map<string, Out>)
      requires Acyclic(env.doc) && env.rule == Abandon
      modifies this
      ensures Collected(out, errs, bubble, calls) ==
              Then(Collected(into, old(errs), old(bubble), old(calls)), CollectSet(env, id, sels, parent, path, old(calls)))
      decreases Weight(env.doc, sels), 3
    {
      out := into;
      var i := 0;
      ghost var start := Collected(into, errs, bubble, calls);
      ghost var total := Then(start, CollectSet(env, id, sels, parent, path, calls));
      CollectFirst(env, id, sels, parent, path, start);
      assert sels[0..] == sels;
      while i < |sels|
        invariant 0 <= i <= |sels|
        invariant Then(Collected(out, errs, bubble, calls), CollectSet(env, id, sels[i..], parent, path, calls)) == total
        invariant Weight(env.doc, sels[i..]) <= Weight(env.doc, sels)
      {
        CollectNext(env, id, sels, i, parent, path, Collected(out, errs, bubble, calls), total);
        CollectOneMeans(env, id, sels[i], parent, path, calls);
        WeightOfRest(env.doc, sels, i);
        out := CollectOne(id, sels[i], parent, path, out);
        i := i + 1;
      }
      CollectLast(env, id, sels, parent, path, Collected(out, errs, bubble, calls));
    }

    /** The loop body of CollectFields. */
    method CollectOne(id: nat, sel: Selection, parent: GoValue, path: Path, into: map<string, Out>)
      returns (out: map<string, Out>)
      requires Acyclic(env.doc) && env.rule == Abandon
      modifies this
      ensures Collected(out, errs, bubble, calls) ==
              Then(Collected(into, old(errs), old(bubble), old(calls)), CollectSelection(env, id, sel, parent, path, old(calls)))
      decreases Weight(env.doc, [sel]), 2
    {
      WeightOfHead(env.doc, [sel]);
      ThenNothing(Collected(into, errs, bubble, calls));
      out := into;
      match sel {
        case Field(_, _, _, _) =>
          out := ResolveField(id, sel, parent, path, into);
        case InlineFragment(typeOn, inner) =>
          if FragmentApplies(id, typeOn) {
            out := CollectFields(id, inner, parent, path, into);
          }
        case FragmentSpread(name) =>
          out := CollectSpread(id, name, parent, path, into);
      }
    }

    /** The spread case of CollectOne. */
    method CollectSpread(id: nat, name: string, parent: GoValue, path: Path, into: map<string, Out>)
      returns (out: map<string, Out>)
      requires Acyclic(env.doc) && env.rule == Abandon
      modifies this
      ensures Collected(out, errs, bubble, calls) ==
              Then(Collected(into, old(errs), old(bubble), old(calls)), CollectSelection(env, id, FragmentSpread(name), parent, path, old(calls)))
      decreases Weight(env.doc, [FragmentSpread(name)]), 1
    {
      WeightOfHead(env.doc, [FragmentSpread(name)]);
      ThenNothing(Collected(into, errs, bubble, calls));
      out := into;
      if name == "" {
        return;
      }
      if name !in env.doc.fragments {
        out := out[name := NullOut];
        AddError(path, UnknownFragment(name));
        return;
      }
      if FragmentApplies(id, env.doc.fragments[name].typeOn) {
        out := CollectFields(id, env.doc.fragments[name].selSet, parent, path, into);
      }
    }

    predicate FragmentApplies(id: nat, typeOn: string) {
      typeOn == "" || typeOn == env.Object(id).name
    }

    /** Writes one field under its response key. */
    method ResolveField(id: nat, sel: Selection, parent: GoValue, path: Path, into: map<string, Out>)
      returns (out: map<string, Out>)
      requires Acyclic(env.doc) && env.rule == Abandon && sel.Field?
      modifies this
      ensures var r := ExecuteField(env, id, sel, parent, path, old(calls));
              && out == into[ResponseKey(sel) := r.out] && errs == old(errs) + r.errs
              && bubble == (old(bubble) || r.bubbled) && calls == r.calls
      decreases Weight(env.doc, [sel]), 1
    {
      var key := sel.name;
      if sel.alias != "" {
        key := sel.alias;
      }
      var fpath := path + [Key(key)];
      var obj := env.Object(id);
      if sel.name == "__typename" {
        return into[key := TypeName(obj.name)];
      }
      if sel.name !in obj.fields {
        AddError(fpath, UnknownField(sel.name));
        return into[key := NullOut];
      }
      var def := obj.fields[sel.name];
      var args := CoerceArguments(env.inputs, env.vars, def.args, sel.args);
      if args.Failure? {
        AddError(fpath, BadArguments);
        return into[key := NullOut];
      }
      var outcome := env.resolve(calls, id, sel.name, parent, args.value);
      calls := calls + 1;
      match outcome {
        case Error(m) =>
          AddError(fpath, ResolverFailed(m));
          if def.typ.NonNullOut? {
            bubble := true;
          }
          return into[key := NullOut];
        case Value(v) =>
          var res, bubbled := CompleteValue(def.typ, sel, v, fpath);
          if bubbled {
            if def.typ.NonNullOut? {
              bubble := true;
            }
            return into[key := NullOut];
          }
          return into[key := res];
      }
    }

    /** Completes a resolved value. The flag is not touched: bubbling is the second result. */
    method CompleteValue(t: OutType, sel: Selection, val: GoValue, path: Path) returns (out: Out, bubbled: bool)
      requires Acyclic(env.doc) && env.rule == Abandon && sel.Field?
      modifies this
      ensures var r := Complete(env, t, sel, val, path, old(calls));
              && bubbled == r.bubbled && (!bubbled ==> out == r.out) && (bubbled ==> out == NullOut)
              && errs == old(errs) + r.errs && calls == r.calls
      ensures bubble == old(bubble)
      decreases Weight(env.doc, [sel]), 0, t, 0
    {
      match t {
        case NonNullOut(of) =>
          var res, b := CompleteValue(of, sel, val, path);
          if b {
            return NullOut, true;
          }
          if res == NullOut {
            AddError(path, NullViolation(t));
            return NullOut, true;
          }
          return res, false;
        case ListOut(of) =>
          if val == Nil {
            return NullOut, false;
          }
          if !val.Slice? {
            AddError(path, NotAList);
            return NullOut, false;
          }
          out, bubbled := CompleteList(of, sel, val.elems, path);
        case ObjectOut(id) =>
          if val == Nil {
            return NullOut, false;
          }
          WeightOfHead(env.doc, [sel]);
          var obj, b := ExecuteSelectionSet(id, sel.selSet, val, path);
          if b {
            return NullOut, true;
          }
          return ObjectData(obj.value), false;
        case EnumOut(_) =>
          return SerializeLeaf("", val), false;
        case ScalarOut(name) =>
          if val == Nil {
            return NullOut, false;
          }
          return SerializeLeaf(name, val), false;
        case OtherOut(_) =>
          return SerializeLeaf("", val), false;
      }
    }

    /** The element loop of CompleteValue; it stops at the first element that bubbles. */
    method CompleteList(of: OutType, sel: Selection, vals: seq<GoValue>, path: Path) returns (out: Out, bubbled: bool)
      requires Acyclic(env.doc) && env.rule == Abandon && sel.Field?
      modifies this
      ensures var r := CompleteItems(env, of, sel, vals, 0, path, old(calls));
              && bubbled == r.bubbled && (!bubbled ==> out == r.out) && (bubbled ==> out == NullOut)
              && errs == old(errs) + r.errs && calls == r.calls
      ensures bubble == old(bubble)
      decreases Weight(env.doc, [sel]), 0, of, 1
    {
      var elems: seq<Out> := [];
      var i := 0;
      ghost var whole := CompleteItems(env, of, sel, vals, 0, path, calls);
      while i < |vals|
        invariant Midway(env, of, sel, vals, i, path, calls, elems, errs, old(errs), whole)
        invariant bubble == old(bubble)
      {
        NextElement(env, of, sel, vals, i, path, calls, elems, errs, old(errs), whole);
        var elem, b := CompleteValue(of, sel, vals[i], path + [Index(i)]);
        if b {
          return NullOut, true;
        }
        elems := elems + [elem];
        i := i + 1;
      }
      assert elems + [] == elems;
      return ListData(elems), false;
    }
  }
}
