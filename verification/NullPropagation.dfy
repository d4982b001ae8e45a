/** Where the executor's nulls end up, against section 6.4.4 of the GraphQL specification: the plain
    null of a refused field, and the list that is abandoned for one of its elements
    (graphql/execute.go, resolveField and completeValue). */
module NullPropagation {
  import opened Prelude
  import opened Digraph
  import opened GraphqlAst
  import opened Coercion
  import opened ExecutionSpec
  import opened ExecutionProperties

  // ---- Refused fields ----

  /** The field does not get to its resolver. */
  predicate Refused(env: Env, id: nat, item: Selection)
    requires item.Field?
  {
    item.name !in env.Object(id).fields ||
    CoerceArguments(env.inputs, env.vars, env.Object(id).fields[item.name].args, item.args).Failure?
  }

  /** In an object that is not nulled itself, the entry of a field whose type forbids null is null if
      and only if the field was refused: it is unknown, or its arguments do not coerce. */
  lemma NullEntryIffRefused(env: Env, id: nat, sels: seq<Selection>, parent: GoValue, path: Path, calls: nat, i: nat)
    requires Acyclic(env.doc) && !ExecuteSet(env, id, sels, parent, path, calls).bubbled
    requires var items := Flatten(env.doc, env.Object(id).name, sels);
             && i < |items| && Last(items, i) && items[i].Field? && items[i].name != "__typename"
             && (items[i].name in env.Object(id).fields ==> env.Object(id).fields[items[i].name].typ.NonNullOut?)
    ensures var item, r := Flatten(env.doc, env.Object(id).name, sels)[i], ExecuteSet(env, id, sels, parent, path, calls);
            && r.out.ObjectData? && ResponseKey(item) in r.out.entries
            && (r.out.entries[ResponseKey(item)] == NullOut <==> Refused(env, id, item))
  {
    ExecuteSetIsExplained(env, id, sels, parent, path, calls);
    var items, r := Flatten(env.doc, env.Object(id).name, sels), ExecuteSet(env, id, sels, parent, path, calls);
    var item := items[i];
    assert EntryExplained(env, id, item, parent, r.out.entries[ResponseKey(item)], path, Evidence(r.errs, calls, r.calls));
    if !Refused(env, id, item) {
      var def, fpath := env.Object(id).fields[item.name], path + [Key(ResponseKey(item))];
      var args := CoerceArguments(env.inputs, env.vars, def.args, item.args).value;
      var ev := Evidence(r.errs, calls, r.calls);
      var k: nat :| ev.first <= k < ev.last && OutcomeExplained(env, def.typ, item, env.resolve(k, id, item.name, parent, args), r.out.entries[ResponseKey(item)], fpath, ev);
    }
  }

  const NO_FRAGMENTS := Document([], map[])

  lemma NoFragmentsIsAcyclic()
    ensures Acyclic(NO_FRAGMENTS)
  {
    OrderRefutesCycles(SpreadGraph(NO_FRAGMENTS), []);
  }

  lemma ExecuteOne(env: Env, id: nat, sel: Selection, parent: GoValue, path: Path, calls: nat)
    requires env.doc == NO_FRAGMENTS && Acyclic(env.doc) && sel.Field?
    ensures var f, r := ExecuteField(env, id, sel, parent, path, calls), ExecuteSet(env, id, [sel], parent, path, calls);
            && r.errs == f.errs && r.calls == f.calls && r.bubbled == f.bubbled
            && r.out == if f.bubbled then NullOut else ObjectData(map[ResponseKey(sel) := f.out])
  {
    assert [sel][1..] == [] && [sel][0] == sel;
    assert Flatten(env.doc, env.Object(id).name, []) == [];
    assert Flatten(env.doc, env.Object(id).name, [sel]) == [sel];
    assert sel in [sel];
    var f := ExecuteField(env, id, sel, parent, path, calls);
    assert ExecuteItem(env, id, sel, parent, path, calls) == f;
    assert ExecuteItems(env, id, [], parent, path, f.calls) == Collected(map[], [], false, f.calls);
    assert map[ResponseKey(sel) := f.out] + map[] == map[ResponseKey(sel) := f.out];
  }

  /** "{ a }" without the argument that a requires: null at a non-null type, and the object stays. */
  lemma RefusedArgumentsLeaveNull(inputs: InputSchema, vars: Variables, resolve: Resolver, rule: ListRule, parent: GoValue)
    ensures Acyclic(NO_FRAGMENTS)
    ensures var a := FieldDef(NonNullOut(ScalarOut("Int")), map["x" := ArgDef(NonNull(Scalar("Int")), None)]);
            var env := Env(map[0 := ObjectDef("Query", map["a" := a])], inputs, vars, NO_FRAGMENTS, resolve, rule);
            ExecuteSet(env, 0, [Field("", "a", map[], [])], parent, [], 0)
              == Completed(ObjectData(map["a" := NullOut]), [GqlError(BadArguments, [Key("a")])], false, 0)
  {
    NoFragmentsIsAcyclic();
    var a := FieldDef(NonNullOut(ScalarOut("Int")), map["x" := ArgDef(NonNull(Scalar("Int")), None)]);
    var env := Env(map[0 := ObjectDef("Query", map["a" := a])], inputs, vars, NO_FRAGMENTS, resolve, rule);
    assert "x" in a.args && LiteralField(inputs, vars, a.args["x"], "x", ObjectValue(map[])).Refused?;
    assert CoerceArguments(inputs, vars, a.args, map[]).Failure?;
    var sel := Field("", "a", map[], []);
    assert |sel.name| != |"__typename"| && [] + [Key(ResponseKey(sel))] == [Key("a")];
    assert ExecuteField(env, 0, sel, parent, [], 0) == Completed(NullOut, [GqlError(BadArguments, [Key("a")])], false, 0);
    ExecuteOne(env, 0, sel, parent, [], 0);
  }

  /** "{ b }" where there is no b. */
  lemma UnknownFieldLeavesNull(inputs: InputSchema, vars: Variables, resolve: Resolver, rule: ListRule, parent: GoValue)
    ensures Acyclic(NO_FRAGMENTS)
    ensures var env := Env(map[0 := ObjectDef("Query", map[])], inputs, vars, NO_FRAGMENTS, resolve, rule);
            ExecuteSet(env, 0, [Field("", "b", map[], [])], parent, [], 0)
              == Completed(ObjectData(map["b" := NullOut]), [GqlError(UnknownField("b"), [Key("b")])], false, 0)
  {
    NoFragmentsIsAcyclic();
    var env := Env(map[0 := ObjectDef("Query", map[])], inputs, vars, NO_FRAGMENTS, resolve, rule);
    var sel := Field("", "b", map[], []);
    assert |sel.name| != |"__typename"| && [] + [Key(ResponseKey(sel))] == [Key("b")];
    assert ExecuteField(env, 0, sel, parent, [], 0) == Completed(NullOut, [GqlError(UnknownField("b"), [Key("b")])], false, 0);
    ExecuteOne(env, 0, sel, parent, [], 0);
  }

  // ---- Abandoned lists ----

  /** What a request is typed by: the object types, the input types and the variables. */
  datatype Typing = Typing(objects: map<nat, ObjectDef>, inputs: InputSchema, vars: Variables) {
    function In(doc: Document, resolve: Resolver, rule: ListRule): Env {
      Env(objects, inputs, vars, doc, resolve, rule)
    }
  }

  /** Some arguments get the field to its resolver. */
  ghost predicate Callable(ty: Typing, def: FieldDef) {
    exists raw :: CoerceArguments(ty.inputs, ty.vars, def.args, raw).Success?
  }

  /** A field of the object type that can make the object null. */
  ghost predicate Bubbling(ty: Typing, id: nat, name: string) {
    && name != "__typename" && name in ObjectIn(ty.objects, id).fields
    && var def := ObjectIn(ty.objects, id).fields[name]; def.typ.NonNullOut? && Callable(ty, def)
  }

  /** A null can travel upward out of a position of the type. */
  ghost predicate CanBubble(ty: Typing, t: OutType) {
    match t
    case NonNullOut(_) => true
    case ListOut(of) => CanBubble(ty, of)
    case ObjectOut(id) => exists name :: Bubbling(ty, id, name)
    case _ => false
  }

  /** No list inside the type has nullable elements that a null can travel out of. */
  ghost predicate ListsContain(ty: Typing, t: OutType) {
    match t
    case NonNullOut(of) => ListsContain(ty, of)
    case ListOut(of) => (of.NonNullOut? || !CanBubble(ty, of)) && ListsContain(ty, of)
    case _ => true
  }

  /** No list of the schema does. */
  ghost predicate Contained(ty: Typing) {
    forall id: nat, name |
        name != "__typename" && name in ObjectIn(ty.objects, id).fields && Callable(ty, ObjectIn(ty.objects, id).fields[name]) ::
      ListsContain(ty, ObjectIn(ty.objects, id).fields[name].typ)
  }

  /** Executed with either list rule, a selection set gives the same data, errors and resolver calls. */
  ghost predicate SameAnswer(ty: Typing, doc: Document, resolve: Resolver, id: nat, sels: seq<Selection>, parent: GoValue, path: Path, calls: nat) {
    Acyclic(doc) ==>
      ExecuteSet(ty.In(doc, resolve, Abandon), id, sels, parent, path, calls) == ExecuteSet(ty.In(doc, resolve, Keep), id, sels, parent, path, calls)
  }

  lemma {:induction false} ItemsBubbleByField(ty: Typing, env: Env, id: nat, items: seq<Selection>, parent: GoValue, path: Path, calls: nat)
    requires env == ty.In(env.doc, env.resolve, env.rule)
    requires Acyclic(env.doc) && Flat(env.doc, items) && ExecuteItems(env, id, items, parent, path, calls).bubbled
    ensures exists name :: Bubbling(ty, id, name)
    decreases |items|
  {
    WeightOfHead(env.doc, items);
    var item := items[0];
    assert item in items;
    var first := ExecuteItem(env, id, item, parent, path, calls);
    if first.bubbled {
      assert first == ExecuteField(env, id, item, parent, path, calls);
      assert Bubbling(ty, id, item.name);
    } else {
      ItemsBubbleByField(ty, env, id, items[1..], parent, path, first.calls);
    }
  }

  lemma {:induction false} NothingBubbles(ty: Typing, env: Env, t: OutType, sel: Selection, val: GoValue, path: Path, calls: nat)
    requires env == ty.In(env.doc, env.resolve, env.rule)
    requires Acyclic(env.doc) && sel.Field? && !CanBubble(ty, t)
    ensures !Complete(env, t, sel, val, path, calls).bubbled
    decreases t, 0
  {
    match t
    case ListOut(of) =>
      if val.Slice? {
        NoItemBubbles(ty, env, of, sel, val.elems, 0, path, calls);
      }
    case ObjectOut(id) =>
      if Complete(env, t, sel, val, path, calls).bubbled {
        var name := env.Object(id).name;
        FlattenIsFlat(env.doc, name, sel.selSet);
        assert ExecuteSet(env, id, sel.selSet, val, path, calls).bubbled;
        ItemsBubbleByField(ty, env, id, Flatten(env.doc, name, sel.selSet), val, path, calls);
      }
    case _ =>
  }

  lemma {:induction false} NoItemBubbles(ty: Typing, env: Env, of: OutType, sel: Selection, vals: seq<GoValue>, i: nat, path: Path, calls: nat)
    requires env == ty.In(env.doc, env.resolve, env.rule)
    requires Acyclic(env.doc) && sel.Field? && i <= |vals| && !CanBubble(ty, of)
    ensures !CompleteItems(env, of, sel, vals, i, path, calls).bubbled
    decreases of, 1, |vals| - i
  {
    if i < |vals| {
      var first := Complete(env, of, sel, vals[i], path + [Index(i)], calls);
      NothingBubbles(ty, env, of, sel, vals[i], path + [Index(i)], calls);
      NoItemBubbles(ty, env, of, sel, vals, i + 1, path, first.calls);
    }
  }

  lemma {:induction false} CompleteAgrees(ty: Typing, a: Env, k: Env, t: OutType, sel: Selection, val: GoValue, path: Path, calls: nat)
    requires a == ty.In(a.doc, a.resolve, Abandon) && k == a.(rule := Keep) && Contained(ty)
    requires Acyclic(a.doc) && sel.Field? && ListsContain(ty, t)
    ensures Complete(a, t, sel, val, path, calls) == Complete(k, t, sel, val, path, calls)
    decreases Size(a, sel), 0, t, 0, 0
  {
    match t
    case NonNullOut(of) => CompleteAgrees(ty, a, k, of, sel, val, path, calls);
    case ListOut(of) =>
      if val.Slice? {
        ItemsAgree(ty, a, k, of, sel, val.elems, 0, path, calls);
      }
    case ObjectOut(id) =>
      WeightOfHead(a.doc, [sel]);
      SetAgrees(ty, a, k, id, sel.selSet, val, path, calls);
    case _ =>
  }

  lemma {:induction false} ItemsAgree(ty: Typing, a: Env, k: Env, of: OutType, sel: Selection, vals: seq<GoValue>, i: nat, path: Path, calls: nat)
    requires a == ty.In(a.doc, a.resolve, Abandon) && k == a.(rule := Keep) && Contained(ty)
    requires Acyclic(a.doc) && sel.Field? && i <= |vals| && ListsContain(ty, ListOut(of))
    ensures CompleteItems(a, of, sel, vals, i, path, calls) == CompleteItems(k, of, sel, vals, i, path, calls)
    decreases Size(a, sel), 0, of, 1, |vals| - i
  {
    if i < |vals| {
      var first := Complete(a, of, sel, vals[i], path + [Index(i)], calls);
      CompleteAgrees(ty, a, k, of, sel, vals[i], path + [Index(i)], calls);
      ItemsAgree(ty, a, k, of, sel, vals, i + 1, path, first.calls);
      if !of.NonNullOut? {
        NothingBubbles(ty, a, of, sel, vals[i], path + [Index(i)], calls);
      }
    }
  }

  lemma {:induction false} FieldAgrees(ty: Typing, a: Env, k: Env, id: nat, sel: Selection, parent: GoValue, path: Path, calls: nat)
    requires a == ty.In(a.doc, a.resolve, Abandon) && k == a.(rule := Keep) && Contained(ty)
    requires Acyclic(a.doc) && sel.Field?
    ensures ExecuteField(a, id, sel, parent, path, calls) == ExecuteField(k, id, sel, parent, path, calls)
    decreases Size(a, sel), 1
  {
    var obj := a.Object(id);
    if sel.name != "__typename" && sel.name in obj.fields {
      var def := obj.fields[sel.name];
      var args := CoerceArguments(a.inputs, a.vars, def.args, sel.args);
      if args.Success? {
        assert Callable(ty, def);
        var outcome := a.resolve(calls, id, sel.name, parent, args.value);
        if outcome.Value? {
          CompleteAgrees(ty, a, k, def.typ, sel, outcome.v, path + [Key(ResponseKey(sel))], calls + 1);
        }
      }
    }
  }

  lemma {:induction false} ItemAgrees(ty: Typing, a: Env, k: Env, id: nat, item: Selection, parent: GoValue, path: Path, calls: nat)
    requires a == ty.In(a.doc, a.resolve, Abandon) && k == a.(rule := Keep) && Contained(ty)
    requires Acyclic(a.doc) && !item.InlineFragment?
    ensures ExecuteItem(a, id, item, parent, path, calls) == ExecuteItem(k, id, item, parent, path, calls)
    decreases Size(a, item), 2
  {
    if item.Field? {
      FieldAgrees(ty, a, k, id, item, parent, path, calls);
    }
  }

  lemma {:induction false} SelectionsAgree(ty: Typing, a: Env, k: Env, id: nat, items: seq<Selection>, parent: GoValue, path: Path, calls: nat)
    requires a == ty.In(a.doc, a.resolve, Abandon) && k == a.(rule := Keep) && Contained(ty)
    requires Acyclic(a.doc) && Flat(a.doc, items)
    ensures ExecuteItems(a, id, items, parent, path, calls) == ExecuteItems(k, id, items, parent, path, calls)
    decreases Weight(a.doc, items), 3
  {
    if items != [] {
      WeightOfHead(a.doc, items);
      assert items[0] in items;
      ItemAgrees(ty, a, k, id, items[0], parent, path, calls);
      SelectionsAgree(ty, a, k, id, items[1..], parent, path, ExecuteItem(a, id, items[0], parent, path, calls).calls);
    }
  }

  lemma {:induction false} SetAgrees(ty: Typing, a: Env, k: Env, id: nat, sels: seq<Selection>, parent: GoValue, path: Path, calls: nat)
    requires a == ty.In(a.doc, a.resolve, Abandon) && k == a.(rule := Keep) && Contained(ty)
    requires Acyclic(a.doc)
    ensures ExecuteSet(a, id, sels, parent, path, calls) == ExecuteSet(k, id, sels, parent, path, calls)
    decreases Weight(a.doc, sels), 4
  {
    var name := a.Object(id).name;
    FlattenIsFlat(a.doc, name, sels);
    FlattenLowersWeight(a.doc, name, sels);
    SelectionsAgree(ty, a, k, id, Flatten(a.doc, name, sels), parent, path, calls);
  }

  // ---- A list that does not contain its nulls ----

  function Core(t: OutType): OutType {
    match t
    case NonNullOut(of) => Core(of)
    case ListOut(of) => Core(of)
    case _ => t
  }

  /** A value that a null travels out of. */
  function Burst(t: OutType): GoValue {
    match t
    case ListOut(of) => Slice([Burst(of)])
    case NonNullOut(_) => Nil
    case _ => Bool(true)
  }

  /** A value that a list is abandoned for. */
  ghost function Break(ty: Typing, t: OutType): GoValue {
    match t
    case NonNullOut(of) => Break(ty, of)
    case ListOut(of) => Slice([if ListsContain(ty, of) then Burst(of) else Break(ty, of)])
    case _ => Nil
  }

  /** Below it a selection of a field that can make the object null, if there is one. */
  ghost predicate Reaches(ty: Typing, t: OutType, sels: seq<Selection>) {
    Core(t).ObjectOut? && (exists name :: Bubbling(ty, Core(t).id, name)) ==>
      && |sels| == 1 && sels[0].Field? && Bubbling(ty, Core(t).id, sels[0].name)
      && CoerceArguments(ty.inputs, ty.vars, ObjectIn(ty.objects, Core(t).id).fields[sels[0].name].args, sels[0].args).Success?
  }

  lemma ReachingSelection(ty: Typing, t: OutType) returns (sels: seq<Selection>)
    ensures Reaches(ty, t, sels)
  {
    sels := [];
    if Core(t).ObjectOut? && exists name :: Bubbling(ty, Core(t).id, name) {
      var name :| Bubbling(ty, Core(t).id, name);
      var raw :| CoerceArguments(ty.inputs, ty.vars, ObjectIn(ty.objects, Core(t).id).fields[name].args, raw).Success?;
      sels := [Field("", name, raw, [])];
    }
  }

  /** After the first call every resolver fails. */
  ghost predicate FailsLater(env: Env) {
    forall n: nat, id, name, parent, args | n >= 1 :: env.resolve(n, id, name, parent, args).Error?
  }

  lemma NilIsNull(env: Env, t: OutType, sel: Selection, path: Path, calls: nat)
    requires Acyclic(env.doc) && sel.Field?
    ensures var r := Complete(env, t, sel, Nil, path, calls); r.bubbled || r.out == NullOut
  {
  }

  lemma {:induction false} BurstBubbles(ty: Typing, env: Env, t: OutType, sel: Selection, path: Path, calls: nat)
    requires env == ty.In(NO_FRAGMENTS, env.resolve, Abandon) && FailsLater(env)
    requires Acyclic(env.doc) && sel.Field? && CanBubble(ty, t) && Reaches(ty, t, sel.selSet) && calls >= 1
    ensures Complete(env, t, sel, Burst(t), path, calls).bubbled
    decreases t
  {
    match t
    case NonNullOut(of) => NilIsNull(env, of, sel, path, calls);
    case ListOut(of) =>
      BurstBubbles(ty, env, of, sel, path + [Index(0)], calls);
      assert CompleteItems(env, of, sel, [Burst(of)], 0, path, calls).bubbled;
    case ObjectOut(id) =>
      assert Core(t) == t && Core(t).id == id;
      assert |sel.selSet| == 1 && sel.selSet[0].Field? && Bubbling(ty, id, sel.selSet[0].name);
      assert [sel.selSet[0]] == sel.selSet;
      ExecuteOne(env, id, sel.selSet[0], Burst(t), path, calls);
  }

  lemma {:induction false} BreakBreaks(ty: Typing, a: Env, k: Env, t: OutType, sel: Selection, path: Path, calls: nat)
    requires a == ty.In(NO_FRAGMENTS, a.resolve, Abandon) && k == a.(rule := Keep) && FailsLater(a)
    requires Acyclic(a.doc) && sel.Field? && !ListsContain(ty, t) && Reaches(ty, t, sel.selSet) && calls >= 1
    ensures Complete(a, t, sel, Break(ty, t), path, calls).bubbled
    ensures var r := Complete(k, t, sel, Break(ty, t), path, calls); !r.bubbled && r.out.ListData?
    decreases t
  {
    match t
    case NonNullOut(of) =>
      assert Core(t) == Core(of);
      BreakBreaks(ty, a, k, of, sel, path, calls);
    case ListOut(of) =>
      assert Core(t) == Core(of);
      var here := path + [Index(0)];
      if ListsContain(ty, of) {
        BurstBubbles(ty, a, of, sel, here, calls);
      } else {
        BreakBreaks(ty, a, k, of, sel, here, calls);
      }
      var v := if ListsContain(ty, of) then Burst(of) else Break(ty, of);
      OneElement(a, of, sel, v, path, calls);
      OneElement(k, of, sel, v, path, calls);
  }

  lemma OneElement(env: Env, of: OutType, sel: Selection, v: GoValue, path: Path, calls: nat)
    requires Acyclic(env.doc) && sel.Field?
    ensures var first, r := Complete(env, of, sel, v, path + [Index(0)], calls), Complete(env, ListOut(of), sel, Slice([v]), path, calls);
            && r.bubbled == (first.bubbled && (of.NonNullOut? || env.rule == Abandon))
            && (!r.bubbled ==> r.out.ListData?)
  {
    var first := Complete(env, of, sel, [v][0], path + [Index(0)], calls);
    assert CompleteItems(env, of, sel, [v], 1, path, first.calls) == Completed(ListData([]), [], false, first.calls);
    assert Complete(env, ListOut(of), sel, Slice([v]), path, calls) == CompleteItems(env, of, sel, [v], 0, path, calls);
  }

  lemma FirstField(env: Env, id: nat, sel: Selection, v: GoValue)
    requires Acyclic(env.doc) && sel.Field? && sel.name != "__typename" && sel.name in env.Object(id).fields
    requires var args := CoerceArguments(env.inputs, env.vars, env.Object(id).fields[sel.name].args, sel.args);
             args.Success? && env.resolve(0, id, sel.name, Nil, args.value) == Value(v)
    ensures var f, r := ExecuteField(env, id, sel, Nil, [], 0), Complete(env, env.Object(id).fields[sel.name].typ, sel, v, [Key(ResponseKey(sel))], 1);
            f.out == (if r.bubbled then NullOut else r.out) && f.bubbled == (r.bubbled && env.Object(id).fields[sel.name].typ.NonNullOut?)
  {
    assert [] + [Key(ResponseKey(sel))] == [Key(ResponseKey(sel))];
  }

  /** A request on which the code and the list rule of section 6.4.4 part, for any schema with a
      list that does not contain its nulls. */
  lemma AnswersPart(ty: Typing) returns (resolve: Resolver, id: nat, sels: seq<Selection>)
    requires !Contained(ty)
    ensures !SameAnswer(ty, NO_FRAGMENTS, resolve, id, sels, Nil, [], 0)
  {
    NoFragmentsIsAcyclic();
    var name;
    id, name :| name != "__typename" && name in ObjectIn(ty.objects, id).fields && Callable(ty, ObjectIn(ty.objects, id).fields[name])
                && !ListsContain(ty, ObjectIn(ty.objects, id).fields[name].typ);
    var def := ObjectIn(ty.objects, id).fields[name];
    var raw :| CoerceArguments(ty.inputs, ty.vars, def.args, raw).Success?;
    var inner := ReachingSelection(ty, def.typ);
    var sel, broken := Field("", name, raw, inner), Break(ty, def.typ);
    resolve := (n, i, f, p, args) => if n == 0 then Value(broken) else Error("");
    sels := [sel];
    var a, k := ty.In(NO_FRAGMENTS, resolve, Abandon), ty.In(NO_FRAGMENTS, resolve, Keep);
    var here: Path := [Key(ResponseKey(sel))];
    assert [] + here == here;
    BreakBreaks(ty, a, k, def.typ, sel, here, 1);
    FirstField(a, id, sel, broken);
    FirstField(k, id, sel, broken);
    ExecuteOne(a, id, sel, Nil, [], 0);
    ExecuteOne(k, id, sel, Nil, [], 0);
    var abandoned, kept := ExecuteSet(a, id, sels, Nil, [], 0).out, ExecuteSet(k, id, sels, Nil, [], 0).out;
    assert kept.ObjectData? && kept.entries[ResponseKey(sel)].ListData?;
    assert abandoned == NullOut || abandoned.entries[ResponseKey(sel)] == NullOut;
  }

  /** The code answers every request as it would with the list rule of section 6.4.4 if and only if
      no list of the schema has nullable elements that a null can travel out of. */
  lemma RulesAgreeIffContained(ty: Typing)
    ensures Contained(ty) <==>
            forall doc, resolve, id, sels, parent, path, calls :: SameAnswer(ty, doc, resolve, id, sels, parent, path, calls)
  {
    if Contained(ty) {
      forall doc, resolve, id, sels, parent, path, calls ensures SameAnswer(ty, doc, resolve, id, sels, parent, path, calls) {
        if Acyclic(doc) {
          SetAgrees(ty, ty.In(doc, resolve, Abandon), ty.In(doc, resolve, Keep), id, sels, parent, path, calls);
        }
      }
    } else {
      var resolve, id, sels := AnswersPart(ty);
    }
  }

  /** Two elements of type T, the first without its non-null a: "{ xs { a } }" with xs: [T]. */
  function ExampleResolver(): Resolver {
    (n, id, name, parent, args) =>
      if id == 0 then Value(Slice([Int(1), Int(2)])) else if parent == Int(1) then Value(Nil) else Value(Str("v"))
  }

  function ExampleObjects(): map<nat, ObjectDef> {
    map[0 := ObjectDef("Query", map["xs" := FieldDef(ListOut(ObjectOut(1)), map[])]),
        1 := ObjectDef("T", map["a" := FieldDef(NonNullOut(ScalarOut("String")), map[])])]
  }

  lemma NoArguments(inputs: InputSchema, vars: Variables)
    ensures CoerceArguments(inputs, vars, map[], map[]) == Success(map[])
  {
  }

  /** The code nulls the whole list, the list rule of section 6.4.4 only the element. */
  lemma ElementNullsList(inputs: InputSchema, vars: Variables, parent: GoValue)
    ensures Acyclic(NO_FRAGMENTS)
    ensures var ty := Typing(ExampleObjects(), inputs, vars);
            var sels := [Field("", "xs", map[], [Field("", "a", map[], [])])];
            && ExecuteSet(ty.In(NO_FRAGMENTS, ExampleResolver(), Abandon), 0, sels, parent, [], 0).out
                 == ObjectData(map["xs" := NullOut])
            && ExecuteSet(ty.In(NO_FRAGMENTS, ExampleResolver(), Keep), 0, sels, parent, [], 0).out
                 == ObjectData(map["xs" := ListData([NullOut, ObjectData(map["a" := Leaf("String", Str("v"))])])])
  {
    NoFragmentsIsAcyclic();
    var ty := Typing(ExampleObjects(), inputs, vars);
    ExampleList(ty.In(NO_FRAGMENTS, ExampleResolver(), Abandon), parent);
    ExampleList(ty.In(NO_FRAGMENTS, ExampleResolver(), Keep), parent);
  }

  lemma ExampleElement(env: Env, parent: GoValue, path: Path, calls: nat)
    requires env == Typing(ExampleObjects(), env.inputs, env.vars).In(NO_FRAGMENTS, ExampleResolver(), env.rule) && Acyclic(env.doc)
    requires parent != Nil
    ensures var xs := Field("", "xs", map[], [Field("", "a", map[], [])]);
            var r := Complete(env, ObjectOut(1), xs, parent, path, calls);
            && r.bubbled == (parent == Int(1))
            && r.out == if parent == Int(1) then NullOut else ObjectData(map["a" := Leaf("String", Str("v"))])
  {
    var a := Field("", "a", map[], []);
    NoArguments(env.inputs, env.vars);
    assert env.Object(1) == ObjectDef("T", map["a" := FieldDef(NonNullOut(ScalarOut("String")), map[])]);
    assert |a.name| != |"__typename"|;
    ExecuteOne(env, 1, a, parent, path, calls);
    var v := if parent == Int(1) then Nil else Str("v");
    assert env.resolve(calls, 1, "a", parent, map[]) == Value(v);
    var fpath := path + [Key("a")];
    assert Complete(env, ScalarOut("String"), a, v, fpath, calls + 1).out == SerializeLeaf("String", v);
    assert ExecuteField(env, 1, a, parent, path, calls).bubbled == (parent == Int(1));
    assert Complete(env, ObjectOut(1), Field("", "xs", map[], [a]), parent, path, calls) == ExecuteSet(env, 1, [a], parent, path, calls);
  }

  lemma ExampleList(env: Env, parent: GoValue)
    requires env == Typing(ExampleObjects(), env.inputs, env.vars).In(NO_FRAGMENTS, ExampleResolver(), env.rule) && Acyclic(env.doc)
    ensures var xs := Field("", "xs", map[], [Field("", "a", map[], [])]);
            ExecuteSet(env, 0, [xs], parent, [], 0).out
              == ObjectData(map["xs" := if env.rule == Abandon then NullOut
                                        else ListData([NullOut, ObjectData(map["a" := Leaf("String", Str("v"))])])])
  {
    var xs := Field("", "xs", map[], [Field("", "a", map[], [])]);
    NoArguments(env.inputs, env.vars);
    assert env.Object(0) == ObjectDef("Query", map["xs" := FieldDef(ListOut(ObjectOut(1)), map[])]);
    var here: Path := [Key("xs")];
    assert [] + [Key(ResponseKey(xs))] == here;
    var vals := [Int(1), Int(2)];
    var first := Complete(env, ObjectOut(1), xs, vals[0], here + [Index(0)], 1);
    ExampleElement(env, vals[0], here + [Index(0)], 1);
    ExampleElement(env, vals[1], here + [Index(1)], first.calls);
    var second := Complete(env, ObjectOut(1), xs, vals[1], here + [Index(1)], first.calls);
    assert CompleteItems(env, ObjectOut(1), xs, vals, 2, here, second.calls) == Completed(ListData([]), [], false, second.calls);
    assert CompleteItems(env, ObjectOut(1), xs, vals, 1, here, first.calls).out == ListData([second.out]);
    var list := Complete(env, ListOut(ObjectOut(1)), xs, Slice(vals), here, 1);
    assert list == CompleteItems(env, ObjectOut(1), xs, vals, 0, here, 1);
    assert [first.out] + [second.out] == [first.out, second.out];
    assert list.bubbled == (env.rule == Abandon);
    assert env.rule == Keep ==> list.out == ListData([first.out, second.out]);
    assert |xs.name| != |"__typename"| && env.resolve(0, 0, "xs", parent, map[]) == Value(Slice(vals));
    assert ExecuteField(env, 0, xs, parent, [], 0).out == if list.bubbled then NullOut else list.out;
    ExecuteOne(env, 0, xs, parent, [], 0);
  }
}
