/** What executing a selection set means (graphql/execute.go), stated without any mutable flag:
    every result carries the errors it adds and whether its null must travel upward. There are two
    rules for lists, the code's and that of section 6.4.4 of the GraphQL specification; all else is
    the code's, the plain null of unknown and refused fields included. */
module ExecutionSpec {
  import opened Prelude
  import opened GraphqlAst
  import opened Coercion

  datatype OutType =
    | NonNullOut(of: OutType)
    | ListOut(of: OutType)
    | ObjectOut(id: nat)      // objects are told apart by identity, as pointers are
    | EnumOut(name: string)
    | ScalarOut(name: string)
    | OtherOut(name: string)

  datatype FieldDef = FieldDef(typ: OutType, args: ArgDefs)

  datatype ObjectDef = ObjectDef(name: string, fields: map<string, FieldDef>)

  datatype Outcome = Value(v: GoValue) | Error(message: string)

  /** Resolvers are user code: the outcome may depend on the position of the call in the run. */
  type Resolver = (nat, nat, string, GoValue, map<string, GoValue>) -> Outcome

  /** What a null that travels upward out of a list element of a nullable type does: the code
      abandons the list and lets it travel on, section 6.4.4 of the GraphQL specification keeps it
      where it is. */
  datatype ListRule = Abandon | Keep

  datatype Env = Env(objects: map<nat, ObjectDef>, inputs: InputSchema, vars: Variables, doc: Document, resolve: Resolver, rule: ListRule) {
    function Object(id: nat): ObjectDef {
      ObjectIn(objects, id)
    }
  }

  function ObjectIn(objects: map<nat, ObjectDef>, id: nat): ObjectDef {
    if id in objects then objects[id] else ObjectDef("", map[])
  }

  /** Response data. Leaves keep the resolved value under the scalar it is serialised as. */
  datatype Out = NullOut | Leaf(scalar: string, v: GoValue) | TypeName(name: string) | ListData(elems: seq<Out>) | ObjectData(entries: map<string, Out>)

  datatype PathElem = Key(k: string) | Index(i: nat)

  type Path = seq<PathElem>

  datatype ErrorKind =
    | UnknownFragment(name: string)
    | UnknownField(name: string)
    | BadArguments
    | ResolverFailed(message: string)
    | NotAList
    | NullViolation(t: OutType)

  datatype GqlError = GqlError(kind: ErrorKind, path: Path)

  /** A completed position: its data, the errors it adds, whether it bubbles, and the number of
      resolver calls made so far in the run. */
  datatype Completed = Completed(out: Out, errs: seq<GqlError>, bubbled: bool, calls: nat)

  /** The fields of one object under construction. */
  datatype Collected = Collected(entries: map<string, Out>, errs: seq<GqlError>, bubbled: bool, calls: nat)

  function ResponseKey(sel: Selection): string {
    match sel
    case Field(alias, name, _, _) => if alias != "" then alias else name
    case InlineFragment(_, _) => ""
    case FragmentSpread(name) => name
  }

  function SerializeLeaf(scalar: string, val: GoValue): Out {
    if val == Nil then NullOut else Leaf(scalar, val)
  }

  ghost function Size(env: Env, sel: Selection): nat
    requires Acyclic(env.doc)
  {
    Weight(env.doc, [sel])
  }

  function Complete(env: Env, t: OutType, sel: Selection, val: GoValue, path: Path, calls: nat): (c: Completed)
    requires Acyclic(env.doc) && sel.Field?
    ensures calls <= c.calls
    decreases Size(env, sel), 0, t, 0, 0
  {
    match t
    case NonNullOut(of) =>
      var r := Complete(env, of, sel, val, path, calls);
      if r.bubbled then Completed(NullOut, r.errs, true, r.calls)
      else if r.out == NullOut then Completed(NullOut, r.errs + [GqlError(NullViolation(t), path)], true, r.calls)
      else r
    case ListOut(of) =>
      if val == Nil then Completed(NullOut, [], false, calls)
      else if !val.Slice? then Completed(NullOut, [GqlError(NotAList, path)], false, calls)
      else CompleteItems(env, of, sel, val.elems, 0, path, calls)
    case ObjectOut(id) =>
      if val == Nil then Completed(NullOut, [], false, calls)
      else
        WeightOfHead(env.doc, [sel]);
        ExecuteSet(env, id, sel.selSet, val, path, calls)
    case EnumOut(_) => Completed(SerializeLeaf("", val), [], false, calls)
    case ScalarOut(name) => Completed(SerializeLeaf(name, val), [], false, calls)
    case OtherOut(_) => Completed(SerializeLeaf("", val), [], false, calls)
  }

  /** The list elements from index i on. An element whose null travels on abandons the rest. */
  function CompleteItems(env: Env, of: OutType, sel: Selection, vals: seq<GoValue>, i: nat, path: Path, calls: nat): (c: Completed)
    requires Acyclic(env.doc) && sel.Field? && i <= |vals|
    ensures !c.bubbled ==> c.out.ListData? && |c.out.elems| == |vals| - i
    ensures calls <= c.calls
    decreases Size(env, sel), 0, of, 1, |vals| - i
  {
    if i == |vals| then Completed(ListData([]), [], false, calls)
    else
      var first := Complete(env, of, sel, vals[i], path + [Index(i)], calls);
      if first.bubbled && (of.NonNullOut? || env.rule == Abandon) then Completed(NullOut, first.errs, true, first.calls)
      else
        var rest := CompleteItems(env, of, sel, vals, i + 1, path, first.calls);
        if rest.bubbled then Completed(NullOut, first.errs + rest.errs, true, rest.calls)
        else Completed(ListData([first.out] + rest.out.elems), first.errs + rest.errs, false, rest.calls)
  }

  /** One field. It bubbles exactly when its own type is non-null and it failed to resolve or to
      complete; bad arguments and unknown fields give a plain null. */
  function ExecuteField(env: Env, id: nat, sel: Selection, parent: GoValue, path: Path, calls: nat): (c: Completed)
    requires Acyclic(env.doc) && sel.Field?
    ensures calls <= c.calls
    decreases Size(env, sel), 1
  {
    var fpath := path + [Key(ResponseKey(sel))];
    var obj := env.Object(id);
    if sel.name == "__typename" then Completed(TypeName(obj.name), [], false, calls)
    else if sel.name !in obj.fields then Completed(NullOut, [GqlError(UnknownField(sel.name), fpath)], false, calls)
    else
      var def := obj.fields[sel.name];
      match CoerceArguments(env.inputs, env.vars, def.args, sel.args)
      case Failure(_) => Completed(NullOut, [GqlError(BadArguments, fpath)], false, calls)
      case Success(args) =>
        match env.resolve(calls, id, sel.name, parent, args)
        case Error(m) => Completed(NullOut, [GqlError(ResolverFailed(m), fpath)], def.typ.NonNullOut?, calls + 1)
        case Value(v) =>
          var r := Complete(env, def.typ, sel, v, fpath, calls + 1);
          if r.bubbled then Completed(NullOut, r.errs, def.typ.NonNullOut?, r.calls) else r
  }

  function ExecuteItem(env: Env, id: nat, item: Selection, parent: GoValue, path: Path, calls: nat): (c: Completed)
    requires Acyclic(env.doc) && !item.InlineFragment?
    ensures calls <= c.calls
    decreases Size(env, item), 2
  {
    match item
    case Field(_, _, _, _) => ExecuteField(env, id, item, parent, path, calls)
    case FragmentSpread(name) => Completed(NullOut, [GqlError(UnknownFragment(name), path)], false, calls)
  }

  /** The items of a flattened selection set in order; a later item wins a shared response key,
      and any bubbling item makes the whole object bubble. */
  function ExecuteItems(env: Env, id: nat, items: seq<Selection>, parent: GoValue, path: Path, calls: nat): (c: Collected)
    requires Acyclic(env.doc) && Flat(env.doc, items)
    ensures calls <= c.calls
    decreases Weight(env.doc, items), 3
  {
    if items == [] then Collected(map[], [], false, calls)
    else
      WeightOfHead(env.doc, items);
      var first := ExecuteItem(env, id, items[0], parent, path, calls);
      var rest := ExecuteItems(env, id, items[1..], parent, path, first.calls);
      Collected(map[ResponseKey(items[0]) := first.out] + rest.entries, first.errs + rest.errs, first.bubbled || rest.bubbled, rest.calls)
  }

  function ExecuteSet(env: Env, id: nat, sels: seq<Selection>, parent: GoValue, path: Path, calls: nat): (c: Completed)
    requires Acyclic(env.doc)
    ensures calls <= c.calls
    decreases Weight(env.doc, sels), 4
  {
    var name := env.Object(id).name;
    FlattenIsFlat(env.doc, name, sels);
    FlattenLowersWeight(env.doc, name, sels);
    var r := ExecuteItems(env, id, Flatten(env.doc, name, sels), parent, path, calls);
    if r.bubbled then Completed(NullOut, r.errs, true, r.calls) else Completed(ObjectData(r.entries), r.errs, false, r.calls)
  }
}
