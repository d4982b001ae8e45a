/** The parsed GraphQL document (graphql/parser.go) and the spread graph of its fragments. */
module GraphqlAst {
  import opened Prelude
  import opened Digraph

  /** A literal as parsed: coercion against the schema happens later. */
  datatype Value =
    | NullValue
    | IntValue(text: string)
    | FloatValue(text: string)
    | StringValue(text: string)
    | BoolValue(b: bool)
    | EnumValue(name: string)
    | VariableValue(name: string)
    | ListValue(items: seq<Value>)
    | ObjectValue(fields: map<string, Value>)

  datatype TypeRef =
    | NamedRef(name: string, nonNull: bool)
    | ListRef(inner: TypeRef, nonNull: bool)

  /** An empty alias or an empty type condition means that there is none. */
  datatype Selection =
    | Field(alias: string, name: string, args: map<string, Value>, selSet: seq<Selection>)
    | InlineFragment(typeOn: string, selSet: seq<Selection>)
    | FragmentSpread(fragment: string)

  datatype OperationKind = Query | Mutation

  datatype VariableDef = VariableDef(name: string, typ: TypeRef, defaultVal: Value)

  datatype Operation =
    Operation(kind: OperationKind, name: string, variables: seq<VariableDef>, selSet: seq<Selection>)

  datatype FragmentDef = FragmentDef(name: string, typeOn: string, selSet: seq<Selection>)

  datatype Document = Document(operations: seq<Operation>, fragments: map<string, FragmentDef>)

  /** The fragments named by the spreads of a selection set, at any nesting inside fields and
      inline fragments, in document order. A spread with an empty name is no spread. */
  function SpreadNames(sels: seq<Selection>): seq<string> {
    if sels == [] then [] else SpreadNamesOf(sels[0]) + SpreadNames(sels[1..])
  }

  function SpreadNamesOf(sel: Selection): seq<string> {
    match sel
    case Field(_, _, _, selSet) => SpreadNames(selSet)
    case InlineFragment(_, selSet) => SpreadNames(selSet)
    case FragmentSpread(name) => if name == "" then [] else [name]
  }

  function SpreadGraph(doc: Document): Graph {
    map name | name in doc.fragments :: SpreadNames(doc.fragments[name].selSet)
  }

  /** No chain of spreads leads from a fragment back to itself (GraphQL, section 5.5.2.2). */
  ghost predicate Acyclic(doc: Document) {
    !Cyclic(SpreadGraph(doc))
  }

  /** One more than the highest rank among the defined fragments spread in sels, or 0. */
  ghost function Height(doc: Document, sels: seq<Selection>): nat {
    NamesHeight(SpreadGraph(doc), SpreadNames(sels))
  }

  ghost function NamesHeight(g: Graph, names: seq<string>): nat {
    if names == [] then 0
    else Max(if names[0] in g then Rank(g, names[0]) + 1 else 0, NamesHeight(g, names[1..]))
  }

  lemma {:induction false} NamesHeightBounds(g: Graph, names: seq<string>, name: string)
    requires name in names && name in g
    ensures Rank(g, name) < NamesHeight(g, names)
  {
    if names[0] != name {
      NamesHeightBounds(g, names[1..], name);
    }
  }

  lemma {:induction false} NamesHeightLeast(g: Graph, names: seq<string>, bound: nat)
    requires forall name | name in names && name in g :: Rank(g, name) < bound
    ensures NamesHeight(g, names) <= bound
  {
    if names != [] {
      NamesHeightLeast(g, names[1..], bound);
    }
  }

  /** A selection set nested in or following sels spreads no more than sels does. */
  lemma SubsetLowersHeight(doc: Document, sels: seq<Selection>, inner: seq<Selection>)
    requires forall n | n in SpreadNames(inner) :: n in SpreadNames(sels)
    ensures Height(doc, inner) <= Height(doc, sels)
  {
    var g := SpreadGraph(doc);
    forall n | n in SpreadNames(inner) && n in g ensures Rank(g, n) < Height(doc, sels) {
      NamesHeightBounds(g, SpreadNames(sels), n);
    }
    NamesHeightLeast(g, SpreadNames(inner), Height(doc, sels));
  }

  /** The three ways a walk over a selection set goes on, and what each does to the height. */
  lemma WalkLowersHeight(doc: Document, sels: seq<Selection>)
    requires sels != []
    ensures Height(doc, sels[1..]) <= Height(doc, sels)
    ensures !sels[0].FragmentSpread? ==> Height(doc, sels[0].selSet) <= Height(doc, sels)
    ensures sels[0].FragmentSpread? && sels[0].fragment != "" && sels[0].fragment in doc.fragments && Acyclic(doc) ==>
              && Rank(SpreadGraph(doc), sels[0].fragment) < Height(doc, sels)
              && Height(doc, doc.fragments[sels[0].fragment].selSet) <= Rank(SpreadGraph(doc), sels[0].fragment)
  {
    SubsetLowersHeight(doc, sels, sels[1..]);
    match sels[0]
    case Field(_, _, _, inner) =>
      SubsetLowersHeight(doc, sels, inner);
    case InlineFragment(_, inner) =>
      SubsetLowersHeight(doc, sels, inner);
    case FragmentSpread(name) =>
      if name != "" && name in doc.fragments && Acyclic(doc) {
        assert name in SpreadNames(sels);
        FragmentHeightBelowRank(doc, name);
        NamesHeightBounds(SpreadGraph(doc), SpreadNames(sels), name);
      }
  }

  lemma FragmentHeightBelowRank(doc: Document, name: string)
    requires Acyclic(doc) && name in doc.fragments
    ensures Height(doc, doc.fragments[name].selSet) <= Rank(SpreadGraph(doc), name)
  {
    var g := SpreadGraph(doc);
    var inner := SpreadNames(doc.fragments[name].selSet);
    forall n | n in inner && n in g ensures Rank(g, n) < Rank(g, name) {
      assert Edge(g, name, n);
      EdgeLowersRank(g, name, n);
    }
    NamesHeightLeast(g, inner, Rank(g, name));
  }

  /** The size of the expanded selection set: strictly larger than every part of it, so it
      measures any walk that goes down into fields and expands fragments in place. */
  ghost function Weight(doc: Document, sels: seq<Selection>): nat
    requires Acyclic(doc)
    decreases Height(doc, sels), sels
  {
    if sels == [] then 0
    else
      WalkLowersHeight(doc, sels);
      1 + (match sels[0]
           case Field(_, _, _, inner) => Weight(doc, inner)
           case InlineFragment(_, inner) => Weight(doc, inner)
           case FragmentSpread(name) =>
             if name != "" && name in doc.fragments then Weight(doc, doc.fragments[name].selSet) else 0)
      + Weight(doc, sels[1..])
  }

  /** The fields, and the spreads of undefined fragments, that a selection set holds for an
      object of the named type once the applicable fragments are flattened into it. */
  function Flatten(doc: Document, typeName: string, sels: seq<Selection>): seq<Selection>
    requires Acyclic(doc)
    decreases Height(doc, sels), sels
  {
    if sels == [] then []
    else
      WalkLowersHeight(doc, sels);
      (match sels[0]
       case Field(_, _, _, _) => [sels[0]]
       case InlineFragment(typeOn, inner) =>
         if typeOn == "" || typeOn == typeName then Flatten(doc, typeName, inner) else []
       case FragmentSpread(name) =>
         if name == "" then []
         else if name !in doc.fragments then [sels[0]]
         else if doc.fragments[name].typeOn == "" || doc.fragments[name].typeOn == typeName then
           Flatten(doc, typeName, doc.fragments[name].selSet)
         else [])
      + Flatten(doc, typeName, sels[1..])
  }

  /** A flattened set holds only fields and spreads of undefined fragments. */
  ghost predicate Flat(doc: Document, items: seq<Selection>) {
    forall item | item in items ::
      item.Field? || (item.FragmentSpread? && item.fragment != "" && item.fragment !in doc.fragments)
  }

  lemma {:induction false} FlattenIsFlat(doc: Document, typeName: string, sels: seq<Selection>)
    requires Acyclic(doc)
    ensures Flat(doc, Flatten(doc, typeName, sels))
    decreases Height(doc, sels), sels
  {
    if sels != [] {
      WalkLowersHeight(doc, sels);
      FlattenIsFlat(doc, typeName, sels[1..]);
      match sels[0]
      case Field(_, _, _, _) =>
      case InlineFragment(_, inner) => FlattenIsFlat(doc, typeName, inner);
      case FragmentSpread(name) =>
        if name != "" && name in doc.fragments {
          FlattenIsFlat(doc, typeName, doc.fragments[name].selSet);
        }
    }
  }

  lemma {:induction false} WeightOfConcat(doc: Document, a: seq<Selection>, b: seq<Selection>)
    requires Acyclic(doc)
    ensures Weight(doc, a + b) == Weight(doc, a) + Weight(doc, b)
  {
    if a == [] {
      assert a + b == b;
    } else {
      WeightOfConcat(doc, a[1..], b);
      assert (a + b)[1..] == a[1..] + b;
    }
  }

  lemma {:induction false} FlattenLowersWeight(doc: Document, typeName: string, sels: seq<Selection>)
    requires Acyclic(doc)
    ensures Weight(doc, Flatten(doc, typeName, sels)) <= Weight(doc, sels)
    decreases Height(doc, sels), sels
  {
    if sels != [] {
      WalkLowersHeight(doc, sels);
      FlattenLowersWeight(doc, typeName, sels[1..]);
      var tail := Flatten(doc, typeName, sels[1..]);
      match sels[0]
      case Field(_, _, _, inner) =>
        WeightOfConcat(doc, [sels[0]], tail);
        assert [sels[0]][1..] == [];
      case InlineFragment(_, inner) =>
        FlattenLowersWeight(doc, typeName, inner);
        WeightOfConcat(doc, Flatten(doc, typeName, inner), tail);
        assert [] + tail == tail;
      case FragmentSpread(name) =>
        assert [sels[0]][1..] == [];
        WeightOfConcat(doc, [sels[0]], tail);
        assert [] + tail == tail;
        if name != "" && name in doc.fragments {
          FlattenLowersWeight(doc, typeName, doc.fragments[name].selSet);
          WeightOfConcat(doc, Flatten(doc, typeName, doc.fragments[name].selSet), tail);
        }
    }
  }

  lemma WeightOfHead(doc: Document, sels: seq<Selection>)
    requires Acyclic(doc) && sels != []
    ensures Weight(doc, sels) == Weight(doc, [sels[0]]) + Weight(doc, sels[1..])
    ensures Weight(doc, [sels[0]]) >= 1
    ensures !sels[0].FragmentSpread? ==> Weight(doc, sels[0].selSet) < Weight(doc, [sels[0]])
    ensures sels[0].FragmentSpread? && sels[0].fragment != "" && sels[0].fragment in doc.fragments ==>
              Weight(doc, doc.fragments[sels[0].fragment].selSet) < Weight(doc, [sels[0]])
  {
    assert sels == [sels[0]] + sels[1..];
    WeightOfConcat(doc, [sels[0]], sels[1..]);
    assert [sels[0]][1..] == [];
  }

  lemma FlattenHead(doc: Document, typeName: string, sels: seq<Selection>)
    requires Acyclic(doc) && sels != []
    ensures Flatten(doc, typeName, sels) == Flatten(doc, typeName, [sels[0]]) + Flatten(doc, typeName, sels[1..])
  {
    assert [sels[0]][1..] == [] && [sels[0]][0] == sels[0];
    assert Flatten(doc, typeName, []) == [];
  }
}
