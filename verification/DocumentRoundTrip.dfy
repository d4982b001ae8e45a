/** Every document, as data, is written by some token sequence that parses back to it. */
module DocumentRoundTrip {
  import opened Prelude
  import opened GraphqlAst
  import opened GraphqlSyntax
  import opened ParserSpec
  import opened ParserCompleteness

  /** An enum member is not one of the three reserved names. */
  predicate ProperValue(v: Value) {
    match v
    case EnumValue(n) => n != "true" && n != "false" && n != "null"
    case ListValue(items) => forall i | 0 <= i < |items| :: ProperValue(items[i])
    case ObjectValue(fields) => forall k | k in fields :: ProperValue(fields[k])
    case _ => true
  }

  predicate WritableSelection(s: Selection) {
    match s
    case Field(_, _, args, selSet) => (forall k | k in args :: ProperValue(args[k])) && WritableSelections(selSet)
    case InlineFragment(_, selSet) => WritableSelections(selSet)
    case FragmentSpread(name) => name != "on"
  }

  predicate WritableSelections(ss: seq<Selection>) {
    ss != [] ==> WritableSelection(ss[0]) && WritableSelections(ss[1..])
  }

  predicate WritableOperation(op: Operation) {
    && (forall i | 0 <= i < |op.variables| :: ProperValue(op.variables[i].defaultVal))
    && WritableSelections(op.selSet)
  }

  predicate WritableOperations(ops: seq<Operation>) {
    ops != [] ==> WritableOperation(ops[0]) && WritableOperations(ops[1..])
  }

  ghost predicate WritableFragments(frags: map<string, FragmentDef>) {
    forall n | n in frags :: n != "on" && frags[n].name == n && WritableSelections(frags[n].selSet)
  }

  /** The documents a parser can be asked to produce: fragments are stored under their own names. */
  ghost predicate Writable(doc: Document) {
    && WritableOperations(doc.operations)
    && WritableFragments(doc.fragments)
  }

  ghost function WriteValue(v: Value): CValue
    decreases v, 0, 0
  {
    match v
    case NullValue => CName("null")
    case IntValue(t) => CInt(t)
    case FloatValue(t) => CFloat(t)
    case StringValue(t) => CString(t)
    case BoolValue(b) => CName(if b then "true" else "false")
    case EnumValue(n) => CName(n)
    case VariableValue(n) => CVariable(n)
    case ListValue(items) => CList(WriteValues(items))
    case ObjectValue(fields) => CObject(WriteEntries(v, fields))
  }

  ghost function WriteValues(vs: seq<Value>): seq<CValue>
    decreases vs, 0, 0
  {
    if vs == [] then [] else [WriteValue(vs[0])] + WriteValues(vs[1..])
  }

  ghost predicate PartOf(m: map<string, Value>, owner: Value) {
    owner.ObjectValue? && forall k | k in m :: k in owner.fields && owner.fields[k] == m[k]
  }

  /** The entries of m, which is part of the object owner, in some order. */
  ghost function WriteEntries(owner: Value, m: map<string, Value>): seq<CEntry>
    requires PartOf(m, owner)
    decreases owner, -1, |m|
  {
    if m == map[] then []
    else
      var k :| k in m;
      [CEntry(k, WriteValue(m[k]))] + WriteEntries(owner, m - {k})
  }

  lemma {:induction false} WrittenValueMeansValue(v: Value)
    requires ProperValue(v)
    ensures MeanValue(WriteValue(v)) == v
    decreases v, 0, 0
  {
    match v
    case ListValue(items) => WrittenValuesMeanValues(items);
    case ObjectValue(fields) => WrittenEntriesMeanEntries(v, fields);
    case _ =>
  }

  lemma {:induction false} WrittenValuesMeanValues(vs: seq<Value>)
    requires forall i | 0 <= i < |vs| :: ProperValue(vs[i])
    ensures MeanValues(WriteValues(vs)) == vs
    decreases vs, 0, 0
  {
    if vs != [] {
      WrittenValueMeansValue(vs[0]);
      WrittenValuesMeanValues(vs[1..]);
      assert WriteValues(vs)[1..] == WriteValues(vs[1..]);
    }
  }

  lemma EntriesHead(owner: Value, m: map<string, Value>) returns (k: string)
    requires PartOf(m, owner) && m != map[]
    ensures k in m
    ensures WriteEntries(owner, m) == [CEntry(k, WriteValue(m[k]))] + WriteEntries(owner, m - {k})
  {
    k := WriteEntries(owner, m)[0].name;
  }

  lemma MeanEntriesHead(e: CEntry, es: seq<CEntry>)
    ensures MeanEntries([e] + es) == map[e.name := MeanValue(e.value)] + MeanEntries(es)
  {
    assert ([e] + es)[1..] == es;
  }

  lemma PutBack<V>(m: map<string, V>, k: string)
    requires k in m
    ensures map[k := m[k]] + (m - {k}) == m
  {
  }

  lemma {:induction false} WrittenEntriesMeanEntries(owner: Value, m: map<string, Value>)
    requires PartOf(m, owner) && ProperValue(owner)
    ensures MeanEntries(WriteEntries(owner, m)) == m
    decreases owner, -1, |m|
  {
    if m != map[] {
      var k := EntriesHead(owner, m);
      WrittenValueMeansValue(m[k]);
      WrittenEntriesMeanEntries(owner, m - {k});
      MeanEntriesHead(CEntry(k, WriteValue(m[k])), WriteEntries(owner, m - {k}));
      PutBack(m, k);
    }
  }

  ghost function WriteOptional(s: string): Option<string> {
    if s == "" then None else Some(s)
  }

  ghost function WriteSelection(s: Selection): CSelection {
    match s
    case Field(alias, name, args, selSet) =>
      CField(WriteOptional(alias), name, Arguments(WriteEntries(ObjectValue(args), args)), Set(WriteSelections(selSet)))
    case InlineFragment(typeOn, selSet) => CInline(WriteOptional(typeOn), BraceL, WriteSelections(selSet))
    case FragmentSpread(name) => CSpread(name)
  }

  ghost function WriteSelections(ss: seq<Selection>): seq<CSelection> {
    if ss == [] then [] else [WriteSelection(ss[0])] + WriteSelections(ss[1..])
  }

  lemma {:induction false} WrittenSelectionMeansSelection(s: Selection)
    requires WritableSelection(s)
    ensures ProperSelection(WriteSelection(s)) && MeanSelection(WriteSelection(s)) == s
  {
    match s
    case Field(alias, name, args, selSet) =>
      WrittenEntriesMeanEntries(ObjectValue(args), args);
      WrittenSelectionsMeanSelections(selSet);
    case InlineFragment(typeOn, selSet) => WrittenSelectionsMeanSelections(selSet);
    case FragmentSpread(name) =>
  }

  lemma {:induction false} WrittenSelectionsMeanSelections(ss: seq<Selection>)
    requires WritableSelections(ss)
    ensures ProperSelections(WriteSelections(ss)) && MeanSelections(WriteSelections(ss)) == ss
  {
    if ss != [] {
      WrittenSelectionMeansSelection(ss[0]);
      WrittenSelectionsMeanSelections(ss[1..]);
      assert WriteSelections(ss)[1..] == WriteSelections(ss[1..]);
    }
  }

  ghost function WriteVariables(ds: seq<VariableDef>): seq<CVariableDef> {
    if ds == [] then [] else [CVariableDef(ds[0].name, ds[0].typ, Some(WriteValue(ds[0].defaultVal)))] + WriteVariables(ds[1..])
  }

  lemma {:induction false} WrittenVariablesMeanVariables(ds: seq<VariableDef>)
    requires forall i | 0 <= i < |ds| :: ProperValue(ds[i].defaultVal)
    ensures MeanVariableDefs(WriteVariables(ds)) == ds
  {
    if ds != [] {
      WrittenValueMeansValue(ds[0].defaultVal);
      WrittenVariablesMeanVariables(ds[1..]);
      assert WriteVariables(ds)[1..] == WriteVariables(ds[1..]);
    }
  }

  ghost function WriteOperation(op: Operation): CDefinition {
    COperation(op.kind, WriteOptional(op.name), Some(WriteVariables(op.variables)), WriteSelections(op.selSet))
  }

  ghost function WriteOperations(ops: seq<Operation>): seq<CDefinition> {
    if ops == [] then []
    else [WriteOperation(ops[0])] + WriteOperations(ops[1..])
  }

  ghost function WriteFragment(f: FragmentDef): CDefinition {
    CFragment(f.name, f.typeOn, WriteSelections(f.selSet))
  }

  ghost function WriteFragments(frags: map<string, FragmentDef>): seq<CDefinition>
    decreases |frags|
  {
    if frags == map[] then []
    else
      var n :| n in frags;
      [WriteFragment(frags[n])] + WriteFragments(frags - {n})
  }

  lemma FragmentsHead(frags: map<string, FragmentDef>) returns (n: string)
    requires frags != map[] && WritableFragments(frags)
    ensures n in frags && WritableFragments(frags - {n})
    ensures WriteFragments(frags) == [WriteFragment(frags[n])] + WriteFragments(frags - {n})
  {
    n := WriteFragments(frags)[0].name;
  }

  lemma DefinitionsHead(doc: Document, d: CDefinition, ds: seq<CDefinition>)
    ensures AddDefinitions(doc, [d] + ds) == AddDefinitions(AddDefinition(doc, d), ds)
    ensures ProperDefinitions([d] + ds) <==> ProperDefinition(d) && ProperDefinitions(ds)
  {
    assert ([d] + ds)[1..] == ds;
  }

  lemma FragmentAdded(doc: Document, f: FragmentDef)
    requires f.name != "on" && WritableSelections(f.selSet)
    ensures ProperDefinition(WriteFragment(f))
    ensures AddDefinition(doc, WriteFragment(f)) == doc.(fragments := doc.fragments[f.name := f])
  {
    WrittenSelectionsMeanSelections(f.selSet);
  }

  lemma AddThenRest<V>(m: map<string, V>, n: map<string, V>, k: string)
    requires k in n
    ensures m[k := n[k]] + (n - {k}) == m + n
  {
  }

  lemma {:induction false} WrittenFragmentsMeanFragments(doc: Document, frags: map<string, FragmentDef>)
    requires WritableFragments(frags)
    ensures ProperDefinitions(WriteFragments(frags))
    ensures AddDefinitions(doc, WriteFragments(frags)) == doc.(fragments := doc.fragments + frags)
    decreases |frags|
  {
    if frags == map[] {
      assert doc.fragments + frags == doc.fragments;
    } else {
      var n := FragmentsHead(frags);
      FragmentAdded(doc, frags[n]);
      WrittenFragmentsMeanFragments(doc.(fragments := doc.fragments[n := frags[n]]), frags - {n});
      DefinitionsHead(doc, WriteFragment(frags[n]), WriteFragments(frags - {n}));
      AddThenRest(doc.fragments, frags, n);
    }
  }

  lemma OperationAdded(doc: Document, op: Operation)
    requires WritableOperation(op)
    ensures ProperDefinition(WriteOperation(op))
    ensures AddDefinition(doc, WriteOperation(op)) == doc.(operations := doc.operations + [op])
  {
    WrittenVariablesMeanVariables(op.variables);
    WrittenSelectionsMeanSelections(op.selSet);
  }

  lemma OperationsHead(ops: seq<Operation>, tail: seq<CDefinition>)
    requires ops != []
    ensures WriteOperations(ops) + tail == [WriteOperation(ops[0])] + (WriteOperations(ops[1..]) + tail)
  {
  }

  lemma AppendOperations(doc: Document, ops: seq<Operation>)
    requires ops != []
    ensures var doc' := doc.(operations := doc.operations + [ops[0]]);
            doc'.(operations := doc'.operations + ops[1..]) == doc.(operations := doc.operations + ops)
  {
    assert doc.operations + [ops[0]] + ops[1..] == doc.operations + ops;
  }

  lemma {:induction false} WrittenOperationsMeanOperations(doc: Document, ops: seq<Operation>, tail: seq<CDefinition>)
    requires WritableOperations(ops) && ProperDefinitions(tail)
    ensures ProperDefinitions(WriteOperations(ops) + tail)
    ensures AddDefinitions(doc, WriteOperations(ops) + tail) == AddDefinitions(doc.(operations := doc.operations + ops), tail)
    decreases |ops|
  {
    if ops == [] {
      assert WriteOperations(ops) + tail == tail && doc.operations + ops == doc.operations;
    } else {
      OperationAdded(doc, ops[0]);
      OperationsHead(ops, tail);
      DefinitionsHead(doc, WriteOperation(ops[0]), WriteOperations(ops[1..]) + tail);
      WrittenOperationsMeanOperations(AddDefinition(doc, WriteOperation(ops[0])), ops[1..], tail);
      AppendOperations(doc, ops);
    }
  }

  /** Some token sequence parses to doc: nothing that the data model can express is out of reach
      of the parser, and none of it is lost on the way. */
  lemma EveryDocumentIsParsed(doc: Document) returns (src: seq<Token>, ds: seq<CDefinition>)
    requires Writable(doc)
    ensures ParseDefinitions(Input(src, Eof)) == Success((ds, Input([], Eof))) && Mean(ds) == doc
  {
    ds := WriteOperations(doc.operations) + WriteFragments(doc.fragments);
    src := Render(ds);
    WrittenDocument(doc);
    ParsesExactlyRenderings(src, ds);
  }

  lemma WrittenDocument(doc: Document)
    requires Writable(doc)
    ensures var ds := WriteOperations(doc.operations) + WriteFragments(doc.fragments);
            ProperDefinitions(ds) && Mean(ds) == doc
  {
    assert EMPTY.operations + doc.operations == doc.operations;
    assert map[] + doc.fragments == doc.fragments;
    WrittenFragmentsMeanFragments(EMPTY.(operations := doc.operations), doc.fragments);
    WrittenOperationsMeanOperations(EMPTY, doc.operations, WriteFragments(doc.fragments));
  }
}
