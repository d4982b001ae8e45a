/** The concrete syntax of the GraphQL subset (graphql/parser.go): what a token sequence must
    look like, and which document it stands for. */
module GraphqlSyntax {
  import opened Prelude
  import opened GraphqlAst

  datatype Token =
    | Name(text: string)
    | IntToken(text: string)
    | FloatToken(text: string)
    | StringToken(text: string)
    | BraceL | BraceR | ParenL | ParenR | BracketL | BracketR
    | Colon | Dollar | Equals | Bang | Spread

  // ---- Concrete syntax trees: what was written, in the order it was written ----

  datatype CValue =
    | CVariable(name: string)
    | CInt(text: string)
    | CFloat(text: string)
    | CString(text: string)
    | CName(text: string)  // true, false, null or an enum member
    | CList(items: seq<CValue>)
    | CObject(fields: seq<CEntry>)

  datatype CEntry = CEntry(name: string, value: CValue)

  /** An argument list or a selection set may be absent, which differs from being empty. */
  datatype CArguments = NoArguments | Arguments(entries: seq<CEntry>)

  datatype CSet = NoSet | Set(sels: seq<CSelection>)

  datatype CSelection =
    | CField(alias: Option<string>, name: string, args: CArguments, selSet: CSet)
    | CInline(typeOn: Option<string>, opener: Token, inner: seq<CSelection>)
    | CSpread(fragment: string)

  datatype CVariableDef = CVariableDef(name: string, typ: TypeRef, default: Option<CValue>)

  datatype CDefinition =
    | CShorthand(selSet: seq<CSelection>)
    | COperation(kind: OperationKind, opName: Option<string>, variables: Option<seq<CVariableDef>>, selSet: seq<CSelection>)
    | CFragment(name: string, typeOn: string, selSet: seq<CSelection>)

  /** A spread cannot be named "on". The token that opens an inline fragment is not looked at
      after a type condition, so any token is accepted there; without one it is a brace. */
  predicate ProperSelection(s: CSelection) {
    match s
    case CField(_, _, _, selSet) => selSet.Set? ==> ProperSelections(selSet.sels)
    case CInline(typeOn, opener, selSet) => (typeOn.None? ==> opener == BraceL) && ProperSelections(selSet)
    case CSpread(name) => name != "on"
  }

  predicate ProperSelections(ss: seq<CSelection>) {
    ss != [] ==> ProperSelection(ss[0]) && ProperSelections(ss[1..])
  }

  predicate ProperDefinition(d: CDefinition) {
    ProperSelections(d.selSet) && (d.CFragment? ==> d.name != "on")
  }

  predicate ProperDefinitions(ds: seq<CDefinition>) {
    ds != [] ==> ProperDefinition(ds[0]) && ProperDefinitions(ds[1..])
  }

  // ---- The tokens of a syntax tree ----

  function RenderValue(v: CValue): seq<Token> {
    match v
    case CVariable(n) => [Dollar] + [Name(n)]
    case CInt(t) => [IntToken(t)]
    case CFloat(t) => [FloatToken(t)]
    case CString(t) => [StringToken(t)]
    case CName(t) => [Name(t)]
    case CList(items) => [BracketL] + RenderItems(items)
    case CObject(fields) => [BraceL] + RenderEntries(fields, BraceR)
  }

  /** The rest of a list, closing bracket included. */
  function RenderItems(vs: seq<CValue>): seq<Token> {
    if vs == [] then [BracketR] else RenderValue(vs[0]) + RenderItems(vs[1..])
  }

  /** The rest of an argument list or of an input object, closing token included. */
  function RenderEntries(es: seq<CEntry>, close: Token): seq<Token> {
    if es == [] then [close]
    else RenderEntry(es[0]) + RenderEntries(es[1..], close)
  }

  function RenderEntry(e: CEntry): seq<Token> {
    [Name(e.name)] + ([Colon] + RenderValue(e.value))
  }

  function RenderArguments(args: CArguments): seq<Token> {
    match args
    case NoArguments => []
    case Arguments(entries) => [ParenL] + RenderEntries(entries, ParenR)
  }

  function RenderSelection(s: CSelection): seq<Token>
    decreases s, 1
  {
    match s
    case CField(alias, name, args, selSet) =>
      if alias.Some? then [Name(alias.value)] + ([Colon] + ([Name(name)] + (RenderArguments(args) + RenderSet(selSet))))
      else [Name(name)] + (RenderArguments(args) + RenderSet(selSet))
    case _ => [Spread] + RenderFragment(s)
  }

  /** An inline fragment or a fragment spread after its "...". */
  function RenderFragment(s: CSelection): seq<Token>
    requires !s.CField?
    decreases s, 0
  {
    match s
    case CInline(typeOn, opener, selSet) =>
      if typeOn.Some? then [Name("on")] + ([Name(typeOn.value)] + ([opener] + RenderSelections(selSet)))
      else [opener] + RenderSelections(selSet)
    case CSpread(name) => [Name(name)]
  }

  function RenderSet(selSet: CSet): seq<Token> {
    match selSet
    case NoSet => []
    case Set(sels) => [BraceL] + RenderSelections(sels)
  }

  /** The rest of a selection set, closing brace included. */
  function RenderSelections(ss: seq<CSelection>): seq<Token> {
    if ss == [] then [BraceR] else RenderSelection(ss[0]) + RenderSelections(ss[1..])
  }

  function RenderTypeRef(t: TypeRef): seq<Token> {
    match t
    case NamedRef(name, nonNull) => [Name(name)] + RenderBang(nonNull)
    case ListRef(inner, nonNull) => [BracketL] + (RenderTypeRef(inner) + ([BracketR] + RenderBang(nonNull)))
  }

  function RenderBang(nonNull: bool): seq<Token> {
    if nonNull then [Bang] else []
  }

  function RenderDefault(default: Option<CValue>): seq<Token> {
    match default
    case None => []
    case Some(v) => [Equals] + RenderValue(v)
  }

  function RenderVariableDef(d: CVariableDef): seq<Token> {
    [Dollar] + ([Name(d.name)] + ([Colon] + (RenderTypeRef(d.typ) + RenderDefault(d.default))))
  }

  function RenderVariableDefs(ds: seq<CVariableDef>): seq<Token> {
    if ds == [] then [ParenR] else RenderVariableDef(ds[0]) + RenderVariableDefs(ds[1..])
  }

  function RenderVariables(variables: Option<seq<CVariableDef>>): seq<Token> {
    match variables
    case None => []
    case Some(ds) => [ParenL] + RenderVariableDefs(ds)
  }

  function RenderName(name: Option<string>): seq<Token> {
    match name
    case None => []
    case Some(n) => [Name(n)]
  }

  function Keyword(kind: OperationKind): string {
    match kind
    case Query => "query"
    case Mutation => "mutation"
  }

  function RenderDefinition(d: CDefinition): seq<Token> {
    match d
    case CShorthand(selSet) => [BraceL] + RenderSelections(selSet)
    case COperation(kind, name, variables, selSet) =>
      [Name(Keyword(kind))] + (RenderName(name) + (RenderVariables(variables) + ([BraceL] + RenderSelections(selSet))))
    case CFragment(name, typeOn, selSet) =>
      [Name("fragment")] + ([Name(name)] + ([Name("on")] + ([Name(typeOn)] + ([BraceL] + RenderSelections(selSet)))))
  }

  function Render(ds: seq<CDefinition>): seq<Token> {
    if ds == [] then [] else RenderDefinition(ds[0]) + Render(ds[1..])
  }

  // ---- The document a syntax tree stands for ----

  /** Three words are reserved; any other is an enum member. */
  function WordValue(t: string): Value {
    if t == "true" || t == "false" then BoolValue(t == "true")
    else if t == "null" then NullValue
    else EnumValue(t)
  }

  function MeanValue(v: CValue): Value {
    match v
    case CVariable(n) => VariableValue(n)
    case CInt(t) => IntValue(t)
    case CFloat(t) => FloatValue(t)
    case CString(t) => StringValue(t)
    case CName(t) => WordValue(t)
    case CList(items) => ListValue(MeanValues(items))
    case CObject(fields) => ObjectValue(MeanEntries(fields))
  }

  function MeanValues(vs: seq<CValue>): seq<Value> {
    if vs == [] then [] else [MeanValue(vs[0])] + MeanValues(vs[1..])
  }

  /** A name written twice keeps its last value. */
  function MeanEntries(es: seq<CEntry>): map<string, Value> {
    if es == [] then map[] else map[es[0].name := MeanValue(es[0].value)] + MeanEntries(es[1..])
  }

  function MeanArguments(args: CArguments): map<string, Value> {
    match args
    case NoArguments => map[]
    case Arguments(entries) => MeanEntries(entries)
  }

  function OrEmpty(s: Option<string>): string {
    match s
    case Some(t) => t
    case None => ""
  }

  function MeanSelection(s: CSelection): Selection {
    match s
    case CField(alias, name, args, selSet) =>
      Field(OrEmpty(alias), name, MeanArguments(args), MeanSet(selSet))
    case CInline(typeOn, _, selSet) => InlineFragment(OrEmpty(typeOn), MeanSelections(selSet))
    case CSpread(name) => FragmentSpread(name)
  }

  function MeanSet(selSet: CSet): seq<Selection> {
    match selSet
    case NoSet => []
    case Set(sels) => MeanSelections(sels)
  }

  function MeanSelections(ss: seq<CSelection>): seq<Selection> {
    if ss == [] then [] else [MeanSelection(ss[0])] + MeanSelections(ss[1..])
  }

  /** A default that is not written and a null default are the same. */
  function MeanDefault(default: Option<CValue>): Value {
    match default
    case None => NullValue
    case Some(v) => MeanValue(v)
  }

  function MeanVariableDef(d: CVariableDef): VariableDef {
    VariableDef(d.name, d.typ, MeanDefault(d.default))
  }

  function MeanVariableDefs(ds: seq<CVariableDef>): seq<VariableDef> {
    if ds == [] then [] else [MeanVariableDef(ds[0])] + MeanVariableDefs(ds[1..])
  }

  function MeanVariables(variables: Option<seq<CVariableDef>>): seq<VariableDef> {
    match variables
    case None => []
    case Some(ds) => MeanVariableDefs(ds)
  }

  function MeanOperation(d: CDefinition): Operation
    requires !d.CFragment?
  {
    match d
    case CShorthand(selSet) => Operation(Query, "", [], MeanSelections(selSet))
    case COperation(kind, name, variables, selSet) =>
      Operation(kind, OrEmpty(name), MeanVariables(variables), MeanSelections(selSet))
  }

  function MeanFragment(d: CDefinition): FragmentDef
    requires d.CFragment?
  {
    FragmentDef(d.name, d.typeOn, MeanSelections(d.selSet))
  }

  /** The document so far, with one more definition: fragments of one name replace each other. */
  function AddDefinition(doc: Document, d: CDefinition): Document {
    if d.CFragment? then doc.(fragments := doc.fragments[d.name := MeanFragment(d)])
    else doc.(operations := doc.operations + [MeanOperation(d)])
  }

  function AddDefinitions(doc: Document, ds: seq<CDefinition>): Document
    decreases |ds|
  {
    if ds == [] then doc else AddDefinitions(AddDefinition(doc, ds[0]), ds[1..])
  }

  const EMPTY := Document([], map[])

  function Mean(ds: seq<CDefinition>): Document {
    AddDefinitions(EMPTY, ds)
  }
}
