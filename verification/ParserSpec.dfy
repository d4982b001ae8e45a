/** The recursive-descent grammar as functions on the remaining tokens (graphql/parser.go). Each
    result is sound by contract: what was consumed is exactly the rendering of what was built. */
module ParserSpec {
  import opened Prelude
  import opened GraphqlAst
  import opened GraphqlSyntax

  /** What the lexer delivers after the last token: the end of the document, a lexical error, or
      the refusal of one token too many. */
  datatype End = Eof | LexFailure | TokenLimit

  datatype ParseError = SyntaxError | LexError | LimitError

  /** The current token followed by the tokens still to be lexed; no token means end of file. */
  datatype Input = Input(toks: seq<Token>, end: End) {
    predicate At(t: Token) {
      toks != [] && toks[0] == t
    }

    predicate AtName() {
      toks != [] && toks[0].Name?
    }
  }

  type Parsed<T> = Result<(T, Input), ParseError>

  function EndError(end: End): ParseError {
    if end == TokenLimit then LimitError else LexError
  }

  /** Only an input that does not end well can give rise to an error other than a syntax error. */
  predicate Blames(inp: Input, e: ParseError) {
    e == SyntaxError || (inp.end != Eof && e == EndError(inp.end))
  }

  /** Parsing goes from inp to rest over exactly the given text. */
  ghost predicate Took(inp: Input, text: seq<Token>, rest: Input) {
    inp.toks == text + rest.toks && rest.end == inp.end
  }

  /** The same over some token at least, with the token after it lexed without failure. */
  ghost predicate Advanced(inp: Input, text: seq<Token>, rest: Input) {
    Took(inp, text, rest) && |rest.toks| < |inp.toks| && CanLex(rest)
  }

  /** The token after the text, if any, can be lexed without failure. */
  predicate CanLex(inp: Input) {
    inp.toks != [] || inp.end == Eof
  }

  /** An optional part: it may take nothing. */
  ghost predicate TookMaybe(inp: Input, text: seq<Token>, rest: Input) {
    Took(inp, text, rest) && (CanLex(inp) ==> CanLex(rest))
  }

  lemma ThenTook(inp: Input, a: seq<Token>, mid: Input, b: seq<Token>, rest: Input)
    requires Took(inp, a, mid) && Took(mid, b, rest)
    ensures Took(inp, a + b, rest)
  {
    assert a + (b + rest.toks) == a + b + rest.toks;
  }

  lemma TookNothing(inp: Input)
    ensures Took(inp, [], inp)
  {
    assert [] + inp.toks == inp.toks;
  }

  function Syntax<T>(): Parsed<T> {
    Failure(SyntaxError)
  }

  /** Lexing one token ahead: failure of the lexer surfaces when its token is asked for. */
  function Next(inp: Input): (r: Result<Input, ParseError>)
    ensures r.Failure? ==> Blames(inp, r.error)
    ensures r.Success? && inp.toks != [] ==> Advanced(inp, [inp.toks[0]], r.value)
  {
    if |inp.toks| > 1 then Success(Input(inp.toks[1..], inp.end))
    else if inp.end == Eof then Success(Input([], Eof))
    else Failure(EndError(inp.end))
  }

  function Expect(inp: Input, t: Token): (r: Result<Input, ParseError>)
    ensures r.Failure? ==> Blames(inp, r.error)
    ensures r.Success? ==> Advanced(inp, [t], r.value)
  {
    if inp.At(t) then Next(inp) else Failure(SyntaxError)
  }

  function ExpectName(inp: Input): (r: Parsed<string>)
    ensures r.Failure? ==> Blames(inp, r.error)
    ensures r.Success? ==> Advanced(inp, [Name(r.value.0)], r.value.1)
  {
    if !inp.AtName() then Syntax()
    else
      var next :- Next(inp);
      Success((inp.toks[0].text, next))
  }

  /** The value that one token makes up, if it makes up one. */
  function LeafOf(t: Token): (r: Option<CValue>)
    ensures r.Some? ==> RenderValue(r.value) == [t]
  {
    match t
    case IntToken(text) => Some(CInt(text))
    case FloatToken(text) => Some(CFloat(text))
    case StringToken(text) => Some(CString(text))
    case Name(text) => Some(CName(text))
    case _ => None
  }

  function ParseVariable(inp: Input): (r: Parsed<CValue>)
    requires inp.At(Dollar)
    ensures r.Failure? ==> Blames(inp, r.error)
    ensures r.Success? ==> r.value.0.CVariable? && Advanced(inp, RenderValue(r.value.0), r.value.1)
  {
    var next :- Next(inp);
    var (name, rest) :- ExpectName(next);
    ThenTook(inp, [Dollar], next, [Name(name)], rest);
    Success((CVariable(name), rest))
  }

  function ParseLeaf(inp: Input): (r: Parsed<CValue>)
    ensures r.Failure? ==> Blames(inp, r.error)
    ensures r.Success? ==> Advanced(inp, RenderValue(r.value.0), r.value.1)
  {
    if inp.toks == [] || LeafOf(inp.toks[0]).None? then Syntax()
    else
      var next :- Next(inp);
      Success((LeafOf(inp.toks[0]).value, next))
  }

  function ParseValue(inp: Input): (r: Parsed<CValue>)
    ensures r.Failure? ==> Blames(inp, r.error)
    ensures r.Success? ==> Advanced(inp, RenderValue(r.value.0), r.value.1)
    decreases |inp.toks|, 0
  {
    if inp.At(Dollar) then ParseVariable(inp)
    else if inp.At(BracketL) then ParseList(inp)
    else if inp.At(BraceL) then ParseObject(inp)
    else ParseLeaf(inp)
  }

  function ParseList(inp: Input): (r: Parsed<CValue>)
    requires inp.At(BracketL)
    ensures r.Failure? ==> Blames(inp, r.error)
    ensures r.Success? ==> Advanced(inp, RenderValue(r.value.0), r.value.1)
    decreases |inp.toks|, -1
  {
    var next :- Next(inp);
    var (items, rest) :- ParseItems(next);
    ThenTook(inp, [BracketL], next, RenderItems(items), rest);
    Success((CList(items), rest))
  }

  function ParseObject(inp: Input): (r: Parsed<CValue>)
    requires inp.At(BraceL)
    ensures r.Failure? ==> Blames(inp, r.error)
    ensures r.Success? ==> Advanced(inp, RenderValue(r.value.0), r.value.1)
    decreases |inp.toks|, -1
  {
    var next :- Next(inp);
    var (fields, rest) :- ParseEntries(next, BraceR);
    ThenTook(inp, [BraceL], next, RenderEntries(fields, BraceR), rest);
    Success((CObject(fields), rest))
  }

  function ParseItems(inp: Input): (r: Parsed<seq<CValue>>)
    ensures r.Failure? ==> Blames(inp, r.error)
    ensures r.Success? ==> Advanced(inp, RenderItems(r.value.0), r.value.1)
    decreases |inp.toks|, 1
  {
    if inp.toks == [] then Syntax()
    else if inp.At(BracketR) then
      var next :- Next(inp);
      Success(([], next))
    else
      var (first, mid) :- ParseValue(inp);
      var (others, rest) :- ParseItems(mid);
      ThenTook(inp, RenderValue(first), mid, RenderItems(others), rest);
      assert ([first] + others)[1..] == others;
      Success(([first] + others, rest))
  }

  function ParseEntry(inp: Input): (r: Parsed<CEntry>)
    ensures r.Failure? ==> Blames(inp, r.error)
    ensures r.Success? ==> Advanced(inp, RenderEntry(r.value.0), r.value.1)
    decreases |inp.toks|, 1
  {
    var (name, in1) :- ExpectName(inp);
    var in2 :- Expect(in1, Colon);
    var (value, rest) :- ParseValue(in2);
    ThenTook(in1, [Colon], in2, RenderValue(value), rest);
    ThenTook(inp, [Name(name)], in1, [Colon] + RenderValue(value), rest);
    Success((CEntry(name, value), rest))
  }

  function ParseEntries(inp: Input, close: Token): (r: Parsed<seq<CEntry>>)
    requires !close.Name?
    ensures r.Failure? ==> Blames(inp, r.error)
    ensures r.Success? ==> Advanced(inp, RenderEntries(r.value.0, close), r.value.1)
    decreases |inp.toks|, 2
  {
    if inp.At(close) then
      var next :- Next(inp);
      Success(([], next))
    else
      var (first, mid) :- ParseEntry(inp);
      var (others, rest) :- ParseEntries(mid, close);
      ThenTook(inp, RenderEntry(first), mid, RenderEntries(others, close), rest);
      assert ([first] + others)[1..] == others;
      Success(([first] + others, rest))
  }

  function ParseArguments(inp: Input): (r: Parsed<CArguments>)
    ensures r.Failure? ==> Blames(inp, r.error)
    ensures r.Success? ==> TookMaybe(inp, RenderArguments(r.value.0), r.value.1)
  {
    TookNothing(inp);
    if !inp.At(ParenL) then Success((NoArguments, inp))
    else
      var next :- Next(inp);
      var (entries, rest) :- ParseEntries(next, ParenR);
      ThenTook(inp, [ParenL], next, RenderEntries(entries, ParenR), rest);
      Success((Arguments(entries), rest))
  }

  /** The selections after the opening token, up to and including the closing brace. */
  function ParseSelections(inp: Input): (r: Parsed<seq<CSelection>>)
    ensures r.Failure? ==> Blames(inp, r.error)
    ensures r.Success? ==> Advanced(inp, RenderSelections(r.value.0), r.value.1) && ProperSelections(r.value.0)
    decreases |inp.toks|, 2
  {
    if inp.toks == [] then Syntax()
    else if inp.At(BraceR) then
      var next :- Next(inp);
      Success(([], next))
    else
      var (first, mid) :- ParseSelection(inp);
      var (others, rest) :- ParseSelections(mid);
      ThenTook(inp, RenderSelection(first), mid, RenderSelections(others), rest);
      assert ([first] + others)[1..] == others;
      Success(([first] + others, rest))
  }

  function ParseSelection(inp: Input): (r: Parsed<CSelection>)
    ensures r.Failure? ==> Blames(inp, r.error)
    ensures r.Success? ==> Advanced(inp, RenderSelection(r.value.0), r.value.1) && ProperSelection(r.value.0)
    decreases |inp.toks|, 1
  {
    if inp.At(Spread) then ParseFragment(inp) else ParseField(inp)
  }

  /** A selection set from its opening token, whatever that token is. */
  function ParseSelectionSet(inp: Input): (r: Parsed<seq<CSelection>>)
    ensures r.Failure? ==> Blames(inp, r.error)
    ensures r.Success? ==> inp.toks != [] && Advanced(inp, [inp.toks[0]] + RenderSelections(r.value.0), r.value.1) && ProperSelections(r.value.0)
    decreases |inp.toks|, 3
  {
    if inp.toks == [] then Syntax()
    else
      var next :- Next(inp);
      var (sels, rest) :- ParseSelections(next);
      ThenTook(inp, [inp.toks[0]], next, RenderSelections(sels), rest);
      Success((sels, rest))
  }

  function ParseOptionalSet(inp: Input): (r: Parsed<CSet>)
    ensures r.Failure? ==> Blames(inp, r.error)
    ensures r.Success? ==> TookMaybe(inp, RenderSet(r.value.0), r.value.1) && (r.value.0.Set? ==> ProperSelections(r.value.0.sels))
    decreases |inp.toks|, 4
  {
    TookNothing(inp);
    if !inp.At(BraceL) then Success((NoSet, inp))
    else
      var (sels, rest) :- ParseSelectionSet(inp);
      Success((Set(sels), rest))
  }

  /** A field after its response name: arguments and selection set. */
  function ParseFieldRest(inp: Input, alias: Option<string>, name: string): (r: Parsed<CSelection>)
    ensures r.Failure? ==> Blames(inp, r.error)
    ensures r.Success? ==>
              && r.value.0.CField? && r.value.0.alias == alias && r.value.0.name == name
              && TookMaybe(inp, RenderArguments(r.value.0.args) + RenderSet(r.value.0.selSet), r.value.1)
              && ProperSelection(r.value.0)
    decreases |inp.toks|, 5
  {
    var (args, mid) :- ParseArguments(inp);
    var (sels, rest) :- ParseOptionalSet(mid);
    ThenTook(inp, RenderArguments(args), mid, RenderSet(sels), rest);
    Success((CField(alias, name, args, sels), rest))
  }

  function ParseField(inp: Input): (r: Parsed<CSelection>)
    ensures r.Failure? ==> Blames(inp, r.error)
    ensures r.Success? ==> Advanced(inp, RenderSelection(r.value.0), r.value.1) && ProperSelection(r.value.0)
    decreases |inp.toks|, 0
  {
    var (first, in1) :- ExpectName(inp);
    if in1.At(Colon) then
      // "alias: name": the name before the colon is the response key.
      var in2 :- Next(in1);
      var (name, in3) :- ExpectName(in2);
      var (field, rest) :- ParseFieldRest(in3, Some(first), name);
      var tail := RenderArguments(field.args) + RenderSet(field.selSet);
      ThenTook(in2, [Name(name)], in3, tail, rest);
      ThenTook(in1, [Colon], in2, [Name(name)] + tail, rest);
      ThenTook(inp, [Name(first)], in1, [Colon] + ([Name(name)] + tail), rest);
      Success((field, rest))
    else
      var (field, rest) :- ParseFieldRest(in1, None, first);
      ThenTook(inp, [Name(first)], in1, RenderArguments(field.args) + RenderSet(field.selSet), rest);
      Success((field, rest))
  }

  function ParseFragment(inp: Input): (r: Parsed<CSelection>)
    requires inp.At(Spread)
    ensures r.Failure? ==> Blames(inp, r.error)
    ensures r.Success? ==> Advanced(inp, RenderSelection(r.value.0), r.value.1) && ProperSelection(r.value.0)
    decreases |inp.toks|, 0
  {
    var next :- Next(inp);
    var (s, rest) :- ParseAfterSpread(next);
    ThenTook(inp, [Spread], next, RenderFragment(s), rest);
    Success((s, rest))
  }

  function ParseAfterSpread(inp: Input): (r: Parsed<CSelection>)
    ensures r.Failure? ==> Blames(inp, r.error)
    ensures r.Success? ==> !r.value.0.CField? && Advanced(inp, RenderFragment(r.value.0), r.value.1) && ProperSelection(r.value.0)
    decreases |inp.toks|, 4
  {
    if inp.At(Name("on")) then
      var next :- Next(inp);
      var (inline, rest) :- ParseTypedInline(next);
      ThenTook(inp, [Name("on")], next, [Name(inline.typeOn.value)] + ([inline.opener] + RenderSelections(inline.inner)), rest);
      Success((inline, rest))
    else if inp.At(BraceL) then
      var (sels, rest) :- ParseSelectionSet(inp);
      Success((CInline(None, BraceL, sels), rest))
    else
      var (name, rest) :- ExpectName(inp);
      Success((CSpread(name), rest))
  }

  /** An inline fragment from its type condition: the token after that is not checked. */
  function ParseTypedInline(inp: Input): (r: Parsed<CSelection>)
    ensures r.Failure? ==> Blames(inp, r.error)
    ensures r.Success? ==>
              && r.value.0.CInline? && r.value.0.typeOn.Some?
              && Advanced(inp, [Name(r.value.0.typeOn.value)] + ([r.value.0.opener] + RenderSelections(r.value.0.inner)), r.value.1)
              && ProperSelection(r.value.0)
    decreases |inp.toks|, 0
  {
    var (typeOn, mid) :- ExpectName(inp);
    var (sels, rest) :- ParseSelectionSet(mid);
    ThenTook(inp, [Name(typeOn)], mid, [mid.toks[0]] + RenderSelections(sels), rest);
    Success((CInline(Some(typeOn), mid.toks[0], sels), rest))
  }

  /** An optional "!". */
  function ParseBang(inp: Input): (r: Parsed<bool>)
    ensures r.Failure? ==> Blames(inp, r.error)
    ensures r.Success? ==> TookMaybe(inp, RenderBang(r.value.0), r.value.1)
  {
    TookNothing(inp);
    if !inp.At(Bang) then Success((false, inp))
    else
      var next :- Next(inp);
      Success((true, next))
  }

  function ParseTypeRef(inp: Input): (r: Parsed<TypeRef>)
    ensures r.Failure? ==> Blames(inp, r.error)
    ensures r.Success? ==> Advanced(inp, RenderTypeRef(r.value.0), r.value.1)
    decreases |inp.toks|
  {
    if inp.At(BracketL) then
      var in1 :- Next(inp);
      var (inner, in2) :- ParseTypeRef(in1);
      var in3 :- Expect(in2, BracketR);
      var (nonNull, rest) :- ParseBang(in3);
      ThenTook(in2, [BracketR], in3, RenderBang(nonNull), rest);
      ThenTook(in1, RenderTypeRef(inner), in2, [BracketR] + RenderBang(nonNull), rest);
      ThenTook(inp, [BracketL], in1, RenderTypeRef(inner) + ([BracketR] + RenderBang(nonNull)), rest);
      Success((ListRef(inner, nonNull), rest))
    else
      var (name, in1) :- ExpectName(inp);
      var (nonNull, rest) :- ParseBang(in1);
      ThenTook(inp, [Name(name)], in1, RenderBang(nonNull), rest);
      Success((NamedRef(name, nonNull), rest))
  }

  function ParseDefault(inp: Input): (r: Parsed<Option<CValue>>)
    ensures r.Failure? ==> Blames(inp, r.error)
    ensures r.Success? ==> TookMaybe(inp, RenderDefault(r.value.0), r.value.1)
  {
    TookNothing(inp);
    if !inp.At(Equals) then Success((None, inp))
    else
      var next :- Next(inp);
      var (value, rest) :- ParseValue(next);
      ThenTook(inp, [Equals], next, RenderValue(value), rest);
      Success((Some(value), rest))
  }

  /** The type of a variable and its default. */
  function ParseVariableBody(inp: Input): (r: Parsed<(TypeRef, Option<CValue>)>)
    ensures r.Failure? ==> Blames(inp, r.error)
    ensures r.Success? ==> Advanced(inp, RenderTypeRef(r.value.0.0) + RenderDefault(r.value.0.1), r.value.1)
  {
    var (typ, mid) :- ParseTypeRef(inp);
    var (default, rest) :- ParseDefault(mid);
    ThenTook(inp, RenderTypeRef(typ), mid, RenderDefault(default), rest);
    Success(((typ, default), rest))
  }

  function ParseVariableDef(inp: Input): (r: Parsed<CVariableDef>)
    ensures r.Failure? ==> Blames(inp, r.error)
    ensures r.Success? ==> Advanced(inp, RenderVariableDef(r.value.0), r.value.1)
  {
    var in1 :- Expect(inp, Dollar);
    var (name, in2) :- ExpectName(in1);
    var in3 :- Expect(in2, Colon);
    var (body, rest) :- ParseVariableBody(in3);
    var tail := RenderTypeRef(body.0) + RenderDefault(body.1);
    ThenTook(in2, [Colon], in3, tail, rest);
    ThenTook(in1, [Name(name)], in2, [Colon] + tail, rest);
    ThenTook(inp, [Dollar], in1, [Name(name)] + ([Colon] + tail), rest);
    Success((CVariableDef(name, body.0, body.1), rest))
  }

  /** The variable definitions after the opening parenthesis, closing one included. */
  function ParseVariableDefs(inp: Input): (r: Parsed<seq<CVariableDef>>)
    ensures r.Failure? ==> Blames(inp, r.error)
    ensures r.Success? ==> Advanced(inp, RenderVariableDefs(r.value.0), r.value.1)
    decreases |inp.toks|
  {
    if inp.At(ParenR) then
      var next :- Next(inp);
      Success(([], next))
    else
      var (first, mid) :- ParseVariableDef(inp);
      var (others, rest) :- ParseVariableDefs(mid);
      ThenTook(inp, RenderVariableDef(first), mid, RenderVariableDefs(others), rest);
      assert ([first] + others)[1..] == others;
      Success(([first] + others, rest))
  }

  function ParseOptionalVariables(inp: Input): (r: Parsed<Option<seq<CVariableDef>>>)
    ensures r.Failure? ==> Blames(inp, r.error)
    ensures r.Success? ==> TookMaybe(inp, RenderVariables(r.value.0), r.value.1)
  {
    TookNothing(inp);
    if !inp.At(ParenL) then Success((None, inp))
    else
      var next :- Next(inp);
      var (vars, rest) :- ParseVariableDefs(next);
      ThenTook(inp, [ParenL], next, RenderVariableDefs(vars), rest);
      Success((Some(vars), rest))
  }

  function ParseOptionalName(inp: Input): (r: Parsed<Option<string>>)
    ensures r.Failure? ==> Blames(inp, r.error)
    ensures r.Success? ==> TookMaybe(inp, RenderName(r.value.0), r.value.1)
  {
    TookNothing(inp);
    if !inp.AtName() then Success((None, inp))
    else
      var (name, rest) :- ExpectName(inp);
      Success((Some(name), rest))
  }

  /** A selection set whose opening brace is checked. */
  function ParseBracedSet(inp: Input): (r: Parsed<seq<CSelection>>)
    ensures r.Failure? ==> Blames(inp, r.error)
    ensures r.Success? ==> Advanced(inp, [BraceL] + RenderSelections(r.value.0), r.value.1) && ProperSelections(r.value.0)
  {
    if !inp.At(BraceL) then Syntax() else ParseSelectionSet(inp)
  }

  /** The variables of an operation and its selection set. */
  function ParseOperationBody(inp: Input): (r: Parsed<(Option<seq<CVariableDef>>, seq<CSelection>)>)
    ensures r.Failure? ==> Blames(inp, r.error)
    ensures r.Success? ==>
              && Advanced(inp, RenderVariables(r.value.0.0) + ([BraceL] + RenderSelections(r.value.0.1)), r.value.1)
              && ProperSelections(r.value.0.1)
  {
    var (vars, mid) :- ParseOptionalVariables(inp);
    var (sels, rest) :- ParseBracedSet(mid);
    ThenTook(inp, RenderVariables(vars), mid, [BraceL] + RenderSelections(sels), rest);
    Success(((vars, sels), rest))
  }

  /** An operation after its keyword. */
  function ParseOperationRest(inp: Input, kind: OperationKind): (r: Parsed<CDefinition>)
    ensures r.Failure? ==> Blames(inp, r.error)
    ensures r.Success? ==>
              && r.value.0.COperation? && r.value.0.kind == kind
              && Advanced(inp, RenderName(r.value.0.opName) + (RenderVariables(r.value.0.variables) + ([BraceL] + RenderSelections(r.value.0.selSet))), r.value.1)
              && ProperDefinition(r.value.0)
  {
    var (name, mid) :- ParseOptionalName(inp);
    var (body, rest) :- ParseOperationBody(mid);
    ThenTook(inp, RenderName(name), mid, RenderVariables(body.0) + ([BraceL] + RenderSelections(body.1)), rest);
    Success((COperation(kind, name, body.0, body.1), rest))
  }

  function ParseOperation(inp: Input, kind: OperationKind): (r: Parsed<CDefinition>)
    requires inp.At(Name(Keyword(kind)))
    ensures r.Failure? ==> Blames(inp, r.error)
    ensures r.Success? ==> Advanced(inp, RenderDefinition(r.value.0), r.value.1) && ProperDefinition(r.value.0)
  {
    var in1 :- Next(inp);
    var (op, rest) :- ParseOperationRest(in1, kind);
    ThenTook(inp, [Name(Keyword(kind))], in1, RenderName(op.opName) + (RenderVariables(op.variables) + ([BraceL] + RenderSelections(op.selSet))), rest);
    Success((op, rest))
  }

  /** A fragment definition from its "on". */
  function ParseFragmentBody(inp: Input): (r: Parsed<(string, seq<CSelection>)>)
    ensures r.Failure? ==> Blames(inp, r.error)
    ensures r.Success? ==>
              && Advanced(inp, [Name("on")] + ([Name(r.value.0.0)] + ([BraceL] + RenderSelections(r.value.0.1))), r.value.1)
              && ProperSelections(r.value.0.1)
  {
    var in3 :- Expect(inp, Name("on"));
    var (typeOn, in4) :- ExpectName(in3);
    var (sels, rest) :- ParseBracedSet(in4);
    var tail := [BraceL] + RenderSelections(sels);
    ThenTook(in3, [Name(typeOn)], in4, tail, rest);
    ThenTook(inp, [Name("on")], in3, [Name(typeOn)] + tail, rest);
    Success(((typeOn, sels), rest))
  }

  /** A fragment definition after its keyword: it must not be called "on". */
  function ParseFragmentRest(inp: Input): (r: Parsed<CDefinition>)
    ensures r.Failure? ==> Blames(inp, r.error)
    ensures r.Success? ==>
              var d := r.value.0;
              && d.CFragment? && ProperDefinition(d)
              && Advanced(inp, [Name(d.name)] + ([Name("on")] + ([Name(d.typeOn)] + ([BraceL] + RenderSelections(d.selSet)))), r.value.1)
  {
    if inp.At(Name("on")) then Syntax()
    else
      var (name, mid) :- ExpectName(inp);
      var (body, rest) :- ParseFragmentBody(mid);
      ThenTook(inp, [Name(name)], mid, [Name("on")] + ([Name(body.0)] + ([BraceL] + RenderSelections(body.1))), rest);
      Success((CFragment(name, body.0, body.1), rest))
  }

  function ParseFragmentDef(inp: Input): (r: Parsed<CDefinition>)
    requires inp.At(Name("fragment"))
    ensures r.Failure? ==> Blames(inp, r.error)
    ensures r.Success? ==> Advanced(inp, RenderDefinition(r.value.0), r.value.1) && ProperDefinition(r.value.0)
  {
    var in1 :- Next(inp);
    var (d, rest) :- ParseFragmentRest(in1);
    ThenTook(inp, [Name("fragment")], in1, [Name(d.name)] + ([Name("on")] + ([Name(d.typeOn)] + ([BraceL] + RenderSelections(d.selSet)))), rest);
    Success((d, rest))
  }

  function ParseDefinition(inp: Input): (r: Parsed<CDefinition>)
    ensures r.Failure? ==> Blames(inp, r.error)
    ensures r.Success? ==> Advanced(inp, RenderDefinition(r.value.0), r.value.1) && ProperDefinition(r.value.0)
  {
    if inp.At(BraceL) then
      var (sels, rest) :- ParseSelectionSet(inp);
      Success((CShorthand(sels), rest))
    else ParseKeywordDefinition(inp)
  }

  /** A definition that starts with a keyword. */
  function ParseKeywordDefinition(inp: Input): (r: Parsed<CDefinition>)
    ensures r.Failure? ==> Blames(inp, r.error)
    ensures r.Success? ==> Advanced(inp, RenderDefinition(r.value.0), r.value.1) && ProperDefinition(r.value.0)
  {
    if inp.At(Name("query")) then ParseOperation(inp, Query)
    else if inp.At(Name("mutation")) then ParseOperation(inp, Mutation)
    else if inp.At(Name("fragment")) then ParseFragmentDef(inp)
    else Syntax()
  }

  /** A whole document: it ends only at the end of the file, so a lexer failure is never missed. */
  function ParseDefinitions(inp: Input): (r: Parsed<seq<CDefinition>>)
    ensures r.Failure? ==> Blames(inp, r.error)
    ensures r.Success? ==> Took(inp, Render(r.value.0), r.value.1) && r.value.1.toks == [] && ProperDefinitions(r.value.0)
    ensures r.Success? && inp.toks != [] ==> inp.end == Eof
    decreases |inp.toks|
  {
    TookNothing(inp);
    if inp.toks == [] then Success(([], inp))
    else
      var (first, mid) :- ParseDefinition(inp);
      var (others, rest) :- ParseDefinitions(mid);
      ThenTook(inp, RenderDefinition(first), mid, Render(others), rest);
      assert ([first] + others)[1..] == others;
      Success(([first] + others, rest))
  }
}
