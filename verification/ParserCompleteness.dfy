/** Every properly written document parses, and to itself: the converse of the soundness
    contracts of ParserSpec. */
module ParserCompleteness {
  import opened Prelude
  import opened GraphqlAst
  import opened GraphqlSyntax
  import opened ParserSpec

  lemma Split(inp: Input, a: seq<Token>, b: seq<Token>, rest: Input) returns (mid: Input)
    requires Took(inp, a + b, rest) && CanLex(rest)
    ensures Took(inp, a, mid) && Took(mid, b, rest) && CanLex(mid)
  {
    mid := Input(b + rest.toks, inp.end);
    assert a + (b + rest.toks) == a + b + rest.toks;
  }

  lemma NextOver(inp: Input, t: Token, rest: Input)
    requires Took(inp, [t], rest) && CanLex(rest)
    ensures inp.At(t) && Next(inp) == Success(rest) && Expect(inp, t) == Success(rest)
    ensures t.Name? ==> ExpectName(inp) == Success((t.text, rest))
  {
    assert inp.toks[1..] == rest.toks;
  }

  /** The token a text starts with is the token the parser is at. */
  lemma StartsWith(inp: Input, text: seq<Token>, rest: Input)
    requires Took(inp, text, rest) && text != []
    ensures inp.toks != [] && inp.toks[0] == text[0]
  {
  }

  lemma ValueStart(v: CValue)
    ensures RenderValue(v) != [] && RenderValue(v)[0] !in {BracketR, BraceR, ParenR}
  {
  }

  lemma LeafComplete(v: CValue, inp: Input, rest: Input)
    requires !v.CVariable? && !v.CList? && !v.CObject?
    requires Took(inp, RenderValue(v), rest) && CanLex(rest)
    ensures ParseValue(inp) == Success((v, rest))
  {
    NextOver(inp, RenderValue(v)[0], rest);
    assert LeafOf(inp.toks[0]) == Some(v);
  }

  lemma VariableComplete(name: string, inp: Input, rest: Input)
    requires Took(inp, [Dollar] + [Name(name)], rest) && CanLex(rest)
    ensures ParseValue(inp) == Success((CVariable(name), rest))
  {
    var mid := Split(inp, [Dollar], [Name(name)], rest);
    NextOver(inp, Dollar, mid);
    NextOver(mid, Name(name), rest);
  }

  lemma {:induction false} ValueComplete(v: CValue, inp: Input, rest: Input)
    requires Took(inp, RenderValue(v), rest) && CanLex(rest)
    ensures ParseValue(inp) == Success((v, rest))
    decreases v
  {
    match v
    case CVariable(n) => VariableComplete(n, inp, rest);
    case CList(items) =>
      var mid := Split(inp, [BracketL], RenderItems(items), rest);
      NextOver(inp, BracketL, mid);
      ItemsComplete(items, mid, rest);
      assert ParseList(inp) == Success((v, rest));
    case CObject(fields) =>
      var mid := Split(inp, [BraceL], RenderEntries(fields, BraceR), rest);
      NextOver(inp, BraceL, mid);
      EntriesComplete(fields, BraceR, mid, rest);
      assert ParseObject(inp) == Success((v, rest));
    case _ => LeafComplete(v, inp, rest);
  }

  lemma {:induction false} ItemsComplete(items: seq<CValue>, inp: Input, rest: Input)
    requires Took(inp, RenderItems(items), rest) && CanLex(rest)
    ensures ParseItems(inp) == Success((items, rest))
    decreases items
  {
    if items == [] {
      NextOver(inp, BracketR, rest);
    } else {
      var mid := Split(inp, RenderValue(items[0]), RenderItems(items[1..]), rest);
      ValueStart(items[0]);
      StartsWith(inp, RenderValue(items[0]), mid);
      ValueComplete(items[0], inp, mid);
      ItemsComplete(items[1..], mid, rest);
      assert items == [items[0]] + items[1..];
    }
  }

  lemma {:induction false} EntriesComplete(entries: seq<CEntry>, close: Token, inp: Input, rest: Input)
    requires !close.Name?
    requires Took(inp, RenderEntries(entries, close), rest) && CanLex(rest)
    ensures ParseEntries(inp, close) == Success((entries, rest))
    decreases entries
  {
    if entries == [] {
      NextOver(inp, close, rest);
    } else {
      var e := entries[0];
      var mid := Split(inp, RenderEntry(e), RenderEntries(entries[1..], close), rest);
      var in1 := Split(inp, [Name(e.name)], [Colon] + RenderValue(e.value), mid);
      var in2 := Split(in1, [Colon], RenderValue(e.value), mid);
      NextOver(inp, Name(e.name), in1);
      NextOver(in1, Colon, in2);
      ValueComplete(e.value, in2, mid);
      EntriesComplete(entries[1..], close, mid, rest);
      assert entries == [entries[0]] + entries[1..];
    }
  }

  lemma ArgumentsComplete(args: CArguments, inp: Input, rest: Input)
    requires Took(inp, RenderArguments(args), rest) && CanLex(rest)
    requires !rest.At(ParenL)
    ensures ParseArguments(inp) == Success((args, rest))
  {
    match args
    case NoArguments => assert inp.toks == rest.toks;
    case Arguments(entries) =>
      var mid := Split(inp, [ParenL], RenderEntries(entries, ParenR), rest);
      NextOver(inp, ParenL, mid);
      EntriesComplete(entries, ParenR, mid, rest);
  }

  /** What may follow a field: nothing that would still belong to it. */
  predicate EndsField(inp: Input) {
    !inp.At(Colon) && !inp.At(ParenL) && !inp.At(BraceL)
  }

  lemma SelectionsStart(ss: seq<CSelection>, inp: Input, rest: Input)
    requires Took(inp, RenderSelections(ss), rest)
    ensures inp.toks != [] && EndsField(inp)
    ensures ss != [] ==> !inp.At(BraceR)
    ensures ss != [] ==> (inp.At(Spread) <==> !ss[0].CField?)
  {
    if ss == [] {
      StartsWith(inp, [BraceR], rest);
    } else {
      SelectionStart(ss[0]);
      StartsWith(inp, RenderSelections(ss), rest);
    }
  }

  lemma SelectionStart(s: CSelection)
    ensures RenderSelection(s) != []
    ensures if s.CField? then RenderSelection(s)[0].Name? else RenderSelection(s)[0] == Spread
  {
  }

  lemma {:induction false} SelectionsComplete(ss: seq<CSelection>, inp: Input, rest: Input)
    requires ProperSelections(ss)
    requires Took(inp, RenderSelections(ss), rest) && CanLex(rest)
    ensures ParseSelections(inp) == Success((ss, rest))
    decreases ss
  {
    SelectionsStart(ss, inp, rest);
    if ss == [] {
      NextOver(inp, BraceR, rest);
    } else {
      var mid := Split(inp, RenderSelection(ss[0]), RenderSelections(ss[1..]), rest);
      SelectionsStart(ss[1..], mid, rest);
      SelectionComplete(ss[0], inp, mid);
      SelectionsComplete(ss[1..], mid, rest);
      assert ss == [ss[0]] + ss[1..];
    }
  }

  lemma {:induction false} SelectionComplete(s: CSelection, inp: Input, rest: Input)
    requires ProperSelection(s)
    requires Took(inp, RenderSelection(s), rest) && CanLex(rest) && EndsField(rest)
    ensures ParseSelection(inp) == Success((s, rest))
    decreases s, 3
  {
    SelectionStart(s);
    StartsWith(inp, RenderSelection(s), rest);
    if s.CField? {
      FieldComplete(s, inp, rest);
    } else {
      var mid := Split(inp, [Spread], RenderFragment(s), rest);
      NextOver(inp, Spread, mid);
      if s.CInline? {
        InlineComplete(s, mid, rest);
      } else {
        NextOver(mid, Name(s.fragment), rest);
        assert ParseAfterSpread(mid) == Success((s, rest));
      }
    }
  }

  lemma {:induction false} FieldComplete(s: CSelection, inp: Input, rest: Input)
    requires s.CField? && ProperSelection(s)
    requires Took(inp, RenderSelection(s), rest) && CanLex(rest) && EndsField(rest)
    ensures ParseField(inp) == Success((s, rest))
    decreases s, 2
  {
    var CField(alias, name, args, selSet) := s;
    var tail := RenderArguments(args) + RenderSet(selSet);
    match alias
    case Some(a) =>
      var in1 := Split(inp, [Name(a)], [Colon] + ([Name(name)] + tail), rest);
      var in2 := Split(in1, [Colon], [Name(name)] + tail, rest);
      var in3 := Split(in2, [Name(name)], tail, rest);
      NextOver(inp, Name(a), in1);
      NextOver(in1, Colon, in2);
      NextOver(in2, Name(name), in3);
      FieldRestComplete(s, in3, rest);
    case None =>
      var in1 := Split(inp, [Name(name)], tail, rest);
      NextOver(inp, Name(name), in1);
      FieldRestComplete(s, in1, rest);
  }

  lemma {:induction false} FieldRestComplete(s: CSelection, inp: Input, rest: Input)
    requires s.CField? && ProperSelection(s)
    requires Took(inp, RenderArguments(s.args) + RenderSet(s.selSet), rest) && CanLex(rest) && EndsField(rest)
    ensures !inp.At(Colon)
    ensures ParseFieldRest(inp, s.alias, s.name) == Success((s, rest))
    decreases s, 1
  {
    var mid := Split(inp, RenderArguments(s.args), RenderSet(s.selSet), rest);
    match s.selSet {
      case NoSet =>
        assert mid.toks == rest.toks;
        assert ParseOptionalSet(mid) == Success((NoSet, rest));
      case Set(sels) =>
        var in1 := Split(mid, [BraceL], RenderSelections(sels), rest);
        NextOver(mid, BraceL, in1);
        SelectionsComplete(sels, in1, rest);
        assert ParseSelectionSet(mid) == Success((sels, rest));
    }
    ArgumentsComplete(s.args, inp, mid);
    if s.args.Arguments? {
      StartsWith(inp, RenderArguments(s.args), mid);
    } else {
      assert inp.toks == mid.toks;
    }
  }

  lemma {:induction false} InlineComplete(s: CSelection, inp: Input, rest: Input)
    requires s.CInline? && ProperSelection(s)
    requires Took(inp, RenderFragment(s), rest) && CanLex(rest)
    ensures ParseAfterSpread(inp) == Success((s, rest))
    decreases s, 2
  {
    var CInline(typeOn, opener, inner) := s;
    var tail := [opener] + RenderSelections(inner);
    match typeOn
    case Some(t) =>
      var in1 := Split(inp, [Name("on")], [Name(t)] + tail, rest);
      var in2 := Split(in1, [Name(t)], tail, rest);
      NextOver(inp, Name("on"), in1);
      NextOver(in1, Name(t), in2);
      SelectionSetComplete(s, opener, inner, in2, rest);
      assert ParseTypedInline(in1) == Success((s, rest));
    case None =>
      SelectionSetComplete(s, opener, inner, inp, rest);
  }

  lemma {:induction false} SelectionSetComplete(owner: CSelection, opener: Token, sels: seq<CSelection>, inp: Input, rest: Input)
    requires owner.CInline? && owner.inner == sels
    requires ProperSelections(sels)
    requires Took(inp, [opener] + RenderSelections(sels), rest) && CanLex(rest)
    ensures inp.At(opener) && ParseSelectionSet(inp) == Success((sels, rest))
    decreases owner, 1
  {
    var mid := Split(inp, [opener], RenderSelections(sels), rest);
    NextOver(inp, opener, mid);
    SelectionsComplete(sels, mid, rest);
  }

  lemma BracedSetComplete(sels: seq<CSelection>, inp: Input, rest: Input)
    requires ProperSelections(sels)
    requires Took(inp, [BraceL] + RenderSelections(sels), rest) && CanLex(rest)
    ensures inp.At(BraceL) && ParseBracedSet(inp) == Success((sels, rest)) && ParseSelectionSet(inp) == Success((sels, rest))
  {
    SelectionSetComplete(CInline(None, BraceL, sels), BraceL, sels, inp, rest);
  }

  lemma BangComplete(nonNull: bool, inp: Input, rest: Input)
    requires Took(inp, RenderBang(nonNull), rest) && CanLex(rest) && !rest.At(Bang)
    ensures ParseBang(inp) == Success((nonNull, rest))
  {
    if nonNull {
      NextOver(inp, Bang, rest);
    } else {
      assert inp.toks == rest.toks;
    }
  }

  lemma {:induction false} TypeRefComplete(t: TypeRef, inp: Input, rest: Input)
    requires Took(inp, RenderTypeRef(t), rest) && CanLex(rest) && !rest.At(Bang)
    ensures ParseTypeRef(inp) == Success((t, rest))
  {
    match t
    case NamedRef(name, nonNull) =>
      var mid := Split(inp, [Name(name)], RenderBang(nonNull), rest);
      NextOver(inp, Name(name), mid);
      BangComplete(nonNull, mid, rest);
    case ListRef(inner, nonNull) =>
      var in1 := Split(inp, [BracketL], RenderTypeRef(inner) + ([BracketR] + RenderBang(nonNull)), rest);
      var in2 := Split(in1, RenderTypeRef(inner), [BracketR] + RenderBang(nonNull), rest);
      var in3 := Split(in2, [BracketR], RenderBang(nonNull), rest);
      NextOver(inp, BracketL, in1);
      NextOver(in2, BracketR, in3);
      TypeRefComplete(inner, in1, in2);
      BangComplete(nonNull, in3, rest);
  }

  lemma DefaultComplete(default: Option<CValue>, inp: Input, rest: Input)
    requires Took(inp, RenderDefault(default), rest) && CanLex(rest) && !rest.At(Equals) && !rest.At(Bang)
    ensures ParseDefault(inp) == Success((default, rest)) && !inp.At(Bang)
  {
    match default
    case None => assert inp.toks == rest.toks;
    case Some(v) =>
      var mid := Split(inp, [Equals], RenderValue(v), rest);
      NextOver(inp, Equals, mid);
      ValueComplete(v, mid, rest);
  }

  lemma VariableDefComplete(d: CVariableDef, inp: Input, rest: Input)
    requires Took(inp, RenderVariableDef(d), rest) && CanLex(rest) && !rest.At(Equals) && !rest.At(Bang)
    ensures inp.At(Dollar) && ParseVariableDef(inp) == Success((d, rest))
  {
    var tail := RenderTypeRef(d.typ) + RenderDefault(d.default);
    var in1 := Split(inp, [Dollar], [Name(d.name)] + ([Colon] + tail), rest);
    var in2 := Split(in1, [Name(d.name)], [Colon] + tail, rest);
    var in3 := Split(in2, [Colon], tail, rest);
    var in4 := Split(in3, RenderTypeRef(d.typ), RenderDefault(d.default), rest);
    NextOver(inp, Dollar, in1);
    NextOver(in1, Name(d.name), in2);
    NextOver(in2, Colon, in3);
    DefaultComplete(d.default, in4, rest);
    TypeRefComplete(d.typ, in3, in4);
  }

  lemma VariableDefsStart(ds: seq<CVariableDef>, inp: Input, rest: Input)
    requires Took(inp, RenderVariableDefs(ds), rest)
    ensures inp.At(if ds == [] then ParenR else Dollar)
  {
    if ds != [] {
      assert RenderVariableDef(ds[0])[0] == Dollar;
    }
    StartsWith(inp, RenderVariableDefs(ds), rest);
  }

  lemma VariableDefsCons(inp: Input, d: CVariableDef, mid: Input, ds: seq<CVariableDef>, rest: Input)
    requires !inp.At(ParenR) && ParseVariableDef(inp) == Success((d, mid)) && ParseVariableDefs(mid) == Success((ds, rest))
    ensures ParseVariableDefs(inp) == Success(([d] + ds, rest))
  {
  }

  lemma {:induction false} VariableDefsComplete(ds: seq<CVariableDef>, inp: Input, rest: Input)
    requires Took(inp, RenderVariableDefs(ds), rest) && CanLex(rest)
    ensures ParseVariableDefs(inp) == Success((ds, rest))
    decreases |ds|
  {
    VariableDefsStart(ds, inp, rest);
    if ds == [] {
      NextOver(inp, ParenR, rest);
    } else {
      var mid := Split(inp, RenderVariableDef(ds[0]), RenderVariableDefs(ds[1..]), rest);
      VariableDefsStart(ds[1..], mid, rest);
      VariableDefComplete(ds[0], inp, mid);
      VariableDefsComplete(ds[1..], mid, rest);
      VariableDefsCons(inp, ds[0], mid, ds[1..], rest);
      assert ds == [ds[0]] + ds[1..];
    }
  }

  lemma VariablesComplete(vars: Option<seq<CVariableDef>>, inp: Input, rest: Input)
    requires Took(inp, RenderVariables(vars), rest) && CanLex(rest) && rest.At(BraceL)
    ensures ParseOptionalVariables(inp) == Success((vars, rest)) && !inp.AtName()
  {
    match vars
    case None => assert inp.toks == rest.toks;
    case Some(ds) =>
      var mid := Split(inp, [ParenL], RenderVariableDefs(ds), rest);
      NextOver(inp, ParenL, mid);
      VariableDefsComplete(ds, mid, rest);
  }

  lemma OptionalNameComplete(name: Option<string>, inp: Input, rest: Input)
    requires Took(inp, RenderName(name), rest) && CanLex(rest) && !rest.AtName()
    ensures ParseOptionalName(inp) == Success((name, rest))
  {
    match name
    case None => assert inp.toks == rest.toks;
    case Some(n) => NextOver(inp, Name(n), rest);
  }

  lemma OperationComplete(d: CDefinition, inp: Input, rest: Input)
    requires d.COperation? && ProperDefinition(d)
    requires Took(inp, RenderDefinition(d), rest) && CanLex(rest)
    ensures inp.At(Name(Keyword(d.kind))) && ParseOperation(inp, d.kind) == Success((d, rest))
  {
    var tail := [BraceL] + RenderSelections(d.selSet);
    var in1 := Split(inp, [Name(Keyword(d.kind))], RenderName(d.opName) + (RenderVariables(d.variables) + tail), rest);
    var in2 := Split(in1, RenderName(d.opName), RenderVariables(d.variables) + tail, rest);
    var in3 := Split(in2, RenderVariables(d.variables), tail, rest);
    NextOver(inp, Name(Keyword(d.kind)), in1);
    BracedSetComplete(d.selSet, in3, rest);
    VariablesComplete(d.variables, in2, in3);
    OptionalNameComplete(d.opName, in1, in2);
  }

  lemma FragmentDefComplete(d: CDefinition, inp: Input, rest: Input)
    requires d.CFragment? && ProperDefinition(d)
    requires Took(inp, RenderDefinition(d), rest) && CanLex(rest)
    ensures inp.At(Name("fragment")) && ParseFragmentDef(inp) == Success((d, rest))
  {
    var tail := [BraceL] + RenderSelections(d.selSet);
    var in1 := Split(inp, [Name("fragment")], [Name(d.name)] + ([Name("on")] + ([Name(d.typeOn)] + tail)), rest);
    var in2 := Split(in1, [Name(d.name)], [Name("on")] + ([Name(d.typeOn)] + tail), rest);
    var in3 := Split(in2, [Name("on")], [Name(d.typeOn)] + tail, rest);
    var in4 := Split(in3, [Name(d.typeOn)], tail, rest);
    NextOver(inp, Name("fragment"), in1);
    NextOver(in1, Name(d.name), in2);
    NextOver(in2, Name("on"), in3);
    NextOver(in3, Name(d.typeOn), in4);
    BracedSetComplete(d.selSet, in4, rest);
  }

  lemma KeywordsDiffer()
    ensures "query" != "mutation" && "query" != "fragment" && "mutation" != "fragment"
  {
    assert "query"[0] != "mutation"[0] && "query"[0] != "fragment"[0] && "mutation"[0] != "fragment"[0];
  }

  lemma DefinitionComplete(d: CDefinition, inp: Input, rest: Input)
    requires ProperDefinition(d)
    requires Took(inp, RenderDefinition(d), rest) && CanLex(rest)
    ensures inp.toks != [] && ParseDefinition(inp) == Success((d, rest))
  {
    if d.CShorthand? {
      BracedSetComplete(d.selSet, inp, rest);
    } else if d.COperation? {
      OperationComplete(d, inp, rest);
      OperationIsDispatched(d.kind, inp);
    } else {
      FragmentDefComplete(d, inp, rest);
      FragmentIsDispatched(inp);
    }
  }

  lemma OperationIsDispatched(kind: OperationKind, inp: Input)
    requires inp.At(Name(Keyword(kind)))
    ensures ParseDefinition(inp) == ParseOperation(inp, kind)
  {
    KeywordsDiffer();
  }

  lemma FragmentIsDispatched(inp: Input)
    requires inp.At(Name("fragment"))
    ensures ParseDefinition(inp) == ParseFragmentDef(inp)
  {
    KeywordsDiffer();
  }

  lemma DefinitionsCons(inp: Input, d: CDefinition, mid: Input, ds: seq<CDefinition>, rest: Input)
    requires inp.toks != [] && ParseDefinition(inp) == Success((d, mid)) && ParseDefinitions(mid) == Success((ds, rest))
    ensures ParseDefinitions(inp) == Success(([d] + ds, rest))
  {
  }

  lemma {:induction false} DefinitionsComplete(ds: seq<CDefinition>, inp: Input, rest: Input)
    requires ProperDefinitions(ds)
    requires Took(inp, Render(ds), rest) && rest == Input([], Eof)
    ensures ParseDefinitions(inp) == Success((ds, rest))
    decreases |ds|
  {
    if ds == [] {
      assert inp.toks == [];
    } else {
      var mid := Split(inp, RenderDefinition(ds[0]), Render(ds[1..]), rest);
      DefinitionComplete(ds[0], inp, mid);
      DefinitionsComplete(ds[1..], mid, rest);
      DefinitionsCons(inp, ds[0], mid, ds[1..], rest);
      assert ds == [ds[0]] + ds[1..];
    }
  }

  /** The grammar, exactly: a token sequence parses if and only if it is the rendering of a proper
      syntax tree, and then it parses to that tree. In particular no two trees look the same. */
  lemma ParsesExactlyRenderings(src: seq<Token>, ds: seq<CDefinition>)
    ensures ParseDefinitions(Input(src, Eof)) == Success((ds, Input([], Eof))) <==> ProperDefinitions(ds) && Render(ds) == src
  {
    var inp, rest := Input(src, Eof), Input([], Eof);
    if ProperDefinitions(ds) && Render(ds) == src {
      DefinitionsComplete(ds, inp, rest);
    }
    assert Render(ds) + [] == Render(ds);
  }

  lemma RenderIsInjective(a: seq<CDefinition>, b: seq<CDefinition>)
    requires ProperDefinitions(a) && ProperDefinitions(b) && Render(a) == Render(b)
    ensures a == b
  {
    ParsesExactlyRenderings(Render(a), a);
    ParsesExactlyRenderings(Render(a), b);
  }
}
