/** What the parser accepts beyond the grammar of the GraphQL specification (section 2, without
    directives and subscriptions), and exactly when it does (graphql/parser.go). */
module StandardSyntax {
  import opened Prelude
  import opened GraphqlAst
  import opened GraphqlSyntax
  import opened ParserSpec
  import opened ParserCompleteness

  /** No variable occurs in the value. */
  predicate ConstantValue(v: CValue) {
    match v
    case CVariable(_) => false
    case CList(items) => forall i | 0 <= i < |items| :: ConstantValue(items[i])
    case CObject(fields) => forall i | 0 <= i < |fields| :: ConstantValue(fields[i].value)
    case _ => true
  }

  /** Argument lists and selection sets are not empty, and a brace opens every inline fragment. */
  predicate StandardSelection(s: CSelection) {
    match s
    case CField(_, _, args, selSet) => (args.Arguments? ==> args.entries != []) && (selSet.Set? ==> StandardSet(selSet.sels))
    case CInline(_, opener, inner) => opener == BraceL && StandardSet(inner)
    case CSpread(_) => true
  }

  predicate StandardSet(ss: seq<CSelection>) {
    ss != [] && forall i | 0 <= i < |ss| :: StandardSelection(ss[i])
  }

  /** Variable lists are not empty, and defaults are constant. */
  predicate StandardDefinition(d: CDefinition) {
    && StandardSet(d.selSet)
    && (d.COperation? ==> StandardVariables(d.variables))
  }

  predicate StandardVariables(variables: Option<seq<CVariableDef>>) {
    variables.Some? ==>
      && variables.value != []
      && forall i | 0 <= i < |variables.value| :: ConstantDefault(variables.value[i])
  }

  predicate Standard(ds: seq<CDefinition>) {
    ds != [] && forall i | 0 <= i < |ds| :: StandardDefinition(ds[i])
  }

  // ---- The same on the tokens ----

  /** Parentheses do not nest: they enclose arguments or variable definitions, where a default may
      have come up. */
  datatype Place = Outside | Inside | Defaults

  predicate Begins(ts: seq<Token>, t: Token) {
    ts != [] && ts[0] == t
  }

  /** "...on T" is followed by a brace. */
  predicate FragmentIsBraced(ts: seq<Token>) {
    |ts| > 1 && ts[1] == Name("on") ==> |ts| > 3 && ts[3] == BraceL
  }

  /** Nothing stands out in a scan of the tokens: no empty parentheses, no empty braces outside of
      parentheses, no type condition without a brace after it, and no dollar sign behind a default
      except to define the next variable. */
  predicate Clean(ts: seq<Token>, place: Place) {
    if ts == [] then true
    else
      match ts[0]
      case ParenL => !Begins(ts[1..], ParenR) && Clean(ts[1..], Inside)
      case ParenR => Clean(ts[1..], Outside)
      case Equals => Clean(ts[1..], Defaults)
      case BraceL => (place == Outside ==> !Begins(ts[1..], BraceR)) && Clean(ts[1..], place)
      case Dollar => (place == Defaults ==> |ts| > 2 && ts[2] == Colon) && Clean(ts[1..], place)
      case Spread => FragmentIsBraced(ts) && Clean(ts[1..], place)
      case _ => Clean(ts[1..], place)
  }

  lemma CleanHead(t: Token, rest: seq<Token>, place: Place)
    ensures t == ParenL ==> (Clean([t] + rest, place) <==> !Begins(rest, ParenR) && Clean(rest, Inside))
    ensures t == ParenR ==> (Clean([t] + rest, place) <==> Clean(rest, Outside))
    ensures t == Equals ==> (Clean([t] + rest, place) <==> Clean(rest, Defaults))
    ensures t == BraceL ==> (Clean([t] + rest, place) <==> (place == Outside ==> !Begins(rest, BraceR)) && Clean(rest, place))
    ensures t == Dollar ==> (Clean([t] + rest, place) <==> (place == Defaults ==> |rest| > 1 && rest[1] == Colon) && Clean(rest, place))
    ensures t == Spread ==> (Clean([t] + rest, place) <==> FragmentIsBraced([t] + rest) && Clean(rest, place))
    ensures Plain(t) ==> (Clean([t] + rest, place) <==> Clean(rest, place))
  {
    assert ([t] + rest)[1..] == rest;
  }

  lemma Regroup(a: seq<Token>, b: seq<Token>, c: seq<Token>)
    ensures a + b + c == a + (b + c)
  {
  }

  predicate Plain(t: Token) {
    match t
    case ParenL => false
    case ParenR => false
    case Equals => false
    case BraceL => false
    case Dollar => false
    case Spread => false
    case _ => true
  }

  lemma {:induction false} PlainClean(plain: seq<Token>, rest: seq<Token>, place: Place)
    requires forall t | t in plain :: Plain(t)
    ensures Clean(plain + rest, place) <==> Clean(rest, place)
    decreases |plain|
  {
    if plain == [] {
      assert plain + rest == rest;
    } else {
      assert plain[0] in plain;
      PlainClean(plain[1..], rest, place);
      assert (plain + rest)[1..] == plain[1..] + rest;
    }
  }

  predicate ConstantValues(vs: seq<CValue>) {
    forall i | 0 <= i < |vs| :: ConstantValue(vs[i])
  }

  predicate ConstantEntries(es: seq<CEntry>) {
    forall i | 0 <= i < |es| :: ConstantValue(es[i].value)
  }

  /** Within parentheses a value stands out exactly when it is part of a default and not constant. */
  lemma {:induction false} ValueClean(v: CValue, rest: seq<Token>, place: Place)
    requires place != Outside && !Begins(rest, Colon)
    ensures Clean(RenderValue(v) + rest, place) <==> (place == Defaults ==> ConstantValue(v)) && Clean(rest, place)
    decreases v, 0
  {
    match v
    case CVariable(n) =>
      CleanHead(Name(n), rest, place);
      CleanHead(Dollar, [Name(n)] + rest, place);
      Regroup([Dollar], [Name(n)], rest);
    case CList(items) =>
      ItemsClean(items, rest, place);
      CleanHead(BracketL, RenderItems(items) + rest, place);
      Regroup([BracketL], RenderItems(items), rest);
    case CObject(fields) =>
      EntriesClean(fields, BraceR, rest, place);
      CleanHead(BraceL, RenderEntries(fields, BraceR) + rest, place);
      Regroup([BraceL], RenderEntries(fields, BraceR), rest);
    case CInt(t) => CleanHead(IntToken(t), rest, place);
    case CFloat(t) => CleanHead(FloatToken(t), rest, place);
    case CString(t) => CleanHead(StringToken(t), rest, place);
    case CName(t) => CleanHead(Name(t), rest, place);
  }

  lemma {:induction false} ItemsClean(vs: seq<CValue>, rest: seq<Token>, place: Place)
    requires place != Outside
    ensures Clean(RenderItems(vs) + rest, place) <==> (place == Defaults ==> ConstantValues(vs)) && Clean(rest, place)
    decreases vs, 1
  {
    if vs == [] {
      CleanHead(BracketR, rest, place);
    } else {
      var more := RenderItems(vs[1..]) + rest;
      ItemsClean(vs[1..], rest, place);
      ItemsBegin(vs[1..], rest);
      ValueClean(vs[0], more, place);
      Regroup(RenderValue(vs[0]), RenderItems(vs[1..]), rest);
      assert vs == [vs[0]] + vs[1..];
    }
  }

  lemma ItemsBegin(vs: seq<CValue>, rest: seq<Token>)
    ensures !Begins(RenderItems(vs) + rest, Colon)
  {
    if vs != [] {
      assert RenderValue(vs[0]) != [];
    }
  }

  lemma {:induction false} EntriesClean(es: seq<CEntry>, close: Token, rest: seq<Token>, place: Place)
    requires place != Outside && (close == BraceR || close == ParenR)
    ensures Clean(RenderEntries(es, close) + rest, place)
       <==> (place == Defaults ==> ConstantEntries(es)) && Clean(rest, if close == ParenR then Outside else place)
    decreases es, 1
  {
    if es == [] {
      CleanHead(close, rest, place);
    } else {
      var more := RenderEntries(es[1..], close) + rest;
      EntriesClean(es[1..], close, rest, place);
      ValueClean(es[0].value, more, place);
      EntryClean(es[0], more, place);
      Regroup(RenderEntry(es[0]), RenderEntries(es[1..], close), rest);
      assert es == [es[0]] + es[1..];
    }
  }

  lemma EntryClean(e: CEntry, rest: seq<Token>, place: Place)
    ensures Clean(RenderEntry(e) + rest, place) <==> Clean(RenderValue(e.value) + rest, place)
  {
    var plain := [Name(e.name), Colon];
    PlainClean(plain, RenderValue(e.value) + rest, place);
    Regroup(plain, RenderValue(e.value), rest);
    assert RenderEntry(e) == plain + RenderValue(e.value);
  }

  lemma ArgumentsClean(args: CArguments, rest: seq<Token>)
    ensures Clean(RenderArguments(args) + rest, Outside) <==> (args.Arguments? ==> args.entries != []) && Clean(rest, Outside)
  {
    match args
    case NoArguments => assert [] + rest == rest;
    case Arguments(es) =>
      EntriesClean(es, ParenR, rest, Inside);
      CleanHead(ParenL, RenderEntries(es, ParenR) + rest, Outside);
      Regroup([ParenL], RenderEntries(es, ParenR), rest);
  }

  /** A selection set behind its brace. */
  lemma {:induction false} BracedClean(ss: seq<CSelection>, rest: seq<Token>)
    requires ProperSelections(ss)
    ensures Clean([BraceL] + (RenderSelections(ss) + rest), Outside) <==> StandardSet(ss) && Clean(rest, Outside)
    decreases ss, 2
  {
    SelectionsClean(ss, rest);
    CleanHead(BraceL, RenderSelections(ss) + rest, Outside);
    if ss != [] {
      assert RenderSelection(ss[0]) != [] && RenderSelection(ss[0])[0] != BraceR;
    }
  }

  lemma {:induction false} SelectionsClean(ss: seq<CSelection>, rest: seq<Token>)
    requires ProperSelections(ss)
    ensures Clean(RenderSelections(ss) + rest, Outside)
       <==> (forall i | 0 <= i < |ss| :: StandardSelection(ss[i])) && Clean(rest, Outside)
    decreases ss, 1
  {
    if ss == [] {
      CleanHead(BraceR, rest, Outside);
    } else {
      var more := RenderSelections(ss[1..]) + rest;
      SelectionsClean(ss[1..], rest);
      SelectionClean(ss[0], more);
      Regroup(RenderSelection(ss[0]), RenderSelections(ss[1..]), rest);
      assert ss == [ss[0]] + ss[1..];
    }
  }

  /** The tokens of a field before its arguments. */
  function FieldNames(s: CSelection): seq<Token>
    requires s.CField?
  {
    if s.alias.Some? then [Name(s.alias.value), Colon, Name(s.name)] else [Name(s.name)]
  }

  lemma FieldText(s: CSelection, rest: seq<Token>)
    requires s.CField?
    ensures RenderSelection(s) + rest == FieldNames(s) + (RenderArguments(s.args) + (RenderSet(s.selSet) + rest))
  {
    var args, selSet := RenderArguments(s.args), RenderSet(s.selSet);
    Regroup(args, selSet, rest);
    Regroup(FieldNames(s), args + selSet, rest);
    assert RenderSelection(s) == FieldNames(s) + (args + selSet);
  }

  /** The tokens of an inline fragment between its dots and its opening token. */
  function InlineNames(typeOn: Option<string>): seq<Token> {
    if typeOn.Some? then [Name("on"), Name(typeOn.value)] else []
  }

  lemma InlineText(s: CSelection, rest: seq<Token>)
    requires s.CInline?
    ensures RenderSelection(s) + rest == [Spread] + (InlineNames(s.typeOn) + ([s.opener] + (RenderSelections(s.inner) + rest)))
  {
    var names, body := InlineNames(s.typeOn), [s.opener] + RenderSelections(s.inner);
    Regroup([s.opener], RenderSelections(s.inner), rest);
    Regroup(names, body, rest);
    Regroup([Spread], names + body, rest);
    assert RenderFragment(s) == names + body;
  }

  lemma {:induction false} SelectionClean(s: CSelection, rest: seq<Token>)
    requires ProperSelection(s)
    ensures Clean(RenderSelection(s) + rest, Outside) <==> StandardSelection(s) && Clean(rest, Outside)
    decreases s, 0
  {
    match s
    case CField(alias, name, args, selSet) =>
      SetClean(selSet, rest);
      ArgumentsClean(args, RenderSet(selSet) + rest);
      FieldText(s, rest);
      PlainClean(FieldNames(s), RenderArguments(args) + (RenderSet(selSet) + rest), Outside);
    case CInline(typeOn, opener, inner) =>
      BracedClean(inner, rest);
      InlineClean(typeOn, opener, RenderSelections(inner) + rest);
      InlineText(s, rest);
    case CSpread(name) =>
      CleanHead(Name(name), rest, Outside);
      CleanHead(Spread, [Name(name)] + rest, Outside);
      Regroup([Spread], [Name(name)], rest);
  }

  lemma SetClean(selSet: CSet, rest: seq<Token>)
    requires selSet.Set? ==> ProperSelections(selSet.sels)
    ensures Clean(RenderSet(selSet) + rest, Outside) <==> (selSet.Set? ==> StandardSet(selSet.sels)) && Clean(rest, Outside)
    decreases selSet, 3
  {
    match selSet
    case NoSet => assert [] + rest == rest;
    case Set(sels) =>
      BracedClean(sels, rest);
      Regroup([BraceL], RenderSelections(sels), rest);
  }

  lemma InlineClean(typeOn: Option<string>, opener: Token, rest: seq<Token>)
    requires typeOn.None? ==> opener == BraceL
    ensures Clean([Spread] + (InlineNames(typeOn) + ([opener] + rest)), Outside)
       <==> opener == BraceL && Clean([opener] + rest, Outside)
  {
    var names, body := InlineNames(typeOn), [opener] + rest;
    PlainClean(names, body, Outside);
    CleanHead(Spread, names + body, Outside);
    match typeOn
    case None => assert [] + body == body;
    case Some(t) => assert (names + body)[0] == Name("on") && (names + body)[2] == opener;
  }

  lemma {:induction false} TypeIsPlain(typ: TypeRef)
    ensures forall t | t in RenderTypeRef(typ) :: Plain(t)
  {
    if typ.ListRef? {
      TypeIsPlain(typ.inner);
    }
  }

  predicate ConstantDefault(d: CVariableDef) {
    d.default.Some? ==> ConstantValue(d.default.value)
  }

  lemma VariableDefClean(d: CVariableDef, rest: seq<Token>, place: Place)
    requires place != Outside && !Begins(rest, Colon)
    ensures Clean(RenderVariableDef(d) + rest, place)
       <==> ConstantDefault(d) && Clean(rest, if d.default.Some? then Defaults else place)
  {
    DefaultClean(d.default, rest, place);
    TypeIsPlain(d.typ);
    var default := RenderDefault(d.default) + rest;
    var plain := [Name(d.name), Colon];
    PlainClean(RenderTypeRef(d.typ), default, place);
    PlainClean(plain, RenderTypeRef(d.typ) + default, place);
    CleanHead(Dollar, plain + (RenderTypeRef(d.typ) + default), place);
    assert (plain + (RenderTypeRef(d.typ) + default))[1] == Colon;
    VariableDefText(d, rest);
  }

  lemma VariableDefText(d: CVariableDef, rest: seq<Token>)
    ensures RenderVariableDef(d) + rest == [Dollar] + ([Name(d.name), Colon] + (RenderTypeRef(d.typ) + (RenderDefault(d.default) + rest)))
  {
    var plain, typed := [Name(d.name), Colon], RenderTypeRef(d.typ) + RenderDefault(d.default);
    Regroup(RenderTypeRef(d.typ), RenderDefault(d.default), rest);
    Regroup(plain, typed, rest);
    Regroup([Dollar], plain + typed, rest);
    assert [Name(d.name)] + ([Colon] + typed) == plain + typed;
  }

  lemma DefaultClean(default: Option<CValue>, rest: seq<Token>, place: Place)
    requires place != Outside && !Begins(rest, Colon)
    ensures Clean(RenderDefault(default) + rest, place)
       <==> (default.Some? ==> ConstantValue(default.value)) && Clean(rest, if default.Some? then Defaults else place)
  {
    match default
    case None => assert [] + rest == rest;
    case Some(v) =>
      ValueClean(v, rest, Defaults);
      CleanHead(Equals, RenderValue(v) + rest, place);
      Regroup([Equals], RenderValue(v), rest);
  }

  lemma VariableDefsBegin(ds: seq<CVariableDef>, rest: seq<Token>)
    ensures !Begins(RenderVariableDefs(ds) + rest, Colon)
    ensures Begins(RenderVariableDefs(ds) + rest, ParenR) <==> ds == []
  {
  }

  lemma {:induction false} VariableDefsClean(ds: seq<CVariableDef>, rest: seq<Token>, place: Place)
    requires place != Outside
    ensures Clean(RenderVariableDefs(ds) + rest, place)
       <==> (forall i | 0 <= i < |ds| :: ConstantDefault(ds[i])) && Clean(rest, Outside)
    decreases |ds|
  {
    if ds == [] {
      CleanHead(ParenR, rest, place);
    } else {
      var more := RenderVariableDefs(ds[1..]) + rest;
      VariableDefsClean(ds[1..], rest, if ds[0].default.Some? then Defaults else place);
      VariableDefsBegin(ds[1..], rest);
      VariableDefClean(ds[0], more, place);
      Regroup(RenderVariableDef(ds[0]), RenderVariableDefs(ds[1..]), rest);
      assert ds == [ds[0]] + ds[1..];
    }
  }

  lemma VariablesClean(variables: Option<seq<CVariableDef>>, rest: seq<Token>)
    ensures Clean(RenderVariables(variables) + rest, Outside) <==> StandardVariables(variables) && Clean(rest, Outside)
  {
    match variables
    case None => assert [] + rest == rest;
    case Some(ds) =>
      VariableDefsClean(ds, rest, Inside);
      CleanHead(ParenL, RenderVariableDefs(ds) + rest, Outside);
      VariableDefsBegin(ds, rest);
      Regroup([ParenL], RenderVariableDefs(ds), rest);
  }

  lemma DefinitionClean(d: CDefinition, rest: seq<Token>)
    requires ProperDefinition(d)
    ensures Clean(RenderDefinition(d) + rest, Outside) <==> StandardDefinition(d) && Clean(rest, Outside)
  {
    var sels := [BraceL] + RenderSelections(d.selSet);
    BracedClean(d.selSet, rest);
    Regroup([BraceL], RenderSelections(d.selSet), rest);
    match d
    case CShorthand(_) =>
    case COperation(kind, name, variables, _) =>
      var plain := [Name(Keyword(kind))] + RenderName(name);
      VariablesClean(variables, sels + rest);
      PlainClean(plain, RenderVariables(variables) + (sels + rest), Outside);
      Regroup(RenderVariables(variables), sels, rest);
      Regroup(plain, RenderVariables(variables) + sels, rest);
      Regroup([Name(Keyword(kind))], RenderName(name), RenderVariables(variables) + sels);
    case CFragment(name, typeOn, _) =>
      var plain := [Name("fragment"), Name(name), Name("on"), Name(typeOn)];
      PlainClean(plain, sels + rest, Outside);
      Regroup(plain, sels, rest);
      FragmentText(name, typeOn, sels);
  }

  lemma FragmentText(name: string, typeOn: string, text: seq<Token>)
    ensures [Name("fragment")] + ([Name(name)] + ([Name("on")] + ([Name(typeOn)] + text)))
         == [Name("fragment"), Name(name), Name("on"), Name(typeOn)] + text
  {
  }

  lemma {:induction false} RenderClean(ds: seq<CDefinition>)
    requires ProperDefinitions(ds)
    ensures Clean(Render(ds), Outside) <==> forall i | 0 <= i < |ds| :: StandardDefinition(ds[i])
  {
    if ds != [] {
      RenderClean(ds[1..]);
      DefinitionClean(ds[0], Render(ds[1..]));
      assert ds == [ds[0]] + ds[1..];
    }
  }

  ghost predicate Parses(src: seq<Token>, ds: seq<CDefinition>) {
    ParseDefinitions(Input(src, Eof)) == Success((ds, Input([], Eof)))
  }

  /** Some derivation of the specification's grammar yields the source. */
  ghost predicate InGrammar(src: seq<Token>) {
    exists tree :: ProperDefinitions(tree) && Standard(tree) && Render(tree) == src
  }

  /** The parser accepts every source of the grammar. Of those it accepts, the sources of the grammar
      are the ones with some token in which nothing stands out, that is, the ones whose tree is
      standard. */
  lemma AcceptedInGrammarIffStandard(src: seq<Token>)
    ensures InGrammar(src) ==> exists ds :: Parses(src, ds)
    ensures (exists ds :: Parses(src, ds)) ==> (InGrammar(src) <==> src != [] && Clean(src, Outside))
    ensures forall ds | Parses(src, ds) :: InGrammar(src) <==> Standard(ds)
  {
    if InGrammar(src) {
      var tree :| ProperDefinitions(tree) && Standard(tree) && Render(tree) == src;
      ParsesExactlyRenderings(src, tree);
      assert Parses(src, tree);
    }
    forall ds | Parses(src, ds) ensures Standard(ds) ==> InGrammar(src) {
      ParsesExactlyRenderings(src, ds);
    }
    if ds :| Parses(src, ds) {
      ParsesExactlyRenderings(src, ds);
      RenderClean(ds);
      assert ds != [] ==> RenderDefinition(ds[0]) != [];
    }
  }

  lemma OneSelection(s: CSelection)
    requires ProperSelection(s)
    ensures ProperDefinitions([CShorthand([s])])
    ensures Render([CShorthand([s])]) == [BraceL] + RenderSelection(s) + [BraceR]
    ensures Standard([CShorthand([s])]) <==> StandardSelection(s)
  {
    var ds := [CShorthand([s])];
    assert [s][1..] == [] && [s][0] == s && ds[1..] == [] && ds[0].selSet == [s];
    assert RenderSelections([]) == [BraceR];
    assert RenderSelections([s]) == RenderSelection(s) + [BraceR];
    assert Render(ds) == [BraceL] + (RenderSelection(s) + [BraceR]) + [];
    assert StandardSet([s]) <==> StandardSelection(s);
    assert Standard(ds) <==> StandardDefinition(ds[0]);
  }

  /** "{ ... on T ] a } }" is accepted: a bracket opens the fragment. */
  lemma BracketOpensFragment()
    ensures var src := [BraceL, Spread, Name("on"), Name("T"), BracketR, Name("a"), BraceR, BraceR];
            var a := CField(None, "a", NoArguments, NoSet);
            Parses(src, [CShorthand([CInline(Some("T"), BracketR, [a])])]) && !InGrammar(src)
  {
    var src := [BraceL, Spread, Name("on"), Name("T"), BracketR, Name("a"), BraceR, BraceR];
    var a := CField(None, "a", NoArguments, NoSet);
    var s := CInline(Some("T"), BracketR, [a]);
    BracketFragment();
    OneSelection(s);
    assert [BraceL] + RenderSelection(s) + [BraceR] == src;
    ParsesExactlyRenderings(src, [CShorthand([s])]);
    AcceptedInGrammarIffStandard(src);
  }

  lemma BracketFragment()
    ensures var s := CInline(Some("T"), BracketR, [CField(None, "a", NoArguments, NoSet)]);
            ProperSelection(s) && RenderSelection(s) == [Spread, Name("on"), Name("T"), BracketR, Name("a"), BraceR]
  {
    var a := CField(None, "a", NoArguments, NoSet);
    var s := CInline(Some("T"), BracketR, [a]);
    assert [a][1..] == [] && [a][0] == a && RenderSelections([]) == [BraceR];
    assert RenderSelection(a) == [Name("a")];
    assert RenderSelections([a]) == [Name("a"), BraceR];
    assert RenderSelection(s) == [Spread] + ([Name("on")] + ([Name("T")] + ([BracketR] + [Name("a"), BraceR])));
  }

  /** "{ a() {} }" is accepted: the argument list and the selection set of a are empty. */
  lemma EmptyListsAreAccepted()
    ensures var src := [BraceL, Name("a"), ParenL, ParenR, BraceL, BraceR, BraceR];
            Parses(src, [CShorthand([CField(None, "a", Arguments([]), Set([]))])]) && !InGrammar(src)
  {
    var src := [BraceL, Name("a"), ParenL, ParenR, BraceL, BraceR, BraceR];
    var s := CField(None, "a", Arguments([]), Set([]));
    assert RenderSelections([]) == [BraceR] && RenderEntries([], ParenR) == [ParenR];
    assert RenderSelection(s) == [Name("a")] + (([ParenL] + [ParenR]) + ([BraceL] + [BraceR]));
    OneSelection(s);
    assert [BraceL] + RenderSelection(s) + [BraceR] == src;
    ParsesExactlyRenderings(src, [CShorthand([s])]);
    AcceptedInGrammarIffStandard(src);
  }
}
