/** The recursive-descent parser as the program runs it (graphql/parser.go): one token of
    lookahead, a count of the tokens taken, loops that append to slices and maps. Every method is
    proved to compute the grammar function of ParserSpec and to stop where it stops. */
module Parser {
  import opened Prelude
  import opened GraphqlAst
  import opened GraphqlSyntax
  import opened ParserSpec
  import opened ParserCompleteness

  /** What a parser under a token cap can get out of its lexer, and how that ends; a cap of zero
      or less is no cap. */
  function Capped(src: seq<Token>, lexFails: bool, maxTokens: int): Input {
    if 0 < maxTokens < |src| then Input(src[..maxTokens], TokenLimit)
    else Input(src, if lexFails then LexFailure else Eof)
  }

  // ---- What a loop has parsed so far, put before what is still to come ----

  ghost function Prepend<T>(done: seq<T>, p: Parsed<seq<T>>): Parsed<seq<T>> {
    match p
    case Success((rest, inp)) => Success((done + rest, inp))
    case Failure(e) => Failure(e)
  }

  lemma PrependNothing<T>(p: Parsed<seq<T>>)
    ensures Prepend([], p) == p
  {
    if p.Success? {
      assert [] + p.value.0 == p.value.0;
    }
  }

  lemma PrependOneMore<T>(done: seq<T>, x: T, p: Parsed<seq<T>>)
    ensures Prepend(done, Prepend([x], p)) == Prepend(done + [x], p)
  {
    if p.Success? {
      assert done + ([x] + p.value.0) == done + [x] + p.value.0;
    }
  }

  // ---- The meaning of a list grows with the list ----

  lemma {:induction false} MeanValuesSnoc(vs: seq<CValue>, v: CValue)
    ensures MeanValues(vs + [v]) == MeanValues(vs) + [MeanValue(v)]
  {
    if vs != [] {
      assert (vs + [v])[1..] == vs[1..] + [v];
      MeanValuesSnoc(vs[1..], v);
    }
  }

  lemma {:induction false} MeanEntriesSnoc(es: seq<CEntry>, e: CEntry)
    ensures MeanEntries(es + [e]) == MeanEntries(es)[e.name := MeanValue(e.value)]
  {
    if es == [] {
      assert (es + [e])[1..] == [];
    } else {
      assert (es + [e])[1..] == es[1..] + [e];
      MeanEntriesSnoc(es[1..], e);
    }
  }

  lemma {:induction false} MeanSelectionsSnoc(ss: seq<CSelection>, s: CSelection)
    ensures MeanSelections(ss + [s]) == MeanSelections(ss) + [MeanSelection(s)]
  {
    if ss != [] {
      assert (ss + [s])[1..] == ss[1..] + [s];
      MeanSelectionsSnoc(ss[1..], s);
    }
  }

  lemma {:induction false} MeanVariableDefsSnoc(ds: seq<CVariableDef>, d: CVariableDef)
    ensures MeanVariableDefs(ds + [d]) == MeanVariableDefs(ds) + [MeanVariableDef(d)]
  {
    if ds != [] {
      assert (ds + [d])[1..] == ds[1..] + [d];
      MeanVariableDefsSnoc(ds[1..], d);
    }
  }

  lemma {:induction false} AddDefinitionsSnoc(doc: Document, ds: seq<CDefinition>, d: CDefinition)
    ensures AddDefinitions(doc, ds + [d]) == AddDefinition(AddDefinitions(doc, ds), d)
    decreases |ds|
  {
    if ds == [] {
      assert (ds + [d])[1..] == [];
    } else {
      assert (ds + [d])[1..] == ds[1..] + [d];
      AddDefinitionsSnoc(AddDefinition(doc, ds[0]), ds[1..], d);
    }
  }

  // ---- One round of each loop, and its end ----

  lemma ItemsRound(start: Input, done: seq<CValue>, here: Input)
    requires ParseItems(start) == Prepend(done, ParseItems(here)) && here.toks != [] && !here.At(BracketR)
    ensures ParseValue(here).Failure? ==> ParseItems(start) == Failure(ParseValue(here).error)
    ensures ParseValue(here).Success? ==>
              var (item, next) := ParseValue(here).value;
              && |next.toks| < |here.toks|
              && ParseItems(start) == Prepend(done + [item], ParseItems(next))
              && MeanValues(done + [item]) == MeanValues(done) + [MeanValue(item)]
  {
    if ParseValue(here).Success? {
      var (item, next) := ParseValue(here).value;
      PrependOneMore(done, item, ParseItems(next));
      MeanValuesSnoc(done, item);
    }
  }

  lemma ItemsEnd(start: Input, done: seq<CValue>, here: Input)
    requires ParseItems(start) == Prepend(done, ParseItems(here)) && here.At(BracketR)
    ensures ParseItems(start) == match Next(here) case Success(next) => Success((done, next)) case Failure(e) => Failure(e)
  {
    assert done + [] == done;
  }

  lemma EntriesRound(start: Input, done: seq<CEntry>, here: Input, close: Token)
    requires !close.Name? && ParseEntries(start, close) == Prepend(done, ParseEntries(here, close)) && !here.At(close)
    ensures ParseEntry(here).Failure? ==> ParseEntries(start, close) == Failure(ParseEntry(here).error)
    ensures ParseEntry(here).Success? ==>
              var (item, next) := ParseEntry(here).value;
              && |next.toks| < |here.toks|
              && ParseEntries(start, close) == Prepend(done + [item], ParseEntries(next, close))
              && MeanEntries(done + [item]) == MeanEntries(done)[item.name := MeanValue(item.value)]
  {
    if ParseEntry(here).Success? {
      var (item, next) := ParseEntry(here).value;
      PrependOneMore(done, item, ParseEntries(next, close));
      MeanEntriesSnoc(done, item);
    }
  }

  lemma EntriesEnd(start: Input, done: seq<CEntry>, here: Input, close: Token)
    requires !close.Name? && ParseEntries(start, close) == Prepend(done, ParseEntries(here, close)) && here.At(close)
    ensures ParseEntries(start, close) == match Next(here) case Success(next) => Success((done, next)) case Failure(e) => Failure(e)
  {
    assert done + [] == done;
  }

  lemma SelectionsRound(start: Input, done: seq<CSelection>, here: Input)
    requires ParseSelections(start) == Prepend(done, ParseSelections(here)) && here.toks != [] && !here.At(BraceR)
    ensures ParseSelection(here).Failure? ==> ParseSelections(start) == Failure(ParseSelection(here).error)
    ensures ParseSelection(here).Success? ==>
              var (item, next) := ParseSelection(here).value;
              && |next.toks| < |here.toks|
              && ParseSelections(start) == Prepend(done + [item], ParseSelections(next))
              && MeanSelections(done + [item]) == MeanSelections(done) + [MeanSelection(item)]
  {
    if ParseSelection(here).Success? {
      var (item, next) := ParseSelection(here).value;
      PrependOneMore(done, item, ParseSelections(next));
      MeanSelectionsSnoc(done, item);
    }
  }

  lemma SelectionsEnd(start: Input, done: seq<CSelection>, here: Input)
    requires ParseSelections(start) == Prepend(done, ParseSelections(here)) && here.At(BraceR)
    ensures ParseSelections(start) == match Next(here) case Success(next) => Success((done, next)) case Failure(e) => Failure(e)
  {
    assert done + [] == done;
  }

  lemma VariableDefsRound(start: Input, done: seq<CVariableDef>, here: Input)
    requires ParseVariableDefs(start) == Prepend(done, ParseVariableDefs(here)) && !here.At(ParenR)
    ensures ParseVariableDef(here).Failure? ==> ParseVariableDefs(start) == Failure(ParseVariableDef(here).error)
    ensures ParseVariableDef(here).Success? ==>
              var (item, next) := ParseVariableDef(here).value;
              && |next.toks| < |here.toks|
              && ParseVariableDefs(start) == Prepend(done + [item], ParseVariableDefs(next))
              && MeanVariableDefs(done + [item]) == MeanVariableDefs(done) + [MeanVariableDef(item)]
  {
    if ParseVariableDef(here).Success? {
      var (item, next) := ParseVariableDef(here).value;
      PrependOneMore(done, item, ParseVariableDefs(next));
      MeanVariableDefsSnoc(done, item);
    }
  }

  lemma VariableDefsEnd(start: Input, done: seq<CVariableDef>, here: Input)
    requires ParseVariableDefs(start) == Prepend(done, ParseVariableDefs(here)) && here.At(ParenR)
    ensures ParseVariableDefs(start) == match Next(here) case Success(next) => Success((done, next)) case Failure(e) => Failure(e)
  {
    assert done + [] == done;
  }

  lemma DefinitionsRound(start: Input, done: seq<CDefinition>, here: Input)
    requires ParseDefinitions(start) == Prepend(done, ParseDefinitions(here)) && here.toks != []
    ensures ParseDefinition(here).Failure? ==> ParseDefinitions(start) == Failure(ParseDefinition(here).error)
    ensures ParseDefinition(here).Success? ==>
              var (item, next) := ParseDefinition(here).value;
              && |next.toks| < |here.toks|
              && ParseDefinitions(start) == Prepend(done + [item], ParseDefinitions(next))
              && Mean(done + [item]) == AddDefinition(Mean(done), item)
  {
    if ParseDefinition(here).Success? {
      var (item, next) := ParseDefinition(here).value;
      PrependOneMore(done, item, ParseDefinitions(next));
      AddDefinitionsSnoc(EMPTY, done, item);
    }
  }

  /** The parser's three moving fields over its fixed input. The ghost field here is the current
      token and everything after it. */
  class Parser {
    const src: seq<Token>
    const lexFails: bool
    const maxTokens: int
    var pos: nat
    var tok: Option<Token>
    var tokens: nat
    ghost const whole: Input
    ghost var here: Input

    constructor (src: seq<Token>, lexFails: bool, maxTokens: int)
      ensures this.src == src && this.lexFails == lexFails && this.maxTokens == maxTokens
      ensures whole == Capped(src, lexFails, maxTokens)
      ensures Counted() && pos == 0
    {
      this.src, this.lexFails, this.maxTokens := src, lexFails, maxTokens;
      pos, tok, tokens := 0, None, 0;
      whole := Capped(src, lexFails, maxTokens);
    }

    /** Every token handed over was counted, and the cap has not been hit. */
    ghost predicate Counted()
      reads this
    {
      tokens == pos <= |whole.toks| && whole == Capped(src, lexFails, maxTokens)
    }

    /** The parser looks at the last token handed over, or at the end of the file. */
    ghost predicate Valid()
      reads this
    {
      && Counted()
      && here.end == whole.end
      && match tok
         case None => here.toks == [] && pos == |whole.toks| && whole.end == Eof
         case Some(t) => 0 < pos && here.toks == whole.toks[pos - 1..] && here.At(t)
    }

    ghost predicate StandsAt(inp: Input)
      reads this
    {
      Valid() && here == inp
    }

    method LexNext() returns (r: Result<Option<Token>, ParseError>)
      requires Counted()
      modifies this`pos, this`tokens
      ensures old(pos) < |whole.toks| ==> r == Success(Some(whole.toks[old(pos)])) && Counted() && pos == old(pos) + 1
      ensures old(pos) == |whole.toks| && whole.end == Eof ==> r == Success(None) && Counted() && pos == old(pos)
      ensures old(pos) == |whole.toks| && whole.end != Eof ==> r == Failure(EndError(whole.end))
    {
      if pos == |src| {
        if lexFails {
          return Failure(LexError);
        }
        return Success(None);
      }
      var t := src[pos];
      pos := pos + 1;
      tokens := tokens + 1;
      if maxTokens > 0 && tokens > maxTokens {
        return Failure(LimitError);
      }
      return Success(Some(t));
    }

    /** The first token. */
    method Start() returns (r: Outcome<ParseError>)
      requires Counted() && pos == 0
      modifies this
      ensures if CanLex(whole) then r == Pass && StandsAt(whole) else r == Fail(EndError(whole.end))
    {
      var t := LexNext();
      if t.Failure? {
        return Fail(t.error);
      }
      tok, here := t.value, whole;
      return Pass;
    }

    /** The next token. */
    method Advance() returns (r: Outcome<ParseError>)
      requires Valid()
      modifies this
      ensures r.Pass? ==> Next(old(here)) == Success(here) && Valid()
      ensures r.Fail? ==> Next(old(here)) == Failure(r.error)
    {
      var t := LexNext();
      if t.Failure? {
        return Fail(t.error);
      }
      here := Input(if tok.None? then [] else here.toks[1..], here.end);
      tok := t.value;
      return Pass;
    }

    method Expect(k: Token) returns (r: Outcome<ParseError>)
      requires Valid()
      modifies this
      ensures r.Pass? ==> ParserSpec.Expect(old(here), k) == Success(here) && Valid()
      ensures r.Fail? ==> ParserSpec.Expect(old(here), k) == Failure(r.error)
    {
      if tok != Some(k) {
        return Fail(SyntaxError);
      }
      r := Advance();
    }

    /** A name is required: the shared shape of "if kind is not a name, fail; take it; next". */
    method TakeName() returns (r: Result<string, ParseError>)
      requires Valid()
      modifies this
      ensures r.Success? ==> ExpectName(old(here)) == Success((r.value, here)) && Valid()
      ensures r.Failure? ==> ExpectName(old(here)) == Failure(r.error)
    {
      if tok.None? || !tok.value.Name? {
        return Failure(SyntaxError);
      }
      var name := tok.value.text;
      :- Advance();
      return Success(name);
    }

    // ---- Values ----

    method ParseValue() returns (r: Result<Value, ParseError>)
      requires Valid()
      modifies this
      ensures var p := ParserSpec.ParseValue(old(here));
              if p.Success? then r == Success(MeanValue(p.value.0)) && StandsAt(p.value.1) else r == Failure(p.error)
      decreases |here.toks|, 1
    {
      match tok {
        case Some(Dollar) => r := ParseVariable();
        case Some(BracketL) => r := ParseListValue();
        case Some(BraceL) => r := ParseObjectValue();
        case _ => r := ParseLeaf();
      }
    }

    method ParseVariable() returns (r: Result<Value, ParseError>)
      requires Valid() && here.At(Dollar)
      modifies this
      ensures var p := ParserSpec.ParseVariable(old(here));
              if p.Success? then r == Success(VariableValue(p.value.0.name)) && StandsAt(p.value.1) else r == Failure(p.error)
    {
      var taken := Advance();
      if taken.Fail? {
        return Failure(taken.error);
      }
      var name :- TakeName();
      return Success(VariableValue(name));
    }

    method ParseLeaf() returns (r: Result<Value, ParseError>)
      requires Valid()
      modifies this
      ensures var p := ParserSpec.ParseLeaf(old(here));
              if p.Success? then r == Success(MeanValue(p.value.0)) && StandsAt(p.value.1) else r == Failure(p.error)
    {
      var v: Value;
      match tok {
        case Some(IntToken(t)) => v := IntValue(t);
        case Some(FloatToken(t)) => v := FloatValue(t);
        case Some(StringToken(t)) => v := StringValue(t);
        case Some(Name(t)) => v := WordValue(t);
        case _ => return Failure(SyntaxError);
      }
      :- Advance();
      return Success(v);
    }

    method ParseListValue() returns (r: Result<Value, ParseError>)
      requires Valid() && here.At(BracketL)
      modifies this
      ensures var p := ParseList(old(here));
              if p.Success? then r == Success(MeanValue(p.value.0)) && StandsAt(p.value.1) else r == Failure(p.error)
      decreases |here.toks|, 0
    {
      var taken := Advance();
      if taken.Fail? {
        return Failure(taken.error);
      }
      var items :- ItemsUpTo();
      return Success(ListValue(items));
    }

    method ItemsUpTo() returns (r: Result<seq<Value>, ParseError>)
      requires Valid()
      modifies this
      ensures var p := ParseItems(old(here));
              if p.Success? then r == Success(MeanValues(p.value.0)) && StandsAt(p.value.1) else r == Failure(p.error)
      decreases |here.toks|, 2
    {
      ghost var start := here;
      var items: seq<Value> := [];
      ghost var done: seq<CValue> := [];
      PrependNothing(ParseItems(start));
      while tok != Some(BracketR)
        invariant Valid() && |here.toks| <= |start.toks|
        invariant ParseItems(start) == Prepend(done, ParseItems(here))
        invariant items == MeanValues(done)
        decreases |here.toks|
      {
        if tok.None? {
          return Failure(SyntaxError);
        }
        ghost var at := here;
        ItemsRound(start, done, at);
        var item :- ParseValue();
        items, done := items + [item], done + [ParserSpec.ParseValue(at).value.0];
      }
      ItemsEnd(start, done, here);
      :- Advance();
      return Success(items);
    }

    method ParseObjectValue() returns (r: Result<Value, ParseError>)
      requires Valid() && here.At(BraceL)
      modifies this
      ensures var p := ParseObject(old(here));
              if p.Success? then r == Success(MeanValue(p.value.0)) && StandsAt(p.value.1) else r == Failure(p.error)
      decreases |here.toks|, 0
    {
      var taken := Advance();
      if taken.Fail? {
        return Failure(taken.error);
      }
      var fields :- EntriesUpTo(BraceR);
      return Success(ObjectValue(fields));
    }

    method ParseArguments() returns (r: Result<map<string, Value>, ParseError>)
      requires Valid() && here.At(ParenL)
      modifies this
      ensures var p := ParserSpec.ParseArguments(old(here));
              if p.Success? then r == Success(MeanEntries(p.value.0.entries)) && StandsAt(p.value.1) else r == Failure(p.error)
    {
      var taken := Advance();
      if taken.Fail? {
        return Failure(taken.error);
      }
      r := EntriesUpTo(ParenR);
    }

    /** The loop of arguments and of input objects: they differ in the closing token alone. */
    method EntriesUpTo(close: Token) returns (r: Result<map<string, Value>, ParseError>)
      requires Valid() && !close.Name?
      modifies this
      ensures var p := ParserSpec.ParseEntries(old(here), close);
              if p.Success? then r == Success(MeanEntries(p.value.0)) && StandsAt(p.value.1) else r == Failure(p.error)
      decreases |here.toks|, 3
    {
      ghost var start := here;
      var entries: map<string, Value> := map[];
      ghost var done: seq<CEntry> := [];
      PrependNothing(ParserSpec.ParseEntries(start, close));
      while tok != Some(close)
        invariant Valid() && |here.toks| <= |start.toks|
        invariant ParserSpec.ParseEntries(start, close) == Prepend(done, ParserSpec.ParseEntries(here, close))
        invariant entries == MeanEntries(done)
        decreases |here.toks|
      {
        ghost var at := here;
        EntriesRound(start, done, at, close);
        var name, value :- ParseEntry();
        entries, done := entries[name := value], done + [ParserSpec.ParseEntry(at).value.0];
      }
      EntriesEnd(start, done, here, close);
      :- Advance();
      return Success(entries);
    }

    /** One "name: value". */
    method ParseEntry() returns (r: Result<string, ParseError>, value: Value)
      requires Valid()
      modifies this
      ensures var p := ParserSpec.ParseEntry(old(here));
              if p.Success? then r == Success(p.value.0.name) && value == MeanValue(p.value.0.value) && StandsAt(p.value.1)
              else r == Failure(p.error)
      decreases |here.toks|, 2
    {
      value := NullValue;
      var name := TakeName();
      if name.Failure? {
        return name, value;
      }
      var colon := Expect(Colon);
      if colon.Fail? {
        return Failure(colon.error), value;
      }
      var v := ParseValue();
      if v.Failure? {
        return Failure(v.error), value;
      }
      return name, v.value;
    }

    // ---- Selections ----

    method ParseSelectionSet() returns (r: Result<seq<Selection>, ParseError>)
      requires Valid()
      modifies this
      ensures var p := ParserSpec.ParseSelectionSet(old(here));
              if p.Success? then r == Success(MeanSelections(p.value.0)) && StandsAt(p.value.1) else r == Failure(p.error)
      decreases |here.toks|, 0
    {
      var taken := Advance();
      if taken.Fail? {
        return Failure(taken.error);
      }
      ghost var start := here;
      var sels: seq<Selection> := [];
      ghost var done: seq<CSelection> := [];
      PrependNothing(ParseSelections(start));
      while tok != Some(BraceR)
        invariant Valid() && |here.toks| <= |start.toks|
        invariant ParseSelections(start) == Prepend(done, ParseSelections(here))
        invariant sels == MeanSelections(done)
        decreases |here.toks|
      {
        if tok.None? {
          return Failure(SyntaxError);
        }
        ghost var at := here;
        SelectionsRound(start, done, at);
        var sel: Selection;
        if tok == Some(Spread) {
          sel :- ParseFragment();
        } else {
          sel :- ParseField();
        }
        sels, done := sels + [sel], done + [ParseSelection(at).value.0];
      }
      SelectionsEnd(start, done, here);
      :- Advance();
      return Success(sels);
    }

    method ParseFragment() returns (r: Result<Selection, ParseError>)
      requires Valid() && here.At(Spread)
      modifies this
      ensures var p := ParserSpec.ParseFragment(old(here));
              if p.Success? then r == Success(MeanSelection(p.value.0)) && StandsAt(p.value.1) else r == Failure(p.error)
      decreases |here.toks|, 1
    {
      var taken := Advance();
      if taken.Fail? {
        return Failure(taken.error);
      }
      r := AfterSpread();
    }

    method AfterSpread() returns (r: Result<Selection, ParseError>)
      requires Valid()
      modifies this
      ensures var p := ParseAfterSpread(old(here));
              if p.Success? then r == Success(MeanSelection(p.value.0)) && StandsAt(p.value.1) else r == Failure(p.error)
      decreases |here.toks|, 2
    {
      if tok == Some(Name("on")) {
        :- Advance();
        r := TypedInline();
      } else if tok == Some(BraceL) {
        var sels :- ParseSelectionSet();
        return Success(InlineFragment("", sels));
      } else {
        var name :- TakeName();
        return Success(FragmentSpread(name));
      }
    }

    /** A type condition and a selection set, whatever token opens it. */
    method TypedInline() returns (r: Result<Selection, ParseError>)
      requires Valid()
      modifies this
      ensures var p := ParseTypedInline(old(here));
              if p.Success? then r == Success(MeanSelection(p.value.0)) && StandsAt(p.value.1) else r == Failure(p.error)
      decreases |here.toks|, 1
    {
      var typeOn :- TakeName();
      var sels :- ParseSelectionSet();
      return Success(InlineFragment(typeOn, sels));
    }

    method ParseField() returns (r: Result<Selection, ParseError>)
      requires Valid()
      modifies this
      ensures var p := ParserSpec.ParseField(old(here));
              if p.Success? then r == Success(MeanSelection(p.value.0)) && StandsAt(p.value.1) else r == Failure(p.error)
      decreases |here.toks|, 3
    {
      var first :- TakeName();
      if tok == Some(Colon) {
        // "alias: name": the name before the colon is the response key.
        :- Advance();
        var name :- TakeName();
        r := FieldRest(Some(first), name);
      } else {
        r := FieldRest(None, first);
      }
    }

    method FieldRest(alias: Option<string>, name: string) returns (r: Result<Selection, ParseError>)
      requires Valid()
      modifies this
      ensures var p := ParseFieldRest(old(here), alias, name);
              if p.Success? then r == Success(MeanSelection(p.value.0)) && StandsAt(p.value.1) else r == Failure(p.error)
      decreases |here.toks|, 2
    {
      var args :- OptionalArguments();
      var sels :- OptionalSet();
      return Success(Field(OrEmpty(alias), name, args, sels));
    }

    method OptionalArguments() returns (r: Result<map<string, Value>, ParseError>)
      requires Valid()
      modifies this
      ensures var p := ParserSpec.ParseArguments(old(here));
              if p.Success? then r == Success(MeanArguments(p.value.0)) && StandsAt(p.value.1) else r == Failure(p.error)
    {
      if tok != Some(ParenL) {
        return Success(map[]);
      }
      r := ParseArguments();
    }

    method OptionalSet() returns (r: Result<seq<Selection>, ParseError>)
      requires Valid()
      modifies this
      ensures var p := ParseOptionalSet(old(here));
              if p.Success? then r == Success(MeanSet(p.value.0)) && StandsAt(p.value.1) else r == Failure(p.error)
      decreases |here.toks|, 1
    {
      if tok != Some(BraceL) {
        return Success([]);
      }
      r := ParseSelectionSet();
    }

    /** A selection set whose opening brace is required. */
    method BracedSet() returns (r: Result<seq<Selection>, ParseError>)
      requires Valid()
      modifies this
      ensures var p := ParseBracedSet(old(here));
              if p.Success? then r == Success(MeanSelections(p.value.0)) && StandsAt(p.value.1) else r == Failure(p.error)
    {
      if tok != Some(BraceL) {
        return Failure(SyntaxError);
      }
      r := ParseSelectionSet();
    }

    // ---- Types and variables ----

    method ParseTypeRef() returns (r: Result<TypeRef, ParseError>)
      requires Valid()
      modifies this
      ensures var p := ParserSpec.ParseTypeRef(old(here));
              if p.Success? then r == Success(p.value.0) && StandsAt(p.value.1) else r == Failure(p.error)
      decreases |here.toks|
    {
      if tok == Some(BracketL) {
        :- Advance();
        var inner :- ParseTypeRef();
        :- Expect(BracketR);
        var nonNull :- TakeBang();
        return Success(ListRef(inner, nonNull));
      }
      var name :- TakeName();
      var nonNull :- TakeBang();
      return Success(NamedRef(name, nonNull));
    }

    method TakeBang() returns (r: Result<bool, ParseError>)
      requires Valid()
      modifies this
      ensures var p := ParseBang(old(here));
              if p.Success? then r == Success(p.value.0) && StandsAt(p.value.1) else r == Failure(p.error)
    {
      if tok != Some(Bang) {
        return Success(false);
      }
      :- Advance();
      return Success(true);
    }

    method ParseVariableDefs() returns (r: Result<seq<VariableDef>, ParseError>)
      requires Valid() && here.At(ParenL)
      modifies this
      ensures var p := ParseOptionalVariables(old(here));
              if p.Success? then r == Success(MeanVariableDefs(p.value.0.value)) && StandsAt(p.value.1) else r == Failure(p.error)
    {
      var taken := Advance();
      if taken.Fail? {
        return Failure(taken.error);
      }
      ghost var start := here;
      var defs: seq<VariableDef> := [];
      ghost var done: seq<CVariableDef> := [];
      PrependNothing(ParserSpec.ParseVariableDefs(start));
      while tok != Some(ParenR)
        invariant Valid()
        invariant ParserSpec.ParseVariableDefs(start) == Prepend(done, ParserSpec.ParseVariableDefs(here))
        invariant defs == MeanVariableDefs(done)
        decreases |here.toks|
      {
        ghost var at := here;
        VariableDefsRound(start, done, at);
        var def :- ParseVariableDef();
        defs, done := defs + [def], done + [ParserSpec.ParseVariableDef(at).value.0];
      }
      VariableDefsEnd(start, done, here);
      :- Advance();
      return Success(defs);
    }

    /** The body of the loop above: "$name: Type" and an optional default. */
    method ParseVariableDef() returns (r: Result<VariableDef, ParseError>)
      requires Valid()
      modifies this
      ensures var p := ParserSpec.ParseVariableDef(old(here));
              if p.Success? then r == Success(MeanVariableDef(p.value.0)) && StandsAt(p.value.1) else r == Failure(p.error)
    {
      var taken := Expect(Dollar);
      if taken.Fail? {
        return Failure(taken.error);
      }
      var name :- TakeName();
      :- Expect(Colon);
      var typ, default :- VariableBody();
      return Success(VariableDef(name, typ, default));
    }

    /** The type of a variable and its default, null when there is none. */
    method VariableBody() returns (r: Result<TypeRef, ParseError>, default: Value)
      requires Valid()
      modifies this
      ensures var p := ParseVariableBody(old(here));
              if p.Success? then r == Success(p.value.0.0) && default == MeanDefault(p.value.0.1) && StandsAt(p.value.1)
              else r == Failure(p.error)
    {
      default := NullValue;
      r := ParseTypeRef();
      if r.Success? && tok == Some(Equals) {
        var next := Advance();
        if next.Fail? {
          return Failure(next.error), default;
        }
        var v := ParseValue();
        if v.Failure? {
          return Failure(v.error), default;
        }
        default := v.value;
      }
    }

    // ---- Definitions ----

    method ParseNamedOperation(kind: OperationKind) returns (r: Result<Operation, ParseError>)
      requires Valid() && here.At(Name(Keyword(kind)))
      modifies this
      ensures var p := ParseOperation(old(here), kind);
              if p.Success? then p.value.0.COperation? && r == Success(MeanOperation(p.value.0)) && StandsAt(p.value.1) else r == Failure(p.error)
    {
      var taken := Advance();
      if taken.Fail? {
        return Failure(taken.error);
      }
      r := OperationRest(kind);
    }

    /** An operation after its keyword. */
    method OperationRest(kind: OperationKind) returns (r: Result<Operation, ParseError>)
      requires Valid()
      modifies this
      ensures var p := ParseOperationRest(old(here), kind);
              if p.Success? then p.value.0.COperation? && r == Success(MeanOperation(p.value.0)) && StandsAt(p.value.1) else r == Failure(p.error)
    {
      var name :- OptionalName();
      r := OperationBody(kind, name);
    }

    /** The variables of an operation and its selection set. */
    method OperationBody(kind: OperationKind, name: string) returns (r: Result<Operation, ParseError>)
      requires Valid()
      modifies this
      ensures var p := ParseOperationBody(old(here));
              if p.Success? then r == Success(Operation(kind, name, MeanVariables(p.value.0.0), MeanSelections(p.value.0.1))) && StandsAt(p.value.1) else r == Failure(p.error)
    {
      var vars :- OptionalVariables();
      var sels :- BracedSet();
      return Success(Operation(kind, name, vars, sels));
    }

    method OptionalName() returns (r: Result<string, ParseError>)
      requires Valid()
      modifies this
      ensures var p := ParseOptionalName(old(here));
              if p.Success? then r == Success(OrEmpty(p.value.0)) && StandsAt(p.value.1) else r == Failure(p.error)
    {
      if tok.None? || !tok.value.Name? {
        return Success("");
      }
      r := TakeName();
    }

    method OptionalVariables() returns (r: Result<seq<VariableDef>, ParseError>)
      requires Valid()
      modifies this
      ensures var p := ParseOptionalVariables(old(here));
              if p.Success? then r == Success(MeanVariables(p.value.0)) && StandsAt(p.value.1) else r == Failure(p.error)
    {
      if tok != Some(ParenL) {
        return Success([]);
      }
      r := ParseVariableDefs();
    }

    method ParseFragmentDef() returns (r: Result<FragmentDef, ParseError>)
      requires Valid() && here.At(Name("fragment"))
      modifies this
      ensures var p := ParserSpec.ParseFragmentDef(old(here));
              if p.Success? then p.value.0.CFragment? && r == Success(MeanFragment(p.value.0)) && StandsAt(p.value.1) else r == Failure(p.error)
    {
      var taken := Advance();
      if taken.Fail? {
        return Failure(taken.error);
      }
      r := FragmentRest();
    }

    /** A fragment definition after its keyword. */
    method FragmentRest() returns (r: Result<FragmentDef, ParseError>)
      requires Valid()
      modifies this
      ensures var p := ParseFragmentRest(old(here));
              if p.Success? then p.value.0.CFragment? && r == Success(MeanFragment(p.value.0)) && StandsAt(p.value.1) else r == Failure(p.error)
    {
      if tok == Some(Name("on")) {
        return Failure(SyntaxError);
      }
      var name :- TakeName();
      r := FragmentBody(name);
    }

    /** A fragment definition from its "on". */
    method FragmentBody(name: string) returns (r: Result<FragmentDef, ParseError>)
      requires Valid()
      modifies this
      ensures var p := ParseFragmentBody(old(here));
              if p.Success? then r == Success(FragmentDef(name, p.value.0.0, MeanSelections(p.value.0.1))) && StandsAt(p.value.1) else r == Failure(p.error)
    {
      var taken := Expect(Name("on"));
      if taken.Fail? {
        return Failure(taken.error);
      }
      var typeOn :- TakeName();
      var sels :- BracedSet();
      return Success(FragmentDef(name, typeOn, sels));
    }

    /** One definition of the document, added to doc. */
    method ParseDefinition(doc: Document) returns (r: Result<Document, ParseError>)
      requires Valid() && tok.Some?
      modifies this
      ensures var p := ParserSpec.ParseDefinition(old(here));
              if p.Success? then r == Success(AddDefinition(doc, p.value.0)) && StandsAt(p.value.1) else r == Failure(p.error)
    {
      if tok == Some(BraceL) {
        var sels :- ParseSelectionSet();
        return Success(doc.(operations := doc.operations + [Operation(Query, "", [], sels)]));
      }
      r := KeywordDefinition(doc);
    }

    /** A definition that starts with a keyword. */
    method KeywordDefinition(doc: Document) returns (r: Result<Document, ParseError>)
      requires Valid() && tok.Some?
      modifies this
      ensures var p := ParseKeywordDefinition(old(here));
              if p.Success? then r == Success(AddDefinition(doc, p.value.0)) && StandsAt(p.value.1) else r == Failure(p.error)
    {
      if tok == Some(Name("query")) {
        r := AddOperation(doc, Query);
      } else if tok == Some(Name("mutation")) {
        r := AddOperation(doc, Mutation);
      } else if tok == Some(Name("fragment")) {
        r := AddFragment(doc);
      } else {
        r := Failure(SyntaxError);
      }
    }

    method AddOperation(doc: Document, kind: OperationKind) returns (r: Result<Document, ParseError>)
      requires Valid() && here.At(Name(Keyword(kind)))
      modifies this
      ensures var p := ParseOperation(old(here), kind);
              if p.Success? then r == Success(AddDefinition(doc, p.value.0)) && StandsAt(p.value.1) else r == Failure(p.error)
    {
      var op :- ParseNamedOperation(kind);
      return Success(doc.(operations := doc.operations + [op]));
    }

    method AddFragment(doc: Document) returns (r: Result<Document, ParseError>)
      requires Valid() && here.At(Name("fragment"))
      modifies this
      ensures var p := ParserSpec.ParseFragmentDef(old(here));
              if p.Success? then r == Success(AddDefinition(doc, p.value.0)) && StandsAt(p.value.1) else r == Failure(p.error)
    {
      var frag :- ParseFragmentDef();
      return Success(doc.(fragments := doc.fragments[frag.name := frag]));
    }

    method ParseDoc() returns (r: Result<Document, ParseError>)
      requires Valid()
      modifies this
      ensures var p := ParseDefinitions(old(here));
              if p.Success? then r == Success(Mean(p.value.0)) && StandsAt(p.value.1) else r == Failure(p.error)
    {
      ghost var start := here;
      var doc := EMPTY;
      ghost var done: seq<CDefinition> := [];
      PrependNothing(ParseDefinitions(start));
      while tok.Some?
        invariant Valid()
        invariant ParseDefinitions(start) == Prepend(done, ParseDefinitions(here))
        invariant doc == Mean(done)
        decreases |here.toks|
      {
        ghost var at := here;
        DefinitionsRound(start, done, at);
        doc :- ParseDefinition(doc);
        done := done + [ParserSpec.ParseDefinition(at).value.0];
      }
      assert done + [] == done;
      return Success(doc);
    }

    method Run() returns (r: Result<Document, ParseError>)
      requires Counted() && pos == 0
      modifies this
      ensures var p := ParseWhole(whole);
              r == if p.Success? then Success(Mean(p.value)) else Failure(p.error)
    {
      var taken := Start();
      if taken.Fail? {
        return Failure(taken.error);
      }
      r := ParseDoc();
    }
  }

  ghost function ParseWhole(inp: Input): Result<seq<CDefinition>, ParseError> {
    if !CanLex(inp) then Failure(EndError(inp.end))
    else
      var (ds, _) :- ParseDefinitions(inp);
      Success(ds)
  }

  /** What the capped input of a parser says about its source. */
  lemma CappedInputParses(src: seq<Token>, lexFails: bool, maxTokens: int)
    ensures match ParseWhole(Capped(src, lexFails, maxTokens))
            case Success(ds) => !lexFails && !(0 < maxTokens < |src|) && ProperDefinitions(ds) && Render(ds) == src
            case Failure(e) =>
              && (e == LimitError ==> 0 < maxTokens < |src|)
              && (e == LexError ==> lexFails)
              && (!lexFails && !(0 < maxTokens < |src|) ==> forall tree :: ProperDefinitions(tree) ==> Render(tree) != src)
  {
    var whole := Capped(src, lexFails, maxTokens);
    if ParseWhole(whole).Success? {
      ParsesExactlyRenderings(src, ParseWhole(whole).value);
    } else if whole == Input(src, Eof) {
      forall tree | ProperDefinitions(tree) ensures Render(tree) != src {
        ParsesExactlyRenderings(src, tree);
      }
    }
  }

  /** Parsing a whole source under a token cap (a cap of zero or less is none): it succeeds
      exactly when the lexer reaches the end, within the cap, over the rendering of a proper
      syntax tree, and gives the one document that tree stands for. The cap and the lexer are
      blamed only when they are to blame. */
  method ParseDocumentLimited(src: seq<Token>, lexFails: bool, maxTokens: int)
    returns (r: Result<Document, ParseError>, ghost ds: seq<CDefinition>)
    ensures r.Success? ==> ProperDefinitions(ds) && Render(ds) == src && r.value == Mean(ds)
    ensures r.Success? ==> !lexFails && (maxTokens <= 0 || |src| <= maxTokens)
    ensures r.Failure? && !lexFails && (maxTokens <= 0 || |src| <= maxTokens) ==>
              forall tree :: ProperDefinitions(tree) ==> Render(tree) != src
    ensures r.Failure? && r.error.LimitError? ==> 0 < maxTokens < |src|
    ensures r.Failure? && r.error.LexError? ==> lexFails
  {
    CappedInputParses(src, lexFails, maxTokens);
    var p := new Parser(src, lexFails, maxTokens);
    r := p.Run();
    ds := if r.Success? then ParseWhole(Capped(src, lexFails, maxTokens)).value else [];
  }
}
