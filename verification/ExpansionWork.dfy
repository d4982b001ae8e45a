/** How much the expansion walk of the cost limits can visit (graphql/limits.go): a bound in the
    written document when every selection holds a field, and documents that show the need for it. */
module ExpansionWork {
  import opened Prelude
  import opened Digraph
  import opened GraphqlAst
  import opened CostLimits

  /** The levels as written: a spread is not expanded. */
  function WrittenLevels(sels: seq<Selection>): nat {
    if sels == [] then 0
    else
      Max(1 + match sels[0]
              case Field(_, _, _, inner) => WrittenLevels(inner)
              case InlineFragment(_, inner) => WrittenLevels(inner)
              case FragmentSpread(_) => 0,
          WrittenLevels(sels[1..]))
  }

  /** No fragment is written with more levels than this. */
  ghost predicate FragmentsWithin(doc: Document, most: nat) {
    forall n | n in doc.fragments :: WrittenLevels(doc.fragments[n].selSet) <= most
  }

  /** So many levels as written, and so many fragments entered one inside another. */
  function Deepest(written: nat, height: nat, most: nat): (r: nat)
    ensures r >= written
  {
    if height == 0 then written else most + Deepest(written, height - 1, most)
  }

  lemma {:induction false} DeepestIs(written: nat, height: nat, most: nat)
    ensures Deepest(written, height, most) == written + height * most
  {
    if height > 0 {
      DeepestIs(written, height - 1, most);
      assert (height - 1) * most + most == height * most;
    }
  }

  lemma DeepestGrows(written: nat, height: nat, more: nat, higher: nat, most: nat)
    requires written <= more && height <= higher
    ensures Deepest(written, height, most) + (more - written) <= Deepest(more, higher, most)
  {
    DeepestIs(written, height, most);
    DeepestIs(more, higher, most);
    assert height * most <= higher * most;
  }

  lemma DeepestEnters(written: nat, height: nat, higher: nat, most: nat)
    requires written <= most && height < higher
    ensures 1 + Deepest(written, height, most) <= Deepest(1, higher, most)
  {
    DeepestGrows(written, height, most, height, most);
    DeepestIs(most, height, most);
    DeepestIs(1, height + 1, most);
    assert (height + 1) * most == height * most + most;
    DeepestGrows(1, height + 1, 1, higher, most);
  }

  lemma {:induction false} LevelsByHeight(doc: Document, sels: seq<Selection>, most: nat)
    requires Acyclic(doc) && FragmentsWithin(doc, most)
    ensures Levels(doc, sels) <= Deepest(WrittenLevels(sels), Height(doc, sels), most)
    decreases Height(doc, sels), sels, 1
  {
    if sels != [] {
      WalkLowersHeight(doc, sels);
      LevelsByHeight(doc, sels[1..], most);
      DeepestGrows(WrittenLevels(sels[1..]), Height(doc, sels[1..]), WrittenLevels(sels), Height(doc, sels), most);
      var inner := FirstInner(doc, sels);
      FirstByHeight(doc, sels, inner, most);
      DeepestGrows(if sels[0].FragmentSpread? then 1 else 1 + WrittenLevels(inner), Height(doc, sels), WrittenLevels(sels), Height(doc, sels), most);
    }
  }

  /** What the first selection expands to. */
  function FirstInner(doc: Document, sels: seq<Selection>): seq<Selection>
    requires sels != []
  {
    match sels[0]
    case Field(_, _, _, inner) => inner
    case InlineFragment(_, inner) => inner
    case FragmentSpread(name) => if name != "" && name in doc.fragments then doc.fragments[name].selSet else []
  }

  lemma {:induction false} FirstByHeight(doc: Document, sels: seq<Selection>, inner: seq<Selection>, most: nat)
    requires Acyclic(doc) && FragmentsWithin(doc, most) && sels != [] && inner == FirstInner(doc, sels)
    ensures 1 + Levels(doc, inner) <= Deepest(if sels[0].FragmentSpread? then 1 else 1 + WrittenLevels(inner), Height(doc, sels), most)
    decreases Height(doc, sels), sels, 0
  {
    WalkLowersHeight(doc, sels);
    if inner != [] {
      LevelsByHeight(doc, inner, most);
      if sels[0].FragmentSpread? {
        DeepestEnters(WrittenLevels(inner), Height(doc, inner), Height(doc, sels), most);
      } else {
        DeepestGrows(WrittenLevels(inner), Height(doc, inner), 1 + WrittenLevels(inner), Height(doc, sels), most);
      }
    }
  }

  lemma HeightWithinFragments(doc: Document, sels: seq<Selection>)
    requires Acyclic(doc)
    ensures Height(doc, sels) <= |doc.fragments|
  {
    var g := SpreadGraph(doc);
    assert g.Keys == doc.fragments.Keys;
    forall n | n in SpreadNames(sels) && n in g ensures Rank(g, n) < |doc.fragments| {
      assert n !in Reach(g, n);
      ProperSubsetSize(Reach(g, n), g.Keys);
    }
    NamesHeightLeast(g, SpreadNames(sels), |doc.fragments|);
  }

  /** The expansion is no deeper than the selection set and then every fragment once, as written. */
  lemma LevelsAreWritten(doc: Document, sels: seq<Selection>, most: nat)
    requires Acyclic(doc) && FragmentsWithin(doc, most)
    ensures Levels(doc, sels) <= WrittenLevels(sels) + |doc.fragments| * most
  {
    LevelsByHeight(doc, sels, most);
    HeightWithinFragments(doc, sels);
    DeepestGrows(WrittenLevels(sels), Height(doc, sels), WrittenLevels(sels), |doc.fragments|, most);
    DeepestIs(WrittenLevels(sels), |doc.fragments|, most);
  }

  /** So if nothing is written with more levels than that, a document's expansion multiplies them
      at most by the number of its fragments and one. */
  lemma {:induction false} MostLevelsAreWritten(doc: Document, ops: seq<Operation>, most: nat)
    requires Acyclic(doc) && FragmentsWithin(doc, most)
    requires forall op | op in ops :: WrittenLevels(op.selSet) <= most
    ensures MostLevels(doc, ops) <= (|doc.fragments| + 1) * most
  {
    if ops != [] {
      assert ops[0] in ops;
      LevelsAreWritten(doc, ops[0].selSet, most);
      MostLevelsAreWritten(doc, ops[1..], most);
      assert (|doc.fragments| + 1) * most == |doc.fragments| * most + most;
    }
  }

  // ---- Fragments that double ----

  function LinkName(i: nat): string {
    seq(i + 1, _ => 'f')
  }

  /** Every fragment of the chain spreads the one before it twice; the first is empty. */
  function Link(i: nat): FragmentDef {
    FragmentDef(LinkName(i), "Query", if i == 0 then [] else [FragmentSpread(LinkName(i - 1)), FragmentSpread(LinkName(i - 1))])
  }

  function Doubling(n: nat): Document {
    Document([Operation(Query, "", [], [FragmentSpread(LinkName(n))])], Links(n))
  }

  function Links(n: nat): map<string, FragmentDef> {
    (if n == 0 then map[] else Links(n - 1))[LinkName(n) := Link(n)]
  }

  lemma {:induction false} LinkHeld(n: nat, i: nat)
    requires i <= n
    ensures LinkName(i) in Links(n) && Links(n)[LinkName(i)] == Link(i)
  {
    if i < n {
      LinkHeld(n - 1, i);
      assert |LinkName(i)| != |LinkName(n)|;
    }
  }

  ghost predicate SpreadsShorter(name: string, def: FragmentDef) {
    forall other | other in SpreadNames(def.selSet) :: |other| < |name|
  }

  lemma LinkSpreadsShorter(i: nat)
    ensures SpreadsShorter(LinkName(i), Link(i))
  {
    if i > 0 {
      var spread := FragmentSpread(LinkName(i - 1));
      assert [spread, spread][1..] == [spread] && [spread][1..] == [];
      assert SpreadNames([spread]) == [LinkName(i - 1)] + [];
      assert SpreadNames([spread, spread]) == [LinkName(i - 1)] + SpreadNames([spread]);
    }
  }

  lemma {:induction false} LinksSpreadShorter(n: nat)
    ensures forall name | name in Links(n) :: SpreadsShorter(name, Links(n)[name])
  {
    if n > 0 {
      LinksSpreadShorter(n - 1);
    }
    LinkSpreadsShorter(n);
  }

  lemma DoublingIsAcyclic(n: nat)
    ensures Acyclic(Doubling(n))
  {
    var g := SpreadGraph(Doubling(n));
    var length: string -> nat := name => |name|;
    LinksSpreadShorter(n);
    assert DropsAlongEdges(g, length) by {
      forall a, b | Edge(g, a, b) ensures length(b) < length(a) {
        assert SpreadsShorter(a, Links(n)[a]);
      }
    }
    AcyclicIffMeasured(g);
  }

  lemma {:induction false} LinkCosts(n: nat, i: nat)
    requires i <= n
    ensures Acyclic(Doubling(n))
    ensures FieldCount(Doubling(n), Link(i).selSet) == 0 && Nesting(Doubling(n), Link(i).selSet) == 1
    ensures Weight(Doubling(n), Link(i).selSet) == 2 * Pow2(i) - 2
    decreases i
  {
    DoublingIsAcyclic(n);
    if i > 0 {
      LinkCosts(n, i - 1);
      SpreadCosts(n, i - 1);
      TwiceCosts(Doubling(n), FragmentSpread(LinkName(i - 1)));
    }
  }

  lemma TwiceCosts(doc: Document, sel: Selection)
    requires Acyclic(doc)
    ensures FieldCount(doc, [sel, sel]) == 2 * FieldCount(doc, [sel])
    ensures Nesting(doc, [sel, sel]) == Nesting(doc, [sel])
    ensures Weight(doc, [sel, sel]) == 2 * Weight(doc, [sel])
  {
    HeadAndRest(doc, [sel, sel]);
    assert [sel, sel][1..] == [sel];
  }

  lemma SpreadCosts(n: nat, i: nat)
    requires i <= n && Acyclic(Doubling(n))
    requires FieldCount(Doubling(n), Link(i).selSet) == 0 && Nesting(Doubling(n), Link(i).selSet) == 1
    ensures var doc, sels := Doubling(n), [FragmentSpread(LinkName(i))];
            && FieldCount(doc, sels) == 0 && Nesting(doc, sels) == 1 && Weight(doc, sels) == 1 + Weight(doc, Link(i).selSet)
  {
    LinkHeld(n, i);
    HeadAlone(Doubling(n), FragmentSpread(LinkName(i)));
  }

  /** These documents have no field at all, so they pass every depth and node limit, while the walk
      of the i-th one visits more than two to the i-th selections. */
  lemma FieldlessFragmentsDouble(n: nat, limits: Limits)
    ensures Acyclic(Doubling(n)) && WithinBudget(limits, Doubling(n))
    ensures Weight(Doubling(n), Doubling(n).operations[0].selSet) == 2 * Pow2(n) - 1
    ensures !ProductiveDocument(Doubling(n))
  {
    var doc := Doubling(n);
    LinkCosts(n, n);
    SpreadCosts(n, n);
    assert doc.operations[1..] == [] && doc.operations[0] in doc.operations;
    assert TotalFields(doc, doc.operations) == FieldCount(doc, doc.operations[0].selSet) + TotalFields(doc, []);
    HeadAlone(doc, FragmentSpread(LinkName(n)));
  }
}
