/** The cost limits on a parsed document (graphql/limits.go). */
module CostLimits {
  import opened Prelude
  import opened Digraph
  import opened GraphqlAst

  /** A value of zero or less disables the check it belongs to. */
  datatype Limits = Limits(maxDepth: int, maxSelectionNodes: int, maxAliases: int, disableIntrospection: bool)

  datatype LimitError = DepthExceeded | NodesExceeded | AliasesExceeded | IntrospectionDisabled

  predicate Within(max: int, n: int) {
    max <= 0 || n <= max
  }

  /** The number of fields after every spread is replaced by its fragment. */
  function FieldCount(doc: Document, sels: seq<Selection>): nat
    requires Acyclic(doc)
    decreases Height(doc, sels), sels
  {
    if sels == [] then 0
    else
      WalkLowersHeight(doc, sels);
      (match sels[0]
       case Field(_, _, _, inner) => 1 + FieldCount(doc, inner)
       case InlineFragment(_, inner) => FieldCount(doc, inner)
       case FragmentSpread(name) =>
         if name != "" && name in doc.fragments then FieldCount(doc, doc.fragments[name].selSet) else 0)
      + FieldCount(doc, sels[1..])
  }

  /** The number of nested response levels: each non-empty selection set of a field is one more. */
  function Nesting(doc: Document, sels: seq<Selection>): nat
    requires Acyclic(doc)
    decreases Height(doc, sels), sels
  {
    if sels == [] then 1
    else
      WalkLowersHeight(doc, sels);
      Max(match sels[0]
          case Field(_, _, _, inner) => if inner == [] then 1 else 1 + Nesting(doc, inner)
          case InlineFragment(_, inner) => Nesting(doc, inner)
          case FragmentSpread(name) =>
            if name != "" && name in doc.fragments then Nesting(doc, doc.fragments[name].selSet) else 1,
          Nesting(doc, sels[1..]))
  }

  /** The levels of the expansion: fields, inline fragments and spreads one inside another. */
  function Levels(doc: Document, sels: seq<Selection>): nat
    requires Acyclic(doc)
    decreases Height(doc, sels), sels
  {
    if sels == [] then 0
    else
      WalkLowersHeight(doc, sels);
      Max(1 + match sels[0]
              case Field(_, _, _, inner) => Levels(doc, inner)
              case InlineFragment(_, inner) => Levels(doc, inner)
              case FragmentSpread(name) =>
                if name != "" && name in doc.fragments then Levels(doc, doc.fragments[name].selSet) else 0,
          Levels(doc, sels[1..]))
  }

  /** Every selection of the expansion holds a field. */
  predicate Productive(doc: Document, sels: seq<Selection>)
    requires Acyclic(doc)
    decreases Height(doc, sels), sels
  {
    if sels == [] then true
    else
      WalkLowersHeight(doc, sels);
      && FieldCount(doc, [sels[0]]) > 0
      && (match sels[0]
          case Field(_, _, _, inner) => Productive(doc, inner)
          case InlineFragment(_, inner) => Productive(doc, inner)
          case FragmentSpread(name) => name != "" && name in doc.fragments && Productive(doc, doc.fragments[name].selSet))
      && Productive(doc, sels[1..])
  }

  /** The selections visited are paid for by the fields counted, each of them one per level. */
  predicate Paid(levels: nat, visits: int, fields: int) {
    0 <= fields && visits <= fields * levels
  }

  lemma PaidOnMoreLevels(levels: nat, more: nat, visits: int, fields: int)
    requires Paid(levels, visits, fields) && levels <= more
    ensures Paid(more, visits, fields)
  {
    assert fields * levels <= fields * more;
  }

  lemma PaidTogether(levels: nat, visits: int, fields: int, moreVisits: int, moreFields: int)
    requires Paid(levels, visits, fields) && Paid(levels, moreVisits, moreFields)
    ensures Paid(levels, visits + moreVisits, fields + moreFields)
  {
    assert (fields + moreFields) * levels == fields * levels + moreFields * levels;
  }

  /** One more level around what was visited costs one visit: a field of its own or one inside pays. */
  lemma PaidAround(levels: nat, visits: int, fields: int, own: nat)
    requires Paid(levels, visits, fields) && own <= 1 && fields + own > 0
    ensures Paid(levels + 1, visits + 1, fields + own)
  {
    assert (fields + own) * (levels + 1) == fields * levels + own * levels + fields + own;
    assert own * levels >= 0;
  }

  /** What the expansion of a selection set holds. */
  datatype Cost = Cost(fields: nat, nesting: nat, selections: nat, levels: nat, productive: bool)

  ghost function CostOf(doc: Document, sels: seq<Selection>): Cost
    requires Acyclic(doc)
  {
    Cost(FieldCount(doc, sels), Nesting(doc, sels), Weight(doc, sels), Levels(doc, sels), Productive(doc, sels))
  }

  function Together(a: Cost, b: Cost): Cost {
    Cost(a.fields + b.fields, Max(a.nesting, b.nesting), a.selections + b.selections, Max(a.levels, b.levels), a.productive && b.productive)
  }

  /** What a walk has counted so far: fields, and selections visited of any kind. */
  datatype Tally = Tally(nodes: int, visits: int)

  /** A walk at a depth took the counts from one tally to another: it succeeds exactly when both
      ceilings hold for the whole expansion, and then has counted all of it; however it ends, the
      fields it counted pay for the selections it visited, if they all hold fields. */
  ghost predicate Walked(c: Cost, depth: int, maxDepth: int, maxNodes: int, before: Tally, after: Tally, ok: bool) {
    && (ok <==> Within(maxDepth, depth - 1 + c.nesting) && Within(maxNodes, before.nodes + c.fields))
    && (ok ==> after == Tally(before.nodes + c.fields, before.visits + c.selections))
    && Within(maxNodes, after.nodes - 1)
    && before.nodes <= after.nodes && (!ok && Within(maxDepth, depth) ==> before.nodes < after.nodes)
    && (c.productive ==> Paid(c.levels, after.visits - before.visits, after.nodes - before.nodes))
  }

  /** A walk that has counted all but what is left: this decides about the whole. */
  ghost predicate Halfway(whole: Cost, left: Cost, depth: int, maxDepth: int, maxNodes: int, before: Tally, now: Tally) {
    && Within(maxNodes, now.nodes) && before.nodes <= now.nodes
    && now.nodes + left.fields == before.nodes + whole.fields
    && now.visits + left.selections == before.visits + whole.selections
    && (Within(maxDepth, depth - 1 + whole.nesting) <==> Within(maxDepth, depth - 1 + left.nesting))
    && (whole.productive ==>
          && left.productive && left.levels <= whole.levels
          && Paid(whole.levels, now.visits - before.visits, now.nodes - before.nodes))
  }

  lemma WalkGoesOn(whole: Cost, first: Cost, rest: Cost, depth: int, maxDepth: int, maxNodes: int, before: Tally, now: Tally, after: Tally, ok: bool)
    requires Within(maxDepth, depth)
    requires Halfway(whole, Together(first, rest), depth, maxDepth, maxNodes, before, now)
    requires Walked(first, depth, maxDepth, maxNodes, now, after, ok)
    ensures if ok then Halfway(whole, rest, depth, maxDepth, maxNodes, before, after)
            else Walked(whole, depth, maxDepth, maxNodes, before, after, false)
  {
    if whole.productive {
      PaidOnMoreLevels(first.levels, whole.levels, after.visits - now.visits, after.nodes - now.nodes);
      PaidTogether(whole.levels, now.visits - before.visits, now.nodes - before.nodes, after.visits - now.visits, after.nodes - now.nodes);
    }
  }

  /** Nothing is left of an empty set. */
  lemma WalkEnds(doc: Document, whole: Cost, depth: int, maxDepth: int, maxNodes: int, before: Tally, now: Tally)
    requires Acyclic(doc) && Within(maxDepth, depth) && Halfway(whole, CostOf(doc, []), depth, maxDepth, maxNodes, before, now)
    ensures Walked(whole, depth, maxDepth, maxNodes, before, now, true)
  {
  }

  /** Too deep from the start: nothing is counted. */
  lemma WalkRefused(doc: Document, sels: seq<Selection>, depth: int, maxDepth: int, maxNodes: int, now: Tally)
    requires Acyclic(doc) && !Within(maxDepth, depth) && Within(maxNodes, now.nodes)
    ensures Walked(CostOf(doc, sels), depth, maxDepth, maxNodes, now, now, false)
  {
    NestingIsPositive(doc, sels);
  }

  /** A field: one count for itself, then its selection set one level deeper. */
  lemma FieldWalked(doc: Document, sel: Selection, depth: int, maxDepth: int, maxNodes: int, before: Tally, after: Tally, ok: bool)
    requires Acyclic(doc) && sel.Field? && Within(maxDepth, depth) && Within(maxNodes, before.nodes + 1)
    requires var entered := Tally(before.nodes + 1, before.visits + 1);
             if sel.selSet == [] then ok && after == entered
             else Walked(CostOf(doc, sel.selSet), depth + 1, maxDepth, maxNodes, entered, after, ok)
    ensures Walked(CostOf(doc, [sel]), depth, maxDepth, maxNodes, before, after, ok)
  {
    HeadAlone(doc, sel);
    if Productive(doc, [sel]) {
      PaidAround(Levels(doc, sel.selSet), after.visits - before.visits - 1, after.nodes - before.nodes - 1, 1);
    }
  }

  /** One field too many. */
  lemma FieldRefused(doc: Document, sel: Selection, depth: int, maxDepth: int, maxNodes: int, before: Tally)
    requires Acyclic(doc) && sel.Field? && Within(maxNodes, before.nodes) && !Within(maxNodes, before.nodes + 1)
    ensures Walked(CostOf(doc, [sel]), depth, maxDepth, maxNodes, before, Tally(before.nodes + 1, before.visits + 1), false)
  {
    HeadAlone(doc, sel);
    PaidAround(Levels(doc, sel.selSet), 0, 0, 1);
  }

  /** An inline fragment or a spread adds no response level and is no field. */
  lemma FragmentWalked(doc: Document, sel: Selection, inner: seq<Selection>, depth: int, maxDepth: int, maxNodes: int, before: Tally, after: Tally, ok: bool)
    requires Acyclic(doc) && Within(maxDepth, depth)
    requires match sel
             case Field(_, _, _, _) => false
             case InlineFragment(_, body) => inner == body
             case FragmentSpread(name) => name != "" && name in doc.fragments && inner == doc.fragments[name].selSet
    requires Walked(CostOf(doc, inner), depth, maxDepth, maxNodes, before.(visits := before.visits + 1), after, ok)
    ensures Walked(CostOf(doc, [sel]), depth, maxDepth, maxNodes, before, after, ok)
  {
    HeadAlone(doc, sel);
    if Productive(doc, [sel]) {
      PaidAround(Levels(doc, inner), after.visits - before.visits - 1, after.nodes - before.nodes, 0);
    }
  }

  lemma UnknownWalked(doc: Document, sel: Selection, depth: int, maxDepth: int, maxNodes: int, before: Tally)
    requires Acyclic(doc) && Within(maxDepth, depth) && Within(maxNodes, before.nodes)
    requires sel.FragmentSpread? && (sel.fragment == "" || sel.fragment !in doc.fragments)
    ensures Walked(CostOf(doc, [sel]), depth, maxDepth, maxNodes, before, before.(visits := before.visits + 1), true)
  {
    HeadAlone(doc, sel);
  }

  lemma SelectionAndRest(doc: Document, sels: seq<Selection>, i: nat)
    requires Acyclic(doc) && i < |sels|
    ensures CostOf(doc, sels[i..]) == Together(CostOf(doc, [sels[i]]), CostOf(doc, sels[i + 1..]))
    ensures Height(doc, [sels[i]]) <= Height(doc, sels[i..]) && Height(doc, sels[i + 1..]) <= Height(doc, sels[i..])
  {
    HeadAndRest(doc, sels[i..]);
    assert sels[i..][0] == sels[i] && sels[i..][1..] == sels[i + 1..];
  }

  lemma {:induction false} NestingIsPositive(doc: Document, sels: seq<Selection>)
    requires Acyclic(doc)
    ensures Nesting(doc, sels) >= 1
  {
    if sels != [] {
      NestingIsPositive(doc, sels[1..]);
    }
  }

  /** What one selection costs. */
  lemma HeadAlone(doc: Document, sel: Selection)
    requires Acyclic(doc)
    ensures FieldCount(doc, []) == 0 && Nesting(doc, []) == 1 && Weight(doc, []) == 0 && Levels(doc, []) == 0
    ensures Levels(doc, [sel]) >= 1 && (Productive(doc, [sel]) ==> FieldCount(doc, [sel]) > 0)
    ensures sel.Field? ==> FieldCount(doc, [sel]) == 1 + FieldCount(doc, sel.selSet)
    ensures sel.Field? ==> Nesting(doc, [sel]) == if sel.selSet == [] then 1 else 1 + Nesting(doc, sel.selSet)
    ensures sel.InlineFragment? ==> FieldCount(doc, [sel]) == FieldCount(doc, sel.selSet) && Nesting(doc, [sel]) == Nesting(doc, sel.selSet)
    ensures !sel.FragmentSpread? ==> Weight(doc, [sel]) == 1 + Weight(doc, sel.selSet) && Levels(doc, [sel]) == 1 + Levels(doc, sel.selSet)
    ensures !sel.FragmentSpread? && Productive(doc, [sel]) ==> Productive(doc, sel.selSet)
    ensures sel.FragmentSpread? && (sel.fragment == "" || sel.fragment !in doc.fragments) ==>
              FieldCount(doc, [sel]) == 0 && Nesting(doc, [sel]) == 1 && Weight(doc, [sel]) == 1
    ensures sel.FragmentSpread? && sel.fragment != "" && sel.fragment in doc.fragments ==>
              var inner := doc.fragments[sel.fragment].selSet;
              && FieldCount(doc, [sel]) == FieldCount(doc, inner) && Nesting(doc, [sel]) == Nesting(doc, inner)
              && Weight(doc, [sel]) == 1 + Weight(doc, inner) && Levels(doc, [sel]) == 1 + Levels(doc, inner)
              && (Productive(doc, [sel]) ==> Productive(doc, inner))
  {
    assert [sel][1..] == [];
    match sel
    case Field(_, _, _, inner) => NestingIsPositive(doc, inner);
    case InlineFragment(_, inner) => NestingIsPositive(doc, inner);
    case FragmentSpread(name) =>
      if name != "" && name in doc.fragments {
        NestingIsPositive(doc, doc.fragments[name].selSet);
      }
  }

  /** The cost of a selection set is the cost of its first selection and of the others. */
  lemma HeadAndRest(doc: Document, sels: seq<Selection>)
    requires Acyclic(doc) && sels != []
    ensures FieldCount(doc, sels) == FieldCount(doc, [sels[0]]) + FieldCount(doc, sels[1..])
    ensures Nesting(doc, sels) == Max(Nesting(doc, [sels[0]]), Nesting(doc, sels[1..]))
    ensures Weight(doc, sels) == Weight(doc, [sels[0]]) + Weight(doc, sels[1..])
    ensures Levels(doc, sels) == Max(Levels(doc, [sels[0]]), Levels(doc, sels[1..]))
    ensures Productive(doc, sels) <==> Productive(doc, [sels[0]]) && Productive(doc, sels[1..])
    ensures Height(doc, [sels[0]]) <= Height(doc, sels) && Height(doc, sels[1..]) <= Height(doc, sels)
  {
    HeadAlone(doc, sels[0]);
    NestingIsPositive(doc, sels[1..]);
    assert SpreadNames([sels[0]]) == SpreadNamesOf(sels[0]) + SpreadNames([]);
    SubsetLowersHeight(doc, sels, [sels[0]]);
    SubsetLowersHeight(doc, sels, sels[1..]);
  }

  lemma {:induction false} SuffixLowersHeight(doc: Document, sels: seq<Selection>, i: nat)
    requires Acyclic(doc) && i <= |sels|
    ensures Height(doc, sels[i..]) <= Height(doc, sels)
  {
    if i == 0 {
      assert sels[0..] == sels;
    } else {
      SuffixLowersHeight(doc, sels, i - 1);
      SelectionAndRest(doc, sels, i - 1);
    }
  }

  function TotalFields(doc: Document, ops: seq<Operation>): nat
    requires Acyclic(doc)
  {
    if ops == [] then 0 else FieldCount(doc, ops[0].selSet) + TotalFields(doc, ops[1..])
  }

  /** The depth and node walk over the expanded document. */
  class CostWalker {
    const doc: Document
    const maxDepth: int
    const maxNodes: int
    var nodes: nat
    var expanding: map<string, bool>
    /** The selections visited. */
    ghost var visits: nat

    constructor (doc: Document, maxDepth: int, maxNodes: int)
      ensures this.doc == doc && this.maxDepth == maxDepth && this.maxNodes == maxNodes
      ensures nodes == 0 && visits == 0 && Active() == {}
    {
      this.doc, this.maxDepth, this.maxNodes := doc, maxDepth, maxNodes;
      nodes, expanding, visits := 0, map[], 0;
    }

    ghost function Counted(): Tally
      reads this
    {
      Tally(nodes, visits)
    }

    ghost function Active(): set<string>
      reads this
    {
      set n | n in expanding && expanding[n]
    }

    /** What makes the re-entrancy guard idle: every spread in progress ranks at least as high
        as what is being walked, while the spreads still to come rank lower. */
    ghost predicate GuardIdle(height: nat)
      reads this
    {
      forall n | n in Active() :: n in doc.fragments && height <= Rank(SpreadGraph(doc), n)
    }

    /** Succeeds exactly when both ceilings hold for the whole expansion, and then has counted
        every field of it and visited every selection; on failure the count has passed the node
        ceiling by at most one. However it ends, it has visited at most one selection per field
        counted and level of the expansion, if all of them hold fields. */
    method Walk(sels: seq<Selection>, depth: nat) returns (err: Option<LimitError>)
      requires Acyclic(doc) && depth >= 1
      requires GuardIdle(Height(doc, sels))
      requires Within(maxNodes, nodes)
      modifies this
      ensures err.None? <==> Within(maxDepth, depth - 1 + Nesting(doc, sels)) && Within(maxNodes, old(nodes) + FieldCount(doc, sels))
      ensures err.None? ==> nodes == old(nodes) + FieldCount(doc, sels) && visits == old(visits) + Weight(doc, sels)
      ensures Within(maxNodes, nodes - 1)
      ensures Productive(doc, sels) ==> Paid(Levels(doc, sels), visits - old(visits), nodes - old(nodes))
      ensures Walked(CostOf(doc, sels), depth, maxDepth, maxNodes, old(Counted()), Counted(), err.None?)
      ensures Active() == old(Active())
      decreases Height(doc, sels), 1, sels, 1
    {
      if maxDepth > 0 && depth > maxDepth {
        WalkRefused(doc, sels, depth, maxDepth, maxNodes, Counted());
        return Some(DepthExceeded);
      }
      ghost var before, whole := Counted(), CostOf(doc, sels);
      var i := 0;
      assert sels[0..] == sels;
      while i < |sels|
        invariant 0 <= i <= |sels|
        invariant Halfway(whole, CostOf(doc, sels[i..]), depth, maxDepth, maxNodes, before, Counted())
        invariant Active() == old(Active())
      {
        err := WalkNext(sels, i, depth, whole, before);
        if err.Some? {
          return;
        }
        i := i + 1;
      }
      assert sels[i..] == [];
      WalkEnds(doc, whole, depth, maxDepth, maxNodes, before, Counted());
      return None;
    }

    /** The loop body of Walk. */
    method WalkNext(sels: seq<Selection>, i: nat, depth: nat, ghost whole: Cost, ghost before: Tally) returns (err: Option<LimitError>)
      requires Acyclic(doc) && depth >= 1 && Within(maxDepth, depth) && GuardIdle(Height(doc, sels))
      requires i < |sels|
      requires Halfway(whole, CostOf(doc, sels[i..]), depth, maxDepth, maxNodes, before, Counted())
      modifies this
      ensures if err.None? then Halfway(whole, CostOf(doc, sels[i + 1..]), depth, maxDepth, maxNodes, before, Counted())
              else Walked(whole, depth, maxDepth, maxNodes, before, Counted(), false)
      ensures Active() == old(Active())
      decreases Height(doc, sels), 1, sels, 0
    {
      SelectionAndRest(doc, sels, i);
      SuffixLowersHeight(doc, sels, i);
      err := WalkOne(sels[i], depth);
      WalkGoesOn(whole, CostOf(doc, [sels[i]]), CostOf(doc, sels[i + 1..]), depth, maxDepth, maxNodes, before, old(Counted()), Counted(), err.None?);
    }

    /** One selection. */
    method WalkOne(sel: Selection, depth: nat) returns (err: Option<LimitError>)
      requires Acyclic(doc) && depth >= 1 && Within(maxDepth, depth)
      requires GuardIdle(Height(doc, [sel]))
      requires Within(maxNodes, nodes)
      modifies this
      ensures Walked(CostOf(doc, [sel]), depth, maxDepth, maxNodes, old(Counted()), Counted(), err.None?)
      ensures Active() == old(Active())
      decreases Height(doc, [sel]), 1, sel, 0
    {
      ghost var before := Counted();
      visits := visits + 1;
      WalkLowersHeight(doc, [sel]);
      match sel {
        case Field(_, _, _, inner) =>
          nodes := nodes + 1;
          if maxNodes > 0 && nodes > maxNodes {
            FieldRefused(doc, sel, depth, maxDepth, maxNodes, before);
            return Some(NodesExceeded);
          }
          err := None;
          if |inner| > 0 {
            err := Walk(inner, depth + 1);
          }
          FieldWalked(doc, sel, depth, maxDepth, maxNodes, before, Counted(), err.None?);
        case InlineFragment(_, inner) =>
          // An inline fragment adds no response level.
          err := Walk(inner, depth);
          FragmentWalked(doc, sel, inner, depth, maxDepth, maxNodes, before, Counted(), err.None?);
        case FragmentSpread(name) =>
          if name == "" || name !in doc.fragments {
            UnknownWalked(doc, sel, depth, maxDepth, maxNodes, before);
            return None;
          }
          err := WalkSpread(name, depth, Height(doc, [sel]));
          FragmentWalked(doc, sel, doc.fragments[name].selSet, depth, maxDepth, maxNodes, before, Counted(), err.None?);
      }
    }

    /** Expands one defined spread in place. The guard against an expansion in progress is dead:
        the walk only gets here for a fragment that is not being expanded. */
    method WalkSpread(name: string, depth: nat, ghost height: nat) returns (err: Option<LimitError>)
      requires Acyclic(doc) && depth >= 1
      requires name in doc.fragments && Rank(SpreadGraph(doc), name) < height
      requires GuardIdle(height)
      requires Within(maxNodes, nodes)
      modifies this
      ensures Walked(CostOf(doc, doc.fragments[name].selSet), depth, maxDepth, maxNodes, old(Counted()), Counted(), err.None?)
      ensures Active() == old(Active())
      decreases height, 0
    {
      FragmentHeightBelowRank(doc, name);
      assert name !in Active();
      if name in expanding && expanding[name] {
        assert false;
        return None;
      }
      expanding := expanding[name := true];
      assert Active() == old(Active()) + {name};
      err := Walk(doc.fragments[name].selSet, depth);
      expanding := expanding[name := false];
      assert Active() == old(Active());
    }
  }

  // The linear pass over the document as written: aliases and introspection fields.

  function AliasCount(sels: seq<Selection>): nat {
    if sels == [] then 0
    else
      (match sels[0]
       case Field(alias, _, _, inner) => (if alias != "" then 1 else 0) + AliasCount(inner)
       case InlineFragment(_, inner) => AliasCount(inner)
       case FragmentSpread(_) => 0)
      + AliasCount(sels[1..])
  }

  predicate IsIntrospectionField(name: string) {
    "__" <= name
  }

  predicate Introspects(sels: seq<Selection>) {
    sels != [] &&
    ((match sels[0]
      case Field(_, name, _, inner) => IsIntrospectionField(name) || Introspects(inner)
      case InlineFragment(_, inner) => Introspects(inner)
      case FragmentSpread(_) => false)
     || Introspects(sels[1..]))
  }

  function OperationAliases(ops: seq<Operation>): nat {
    if ops == [] then 0 else AliasCount(ops[0].selSet) + OperationAliases(ops[1..])
  }

  /** The aliases of the fragments named in keys: the order of the sum is immaterial. */
  ghost function FragmentAliases(fragments: map<string, FragmentDef>, keys: set<string>): nat
    requires keys <= fragments.Keys
    decreases |keys|
  {
    if keys == {} then 0
    else
      var k :| k in keys;
      AliasCount(fragments[k].selSet) + FragmentAliases(fragments, keys - {k})
  }

  lemma {:induction false} FragmentAliasesPick(fragments: map<string, FragmentDef>, keys: set<string>, k: string)
    requires keys <= fragments.Keys && k in keys
    ensures FragmentAliases(fragments, keys) == AliasCount(fragments[k].selSet) + FragmentAliases(fragments, keys - {k})
    decreases |keys|
  {
    var first :| first in keys &&
      FragmentAliases(fragments, keys) == AliasCount(fragments[first].selSet) + FragmentAliases(fragments, keys - {first});
    if first != k {
      FragmentAliasesPick(fragments, keys - {first}, k);
      FragmentAliasesPick(fragments, keys - {k}, first);
      assert keys - {first} - {k} == keys - {k} - {first};
    }
  }

  /** The scan's captured counter. */
  class AliasScan {
    const limits: Limits
    var aliases: nat

    constructor (limits: Limits)
      ensures this.limits == limits && aliases == 0
    {
      this.limits := limits;
      aliases := 0;
    }

    method Scan(sels: seq<Selection>) returns (err: Option<LimitError>)
      requires Within(limits.maxAliases, aliases)
      modifies this
      ensures err.None? <==>
              && (limits.disableIntrospection ==> !Introspects(sels))
              && Within(limits.maxAliases, old(aliases) + AliasCount(sels))
      ensures err.None? && limits.maxAliases > 0 ==> aliases == old(aliases) + AliasCount(sels)
      decreases sels
    {
      var i := 0;
      assert sels[i..] == sels;
      while i < |sels|
        invariant 0 <= i <= |sels|
        invariant limits.maxAliases > 0 ==> aliases + AliasCount(sels[i..]) == old(aliases) + AliasCount(sels)
        invariant Within(limits.maxAliases, aliases)
        invariant limits.disableIntrospection ==> (Introspects(sels) <==> Introspects(sels[i..]))
      {
        assert sels[i..][1..] == sels[i + 1..];
        match sels[i] {
          case Field(alias, name, _, inner) =>
            if limits.disableIntrospection && IsIntrospectionField(name) {
              return Some(IntrospectionDisabled);
            }
            if limits.maxAliases > 0 && alias != "" {
              aliases := aliases + 1;
              if aliases > limits.maxAliases {
                return Some(AliasesExceeded);
              }
            }
            err := Scan(inner);
            if err.Some? {
              return;
            }
          case InlineFragment(_, inner) =>
            err := Scan(inner);
            if err.Some? {
              return;
            }
          case FragmentSpread(_) =>
        }
        i := i + 1;
      }
      return None;
    }
  }

  ghost function TotalAliases(doc: Document): nat {
    OperationAliases(doc.operations) + FragmentAliases(doc.fragments, doc.fragments.Keys)
  }

  ghost predicate FreeOfIntrospection(doc: Document) {
    && (forall op | op in doc.operations :: !Introspects(op.selSet))
    && (forall n | n in doc.fragments :: !Introspects(doc.fragments[n].selSet))
  }

  method CheckAliasesAndIntrospection(limits: Limits, doc: Document) returns (err: Option<LimitError>)
    ensures err.None? <==>
            && (limits.disableIntrospection ==> FreeOfIntrospection(doc))
            && Within(limits.maxAliases, TotalAliases(doc))
  {
    var scan := new AliasScan(limits);
    var i := 0;
    assert doc.operations[i..] == doc.operations;
    while i < |doc.operations|
      invariant 0 <= i <= |doc.operations|
      invariant fresh(scan) && scan.limits == limits && Within(limits.maxAliases, scan.aliases)
      invariant limits.maxAliases > 0 ==> scan.aliases + OperationAliases(doc.operations[i..]) == OperationAliases(doc.operations)
      invariant limits.disableIntrospection ==> forall k | 0 <= k < i :: !Introspects(doc.operations[k].selSet)
    {
      assert doc.operations[i..][1..] == doc.operations[i + 1..];
      err := scan.Scan(doc.operations[i].selSet);
      if err.Some? {
        return;
      }
      i := i + 1;
    }
    var todo := doc.fragments.Keys;
    while todo != {}
      invariant todo <= doc.fragments.Keys
      invariant fresh(scan) && scan.limits == limits && Within(limits.maxAliases, scan.aliases)
      invariant limits.maxAliases > 0 ==> scan.aliases + FragmentAliases(doc.fragments, todo) == TotalAliases(doc)
      invariant limits.disableIntrospection ==> forall n | n in doc.fragments && n !in todo :: !Introspects(doc.fragments[n].selSet)
      decreases todo
    {
      var name :| name in todo;
      FragmentAliasesPick(doc.fragments, todo, name);
      err := scan.Scan(doc.fragments[name].selSet);
      if err.Some? {
        return;
      }
      todo := todo - {name};
    }
    return None;
  }

  /** All operations together are within the node budget, each is within the depth ceiling. */
  ghost predicate WithinBudget(limits: Limits, doc: Document)
    requires Acyclic(doc)
  {
    && Within(limits.maxSelectionNodes, TotalFields(doc, doc.operations))
    && (forall op | op in doc.operations :: Within(limits.maxDepth, Nesting(doc, op.selSet)))
  }

  /** The first i operations have been walked and have so many fields. */
  ghost predicate WalkedFirst(limits: Limits, doc: Document, i: nat, nodes: int)
    requires Acyclic(doc)
  {
    && i <= |doc.operations| && Within(limits.maxSelectionNodes, nodes)
    && nodes + TotalFields(doc, doc.operations[i..]) == TotalFields(doc, doc.operations)
    && (forall k | 0 <= k < i :: Within(limits.maxDepth, Nesting(doc, doc.operations[k].selSet)))
  }

  lemma OperationAndRest(limits: Limits, doc: Document, i: nat, nodes: int)
    requires Acyclic(doc) && WalkedFirst(limits, doc, i, nodes) && i < |doc.operations|
    ensures var sels := doc.operations[i].selSet;
            if Within(limits.maxDepth, Nesting(doc, sels)) && Within(limits.maxSelectionNodes, nodes + FieldCount(doc, sels))
            then WalkedFirst(limits, doc, i + 1, nodes + FieldCount(doc, sels)) else !WithinBudget(limits, doc)
  {
    assert doc.operations[i..][1..] == doc.operations[i + 1..];
    assert doc.operations[i] in doc.operations;
  }

  lemma NothingWalked(limits: Limits, doc: Document)
    requires Acyclic(doc)
    ensures WalkedFirst(limits, doc, 0, 0)
  {
    assert doc.operations[0..] == doc.operations;
  }

  lemma AllWalked(limits: Limits, doc: Document, nodes: int)
    requires Acyclic(doc) && WalkedFirst(limits, doc, |doc.operations|, nodes)
    ensures WithinBudget(limits, doc)
  {
    forall op | op in doc.operations ensures Within(limits.maxDepth, Nesting(doc, op.selSet)) {
      var k :| 0 <= k < |doc.operations| && doc.operations[k] == op;
    }
  }

  ghost predicate ProductiveDocument(doc: Document)
    requires Acyclic(doc)
  {
    forall op | op in doc.operations :: Productive(doc, op.selSet)
  }

  function MostLevels(doc: Document, ops: seq<Operation>): nat
    requires Acyclic(doc)
  {
    if ops == [] then 0 else Max(Levels(doc, ops[0].selSet), MostLevels(doc, ops[1..]))
  }

  lemma {:induction false} MostLevelsBounds(doc: Document, ops: seq<Operation>, i: nat)
    requires Acyclic(doc) && i < |ops|
    ensures Levels(doc, ops[i].selSet) <= MostLevels(doc, ops)
  {
    if i > 0 {
      MostLevelsBounds(doc, ops[1..], i - 1);
    }
  }

  /** One more operation has been walked at its own price. */
  lemma OperationPaid(doc: Document, i: nat, now: Tally, after: Tally)
    requires Acyclic(doc) && i < |doc.operations| && Paid(MostLevels(doc, doc.operations), now.visits, now.nodes)
    requires Paid(Levels(doc, doc.operations[i].selSet), after.visits - now.visits, after.nodes - now.nodes)
    ensures Paid(MostLevels(doc, doc.operations), after.visits, after.nodes)
  {
    var most := MostLevels(doc, doc.operations);
    MostLevelsBounds(doc, doc.operations, i);
    PaidOnMoreLevels(Levels(doc, doc.operations[i].selSet), most, after.visits - now.visits, after.nodes - now.nodes);
    PaidTogether(most, now.visits, now.nodes, after.visits - now.visits, after.nodes - now.nodes);
  }

  lemma OperationsPaid(limits: Limits, doc: Document, tally: Tally)
    requires Acyclic(doc) && Within(limits.maxSelectionNodes, tally.nodes - 1)
    requires ProductiveDocument(doc) ==> Paid(MostLevels(doc, doc.operations), tally.visits, tally.nodes)
    ensures ProductiveDocument(doc) && limits.maxSelectionNodes > 0 ==>
              tally.visits <= (limits.maxSelectionNodes + 1) * MostLevels(doc, doc.operations)
  {
    var levels := MostLevels(doc, doc.operations);
    if limits.maxSelectionNodes > 0 {
      assert tally.nodes * levels <= (limits.maxSelectionNodes + 1) * levels;
    }
  }

  /** The node budget is shared by all operations; the depth ceiling applies to each. If all their
      selections hold fields, the node limit bounds the selections visited, whatever the outcome. */
  method WalkOperations(limits: Limits, doc: Document) returns (err: Option<LimitError>, ghost visits: nat)
    requires Acyclic(doc)
    ensures err.None? <==> WithinBudget(limits, doc)
    ensures ProductiveDocument(doc) && limits.maxSelectionNodes > 0 ==>
              visits <= (limits.maxSelectionNodes + 1) * MostLevels(doc, doc.operations)
  {
    ghost var levels := MostLevels(doc, doc.operations);
    var walker := new CostWalker(doc, limits.maxDepth, limits.maxSelectionNodes);
    var i := 0;
    NothingWalked(limits, doc);
    while i < |doc.operations|
      invariant 0 <= i <= |doc.operations|
      invariant fresh(walker) && walker.doc == doc && walker.Active() == {}
      invariant walker.maxDepth == limits.maxDepth && walker.maxNodes == limits.maxSelectionNodes
      invariant WalkedFirst(limits, doc, i, walker.nodes)
      invariant ProductiveDocument(doc) ==> Paid(levels, walker.visits, walker.nodes)
    {
      OperationAndRest(limits, doc, i, walker.nodes);
      ghost var now := walker.Counted();
      err := walker.Walk(doc.operations[i].selSet, 1);
      visits := walker.visits;
      if ProductiveDocument(doc) {
        assert doc.operations[i] in doc.operations;
        OperationPaid(doc, i, now, walker.Counted());
      }
      if err.Some? {
        OperationsPaid(limits, doc, walker.Counted());
        return;
      }
      i := i + 1;
    }
    AllWalked(limits, doc, walker.nodes);
    OperationsPaid(limits, doc, walker.Counted());
    return None, walker.visits;
  }

  /** What a document must satisfy to be executed under the limits. */
  ghost predicate Acceptable(limits: Limits, doc: Document)
    requires Acyclic(doc)
  {
    && (limits.disableIntrospection ==> FreeOfIntrospection(doc))
    && Within(limits.maxAliases, TotalAliases(doc))
    && WithinBudget(limits, doc)
  }

  /** The limit check passes exactly the acceptable documents. */
  method Validate(limits: Limits, doc: Document) returns (err: Option<LimitError>)
    requires Acyclic(doc)
    ensures err.None? <==> Acceptable(limits, doc)
  {
    if limits.maxAliases > 0 || limits.disableIntrospection {
      err := CheckAliasesAndIntrospection(limits, doc);
      if err.Some? {
        return;
      }
    }
    if limits.maxDepth <= 0 && limits.maxSelectionNodes <= 0 {
      return None;
    }
    ghost var visits;
    err, visits := WalkOperations(limits, doc);
  }
}
