/** The fragment-cycle check that guards execution (graphql/execute.go). */
module FragmentCycles {
  import opened Prelude
  import opened Digraph
  import opened DepthFirst
  import opened GraphqlAst

  /** The depth-first search over the spread graph with its colour map. */
  class CycleDetector {
    const doc: Document
    var state: map<string, int>
    ghost var stack: seq<string>     // the fragments being visited, outermost first
    ghost var finished: seq<string>  // the defined fragments already done, in order

    ghost predicate Valid()
      reads this
    {
      Coherent(SpreadGraph(doc), state, stack, finished)
    }

    /** The defined fragments not visited yet: they bound the remaining work. */
    ghost function Unvisited(): set<string>
      reads this
    {
      doc.fragments.Keys - state.Keys
    }

    constructor (doc: Document)
      ensures Valid() && this.doc == doc && stack == [] && finished == []
    {
      this.doc := doc;
      state := map[];
      stack, finished := [], [];
    }

    /** Visits one fragment. A reported fragment lies on a cycle; a clean return has finished
        the fragment and everything it spreads. */
    method Visit(name: string) returns (err: Option<string>)
      requires Valid()
      requires stack != [] && name in doc.fragments ==> Edge(SpreadGraph(doc), stack[|stack| - 1], name)
      modifies this
      ensures err.Some? ==> Connected(SpreadGraph(doc), err.value, err.value)
      ensures err.None? ==> Valid() && stack == old(stack) && Done(state, name)
      ensures err.None? ==> Progress(old(state), state)
      decreases |Unvisited()|, 0
    {
      ghost var g := SpreadGraph(doc);
      if name in state && state[name] == ON_STACK {
        OnStackMeansCycle(g, state, stack, finished, name);
        return Some(name);
      }
      if name in state && state[name] == DONE {
        return None;
      }
      if name !in doc.fragments {
        // The name is no node of the graph: marking it done says nothing about any edge.
        UnknownKeepsCoherent(g, state, stack, finished, name);
        state := state[name := DONE];
        return None;
      }
      Push(name);
      err := VisitSpreads(doc.fragments[name].selSet);
      if err.None? {
        Finish(name, old(stack));
      }
    }

    /** Colours a new fragment as being on the stack. */
    method Push(name: string)
      requires Valid() && name in doc.fragments && name !in state
      requires stack != [] ==> Edge(SpreadGraph(doc), stack[|stack| - 1], name)
      modifies this
      ensures Valid() && stack == old(stack) + [name] && finished == old(finished)
      ensures state == old(state)[name := ON_STACK]
      ensures |Unvisited()| < |old(Unvisited())|
    {
      PushKeepsCoherent(SpreadGraph(doc), state, stack, finished, name);
      state := state[name := ON_STACK];
      stack := stack + [name];
      ProperSubsetSize(Unvisited(), old(Unvisited()));
    }

    /** Colours the innermost fragment as done, once everything it spreads is done. */
    method Finish(name: string, ghost rest: seq<string>)
      requires Valid() && stack == rest + [name]
      requires forall b | Edge(SpreadGraph(doc), name, b) :: Done(state, b)
      modifies this
      ensures Valid() && stack == rest && finished == old(finished) + [name]
      ensures state == old(state)[name := DONE]
    {
      FinishKeepsCoherent(SpreadGraph(doc), state, rest, finished, name);
      state := state[name := DONE];
      stack := rest;
      finished := finished + [name];
    }

    /** Visits every spread of a selection set that belongs to the innermost visited fragment. */
    method VisitSpreads(sels: seq<Selection>) returns (err: Option<string>)
      requires Valid() && stack != []
      requires forall n | n in SpreadNames(sels) && n in doc.fragments :: Edge(SpreadGraph(doc), stack[|stack| - 1], n)
      modifies this
      ensures err.Some? ==> Connected(SpreadGraph(doc), err.value, err.value)
      ensures err.None? ==> Valid() && stack == old(stack)
      ensures err.None? ==> forall n | n in SpreadNames(sels) :: Done(state, n)
      ensures err.None? ==> Progress(old(state), state)
      decreases |Unvisited()|, 1, sels, 1
    {
      var i := 0;
      while i < |sels|
        invariant 0 <= i <= |sels|
        invariant Valid() && stack == old(stack)
        invariant FirstSpreadsDone(state, sels, i)
        invariant Progress(old(state), state)
      {
        SubsetSize(Unvisited(), old(Unvisited()));
        err := VisitSpreadsAt(sels, i);
        if err.Some? {
          return;
        }
        i := i + 1;
      }
      return None;
    }

    /** The loop body of VisitSpreads. */
    method VisitSpreadsAt(sels: seq<Selection>, i: nat) returns (err: Option<string>)
      requires Valid() && stack != [] && i < |sels| && FirstSpreadsDone(state, sels, i)
      requires forall n | n in SpreadNames(sels) && n in doc.fragments :: Edge(SpreadGraph(doc), stack[|stack| - 1], n)
      modifies this
      ensures err.Some? ==> Connected(SpreadGraph(doc), err.value, err.value)
      ensures err.None? ==> Valid() && stack == old(stack)
      ensures err.None? ==> Progress(old(state), state) && FirstSpreadsDone(state, sels, i + 1)
      decreases |Unvisited()|, 1, sels, 0
    {
      OwnSpreads(sels, i);
      err := VisitSpreadsOf(sels[i]);
      if err.None? {
        OneMoreSelectionDone(old(state), state, sels, i);
      }
    }

    /** One selection of the walk above. */
    method VisitSpreadsOf(sel: Selection) returns (err: Option<string>)
      requires Valid() && stack != []
      requires forall n | n in SpreadNamesOf(sel) && n in doc.fragments :: Edge(SpreadGraph(doc), stack[|stack| - 1], n)
      modifies this
      ensures err.Some? ==> Connected(SpreadGraph(doc), err.value, err.value)
      ensures err.None? ==> Valid() && stack == old(stack)
      ensures err.None? ==> forall n | n in SpreadNamesOf(sel) :: Done(state, n)
      ensures err.None? ==> Progress(old(state), state)
      decreases |Unvisited()|, 1, sel
    {
      match sel {
        case Field(_, _, _, selSet) =>
          err := VisitSpreads(selSet);
        case InlineFragment(_, selSet) =>
          err := VisitSpreads(selSet);
        case FragmentSpread(name) =>
          if name != "" {
            err := Visit(name);
          } else {
            err := None;
          }
      }
    }
  }

  /** The spreads of a selection set are done but for those of the selections from i on. */
  ghost predicate FirstSpreadsDone(state: map<string, int>, sels: seq<Selection>, i: nat) {
    i <= |sels| && forall n | n in SpreadNames(sels) :: n in SpreadNames(sels[i..]) || Done(state, n)
  }

  lemma OneMoreSelectionDone(before: map<string, int>, after: map<string, int>, sels: seq<Selection>, i: nat)
    requires FirstSpreadsDone(before, sels, i) && Progress(before, after) && i < |sels|
    requires forall n | n in SpreadNamesOf(sels[i]) :: Done(after, n)
    ensures FirstSpreadsDone(after, sels, i + 1)
  {
    assert sels[i..][1..] == sels[i + 1..];
    assert SpreadNames(sels[i..]) == SpreadNamesOf(sels[i]) + SpreadNames(sels[i + 1..]);
  }

  lemma {:induction false} OwnSpreads(sels: seq<Selection>, i: nat)
    requires i < |sels|
    ensures forall n | n in SpreadNamesOf(sels[i]) :: n in SpreadNames(sels)
    decreases i
  {
    if i > 0 {
      OwnSpreads(sels[1..], i - 1);
    }
  }

  /** The check accepts exactly the documents without a cycle of spreads, whatever order the
      fragment map is walked in, and blames a fragment that does reach itself. */
  method DetectFragmentCycles(doc: Document) returns (err: Option<string>)
    ensures err.None? <==> Acyclic(doc)
    ensures err.Some? ==> Connected(SpreadGraph(doc), err.value, err.value)
  {
    var d := new CycleDetector(doc);
    var todo := doc.fragments.Keys;
    while todo != {}
      invariant d.Valid() && d.doc == doc && d.stack == []
      invariant fresh(d)
      invariant forall n | n in doc.fragments && n !in todo :: Done(d.state, n)
      decreases todo
    {
      var name :| name in todo;
      err := d.Visit(name);
      if err.Some? {
        return;
      }
      todo := todo - {name};
    }
    OrderRefutesCycles(SpreadGraph(doc), d.finished);
    return None;
  }

  /** What acceptance buys: a measure that drops at every spread, so that any walk which
      expands fragments in place must end. */
  lemma AcceptedDocumentsExpandFinitely(doc: Document)
    ensures Acyclic(doc) <==> exists rank :: DropsAlongEdges(SpreadGraph(doc), rank)
  {
    AcyclicIffMeasured(SpreadGraph(doc));
  }
}
