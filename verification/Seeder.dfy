/** The seeder registry and its dependency order (seeder/seeder.go). */
module Seeder {
  import opened Prelude
  import opened Digraph
  import opened DepthFirst
  import opened Ordering

  datatype SortOutcome =
    | Ordered(names: seq<string>)
    | UnknownDependency(name: string)
    | DependencyCycle(name: string)

  ghost predicate AllKnown(g: Graph) {
    forall n, d | n in g && d in g[n] :: d in g
  }

  /** An error names a dependency that is not registered, or a seeder that reaches itself. */
  ghost predicate Justified(g: Graph, err: SortOutcome) {
    match err
    case Ordered(_) => false
    case UnknownDependency(d) => d !in g && exists n | n in g :: d in g[n]
    case DependencyCycle(n) => Connected(g, n, n)
  }

  /** The search invariant: a finished seeder is registered, and so are all it depends on. */
  ghost predicate Settled(g: Graph, visited: map<string, int>, stack: seq<string>, out: seq<string>) {
    && Coherent(g, visited, stack, out)
    && (forall n, d | Done(visited, n) && n in g && d in g[n] :: Done(visited, d))
    && (forall n | Done(visited, n) :: n in g)
  }

  ghost predicate FirstDone(visited: map<string, int>, deps: seq<string>, count: nat) {
    count <= |deps| && forall k | 0 <= k < count :: Done(visited, deps[k])
  }

  /** The first dependencies are done, and nothing came out if all were done from the start. */
  ghost predicate DepsVisited(start: map<string, int>, startOut: seq<string>, visited: map<string, int>, out: seq<string>, deps: seq<string>, count: nat) {
    && Progress(start, visited) && FirstDone(visited, deps, count)
    && ((forall d | d in deps :: Done(start, d)) ==> out == startOut)
  }

  lemma OneMoreDone(before: map<string, int>, after: map<string, int>, deps: seq<string>, count: nat)
    requires FirstDone(before, deps, count) && Progress(before, after)
    requires count < |deps| && Done(after, deps[count])
    ensures FirstDone(after, deps, count + 1)
  {
  }

  lemma PushKeepsSettled(g: Graph, visited: map<string, int>, stack: seq<string>, out: seq<string>, name: string)
    requires Settled(g, visited, stack, out) && name in g && name !in visited
    requires stack != [] ==> Edge(g, stack[|stack| - 1], name)
    ensures Settled(g, visited[name := ON_STACK], stack + [name], out)
  {
    PushKeepsCoherent(g, visited, stack, out, name);
    var visited' := visited[name := ON_STACK];
    forall n ensures Done(visited', n) <==> Done(visited, n) {
      if n == name {
        assert visited'[n] == ON_STACK != DONE;
      }
    }
    forall n, d | Done(visited', n) && n in g && d in g[n] ensures Done(visited', d) {
      assert Done(visited, n);
    }
    forall n | Done(visited', n) ensures n in g {
      assert Done(visited, n);
    }
  }

  lemma FinishKeepsSettled(g: Graph, visited: map<string, int>, stack: seq<string>, out: seq<string>, name: string)
    requires Settled(g, visited, stack + [name], out)
    requires forall d | d in g[name] :: Done(visited, d)
    requires name in g
    ensures Settled(g, visited[name := DONE], stack, out + [name])
  {
    forall b | Edge(g, name, b) ensures Done(visited, b) {
      assert b in g[name];
    }
    FinishKeepsCoherent(g, visited, stack, out, name);
    var visited' := visited[name := DONE];
    forall n ensures Done(visited', n) <==> Done(visited, n) || n == name {
    }
    forall n, d | Done(visited', n) && n in g && d in g[n] ensures Done(visited', d) {
      assert n != name ==> Done(visited, n);
      assert Done(visited, d);
    }
    forall n | Done(visited', n) ensures n in g {
      assert n != name ==> Done(visited, n);
    }
  }

  /** The registry: each seeder is known by its name and the dependencies it declares. */
  class Registry {
    var seeders: Graph
    var order: seq<string>

    ghost predicate Valid()
      reads this
    {
      && Distinct(order)
      && (forall n :: n in order <==> n in seeders)
      && "" !in seeders
    }

    constructor ()
      ensures Valid() && order == []
    {
      seeders, order := map[], [];
    }

    /** An empty or duplicate name panics in the source: accepted is false and nothing changes. */
    method Register(name: string, deps: seq<string>) returns (accepted: bool)
      requires Valid()
      modifies this
      ensures Valid()
      ensures accepted <==> name != "" && name !in old(seeders)
      ensures accepted ==> seeders == old(seeders)[name := deps] && order == old(order) + [name]
      ensures !accepted ==> seeders == old(seeders) && order == old(order)
    {
      if name == "" || name in seeders {
        return false;
      }
      seeders := seeders[name := deps];
      order := order + [name];
      assert forall n :: n in order <==> n in old(order) || n == name;
      return true;
    }

    /** Succeeds exactly when every dependency is registered and none is circular; the result
        lists each seeder once, after its dependencies, and keeps an order that is already good. */
    method Sorted() returns (r: SortOutcome)
      requires Valid()
      ensures r.Ordered? <==> AllKnown(seeders) && !Cyclic(seeders)
      ensures r.Ordered? ==> SuccessorsFirst(seeders, r.names) && multiset(r.names) == multiset(order)
      ensures r.Ordered? && SuccessorsFirst(seeders, order) ==> r.names == order
      ensures !r.Ordered? ==> Justified(seeders, r)
    {
      var sorter := new Sorter(seeders);
      var i := 0;
      while i < |order|
        invariant 0 <= i <= |order|
        invariant fresh(sorter) && sorter.g == seeders && sorter.Valid() && sorter.stack == []
        invariant FirstDone(sorter.visited, order, i)
        invariant SuccessorsFirst(seeders, order) && AllKnown(seeders) ==> sorter.out == order[..i]
      {
        assert order[..i + 1] == order[..i] + [order[i]];
        if SuccessorsFirst(seeders, order) && AllKnown(seeders) {
          ReadyInOrder(seeders, order, i, sorter.visited, sorter.out);
        }
        ghost var before := sorter.visited;
        var err := sorter.Visit(order[i]);
        if err.Some? {
          ErrorsExcludeOrder(seeders, err.value);
          return err.value;
        }
        OneMoreDone(before, sorter.visited, order, i);
        i := i + 1;
      }
      assert order[..i] == order;
      CompletedOrder(seeders, order, sorter.visited, sorter.out);
      return Ordered(sorter.out);
    }
  }

  lemma ErrorsExcludeOrder(g: Graph, err: SortOutcome)
    requires Justified(g, err)
    ensures !AllKnown(g) || Cyclic(g)
  {
  }

  lemma ReadyInOrder(g: Graph, order: seq<string>, i: nat, visited: map<string, int>, out: seq<string>)
    requires i < |order| && SuccessorsFirst(g, order) && AllKnown(g) && out == order[..i]
    requires Settled(g, visited, [], out)
    ensures order[i] !in visited
    ensures forall d | d in g[order[i]] :: Done(visited, d)
  {
    assert order[i] !in out;
    forall d | d in g[order[i]] ensures Done(visited, d) {
      assert Edge(g, order[i], d);
    }
  }

  lemma CompletedOrder(g: Graph, order: seq<string>, visited: map<string, int>, out: seq<string>)
    requires Settled(g, visited, [], out) && Distinct(order)
    requires forall n :: n in order <==> n in g
    requires FirstDone(visited, order, |order|)
    ensures AllKnown(g) && !Cyclic(g)
    ensures SuccessorsFirst(g, out) && multiset(out) == multiset(order)
  {
    OrderRefutesCycles(g, out);
    SameElementsSameMultiset(out, order);
  }

  lemma SameElementsSameMultiset(a: seq<string>, b: seq<string>)
    requires Distinct(a) && Distinct(b) && forall n :: n in a <==> n in b
    ensures multiset(a) == multiset(b)
  {
    DistinctCounts(a);
    DistinctCounts(b);
    forall n ensures multiset(a)[n] == multiset(b)[n] {
      assert n in multiset(a) <==> n in a;
      assert n in multiset(b) <==> n in b;
    }
  }

  lemma {:induction false} DistinctCounts(a: seq<string>)
    requires Distinct(a)
    ensures forall n | n in a :: multiset(a)[n] == 1
  {
    if a != [] {
      var rest := a[1..];
      forall i, j | 0 <= i < j < |rest| ensures rest[i] != rest[j] {
        assert a[i + 1] != a[j + 1];
      }
      DistinctCounts(rest);
      assert a == [a[0]] + rest;
      assert a[0] !in rest;
      assert multiset(rest)[a[0]] == 0;
    }
  }

  /** The state captured by the recursive closure: the colour map and the growing result. */
  class Sorter {
    const g: Graph
    var visited: map<string, int>
    var out: seq<string>
    ghost var stack: seq<string>

    ghost predicate Valid()
      reads this
    {
      Settled(g, visited, stack, out)
    }

    ghost function Unvisited(): set<string>
      reads this
    {
      g.Keys - visited.Keys
    }

    constructor (g: Graph)
      ensures Valid() && this.g == g && stack == [] && out == []
    {
      this.g := g;
      visited, out, stack := map[], [], [];
    }

    /** Visits a root (stack empty) or a dependency of the innermost seeder being visited. */
    method Visit(name: string) returns (err: Option<SortOutcome>)
      requires Valid()
      requires stack == [] ==> name in g
      requires stack != [] ==> stack[|stack| - 1] in g && name in g[stack[|stack| - 1]]
      modifies this
      ensures err.Some? ==> Justified(g, err.value)
      ensures err.None? ==> Valid() && stack == old(stack) && Done(visited, name)
      ensures err.None? ==> Progress(old(visited), visited)
      ensures err.None? && Done(old(visited), name) ==> out == old(out)
      ensures err.None? && name !in old(visited) && name in g && (forall d | d in g[name] :: Done(old(visited), d)) ==>
                out == old(out) + [name]
      decreases |Unvisited()|, 0
    {
      if name !in g {
        return Some(UnknownDependency(name));
      }
      assert stack != [] ==> Edge(g, stack[|stack| - 1], name);
      if name in visited && visited[name] == ON_STACK {
        OnStackMeansCycle(g, visited, stack, out, name);
        return Some(DependencyCycle(name));
      }
      if name in visited && visited[name] == DONE {
        return None;
      }
      assert name !in visited;
      Push(name);
      var deps := Sort(g[name], AtMost);
      SortKeepsElements(g[name], AtMost);
      err := VisitAll(name, deps);
      if err.Some? {
        return;
      }
      Finish(name, old(stack));
    }

    /** Colours a new seeder as being on the stack. */
    method Push(name: string)
      requires Valid() && name in g && name !in visited
      requires stack != [] ==> Edge(g, stack[|stack| - 1], name)
      modifies this
      ensures Valid() && stack == old(stack) + [name] && out == old(out)
      ensures visited == old(visited)[name := ON_STACK]
      ensures |Unvisited()| < |old(Unvisited())|
    {
      PushKeepsSettled(g, visited, stack, out, name);
      visited := visited[name := ON_STACK];
      stack := stack + [name];
      ProperSubsetSize(Unvisited(), old(Unvisited()));
    }

    /** Appends the innermost seeder to the result, once all its dependencies are there. */
    method Finish(name: string, ghost rest: seq<string>)
      requires Valid() && stack == rest + [name] && name in g
      requires forall d | d in g[name] :: Done(visited, d)
      modifies this
      ensures Valid() && stack == rest && out == old(out) + [name]
      ensures visited == old(visited)[name := DONE]
    {
      FinishKeepsSettled(g, visited, rest, out, name);
      visited := visited[name := DONE];
      stack := rest;
      out := out + [name];
    }

    /** The loop of Visit over the sorted dependencies of the seeder name. */
    method VisitAll(name: string, deps: seq<string>) returns (err: Option<SortOutcome>)
      requires Valid() && stack != [] && stack[|stack| - 1] == name && name in g
      requires forall d | d in deps :: d in g[name]
      modifies this
      ensures err.Some? ==> Justified(g, err.value)
      ensures err.None? ==> Valid() && stack == old(stack)
      ensures err.None? ==> Progress(old(visited), visited)
      ensures err.None? ==> forall d | d in deps :: Done(visited, d)
      ensures err.None? && (forall d | d in deps :: Done(old(visited), d)) ==> out == old(out)
      decreases |Unvisited()|, 2
    {
      var i := 0;
      while i < |deps|
        invariant 0 <= i <= |deps|
        invariant Valid() && stack == old(stack)
        invariant DepsVisited(old(visited), old(out), visited, out, deps, i)
      {
        SubsetSize(Unvisited(), old(Unvisited()));
        err := VisitDep(name, deps, i, old(visited), old(out));
        if err.Some? {
          return;
        }
        i := i + 1;
      }
      return None;
    }

    /** The loop body of VisitAll. */
    method VisitDep(name: string, deps: seq<string>, i: nat, ghost start: map<string, int>, ghost startOut: seq<string>)
      returns (err: Option<SortOutcome>)
      requires Valid() && stack != [] && stack[|stack| - 1] == name && name in g
      requires i < |deps| && deps[i] in g[name] && DepsVisited(start, startOut, visited, out, deps, i)
      modifies this
      ensures err.Some? ==> Justified(g, err.value)
      ensures err.None? ==> Valid() && stack == old(stack)
      ensures err.None? ==> DepsVisited(start, startOut, visited, out, deps, i + 1)
      decreases |Unvisited()|, 1
    {
      err := Visit(deps[i]);
      if err.None? {
        OneMoreDone(old(visited), visited, deps, i);
      }
    }
  }
}
