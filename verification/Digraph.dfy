/** Directed graphs given by adjacency lists, cycles, and orders that refute them.
    The fragment-spread graph (graphql) and the seeder dependency graph share this theory. */
module Digraph {
  import opened Prelude

  type Graph = map<string, seq<string>>

  /** An edge counts only when both ends are nodes: an arc to an undefined name is no edge. */
  ghost predicate Edge(g: Graph, a: string, b: string) {
    a in g && b in g && b in g[a]
  }

  ghost predicate IsPath(g: Graph, p: seq<string>) {
    forall i, j | 0 <= i < |p| && j == i + 1 && j < |p| :: Edge(g, p[i], p[j])
  }

  ghost predicate Connects(g: Graph, p: seq<string>, a: string, b: string) {
    |p| >= 2 && IsPath(g, p) && p[0] == a && p[|p| - 1] == b
  }

  /** b is reached from a by at least one edge. */
  ghost predicate Connected(g: Graph, a: string, b: string) {
    exists p :: Connects(g, p, a, b)
  }

  ghost predicate Cyclic(g: Graph) {
    exists a :: Connected(g, a, a)
  }

  ghost predicate Distinct(s: seq<string>) {
    forall i, j | 0 <= i < j < |s| :: s[i] != s[j]
  }

  /** Every node of order comes after all its successors. */
  ghost predicate SuccessorsFirst(g: Graph, order: seq<string>) {
    && Distinct(order)
    && (forall i | 0 <= i < |order| :: order[i] in g)
    && (forall i, b | 0 <= i < |order| && Edge(g, order[i], b) :: b in order[..i])
  }

  lemma {:induction false} PathStaysBefore(g: Graph, order: seq<string>, p: seq<string>, i: nat)
    requires SuccessorsFirst(g, order) && i < |order|
    requires |p| >= 2 && IsPath(g, p) && p[0] == order[i]
    ensures p[|p| - 1] in order[..i]
    decreases |p|
  {
    assert Edge(g, p[0], p[1]);
    assert p[1] in order[..i];
    var j :| 0 <= j < i && order[j] == p[1];
    if |p| > 2 {
      var q := p[1..];
      assert IsPath(g, q) by {
        forall k | 0 <= k < |q| - 1 ensures Edge(g, q[k], q[k + 1]) {
          assert Edge(g, p[k + 1], p[k + 2]);
        }
      }
      PathStaysBefore(g, order, q, j);
      assert p[|p| - 1] == q[|q| - 1];
      assert forall x | x in order[..j] :: x in order[..i];
    }
  }

  /** A complete order with successors first leaves no room for a cycle. */
  lemma OrderRefutesCycles(g: Graph, order: seq<string>)
    requires SuccessorsFirst(g, order)
    requires forall n | n in g :: n in order
    ensures !Cyclic(g)
  {
    forall a, p | Connects(g, p, a, a) ensures false {
      assert Edge(g, p[0], p[1]);
      var i :| 0 <= i < |order| && order[i] == a;
      PathStaysBefore(g, order, p, i);
    }
  }

  lemma EdgeConnects(g: Graph, a: string, b: string)
    requires Edge(g, a, b)
    ensures Connected(g, a, b)
  {
    assert Connects(g, [a, b], a, b);
  }

  lemma StepThenPath(g: Graph, a: string, b: string, c: string)
    requires Edge(g, a, b) && Connected(g, b, c)
    ensures Connected(g, a, c)
  {
    var p :| Connects(g, p, b, c);
    var q := [a] + p;
    forall i | 0 <= i < |q| - 1 ensures Edge(g, q[i], q[i + 1]) {
      if i > 0 {
        assert Edge(g, p[i - 1], p[i]);
      }
    }
    assert Connects(g, q, a, c);
  }

  /** A path that comes back to one of its own nodes closes a cycle. */
  lemma ReturnClosesCycle(g: Graph, stack: seq<string>, name: string)
    requires name in g && name in stack && IsPath(g, stack)
    requires Edge(g, stack[|stack| - 1], name)
    ensures Connected(g, name, name)
  {
    var i :| 0 <= i < |stack| && stack[i] == name;
    var p := stack[i..] + [name];
    forall k | 0 <= k < |p| - 1 ensures Edge(g, p[k], p[k + 1]) {
      if k < |p| - 2 {
        assert Edge(g, stack[i + k], stack[i + k + 1]);
      }
    }
    assert Connects(g, p, name, name);
  }

  ghost function Reach(g: Graph, a: string): set<string> {
    set b | b in g && Connected(g, a, b)
  }

  /** The number of nodes reachable from a: in an acyclic graph it drops along every edge,
      so it bounds any expansion that follows edges. */
  ghost function Rank(g: Graph, a: string): nat {
    |Reach(g, a)|
  }

  lemma EdgeLowersRank(g: Graph, a: string, b: string)
    requires !Cyclic(g) && Edge(g, a, b)
    ensures Rank(g, b) < Rank(g, a)
  {
    forall c | c in Reach(g, b) ensures c in Reach(g, a) {
      StepThenPath(g, a, b, c);
    }
    EdgeConnects(g, a, b);
    assert b in Reach(g, a) && b !in Reach(g, b);
    ProperSubsetSize(Reach(g, b), Reach(g, a));
  }

  ghost predicate DropsAlongEdges(g: Graph, rank: string -> nat) {
    forall a, b | Edge(g, a, b) :: rank(b) < rank(a)
  }

  lemma {:induction false} PathLowersRank(g: Graph, rank: string -> nat, p: seq<string>)
    requires DropsAlongEdges(g, rank)
    requires |p| >= 2 && IsPath(g, p)
    ensures rank(p[|p| - 1]) < rank(p[0])
    decreases |p|
  {
    assert Edge(g, p[0], p[1]);
    if |p| > 2 {
      var q := p[1..];
      forall k | 0 <= k < |q| - 1 ensures Edge(g, q[k], q[k + 1]) {
        assert Edge(g, p[k + 1], p[k + 2]);
      }
      PathLowersRank(g, rank, q);
    }
  }

  /** A graph is acyclic exactly when its nodes carry a measure that drops along every edge,
      that is, when following edges must end. */
  lemma AcyclicIffMeasured(g: Graph)
    ensures !Cyclic(g) <==> exists rank :: DropsAlongEdges(g, rank)
  {
    if !Cyclic(g) {
      var rank: string -> nat := a => Rank(g, a);
      forall a, b | Edge(g, a, b) ensures rank(b) < rank(a) {
        EdgeLowersRank(g, a, b);
      }
      assert DropsAlongEdges(g, rank);
    }
    if exists rank :: DropsAlongEdges(g, rank) {
      var rank :| DropsAlongEdges(g, rank);
      forall a, p | Connects(g, p, a, a) ensures false {
        PathLowersRank(g, rank, p);
      }
    }
  }
}

/** The state of a three-colour depth-first search, on values: shared by the fragment-cycle
    check (graphql/execute.go) and by the seeder sort (seeder/seeder.go). */
module DepthFirst {
  import opened Digraph

  const ON_STACK := 1
  const DONE := 2

  /** The search state: the nodes on the stack form a path, and the finished ones are
      listed with all their successors before them. */
  ghost predicate Coherent(g: Graph, state: map<string, int>, stack: seq<string>, finished: seq<string>) {
    && (forall n | n in state :: state[n] == ON_STACK || state[n] == DONE)
    && Distinct(stack) && IsPath(g, stack)
    && (forall n | n in stack :: n in g)
    && (forall n :: n in stack <==> n in state && state[n] == ON_STACK)
    && SuccessorsFirst(g, finished)
    && (forall n | n in g :: n in finished <==> n in state && state[n] == DONE)
  }

  ghost predicate Done(state: map<string, int>, n: string) {
    n in state && state[n] == DONE
  }

  /** Visiting never forgets a colour and never unfinishes a node. */
  ghost predicate Progress(before: map<string, int>, after: map<string, int>) {
    && before.Keys <= after.Keys
    && forall n | Done(before, n) :: Done(after, n)
  }

  lemma OnStackMeansCycle(g: Graph, state: map<string, int>, stack: seq<string>, finished: seq<string>, name: string)
    requires Coherent(g, state, stack, finished) && name in state && state[name] == ON_STACK
    requires stack != [] && name in g ==> Edge(g, stack[|stack| - 1], name)
    ensures Connected(g, name, name)
  {
    assert name in stack;
    ReturnClosesCycle(g, stack, name);
  }

  lemma PushKeepsCoherent(g: Graph, state: map<string, int>, stack: seq<string>, finished: seq<string>, name: string)
    requires Coherent(g, state, stack, finished) && name in g && name !in state
    requires stack != [] ==> Edge(g, stack[|stack| - 1], name)
    ensures Coherent(g, state[name := ON_STACK], stack + [name], finished)
  {
    var stack' := stack + [name];
    forall i | 0 <= i < |stack'| - 1 ensures Edge(g, stack'[i], stack'[i + 1]) {
      if i < |stack| - 1 {
        assert Edge(g, stack[i], stack[i + 1]);
      }
    }
    var state' := state[name := ON_STACK];
    forall n ensures n in stack' <==> n in state' && state'[n] == ON_STACK {
      assert n in stack' <==> n in stack || n == name;
    }
  }

  lemma FinishKeepsCoherent(g: Graph, state: map<string, int>, stack: seq<string>, finished: seq<string>, name: string)
    requires Coherent(g, state, stack + [name], finished)
    requires forall b | Edge(g, name, b) :: Done(state, b)
    ensures Coherent(g, state[name := DONE], stack, finished + [name])
  {
    var stack' := stack + [name];
    assert stack'[|stack|] == name && name in stack';
    forall i | 0 <= i < |stack| - 1 ensures Edge(g, stack[i], stack[i + 1]) {
      assert Edge(g, stack'[i], stack'[i + 1]);
    }
    forall i, j | 0 <= i < j < |stack| ensures stack[i] != stack[j] {
      assert stack'[i] != stack'[j];
    }
    forall i | 0 <= i < |stack| ensures stack[i] != name {
      assert stack'[i] != stack'[|stack|];
    }
    forall n | n in stack ensures n in g {
      assert n in stack';
    }
    var state' := state[name := DONE];
    forall n ensures n in stack <==> n in state' && state'[n] == ON_STACK {
      assert n in stack' <==> n in stack || n == name;
    }
    FinishKeepsOrder(g, finished, name);
    forall n | n in g ensures n in finished + [name] <==> n in state' && state'[n] == DONE {
      assert n in finished + [name] <==> n in finished || n == name;
    }
  }

  lemma FinishKeepsOrder(g: Graph, finished: seq<string>, name: string)
    requires SuccessorsFirst(g, finished) && name in g && name !in finished
    requires forall b | Edge(g, name, b) :: b in finished
    ensures SuccessorsFirst(g, finished + [name])
  {
    var order := finished + [name];
    forall i, b | 0 <= i < |order| && Edge(g, order[i], b) ensures b in order[..i] {
      if i < |finished| {
        assert order[..i] == finished[..i];
      } else {
        assert order[..i] == finished;
      }
    }
  }

  lemma UnknownKeepsCoherent(g: Graph, state: map<string, int>, stack: seq<string>, finished: seq<string>, name: string)
    requires Coherent(g, state, stack, finished) && name !in g && name !in state
    ensures Coherent(g, state[name := DONE], stack, finished)
  {
    assert name !in stack && name !in finished;
  }
}
