/**
 * Directed graphs over package names, as the packager builds them from the
 * `DependsOn` lists: an edge `a -> b` says that `a` depends on `b`.
 */
module Graphs {

  type Graph = map<string, set<string>>

  predicate Edge(g: Graph, a: string, b: string)
  {
    a in g && b in g[a]
  }

  /** A walk along edges; a single node is a walk of length zero. */
  ghost predicate IsPath(g: Graph, p: seq<string>)
  {
    |p| >= 1 && forall i :: 0 <= i < |p| - 1 ==> Edge(g, p[i], p[i + 1])
  }

  /** There is a walk of at least one edge from `a` to `b`. */
  ghost predicate Reachable(g: Graph, a: string, b: string)
  {
    exists p :: IsPath(g, p) && |p| >= 2 && p[0] == a && p[|p| - 1] == b
  }

  /** Some package depends on itself, directly or through others. */
  ghost predicate HasCycle(g: Graph)
  {
    exists p :: IsPath(g, p) && |p| >= 2 && p[0] == p[|p| - 1]
  }

  ghost function Nodes(g: Graph): set<string>
  {
    g.Keys + (set a, b | a in g && b in g[a] :: b)
  }

  ghost function ReachSet(g: Graph, a: string): set<string>
  {
    set b | b in Nodes(g) && Reachable(g, a, b)
  }

  ghost function Ancestors(g: Graph, b: string): set<string>
  {
    set a | a in g && Reachable(g, a, b)
  }

  lemma ProperSubsetSmaller(a: set<string>, b: set<string>)
    requires a < b
    ensures |a| < |b|
  {
    assert b == a + (b - a);
    assert a * (b - a) == {};
    assert b - a != {};
  }

  lemma PathOfEdge(g: Graph, a: string, b: string)
    requires Edge(g, a, b)
    ensures IsPath(g, [a, b]) && Reachable(g, a, b)
  {
    assert IsPath(g, [a, b]);
  }

  lemma PrependEdge(g: Graph, a: string, p: seq<string>)
    requires IsPath(g, p) && Edge(g, a, p[0])
    ensures IsPath(g, [a] + p)
  {
    var q := [a] + p;
    forall i | 0 <= i < |q| - 1 ensures Edge(g, q[i], q[i + 1]) {
      if i > 0 {
        assert q[i] == p[i - 1] && q[i + 1] == p[i];
      }
    }
  }

  lemma AppendEdge(g: Graph, p: seq<string>, b: string)
    requires IsPath(g, p) && Edge(g, p[|p| - 1], b)
    ensures IsPath(g, p + [b])
  {
    var q := p + [b];
    forall i | 0 <= i < |q| - 1 ensures Edge(g, q[i], q[i + 1]) {
      if i < |p| - 1 {
        assert q[i] == p[i] && q[i + 1] == p[i + 1];
      }
    }
  }

  lemma SlicePath(g: Graph, p: seq<string>, i: nat, j: nat)
    requires IsPath(g, p) && i < j <= |p|
    ensures IsPath(g, p[i..j])
  {
    var q := p[i..j];
    forall k | 0 <= k < |q| - 1 ensures Edge(g, q[k], q[k + 1]) {
      assert q[k] == p[i + k] && q[k + 1] == p[i + k + 1];
    }
  }

  lemma ReachableIsNode(g: Graph, a: string, b: string)
    requires Reachable(g, a, b)
    ensures a in g && b in Nodes(g)
  {
    var p :| IsPath(g, p) && |p| >= 2 && p[0] == a && p[|p| - 1] == b;
    assert Edge(g, p[|p| - 2], p[|p| - 1]);
    assert Edge(g, p[0], p[1]);
  }

  lemma ReachablePrepend(g: Graph, a: string, b: string, c: string)
    requires Edge(g, a, b) && Reachable(g, b, c)
    ensures Reachable(g, a, c)
  {
    var p :| IsPath(g, p) && |p| >= 2 && p[0] == b && p[|p| - 1] == c;
    PrependEdge(g, a, p);
    assert ([a] + p)[|[a] + p| - 1] == c;
  }

  lemma ReachableAppend(g: Graph, a: string, b: string, c: string)
    requires Reachable(g, a, b) && Edge(g, b, c)
    ensures Reachable(g, a, c)
  {
    var p :| IsPath(g, p) && |p| >= 2 && p[0] == a && p[|p| - 1] == b;
    AppendEdge(g, p, c);
  }

  /** In a graph without cycles, following an edge strictly shrinks the set of reachable nodes. */
  lemma ReachSetShrinks(g: Graph, a: string, b: string)
    requires !HasCycle(g) && Edge(g, a, b)
    ensures ReachSet(g, b) < ReachSet(g, a)
    ensures |ReachSet(g, b)| < |ReachSet(g, a)|
  {
    forall c | c in ReachSet(g, b) ensures c in ReachSet(g, a) {
      ReachablePrepend(g, a, b, c);
    }
    PathOfEdge(g, a, b);
    assert b in Nodes(g);
    assert b in ReachSet(g, a);
    assert b !in ReachSet(g, b);
    ProperSubsetSmaller(ReachSet(g, b), ReachSet(g, a));
  }

  /** In a graph without cycles, following an edge backwards strictly shrinks the set of ancestors. */
  lemma AncestorsShrink(g: Graph, a: string, b: string)
    requires !HasCycle(g) && Edge(g, a, b)
    ensures Ancestors(g, a) < Ancestors(g, b)
    ensures |Ancestors(g, a)| < |Ancestors(g, b)|
  {
    forall c | c in Ancestors(g, a) ensures c in Ancestors(g, b) {
      ReachableAppend(g, c, a, b);
    }
    PathOfEdge(g, a, b);
    assert a in Ancestors(g, b);
    assert a !in Ancestors(g, a);
    ProperSubsetSmaller(Ancestors(g, a), Ancestors(g, b));
  }

  /** A node reached from `a` is a successor of `a` or reached from one. */
  lemma ReachableFirstStep(g: Graph, a: string, b: string) returns (y: string)
    requires Reachable(g, a, b)
    ensures Edge(g, a, y) && (y == b || Reachable(g, y, b))
  {
    var p :| IsPath(g, p) && |p| >= 2 && p[0] == a && p[|p| - 1] == b;
    y := p[1];
    assert Edge(g, p[0], p[1]);
    if |p| > 2 {
      SlicePath(g, p, 1, |p|);
      assert p[1..][|p[1..]| - 1] == b;
    }
  }

  /** Reachability survives adding edges. */
  lemma ReachableInSupergraph(g1: Graph, g2: Graph, a: string, b: string)
    requires forall x, y :: Edge(g1, x, y) ==> Edge(g2, x, y)
    requires Reachable(g1, a, b)
    ensures Reachable(g2, a, b)
  {
    var p :| IsPath(g1, p) && |p| >= 2 && p[0] == a && p[|p| - 1] == b;
    assert IsPath(g2, p);
  }

  /** A set that holds `a` and is closed under the edges out of its members holds everything reachable from `a`. */
  lemma ClosedHoldsReach(g: Graph, a: string, w: set<string>, b: string)
    requires a in w && forall x, y :: x in w && Edge(g, x, y) ==> y in w
    requires Reachable(g, a, b)
    ensures b in w
  {
    var p :| IsPath(g, p) && |p| >= 2 && p[0] == a && p[|p| - 1] == b;
    PathStaysIn(g, p, w, |p| - 1);
  }

  lemma {:induction false} PathStaysIn(g: Graph, p: seq<string>, w: set<string>, j: nat)
    requires IsPath(g, p) && p[0] in w && forall x, y :: x in w && Edge(g, x, y) ==> y in w
    requires j < |p|
    ensures p[j] in w
  {
    if j > 0 {
      PathStaysIn(g, p, w, j - 1);
      assert Edge(g, p[j - 1], p[j]);
    }
  }

  /** A node reached from somewhere is the end of an edge. */
  lemma ReachableLastStep(g: Graph, a: string, b: string) returns (x: string)
    requires Reachable(g, a, b)
    ensures Edge(g, x, b)
  {
    var p :| IsPath(g, p) && |p| >= 2 && p[0] == a && p[|p| - 1] == b;
    x := p[|p| - 2];
    assert Edge(g, p[|p| - 2], p[|p| - 1]);
  }

  /** No cycle passes through `a` or through anything reachable from it. */
  ghost predicate AcyclicFrom(g: Graph, a: string)
  {
    forall y :: (y == a || Reachable(g, a, y)) ==> !Reachable(g, y, y)
  }

  /** A graph without cycles has none below any node. */
  lemma AcyclicEverywhere(g: Graph, a: string)
    requires !HasCycle(g)
    ensures AcyclicFrom(g, a)
  {
  }

  /** Following an edge out of a node without cycles below it keeps that property and strictly shrinks the set of reachable nodes. */
  lemma ReachSetShrinksFrom(g: Graph, a: string, b: string)
    requires AcyclicFrom(g, a) && Edge(g, a, b)
    ensures AcyclicFrom(g, b)
    ensures ReachSet(g, b) < ReachSet(g, a)
    ensures |ReachSet(g, b)| < |ReachSet(g, a)|
  {
    PathOfEdge(g, a, b);
    forall c | c in ReachSet(g, b) ensures c in ReachSet(g, a) {
      ReachablePrepend(g, a, b, c);
    }
    forall y | y == b || Reachable(g, b, y) ensures !Reachable(g, y, y) {
      if y != b {
        ReachablePrepend(g, a, b, y);
      }
    }
    assert b in Nodes(g);
    assert b in ReachSet(g, a);
    assert b !in ReachSet(g, b);
    ProperSubsetSmaller(ReachSet(g, b), ReachSet(g, a));
  }
}
