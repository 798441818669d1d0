/**
 * The older dependency closure of the builder's own context manager: a
 * dependency that cannot be located or loaded is warned about and
 * skipped, nothing is remembered between branches, so a definition is
 * listed once for every path that reaches it, and the traversal ends only
 * when no cycle of dependencies is reachable from where it starts.
 */
module BuilderContextManager {
  import opened Wrappers
  import Graphs
  import CX = Context

  function Elems(s: seq<string>): set<string>
  {
    set x | x in s
  }

  /** The inner loop's test: the paths that load, with build type `isDebug`, in order. */
  function Filter(ctx: CX.Context, paths: seq<string>, isDebug: bool): seq<string>
  {
    if paths == [] then []
    else (if paths[0] in ctx.configs && ctx.configs[paths[0]].package.isDebug == isDebug then [paths[0]] else []) + Filter(ctx, paths[1..], isDebug)
  }

  /** The same-type definitions of one dependency; a dependency that cannot be located contributes none. */
  function SameTypeDefs(ctx: CX.Context, dep: string, isDebug: bool): seq<string>
  {
    var paths := CX.GetPackageJsonDefPaths(ctx, dep);
    if !paths.Ok? then [] else Filter(ctx, paths.value, isDebug)
  }

  /** The same-type definitions of the dependencies `deps`, dependency by dependency. */
  function DirectOf(ctx: CX.Context, deps: seq<string>, isDebug: bool): seq<string>
  {
    if deps == [] then [] else SameTypeDefs(ctx, deps[0], isDebug) + DirectOf(ctx, deps[1..], isDebug)
  }

  /** The direct dependencies of the definition at `p`, in the order the traversal meets them. */
  function Direct(ctx: CX.Context, p: string): seq<string>
    requires p in ctx.configs
  {
    DirectOf(ctx, ctx.configs[p].dependsOn, ctx.configs[p].package.isDebug)
  }

  /** A definition listed for a dependency of `deps` that loads and has build type `isDebug`. */
  ghost predicate DirectFrom(ctx: CX.Context, deps: seq<string>, isDebug: bool, x: string)
  {
    exists d :: d in deps && ctx.valid && d in ctx.packages && x in ctx.packages[d] && x in ctx.configs && ctx.configs[x].package.isDebug == isDebug
  }

  lemma {:induction false} FilterMeaning(ctx: CX.Context, paths: seq<string>, isDebug: bool, x: string)
    ensures x in Filter(ctx, paths, isDebug) <==> x in paths && x in ctx.configs && ctx.configs[x].package.isDebug == isDebug
  {
    if paths != [] {
      FilterMeaning(ctx, paths[1..], isDebug, x);
      assert x in paths <==> x == paths[0] || x in paths[1..];
    }
  }

  lemma {:induction false} DirectOfMeaning(ctx: CX.Context, deps: seq<string>, isDebug: bool, x: string)
    ensures x in DirectOf(ctx, deps, isDebug) <==> DirectFrom(ctx, deps, isDebug, x)
  {
    if deps != [] {
      var d0 := deps[0];
      DirectOfMeaning(ctx, deps[1..], isDebug, x);
      if ctx.valid && d0 in ctx.packages {
        FilterMeaning(ctx, ctx.packages[d0], isDebug, x);
      }
      assert forall d :: d in deps <==> d == d0 || d in deps[1..];
    }
  }

  /**
   * The direct dependencies are the definitions listed for one of the
   * dependencies that load with the same build type; a dependency whose
   * definitions cannot be listed contributes nothing.
   */
  lemma DirectMeaning(ctx: CX.Context, p: string, x: string)
    requires p in ctx.configs
    ensures x in Direct(ctx, p) <==> DirectFrom(ctx, ctx.configs[p].dependsOn, ctx.configs[p].package.isDebug, x)
    ensures x in Direct(ctx, p) ==> x in ctx.configs && ctx.configs[x].package.isDebug == ctx.configs[p].package.isDebug
  {
    DirectOfMeaning(ctx, ctx.configs[p].dependsOn, ctx.configs[p].package.isDebug, x);
  }

  /** Each loadable definition with its direct dependencies, in order. */
  function DepGraph(ctx: CX.Context): (sg: map<string, seq<string>>)
    ensures sg.Keys == ctx.configs.Keys
  {
    map q | q in ctx.configs :: Direct(ctx, q)
  }

  /** The graph an ordered adjacency map stands for. */
  ghost function AsGraph(sg: map<string, seq<string>>): Graphs.Graph
  {
    map q | q in sg :: Elems(sg[q])
  }

  lemma EdgeAt(sg: map<string, seq<string>>, p: string, i: nat)
    requires p in sg && i < |sg[p]|
    ensures Graphs.Edge(AsGraph(sg), p, sg[p][i])
  {
  }

  /**
   * getAllDepsJsonPaths on an ordered adjacency map: nothing for a node
   * without an entry (a definition that does not load); otherwise each
   * successor in turn, followed at once by its own closure.
   */
  function Closure(sg: map<string, seq<string>>, p: string): seq<string>
    requires Graphs.AcyclicFrom(AsGraph(sg), p)
    decreases |Graphs.ReachSet(AsGraph(sg), p)|, 2
  {
    if p !in sg then [] else Expand(sg, p, 0)
  }

  /** The loop of getAllDepsJsonPaths over the successors of `p` from position `i` on. */
  function Expand(sg: map<string, seq<string>>, p: string, i: nat): seq<string>
    requires Graphs.AcyclicFrom(AsGraph(sg), p)
    requires p in sg && i <= |sg[p]|
    decreases |Graphs.ReachSet(AsGraph(sg), p)|, 1, |sg[p]| - i
  {
    if i == |sg[p]| then [] else Block(sg, p, i) + Expand(sg, p, i + 1)
  }

  /** The stretch the i-th successor of `p` contributes: itself, then its closure. */
  function Block(sg: map<string, seq<string>>, p: string, i: nat): seq<string>
    requires Graphs.AcyclicFrom(AsGraph(sg), p)
    requires p in sg && i < |sg[p]|
    decreases |Graphs.ReachSet(AsGraph(sg), p)|, 0
  {
    EdgeAt(sg, p, i);
    Graphs.ReachSetShrinksFrom(AsGraph(sg), p, sg[p][i]);
    [sg[p][i]] + Closure(sg, sg[p][i])
  }

  /** The closure holds exactly the nodes reachable from `p`. */
  lemma {:induction false} ClosureMeaning(sg: map<string, seq<string>>, p: string, x: string)
    requires Graphs.AcyclicFrom(AsGraph(sg), p)
    ensures x in Closure(sg, p) <==> Graphs.Reachable(AsGraph(sg), p, x)
    decreases |Graphs.ReachSet(AsGraph(sg), p)|, 2
  {
    var g := AsGraph(sg);
    if p in sg {
      ExpandMeaning(sg, p, 0, x);
      if Graphs.Reachable(g, p, x) {
        var y := Graphs.ReachableFirstStep(g, p, x);
        var k :| 0 <= k < |sg[p]| && sg[p][k] == y;
      }
    } else if Graphs.Reachable(g, p, x) {
      Graphs.ReachableIsNode(g, p, x);
    }
  }

  /** Some successor from position `i` on is `x` or reaches it. */
  ghost predicate LeadsFrom(sg: map<string, seq<string>>, p: string, i: nat, x: string)
    requires p in sg
  {
    exists k :: i <= k < |sg[p]| && (sg[p][k] == x || Graphs.Reachable(AsGraph(sg), sg[p][k], x))
  }

  lemma {:induction false} ExpandMeaning(sg: map<string, seq<string>>, p: string, i: nat, x: string)
    requires Graphs.AcyclicFrom(AsGraph(sg), p)
    requires p in sg && i <= |sg[p]|
    ensures x in Expand(sg, p, i) <==> LeadsFrom(sg, p, i, x)
    ensures x in Expand(sg, p, i) ==> Graphs.Reachable(AsGraph(sg), p, x)
    decreases |Graphs.ReachSet(AsGraph(sg), p)|, 1, |sg[p]| - i
  {
    var g := AsGraph(sg);
    if i < |sg[p]| {
      var y := sg[p][i];
      EdgeAt(sg, p, i);
      Graphs.ReachSetShrinksFrom(g, p, y);
      ClosureMeaning(sg, y, x);
      ExpandMeaning(sg, p, i + 1, x);
      if x == y {
        Graphs.PathOfEdge(g, p, y);
      } else if Graphs.Reachable(g, y, x) {
        Graphs.ReachablePrepend(g, p, y, x);
      }
      if LeadsFrom(sg, p, i, x) && !LeadsFrom(sg, p, i + 1, x) {
        var k :| i <= k < |sg[p]| && (sg[p][k] == x || Graphs.Reachable(g, sg[p][k], x));
        assert k == i;
      }
    }
  }

  lemma {:induction false} ExpandHas(sg: map<string, seq<string>>, p: string, i: nat, j: nat, x: string)
    requires Graphs.AcyclicFrom(AsGraph(sg), p)
    requires p in sg && i <= j < |sg[p]| && x in Block(sg, p, j)
    ensures x in Expand(sg, p, i)
    decreases j - i
  {
    if i < j {
      ExpandHas(sg, p, i + 1, j, x);
    }
  }

  lemma {:induction false} ExpandTwice(sg: map<string, seq<string>>, p: string, i: nat, j: nat, k: nat, x: string)
    requires Graphs.AcyclicFrom(AsGraph(sg), p)
    requires p in sg && k <= i < j < |sg[p]|
    requires x in Block(sg, p, i) && x in Block(sg, p, j)
    ensures multiset(Expand(sg, p, k))[x] >= 2
    decreases i - k
  {
    var front := Block(sg, p, k);
    var back := Expand(sg, p, k + 1);
    assert Expand(sg, p, k) == front + back;
    assert multiset(Expand(sg, p, k)) == multiset(front) + multiset(back);
    if k == i {
      ExpandHas(sg, p, k + 1, j, x);
      assert multiset(front)[x] >= 1 && multiset(back)[x] >= 1;
    } else {
      ExpandTwice(sg, p, i, j, k + 1, x);
    }
  }

  /**
   * No visited set: a node in the stretches of two different successors
   * is listed at least twice.
   */
  lemma ListedPerPath(sg: map<string, seq<string>>, p: string, i: nat, j: nat, x: string)
    requires Graphs.AcyclicFrom(AsGraph(sg), p)
    requires p in sg && i < j < |sg[p]|
    requires x in Block(sg, p, i) && x in Block(sg, p, j)
    ensures multiset(Closure(sg, p))[x] >= 2
  {
    ExpandTwice(sg, p, i, j, 0, x);
  }

  /** A node without successors has an empty closure. */
  lemma NoSuccessors(sg: map<string, seq<string>>, p: string)
    requires Graphs.AcyclicFrom(AsGraph(sg), p)
    requires p in sg && sg[p] == []
    ensures Closure(sg, p) == []
  {
  }

  /** The stretch of one successor holds the successor and exactly what is reachable from it. */
  lemma BlockMeaning(sg: map<string, seq<string>>, p: string, i: nat, x: string)
    requires Graphs.AcyclicFrom(AsGraph(sg), p)
    requires p in sg && i < |sg[p]|
    ensures x in Block(sg, p, i) <==> x == sg[p][i] || Graphs.Reachable(AsGraph(sg), sg[p][i], x)
  {
    EdgeAt(sg, p, i);
    Graphs.ReachSetShrinksFrom(AsGraph(sg), p, sg[p][i]);
    ClosureMeaning(sg, sg[p][i], x);
  }

  lemma ClosureHolds(sg: map<string, seq<string>>, p: string)
    requires Graphs.AcyclicFrom(AsGraph(sg), p)
    ensures forall x :: x in Closure(sg, p) <==> Graphs.Reachable(AsGraph(sg), p, x)
  {
    forall x ensures x in Closure(sg, p) <==> Graphs.Reachable(AsGraph(sg), p, x) {
      ClosureMeaning(sg, p, x);
    }
  }

  /** The closure of the definition at `p`, as getAllDepsJsonPaths computes it: what is reachable from `p`. */
  function LenientDeps(ctx: CX.Context, p: string): (r: seq<string>)
    requires Graphs.AcyclicFrom(AsGraph(DepGraph(ctx)), p)
    ensures forall x :: x in r <==> Graphs.Reachable(AsGraph(DepGraph(ctx)), p, x)
  {
    ClosureHolds(DepGraph(ctx), p);
    Closure(DepGraph(ctx), p)
  }

  /** Along the dependency graph the build type never changes. */
  lemma SameBuildType(ctx: CX.Context, p: string, x: string)
    requires Graphs.AcyclicFrom(AsGraph(DepGraph(ctx)), p)
    requires x in LenientDeps(ctx, p)
    ensures p in ctx.configs && x in ctx.configs && ctx.configs[x].package.isDebug == ctx.configs[p].package.isDebug
  {
    var sg := DepGraph(ctx);
    var g := AsGraph(sg);
    ClosureMeaning(sg, p, x);
    var path :| Graphs.IsPath(g, path) && |path| >= 2 && path[0] == p && path[|path| - 1] == x;
    var i := 0;
    while i < |path| - 1
      invariant 0 <= i <= |path| - 1
      invariant path[i] in ctx.configs && ctx.configs[path[i]].package.isDebug == ctx.configs[p].package.isDebug
    {
      assert Graphs.Edge(g, path[i], path[i + 1]);
      DirectMeaning(ctx, path[i], path[i + 1]);
      i := i + 1;
    }
  }

  /** A configuration that depends on nothing has an empty closure. */
  lemma NoDependencies(ctx: CX.Context, p: string)
    requires Graphs.AcyclicFrom(AsGraph(DepGraph(ctx)), p)
    requires p in ctx.configs && ctx.configs[p].dependsOn == []
    ensures LenientDeps(ctx, p) == []
  {
    NoSuccessors(DepGraph(ctx), p);
  }

  /** No cycle of the dependency graph is reachable from any of `defs`, so each of their closures is finite. */
  ghost predicate ClosuresEnd(ctx: CX.Context, defs: seq<string>)
  {
    forall d :: d in defs ==> Graphs.AcyclicFrom(AsGraph(DepGraph(ctx)), d)
  }

  /** A context without any dependency cycle lets every closure end. */
  lemma AcyclicContextEnds(ctx: CX.Context, defs: seq<string>)
    requires !Graphs.HasCycle(AsGraph(DepGraph(ctx)))
    ensures ClosuresEnd(ctx, defs)
  {
    forall d | d in defs ensures Graphs.AcyclicFrom(AsGraph(DepGraph(ctx)), d) {
      Graphs.AcyclicEverywhere(AsGraph(DepGraph(ctx)), d);
    }
  }

  /** The closures of the definitions `defs`, one after the other. */
  function AllDeps(ctx: CX.Context, defs: seq<string>): seq<string>
    requires ClosuresEnd(ctx, defs)
  {
    if defs == [] then [] else AllDeps(ctx, defs[..|defs| - 1]) + LenientDeps(ctx, defs[|defs| - 1])
  }

  /** What the closures of several definitions hold: what is reachable from one of them. */
  lemma {:induction false} AllDepsMeaning(ctx: CX.Context, defs: seq<string>, x: string)
    requires ClosuresEnd(ctx, defs)
    ensures x in AllDeps(ctx, defs) <==> exists d :: d in defs && Graphs.Reachable(AsGraph(DepGraph(ctx)), d, x)
  {
    if defs != [] {
      var init := defs[..|defs| - 1];
      AllDepsMeaning(ctx, init, x);
      var last := defs[|defs| - 1];
      ClosureMeaning(DepGraph(ctx), last, x);
      assert forall d :: d in defs <==> d in init || d == last;
    }
  }

  /** One more definition appends its closure. */
  lemma AllDepsStep(ctx: CX.Context, defs: seq<string>, i: nat)
    requires ClosuresEnd(ctx, defs)
    requires i < |defs|
    ensures AllDeps(ctx, defs[..i + 1]) == AllDeps(ctx, defs[..i]) + LenientDeps(ctx, defs[i])
  {
    assert defs[..i + 1][..i] == defs[..i];
  }

  /**
   * GetPackageWithDepsJsonDefPaths: the package's definitions, then the
   * closure of each of them in turn.  Only a package that cannot be
   * listed is an error.
   */
  method GetPackageWithDepsJsonDefPaths(ctx: CX.Context, packageName: string) returns (r: Result<seq<string>>)
    requires CX.GetPackageJsonDefPaths(ctx, packageName).Ok? ==> ClosuresEnd(ctx, ctx.packages[packageName])
    ensures r.Ok? <==> CX.GetPackageJsonDefPaths(ctx, packageName).Ok?
    ensures !r.Ok? ==> r == Err("cannot get config paths for package '" + packageName + "'")
    ensures r.Ok? ==> r.value == ctx.packages[packageName] + AllDeps(ctx, ctx.packages[packageName])
  {
    var packageDefs := CX.GetPackageJsonDefPaths(ctx, packageName);
    if !packageDefs.Ok? {
      return Err("cannot get config paths for package '" + packageName + "'");
    }
    var defs := packageDefs.value;
    var packageDeps: seq<string> := [];
    var i := 0;
    while i < |defs|
      invariant 0 <= i <= |defs|
      invariant packageDeps == AllDeps(ctx, defs[..i])
    {
      AllDepsStep(ctx, defs, i);
      packageDeps := packageDeps + LenientDeps(ctx, defs[i]);
      i := i + 1;
    }
    assert defs[..i] == defs;
    return Ok(defs + packageDeps);
  }
}
