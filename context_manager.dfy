/**
 * The dependency queries of the context manager: the definitions of a
 * package together with those of everything it depends on (same build
 * type only), and the packages that depend on it.  A `visited` set makes
 * both terminate on contexts whose dependencies form cycles.
 */
module ContextManager {
  import opened Wrappers
  import Collections
  import Graphs
  import CFG = Config
  import CX = Context

  /** A Go `map[string]struct{}` shared by the recursive calls of one query. */
  class Visited {
    var seen: set<string>

    constructor()
      ensures seen == {}
    {
      seen := {};
    }
  }

  function Elems(s: seq<string>): set<string>
  {
    set x | x in s
  }

  // ---------------------------------------------------------------------
  // List helpers: removeString, removeStrings, removeDuplicates
  // ---------------------------------------------------------------------

  /** `s` without any occurrence of `str`, the rest in order. */
  function Without(s: seq<string>, str: string): (r: seq<string>)
    ensures |r| <= |s|
  {
    if s == [] then [] else (if s[0] == str then [] else [s[0]]) + Without(s[1..], str)
  }

  lemma {:induction false} WithoutAppend(a: seq<string>, b: seq<string>, str: string)
    ensures Without(a + b, str) == Without(a, str) + Without(b, str)
  {
    if a == [] {
      assert a + b == b;
    } else {
      assert (a + b)[1..] == a[1..] + b;
      WithoutAppend(a[1..], b, str);
    }
  }

  lemma {:induction false} WithoutMeaning(s: seq<string>, str: string, x: string)
    ensures x in Without(s, str) <==> x in s && x != str
  {
    if s != [] {
      WithoutMeaning(s[1..], str, x);
      assert s == [s[0]] + s[1..];
    }
  }

  /** One more element: it is kept unless it is the string removed. */
  lemma WithoutStep(s: seq<string>, j: nat, str: string)
    requires j < |s|
    ensures Without(s[..j + 1], str) == Without(s[..j], str) + (if s[j] == str then [] else [s[j]])
  {
    WithoutAppend(s[..j], [s[j]], str);
    assert s[..j + 1] == s[..j] + [s[j]];
    assert [s[j]][1..] == [];
  }

  /**
   * removeString: compacts the first `len` cells of `a` in place, moving
   * every string other than `str` to the front, and gives the new length.
   */
  method RemoveString(a: array<string>, len: nat, str: string) returns (n: nat)
    requires len <= a.Length
    modifies a
    ensures n <= len
    ensures a[..n] == Without(old(a[..len]), str)
    ensures a[len..] == old(a[len..])
  {
    ghost var orig := a[..len];
    var i := 0;
    var j := 0;
    while j < len
      invariant 0 <= i <= j <= len
      invariant a[..i] == Without(orig[..j], str)
      invariant forall k :: j <= k < len ==> a[k] == orig[k]
      invariant forall k :: len <= k < a.Length ==> a[k] == old(a[k])
    {
      WithoutStep(orig, j, str);
      if a[j] != str {
        ghost var kept := a[..i];
        a[i] := a[j];
        assert a[..i + 1] == kept + [orig[j]];
        i := i + 1;
      }
      j := j + 1;
    }
    assert orig[..len] == orig;
    return i;
  }

  /** `s` without any string of `ts`, removed one after the other as removeStrings does. */
  function WithoutAll(s: seq<string>, ts: seq<string>): seq<string>
    decreases ts
  {
    if ts == [] then s else WithoutAll(Without(s, ts[0]), ts[1..])
  }

  /** A string survives removeStrings iff it was there and is not to be removed. */
  lemma {:induction false} WithoutAllMeaning(s: seq<string>, ts: seq<string>, x: string)
    ensures x in WithoutAll(s, ts) <==> x in s && x !in ts
    decreases ts
  {
    if ts != [] {
      WithoutMeaning(s, ts[0], x);
      WithoutAllMeaning(Without(s, ts[0]), ts[1..], x);
      assert ts == [ts[0]] + ts[1..];
    }
  }

  /** removeStrings: removeString for each string of `strList2`, over one backing array. */
  method RemoveStrings(strList1: seq<string>, strList2: seq<string>) returns (r: seq<string>)
    ensures r == WithoutAll(strList1, strList2)
  {
    var a := new string[|strList1|](i requires 0 <= i < |strList1| => strList1[i]);
    var n: nat := |strList1|;
    assert a[..n] == strList1;
    var k := 0;
    while k < |strList2|
      invariant 0 <= k <= |strList2| && n <= a.Length
      invariant WithoutAll(a[..n], strList2[k..]) == WithoutAll(strList1, strList2)
    {
      assert strList2[k..][1..] == strList2[k + 1..];
      n := RemoveString(a, n, strList2[k]);
      k := k + 1;
    }
    return a[..n];
  }

  /** The first occurrence of every string, in order. */
  function FirstOccurrences(s: seq<string>): seq<string>
  {
    if s == [] then []
    else
      var init := s[..|s| - 1];
      FirstOccurrences(init) + (if s[|s| - 1] in init then [] else [s[|s| - 1]])
  }

  /** removeDuplicates keeps each string once: no duplicates and nothing lost or added. */
  lemma {:induction false} FirstOccurrencesMeaning(s: seq<string>)
    ensures Collections.NoDuplicates(FirstOccurrences(s))
    ensures Elems(FirstOccurrences(s)) == Elems(s)
  {
    if s != [] {
      var init := s[..|s| - 1];
      FirstOccurrencesMeaning(init);
      assert s == init + [s[|s| - 1]];
      assert Elems(s) == Elems(init) + {s[|s| - 1]};
    }
  }

  /** removeDuplicates: a seen-set and a list appended in order. */
  method RemoveDuplicates(strList: seq<string>) returns (list: seq<string>)
    ensures list == FirstOccurrences(strList)
  {
    var keys: set<string> := {};
    list := [];
    var i := 0;
    while i < |strList|
      invariant 0 <= i <= |strList|
      invariant list == FirstOccurrences(strList[..i])
      invariant keys == Elems(strList[..i])
    {
      var item := strList[i];
      assert strList[..i + 1][..i] == strList[..i];
      assert strList[..i + 1] == strList[..i] + [item];
      assert Elems(strList[..i + 1]) == keys + {item};
      if item !in keys {
        keys := keys + {item};
        list := list + [item];
      }
      i := i + 1;
    }
    assert strList[..i] == strList;
  }

  /** Keeping the strings not in `ts` in one pass over `s`. */
  function Keep(s: seq<string>, ts: seq<string>): seq<string>
  {
    if s == [] then [] else (if s[0] in ts then [] else [s[0]]) + Keep(s[1..], ts)
  }

  lemma {:induction false} KeepWithout(s: seq<string>, t: string, ts: seq<string>)
    ensures Keep(Without(s, t), ts) == Keep(s, [t] + ts)
  {
    if s != [] {
      KeepWithout(s[1..], t, ts);
      if s[0] != t {
        assert Without(s, t) == [s[0]] + Without(s[1..], t);
        assert (s[0] in ts) == (s[0] in [t] + ts);
      } else {
        assert Without(s, t) == Without(s[1..], t);
        assert s[0] in [t] + ts;
      }
    }
  }

  /** removeStrings keeps the order of what it keeps: it is the one-pass filter. */
  lemma {:induction false} WithoutAllIsKeep(s: seq<string>, ts: seq<string>)
    ensures WithoutAll(s, ts) == Keep(s, ts)
    decreases ts
  {
    if ts == [] {
      KeepNone(s);
    } else {
      WithoutAllIsKeep(Without(s, ts[0]), ts[1..]);
      KeepWithout(s, ts[0], ts[1..]);
      assert [ts[0]] + ts[1..] == ts;
    }
  }

  lemma {:induction false} KeepNone(s: seq<string>)
    ensures Keep(s, []) == s
  {
    if s != [] {
      KeepNone(s[1..]);
      assert [s[0]] + s[1..] == s;
    }
  }

  /** removeDuplicates changes nothing on a list without duplicates. */
  lemma {:induction false} FirstOccurrencesIdempotent(s: seq<string>)
    requires Collections.NoDuplicates(s)
    ensures FirstOccurrences(s) == s
  {
    if s != [] {
      var init := s[..|s| - 1];
      assert Collections.NoDuplicates(init);
      FirstOccurrencesIdempotent(init);
      assert s[|s| - 1] !in init by {
        forall i | 0 <= i < |init| ensures init[i] != s[|s| - 1] {
          assert init[i] == s[i];
        }
      }
      assert s == init + [s[|s| - 1]];
    }
  }

  // ---------------------------------------------------------------------
  // The same-build-type dependency closure: getAllDepsJsonPaths
  // ---------------------------------------------------------------------

  /** Every dependency names a package directory that can be listed. */
  predicate Locatable(ctx: CX.Context, deps: seq<string>)
  {
    forall i :: 0 <= i < |deps| ==> CX.GetPackageJsonDefPaths(ctx, deps[i]).Ok?
  }

  /** The definition paths of the dependencies, dependency by dependency. */
  function DepPaths(ctx: CX.Context, deps: seq<string>): seq<string>
    requires Locatable(ctx, deps)
  {
    if deps == [] then [] else ctx.packages[deps[0]] + DepPaths(ctx, deps[1..])
  }

  lemma {:induction false} DepPathsAppend(ctx: CX.Context, a: seq<string>, b: seq<string>)
    requires Locatable(ctx, a) && Locatable(ctx, b)
    ensures Locatable(ctx, a + b)
    ensures DepPaths(ctx, a + b) == DepPaths(ctx, a) + DepPaths(ctx, b)
  {
    assert Locatable(ctx, a + b) by {
      forall i | 0 <= i < |a + b| ensures CX.GetPackageJsonDefPaths(ctx, (a + b)[i]).Ok? {
        if i >= |a| {
          assert (a + b)[i] == b[i - |a|];
        }
      }
    }
    if a != [] {
      assert (a + b)[1..] == a[1..] + b;
      DepPathsAppend(ctx, a[1..], b);
    } else {
      assert a + b == b;
    }
  }

  predicate Loadable(ctx: CX.Context, paths: seq<string>)
  {
    forall i :: 0 <= i < |paths| ==> paths[i] in ctx.configs
  }

  /** The paths whose configuration has the given build type. */
  function SameType(ctx: CX.Context, paths: seq<string>, isDebug: bool): (r: seq<string>)
    requires Loadable(ctx, paths)
    ensures forall i :: 0 <= i < |r| ==> r[i] in ctx.configs && ctx.configs[r[i]].package.isDebug == isDebug
    ensures forall i :: 0 <= i < |paths| && ctx.configs[paths[i]].package.isDebug == isDebug ==> paths[i] in r
    ensures forall x :: x in r ==> x in paths
  {
    if paths == [] then []
    else
      var rest := SameType(ctx, paths[1..], isDebug);
      assert forall i :: 1 <= i < |paths| ==> paths[i] == paths[1..][i - 1];
      (if ctx.configs[paths[0]].package.isDebug == isDebug then [paths[0]] else []) + rest
  }

  lemma {:induction false} SameTypeAppend(ctx: CX.Context, a: seq<string>, b: seq<string>, isDebug: bool)
    requires Loadable(ctx, a) && Loadable(ctx, b)
    ensures Loadable(ctx, a + b)
    ensures SameType(ctx, a + b, isDebug) == SameType(ctx, a, isDebug) + SameType(ctx, b, isDebug)
  {
    assert Loadable(ctx, a + b) by {
      forall i | 0 <= i < |a + b| ensures (a + b)[i] in ctx.configs {
        if i >= |a| {
          assert (a + b)[i] == b[i - |a|];
        }
      }
    }
    if a != [] {
      assert (a + b)[1..] == a[1..] + b;
      SameTypeAppend(ctx, a[1..], b, isDebug);
    } else {
      assert a + b == b;
    }
  }

  /**
   * What getAllDepsJsonPaths demands of one configuration: it loads, every
   * dependency can be located, every definition of a dependency loads,
   * and there are at least as many definitions of the same build type as
   * there are dependencies.
   */
  predicate LocalOk(ctx: CX.Context, p: string)
  {
    p in ctx.configs &&
    var c := ctx.configs[p];
    Locatable(ctx, c.dependsOn) && Loadable(ctx, DepPaths(ctx, c.dependsOn)) &&
    |SameType(ctx, DepPaths(ctx, c.dependsOn), c.package.isDebug)| >= |c.dependsOn|
  }

  /** The definitions of the dependencies of `p` that have its build type. */
  function DirectDeps(ctx: CX.Context, p: string): seq<string>
    requires LocalOk(ctx, p)
  {
    var c := ctx.configs[p];
    SameType(ctx, DepPaths(ctx, c.dependsOn), c.package.isDebug)
  }

  /** Every newly visited path is in order and has all its same-type dependencies visited. */
  ghost predicate ClosedUnder(ctx: CX.Context, newly: set<string>, all: set<string>)
  {
    forall q :: q in newly ==> LocalOk(ctx, q) && Elems(DirectDeps(ctx, q)) <= all
  }

  /**
   * `found` is what one stretch of the traversal appended while `visited`
   * went from `before` to `after`: each path once, none visited before,
   * all of the given build type, and everything newly visited closed.
   */
  ghost predicate CollectedFrom(ctx: CX.Context, isDebug: bool, before: set<string>, after: set<string>, found: seq<string>)
  {
    after == before + Elems(found) &&
    Collections.NoDuplicates(found) &&
    (forall i :: 0 <= i < |found| ==> found[i] !in before) &&
    (forall i :: 0 <= i < |found| ==> found[i] in ctx.configs && ctx.configs[found[i]].package.isDebug == isDebug) &&
    ClosedUnder(ctx, after - before, after)
  }

  lemma CollectedNothing(ctx: CX.Context, isDebug: bool, v: set<string>)
    ensures CollectedFrom(ctx, isDebug, v, v, [])
  {
    assert Elems([]) == {};
  }

  lemma CollectedCompose(ctx: CX.Context, isDebug: bool, v0: set<string>, v1: set<string>, v2: set<string>, a: seq<string>, b: seq<string>)
    requires CollectedFrom(ctx, isDebug, v0, v1, a) && CollectedFrom(ctx, isDebug, v1, v2, b)
    ensures CollectedFrom(ctx, isDebug, v0, v2, a + b)
  {
    assert Elems(a + b) == Elems(a) + Elems(b);
    forall i, j | 0 <= i < j < |a + b| ensures (a + b)[i] != (a + b)[j] {
      if j >= |a| && i < |a| {
        assert (a + b)[i] in Elems(a);
        assert (a + b)[j] == b[j - |a|];
      } else if i >= |a| {
        assert (a + b)[i] == b[i - |a|] && (a + b)[j] == b[j - |a|];
      }
    }
    forall i | 0 <= i < |a + b| ensures (a + b)[i] !in v0 && (a + b)[i] in ctx.configs && ctx.configs[(a + b)[i]].package.isDebug == isDebug {
      if i >= |a| {
        assert (a + b)[i] == b[i - |a|];
      }
    }
  }

  /** A path that is visited and then traversed: it comes first, its own findings after it. */
  lemma CollectedVisit(ctx: CX.Context, isDebug: bool, v0: set<string>, v2: set<string>, q: string, tail: seq<string>)
    requires q !in v0 && q in ctx.configs && ctx.configs[q].package.isDebug == isDebug
    requires CollectedFrom(ctx, isDebug, v0 + {q}, v2, tail)
    requires LocalOk(ctx, q) && Elems(DirectDeps(ctx, q)) <= v2
    ensures CollectedFrom(ctx, isDebug, v0, v2, [q] + tail)
  {
    assert Elems([q] + tail) == {q} + Elems(tail);
    forall i, j | 0 <= i < j < |[q] + tail| ensures ([q] + tail)[i] != ([q] + tail)[j] {
      assert ([q] + tail)[j] == tail[j - 1];
      if i > 0 {
        assert ([q] + tail)[i] == tail[i - 1];
      }
    }
    forall i | 0 < i < |[q] + tail| ensures ([q] + tail)[i] !in v0 && ([q] + tail)[i] in ctx.configs {
      assert ([q] + tail)[i] == tail[i - 1];
    }
  }

  lemma SubsetSize(a: set<string>, b: set<string>)
    requires a <= b
    ensures |a| <= |b|
  {
    if a != b {
      Graphs.ProperSubsetSmaller(a, b);
    }
  }

  /** More visited leaves fewer unvisited paths; visiting one more unvisited path leaves strictly fewer. */
  lemma FewerUnvisited(keys: set<string>, a: set<string>, b: set<string>)
    requires a <= b
    ensures |keys - b| <= |keys - a|
  {
    SubsetSize(keys - b, keys - a);
  }

  lemma StrictlyFewerUnvisited(keys: set<string>, a: set<string>, b: set<string>, q: string)
    requires a <= b && q in keys && q !in b
    ensures |keys - (b + {q})| < |keys - a|
  {
    assert keys - (b + {q}) < keys - a by {
      assert q in keys - a;
    }
    Graphs.ProperSubsetSmaller(keys - (b + {q}), keys - a);
  }

  /**
   * getAllDepsJsonPaths: marks the definition as visited and, for each
   * dependency in turn, appends each of its same-type definitions that
   * was not visited yet followed by that definition's own closure.
   * Every failure to locate or load is an error, and so is having fewer
   * same-type definitions than dependencies.
   */
  /** The same-type dependency graph over configuration paths: `q -> x` when `x` is a direct same-type dependency of `q`. */
  ghost function DepGraph(ctx: CX.Context): Graphs.Graph
  {
    map q | q in ctx.configs.Keys && LocalOk(ctx, q) :: Elems(DirectDeps(ctx, q))
  }

  lemma DepGraphEdge(ctx: CX.Context, q: string, x: string)
    requires LocalOk(ctx, q) && x in Elems(DirectDeps(ctx, q))
    ensures Graphs.Edge(DepGraph(ctx), q, x)
  {
  }

  /** `x` is one of the roots or reachable from one of them. */
  ghost predicate Derived(ctx: CX.Context, roots: set<string>, x: string)
  {
    x in roots || exists q :: q in roots && Graphs.Reachable(DepGraph(ctx), q, x)
  }

  lemma DerivedMonotone(ctx: CX.Context, a: set<string>, b: set<string>, xs: set<string>)
    requires a <= b && forall x :: x in xs ==> Derived(ctx, a, x)
    ensures forall x :: x in xs ==> Derived(ctx, b, x)
  {
  }

  /** Everything derived from the direct dependencies of `p` is reachable from `p`. */
  lemma DerivedFromDirect(ctx: CX.Context, p: string, xs: set<string>)
    requires LocalOk(ctx, p) && forall x :: x in xs ==> Derived(ctx, Elems(DirectDeps(ctx, p)), x)
    ensures forall x :: x in xs ==> Graphs.Reachable(DepGraph(ctx), p, x)
  {
    forall x | x in xs ensures Graphs.Reachable(DepGraph(ctx), p, x) {
      if x in Elems(DirectDeps(ctx, p)) {
        DepGraphEdge(ctx, p, x);
        Graphs.PathOfEdge(DepGraph(ctx), p, x);
      } else {
        var q :| q in Elems(DirectDeps(ctx, p)) && Graphs.Reachable(DepGraph(ctx), q, x);
        DepGraphEdge(ctx, p, q);
        Graphs.ReachablePrepend(DepGraph(ctx), p, q, x);
      }
    }
  }

  /** Every path of `v` is in order and its direct same-type dependencies are in `v` too. */
  ghost predicate Closed(ctx: CX.Context, v: set<string>)
  {
    forall q :: q in v ==> LocalOk(ctx, q) && Elems(DirectDeps(ctx, q)) <= v
  }

  /** Nothing is reachable out of a closed set. */
  lemma ClosedReach(ctx: CX.Context, v: set<string>, a: string, b: string)
    requires Closed(ctx, v) && a in v && Graphs.Reachable(DepGraph(ctx), a, b)
    ensures b in v
  {
    var path :| Graphs.IsPath(DepGraph(ctx), path) && |path| >= 2 && path[0] == a && path[|path| - 1] == b;
    var i := 0;
    while i < |path| - 1
      invariant 0 <= i <= |path| - 1 && path[i] in v
    {
      assert Graphs.Edge(DepGraph(ctx), path[i], path[i + 1]);
      i := i + 1;
    }
  }

  /** The traversal from `p` cannot fail: `p` and everything reachable from it are in order. */
  ghost predicate Sound(ctx: CX.Context, p: string)
  {
    LocalOk(ctx, p) && forall x :: Graphs.Reachable(DepGraph(ctx), p, x) ==> LocalOk(ctx, x)
  }

  lemma SoundDirect(ctx: CX.Context, p: string, q: string)
    requires Sound(ctx, p) && q in Elems(DirectDeps(ctx, p))
    ensures Sound(ctx, q)
  {
    DepGraphEdge(ctx, p, q);
    Graphs.PathOfEdge(DepGraph(ctx), p, q);
    forall x | Graphs.Reachable(DepGraph(ctx), q, x) ensures LocalOk(ctx, x) {
      Graphs.ReachablePrepend(DepGraph(ctx), p, q, x);
    }
  }

  /** The definitions of all dependencies, split around the k-th one. */
  lemma DepPathsSplit(ctx: CX.Context, deps: seq<string>, k: nat)
    requires Locatable(ctx, deps) && k < |deps|
    ensures Locatable(ctx, deps[..k]) && Locatable(ctx, deps[k + 1..])
    ensures DepPaths(ctx, deps) == DepPaths(ctx, deps[..k]) + ctx.packages[deps[k]] + DepPaths(ctx, deps[k + 1..])
  {
    assert deps == deps[..k] + deps[k..];
    assert Locatable(ctx, deps[..k]) && Locatable(ctx, deps[k..]) by {
      forall i | 0 <= i < |deps[k..]| ensures CX.GetPackageJsonDefPaths(ctx, deps[k..][i]).Ok? {
        assert deps[k..][i] == deps[k + i];
      }
    }
    DepPathsAppend(ctx, deps[..k], deps[k..]);
    assert deps[k..][1..] == deps[k + 1..];
  }

  /** A middle part of a loadable list loads, and its same-type paths are same-type paths of the whole. */
  lemma SameTypeMiddle(ctx: CX.Context, a: seq<string>, b: seq<string>, c: seq<string>, isDebug: bool)
    requires Loadable(ctx, a + b + c)
    ensures Loadable(ctx, b)
    ensures Elems(SameType(ctx, b, isDebug)) <= Elems(SameType(ctx, a + b + c, isDebug))
  {
    forall i | 0 <= i < |b| ensures b[i] in ctx.configs {
      assert (a + b + c)[|a| + i] == b[i];
    }
    forall q | q in Elems(SameType(ctx, b, isDebug)) ensures q in Elems(SameType(ctx, a + b + c, isDebug)) {
      var i :| 0 <= i < |b| && b[i] == q;
      assert (a + b + c)[|a| + i] == q;
    }
  }

  /** The k-th dependency of `c` is located, its definitions load and their same-type ones are in `good`. */
  ghost predicate DependencyGood(ctx: CX.Context, c: CFG.Config, good: set<string>, k: nat)
    requires k < |c.dependsOn|
  {
    var defs := CX.GetPackageJsonDefPaths(ctx, c.dependsOn[k]);
    defs.Ok? && Loadable(ctx, defs.value) && SameTypeIn(ctx, defs.value, c.package.isDebug, good)
  }

  /** What a good dependency gives the inner loop: its definitions load and the same-type ones are good. */
  ghost predicate DefsGood(ctx: CX.Context, defs: seq<string>, isDebug: bool, good: set<string>)
  {
    Loadable(ctx, defs) && SameTypeIn(ctx, defs, isDebug, good)
  }

  /** A good dependency is located and its definitions are good. */
  lemma DependencyGoodAt(ctx: CX.Context, c: CFG.Config, good: set<string>, k: nat, sound: bool)
    requires k < |c.dependsOn| && (sound ==> forall j :: 0 <= j < |c.dependsOn| ==> DependencyGood(ctx, c, good, j))
    ensures sound ==> CX.GetPackageJsonDefPaths(ctx, c.dependsOn[k]).Ok?
    ensures sound ==> DefsGood(ctx, CX.GetPackageJsonDefPaths(ctx, c.dependsOn[k]).value, c.package.isDebug, good)
  {
    if sound {
      assert DependencyGood(ctx, c, good, k);
    }
  }

  /** Every definition of the given build type is in `good`. */
  ghost predicate SameTypeIn(ctx: CX.Context, defs: seq<string>, isDebug: bool, good: set<string>)
    requires Loadable(ctx, defs)
  {
    forall i :: 0 <= i < |defs| && ctx.configs[defs[i]].package.isDebug == isDebug ==> defs[i] in good
  }

  /** A configuration of a closed set has every dependency good in that sense. */
  lemma ClosedDependencies(ctx: CX.Context, good: set<string>, p: string)
    requires Closed(ctx, good) && p in good
    ensures forall k :: 0 <= k < |ctx.configs[p].dependsOn| ==> DependencyGood(ctx, ctx.configs[p], good, k)
  {
    var c := ctx.configs[p];
    forall k | 0 <= k < |c.dependsOn| ensures DependencyGood(ctx, c, good, k) {
      DepPathsSplit(ctx, c.dependsOn, k);
      SameTypeMiddle(ctx, DepPaths(ctx, c.dependsOn[..k]), ctx.packages[c.dependsOn[k]], DepPaths(ctx, c.dependsOn[k + 1..]), c.package.isDebug);
    }
  }

  /** The configuration at `q` is in order and each of its dependencies is good. */
  ghost predicate GoodAt(ctx: CX.Context, good: set<string>, q: string)
  {
    LocalOk(ctx, q) && forall k :: 0 <= k < |ctx.configs[q].dependsOn| ==> DependencyGood(ctx, ctx.configs[q], good, k)
  }

  /**
   * Every configuration of `good` is good: the traversal from any of
   * them cannot fail.  The quantifier is only instantiated where a proof
   * asks about `GoodAt` explicitly.
   */
  ghost predicate GoodSet(ctx: CX.Context, good: set<string>)
  {
    forall q {:trigger GoodAt(ctx, good, q)} :: q in good ==> GoodAt(ctx, good, q)
  }

  /** A closed set is good. */
  lemma ClosedIsGood(ctx: CX.Context, v: set<string>)
    requires Closed(ctx, v)
    ensures GoodSet(ctx, v)
  {
    forall q | q in v ensures GoodAt(ctx, v, q) {
      ClosedDependencies(ctx, v, q);
    }
  }

  /** A configuration in a closed set is sound. */
  lemma ClosedSound(ctx: CX.Context, v: set<string>, p: string)
    requires Closed(ctx, v) && p in v
    ensures Sound(ctx, p)
  {
    forall x | Graphs.Reachable(DepGraph(ctx), p, x) ensures LocalOk(ctx, x) {
      ClosedReach(ctx, v, p, x);
    }
  }

  /**
   * A stretch of the traversal that went from `v0` to `seen` and appended
   * `list`, counting `added` same-type definitions `same`, all of them
   * visited by now, and deriving everything it appended from them.
   */
  ghost predicate Gathered(ctx: CX.Context, isDebug: bool, same: seq<string>, added: int, v0: set<string>, seen: set<string>, list: seq<string>)
  {
    // bound to one name, so that a caller proves it as one fact rather than conjunct by conjunct
    var holds :=
      added == |same| && Elems(same) <= seen && v0 <= seen &&
      CollectedFrom(ctx, isDebug, v0, seen, list) &&
      forall x :: x in Elems(list) ==> Derived(ctx, Elems(same), x);
    holds
  }

  lemma GatheredCompose(ctx: CX.Context, isDebug: bool, a: seq<string>, b: seq<string>, n1: int, n2: int,
                        v0: set<string>, v1: set<string>, v2: set<string>, l1: seq<string>, l2: seq<string>)
    requires Gathered(ctx, isDebug, a, n1, v0, v1, l1) && Gathered(ctx, isDebug, b, n2, v1, v2, l2)
    ensures Gathered(ctx, isDebug, a + b, n1 + n2, v0, v2, l1 + l2)
  {
    assert Elems(a + b) == Elems(a) + Elems(b);
    CollectedCompose(ctx, isDebug, v0, v1, v2, l1, l2);
    DerivedMonotone(ctx, Elems(a), Elems(a) + Elems(b), Elems(l1));
    DerivedMonotone(ctx, Elems(b), Elems(a) + Elems(b), Elems(l2));
    assert Elems(l1 + l2) == Elems(l1) + Elems(l2);
  }

  /** The state of getAllDepsJsonPaths after its first `k` dependencies. */
  ghost predicate DepsProgress(ctx: CX.Context, c: CFG.Config, k: nat, added: int, v0: set<string>, seen: set<string>, list: seq<string>)
    requires k <= |c.dependsOn|
  {
    var holds :=
      Locatable(ctx, c.dependsOn[..k]) && Loadable(ctx, DepPaths(ctx, c.dependsOn[..k])) &&
      Gathered(ctx, c.package.isDebug, SameType(ctx, DepPaths(ctx, c.dependsOn[..k]), c.package.isDebug), added, v0, seen, list);
    holds
  }

  lemma DepsProgressStart(ctx: CX.Context, c: CFG.Config, v0: set<string>)
    ensures DepsProgress(ctx, c, 0, 0, v0, v0, [])
  {
    assert c.dependsOn[..0] == [];
    assert Elems([]) == {};
    CollectedNothing(ctx, c.package.isDebug, v0);
  }

  /** The definitions of the first k+1 dependencies are those of the first k followed by those of dependency k. */
  lemma DepPathsStep(ctx: CX.Context, deps: seq<string>, k: nat, isDebug: bool)
    requires k < |deps| && Locatable(ctx, deps[..k]) && Loadable(ctx, DepPaths(ctx, deps[..k]))
    requires CX.GetPackageJsonDefPaths(ctx, deps[k]).Ok? && Loadable(ctx, ctx.packages[deps[k]])
    ensures Locatable(ctx, deps[..k + 1])
    ensures DepPaths(ctx, deps[..k + 1]) == DepPaths(ctx, deps[..k]) + ctx.packages[deps[k]]
    ensures Loadable(ctx, DepPaths(ctx, deps[..k + 1]))
    ensures SameType(ctx, DepPaths(ctx, deps[..k + 1]), isDebug) ==
      SameType(ctx, DepPaths(ctx, deps[..k]), isDebug) + SameType(ctx, ctx.packages[deps[k]], isDebug)
  {
    var dep := deps[k];
    assert Locatable(ctx, [dep]) && DepPaths(ctx, [dep]) == ctx.packages[dep] by {
      assert [dep][1..] == [];
    }
    DepPathsAppend(ctx, deps[..k], [dep]);
    assert deps[..k + 1] == deps[..k] + [dep];
    SameTypeAppend(ctx, DepPaths(ctx, deps[..k]), ctx.packages[dep], isDebug);
  }

  /** One more dependency collected: its definitions' same-type count and findings are added. */
  lemma DepsProgressStep(ctx: CX.Context, c: CFG.Config, k: nat, defs: seq<string>, added: int, v0: set<string>, v1: set<string>, v2: set<string>,
                         list: seq<string>, found: seq<string>, n: int)
    requires k < |c.dependsOn| && DepsProgress(ctx, c, k, added, v0, v1, list)
    requires CX.GetPackageJsonDefPaths(ctx, c.dependsOn[k]) == Ok(defs)
    requires Loadable(ctx, defs) && Gathered(ctx, c.package.isDebug, SameType(ctx, defs, c.package.isDebug), n, v1, v2, found)
    ensures DepsProgress(ctx, c, k + 1, added + n, v0, v2, list + found)
  {
    assert defs == ctx.packages[c.dependsOn[k]];
    DepPathsStep(ctx, c.dependsOn, k, c.package.isDebug);
    var before := SameType(ctx, DepPaths(ctx, c.dependsOn[..k]), c.package.isDebug);
    var here := SameType(ctx, defs, c.package.isDebug);
    GatheredCompose(ctx, c.package.isDebug, before, here, added, n, v0, v1, v2, list, found);
  }

  /** After every dependency the count is that of all same-type definitions, so a configuration in order passes the count. */
  lemma DepsProgressCount(ctx: CX.Context, p: string, added: int, v0: set<string>, seen: set<string>, list: seq<string>)
    requires p in ctx.configs
    requires DepsProgress(ctx, ctx.configs[p], |ctx.configs[p].dependsOn|, added, v0, seen, list)
    ensures LocalOk(ctx, p) ==> added >= |ctx.configs[p].dependsOn|
  {
    var c := ctx.configs[p];
    assert c.dependsOn[..|c.dependsOn|] == c.dependsOn;
  }

  /** After every dependency, enough same-type definitions make the configuration locally in order. */
  lemma DepsProgressEnd(ctx: CX.Context, p: string, added: int, v0: set<string>, seen: set<string>, list: seq<string>)
    requires p in ctx.configs
    requires DepsProgress(ctx, ctx.configs[p], |ctx.configs[p].dependsOn|, added, v0, seen, list)
    requires added >= |ctx.configs[p].dependsOn|
    ensures LocalOk(ctx, p) && Elems(DirectDeps(ctx, p)) <= seen
    ensures CollectedFrom(ctx, ctx.configs[p].package.isDebug, v0, seen, list)
    ensures forall x :: x in Elems(list) ==> Graphs.Reachable(DepGraph(ctx), p, x)
  {
    var c := ctx.configs[p];
    assert c.dependsOn[..|c.dependsOn|] == c.dependsOn;
    DerivedFromDirect(ctx, p, Elems(list));
  }

  /**
   * getAllDepsJsonPaths: marks the definition as visited and, for each
   * dependency in turn, appends each of its same-type definitions that
   * was not visited yet followed by that definition's own closure.
   * Every failure to locate or load is an error, and so is having fewer
   * same-type definitions than dependencies.
   */
  method GetAllDepsJsonPaths(ctx: CX.Context, packageJsonPath: string, ghost good: set<string>, visited: Visited) returns (r: Result<seq<string>>)
    requires GoodSet(ctx, good)
    modifies visited
    decreases |ctx.configs.Keys - (visited.seen + {packageJsonPath})|, 2
    ensures r.Ok? || r.Err?
    ensures old(visited.seen) <= visited.seen
    ensures !LocalOk(ctx, packageJsonPath) ==> r.Err?
    ensures packageJsonPath in good ==> r.Ok?
    ensures r.Ok? ==>
      LocalOk(ctx, packageJsonPath) && packageJsonPath in visited.seen &&
      Elems(DirectDeps(ctx, packageJsonPath)) <= visited.seen &&
      CollectedFrom(ctx, ctx.configs[packageJsonPath].package.isDebug, old(visited.seen) + {packageJsonPath}, visited.seen, r.value) &&
      forall x :: x in Elems(r.value) ==> Graphs.Reachable(DepGraph(ctx), packageJsonPath, x)
  {
    ghost var sound := packageJsonPath in good;
    assert sound ==> GoodAt(ctx, good, packageJsonPath);
    var config := CX.LoadJSONConfig(ctx, packageJsonPath);
    if !config.Ok? {
      return Err("couldn't load JSON config from " + packageJsonPath + " path - " + config.msg);
    }
    var c := config.value;
    visited.seen := visited.seen + {packageJsonPath};
    ghost var v0 := visited.seen;
    var jsonPathListWithDeps, addedPackages := CollectDependencies(ctx, c, sound, good, visited);
    if !jsonPathListWithDeps.Ok? {
      return Err(jsonPathListWithDeps.msg);
    }
    DepsProgressCount(ctx, packageJsonPath, addedPackages, v0, visited.seen, jsonPathListWithDeps.value);
    if addedPackages < |c.dependsOn| {
      return Err("package " + c.package.name + " dependencies do not have package with same build type");
    }
    DepsProgressEnd(ctx, packageJsonPath, addedPackages, v0, visited.seen, jsonPathListWithDeps.value);
    return jsonPathListWithDeps;
  }

  /** The loop of getAllDepsJsonPaths over the dependencies of the configuration at `p`. */
  method CollectDependencies(ctx: CX.Context, c: CFG.Config, ghost sound: bool, ghost good: set<string>, visited: Visited) returns (r: Result<seq<string>>, addedPackages: nat)
    requires GoodSet(ctx, good)
    requires sound ==> forall k :: 0 <= k < |c.dependsOn| ==> DependencyGood(ctx, c, good, k)
    modifies visited
    decreases |ctx.configs.Keys - visited.seen|, 1
    ensures r.Ok? || r.Err?
    ensures old(visited.seen) <= visited.seen
    ensures sound ==> r.Ok?
    ensures r.Ok? ==> DepsProgress(ctx, c, |c.dependsOn|, addedPackages, old(visited.seen), visited.seen, r.value)
  {
    ghost var v0 := visited.seen;
    addedPackages := 0;
    var jsonPathListWithDeps: seq<string> := [];
    DepsProgressStart(ctx, c, v0);
    var k := 0;
    while k < |c.dependsOn|
      invariant 0 <= k <= |c.dependsOn|
      invariant DepsProgress(ctx, c, k, addedPackages, v0, visited.seen, jsonPathListWithDeps)
    {
      var packageDep := c.dependsOn[k];
      DependencyGoodAt(ctx, c, good, k, sound);
      var packageDepsJsonPaths := CX.GetPackageJsonDefPaths(ctx, packageDep);
      if !packageDepsJsonPaths.Ok? {
        return Err("couldn't get Json Path of " + packageDep + " package"), addedPackages;
      }
      ghost var v1 := visited.seen;
      FewerUnvisited(ctx.configs.Keys, v0, visited.seen);
      var found, added := CollectDependency(ctx, c.package.isDebug, packageDepsJsonPaths.value, sound, good, visited);
      if !found.Ok? {
        return Err(found.msg), addedPackages;
      }
      DepsProgressStep(ctx, c, k, packageDepsJsonPaths.value, addedPackages, v0, v1, visited.seen, jsonPathListWithDeps, found.value, added);
      jsonPathListWithDeps := jsonPathListWithDeps + found.value;
      addedPackages := addedPackages + added;
      k := k + 1;
    }
    return Ok(jsonPathListWithDeps), addedPackages;
  }

  /** The state of the inner loop after the first `m` definitions. */
  ghost predicate CollectProgress(ctx: CX.Context, isDebug: bool, defs: seq<string>, m: nat, added: int, v0: set<string>, seen: set<string>, list: seq<string>)
    requires m <= |defs|
  {
    var holds := Loadable(ctx, defs[..m]) && Gathered(ctx, isDebug, SameType(ctx, defs[..m], isDebug), added, v0, seen, list);
    holds
  }

  lemma CollectProgressStart(ctx: CX.Context, isDebug: bool, defs: seq<string>, v0: set<string>)
    ensures CollectProgress(ctx, isDebug, defs, 0, 0, v0, v0, [])
  {
    assert defs[..0] == [];
    assert Elems([]) == {};
    CollectedNothing(ctx, isDebug, v0);
  }

  /** The definitions up to m+1 are those up to m and definition m, and so are their same-type ones. */
  lemma CollectProgressPaths(ctx: CX.Context, isDebug: bool, defs: seq<string>, m: nat)
    requires m < |defs| && Loadable(ctx, defs[..m]) && defs[m] in ctx.configs
    ensures Loadable(ctx, defs[..m + 1])
    ensures SameType(ctx, defs[..m + 1], isDebug) == SameType(ctx, defs[..m], isDebug) + SameType(ctx, [defs[m]], isDebug)
    ensures SameType(ctx, [defs[m]], isDebug) == if ctx.configs[defs[m]].package.isDebug == isDebug then [defs[m]] else []
  {
    var q := defs[m];
    assert Loadable(ctx, [q]);
    SameTypeAppend(ctx, defs[..m], [q], isDebug);
    assert defs[..m + 1] == defs[..m] + [q];
    assert [q][1..] == [];
  }

  /** One more loadable definition: a same-type one is counted, and one already visited adds nothing. */
  lemma CollectProgressSkip(ctx: CX.Context, isDebug: bool, defs: seq<string>, m: nat, added: int, v0: set<string>, seen: set<string>, list: seq<string>)
    requires m < |defs| && CollectProgress(ctx, isDebug, defs, m, added, v0, seen, list)
    requires defs[m] in ctx.configs
    requires ctx.configs[defs[m]].package.isDebug == isDebug ==> defs[m] in seen
    ensures CollectProgress(ctx, isDebug, defs, m + 1, added + (if ctx.configs[defs[m]].package.isDebug == isDebug then 1 else 0), v0, seen, list)
  {
    var q := defs[m];
    CollectProgressPaths(ctx, isDebug, defs, m);
    var here := SameType(ctx, [q], isDebug);
    CollectedNothing(ctx, isDebug, seen);
    assert Elems([]) == {};
    assert Gathered(ctx, isDebug, here, |here|, seen, seen, []);
    GatheredCompose(ctx, isDebug, SameType(ctx, defs[..m], isDebug), here, added, |here|, v0, seen, seen, list, []);
    assert list + [] == list;
  }

  /** One more same-type definition, not visited before: it and its own closure are appended. */
  lemma CollectProgressVisit(ctx: CX.Context, isDebug: bool, defs: seq<string>, m: nat, added: int, v0: set<string>, v1: set<string>, v2: set<string>,
                             list: seq<string>, tail: seq<string>)
    requires m < |defs| && CollectProgress(ctx, isDebug, defs, m, added, v0, v1, list)
    requires defs[m] in ctx.configs && ctx.configs[defs[m]].package.isDebug == isDebug && defs[m] !in v1
    requires LocalOk(ctx, defs[m]) && defs[m] in v2 && Elems(DirectDeps(ctx, defs[m])) <= v2
    requires CollectedFrom(ctx, isDebug, v1 + {defs[m]}, v2, tail)
    requires forall x :: x in Elems(tail) ==> Graphs.Reachable(DepGraph(ctx), defs[m], x)
    ensures CollectProgress(ctx, isDebug, defs, m + 1, added + 1, v0, v2, list + ([defs[m]] + tail))
  {
    var q := defs[m];
    CollectProgressPaths(ctx, isDebug, defs, m);
    CollectedVisit(ctx, isDebug, v1, v2, q, tail);
    assert Elems([q] + tail) == {q} + Elems(tail);
    assert Elems([q]) == {q};
    assert Gathered(ctx, isDebug, [q], 1, v1, v2, [q] + tail);
    GatheredCompose(ctx, isDebug, SameType(ctx, defs[..m], isDebug), [q], added, 1, v0, v1, v2, list, [q] + tail);
  }

  /**
   * The inner loop of getAllDepsJsonPaths over the definitions of one
   * dependency: `added` counts the same-type definitions, visited or not.
   */
  method CollectDependency(ctx: CX.Context, isDebug: bool, defs: seq<string>, ghost sound: bool, ghost good: set<string>, visited: Visited) returns (r: Result<seq<string>>, added: nat)
    requires GoodSet(ctx, good)
    requires sound ==> DefsGood(ctx, defs, isDebug, good)
    modifies visited
    decreases |ctx.configs.Keys - visited.seen|, 0
    ensures r.Ok? || r.Err?
    ensures old(visited.seen) <= visited.seen
    ensures !Loadable(ctx, defs) ==> r.Err?
    ensures sound ==> r.Ok?
    ensures r.Ok? ==> Loadable(ctx, defs) && Gathered(ctx, isDebug, SameType(ctx, defs, isDebug), added, old(visited.seen), visited.seen, r.value)
  {
    ghost var v0 := visited.seen;
    var list: seq<string> := [];
    added := 0;
    CollectProgressStart(ctx, isDebug, defs, v0);
    var m := 0;
    while m < |defs|
      invariant 0 <= m <= |defs|
      invariant CollectProgress(ctx, isDebug, defs, m, added, v0, visited.seen, list)
    {
      var q := defs[m];
      var depConfig := CX.LoadJSONConfig(ctx, q);
      if !depConfig.Ok? {
        return Err("couldn't load JSON config from " + q + " path - " + depConfig.msg), added;
      }
      if depConfig.value.package.isDebug != isDebug {
        CollectProgressSkip(ctx, isDebug, defs, m, added, v0, visited.seen, list);
        m := m + 1;
        continue;
      }
      if q in visited.seen {
        CollectProgressSkip(ctx, isDebug, defs, m, added, v0, visited.seen, list);
        added := added + 1;
        m := m + 1;
        continue;
      }
      ghost var v1 := visited.seen;
      assert q == defs[m];
      StrictlyFewerUnvisited(ctx.configs.Keys, v0, visited.seen, q);
      var tail := GetAllDepsJsonPaths(ctx, q, good, visited);
      if !tail.Ok? {
        return Err(tail.msg), added + 1;
      }
      CollectProgressVisit(ctx, isDebug, defs, m, added, v0, v1, visited.seen, list, tail.value);
      added := added + 1;
      list := list + ([q] + tail.value);
      m := m + 1;
    }
    assert defs[..m] == defs;
    return Ok(list), added;
  }

  /** The state of GetPackageWithDepsJsonDefPaths after its first `i` definitions. */
  ghost predicate WithDepsProgress(ctx: CX.Context, defs: seq<string>, i: nat, seen: set<string>, deps: seq<string>)
    requires i <= |defs|
  {
    seen == Elems(defs[..i]) + Elems(deps) &&
    Collections.NoDuplicates(deps) &&
    Closed(ctx, seen) &&
    forall x :: x in seen ==> Derived(ctx, Elems(defs[..i]), x)
  }

  lemma WithDepsStart(ctx: CX.Context, defs: seq<string>)
    ensures WithDepsProgress(ctx, defs, 0, {}, [])
  {
    assert defs[..0] == [];
    assert Elems([]) == {};
  }

  lemma WithDepsStep(ctx: CX.Context, defs: seq<string>, i: nat, v1: set<string>, v2: set<string>, deps: seq<string>, found: seq<string>)
    requires i < |defs| && WithDepsProgress(ctx, defs, i, v1, deps)
    requires LocalOk(ctx, defs[i]) && defs[i] in v2 && Elems(DirectDeps(ctx, defs[i])) <= v2
    requires CollectedFrom(ctx, ctx.configs[defs[i]].package.isDebug, v1 + {defs[i]}, v2, found)
    requires forall x :: x in Elems(found) ==> Graphs.Reachable(DepGraph(ctx), defs[i], x)
    ensures WithDepsProgress(ctx, defs, i + 1, v2, deps + found)
  {
    var d := defs[i];
    assert defs[..i + 1] == defs[..i] + [d];
    assert Elems(defs[..i + 1]) == Elems(defs[..i]) + {d};
    assert Elems(deps + found) == Elems(deps) + Elems(found);
    forall a, b | 0 <= a < b < |deps + found| ensures (deps + found)[a] != (deps + found)[b] {
      if a < |deps| && b >= |deps| {
        assert (deps + found)[a] in Elems(deps);
        assert (deps + found)[b] == found[b - |deps|];
      } else if a >= |deps| {
        assert (deps + found)[a] == found[a - |deps|] && (deps + found)[b] == found[b - |deps|];
      }
    }
    DerivedMonotone(ctx, Elems(defs[..i]), Elems(defs[..i + 1]), v1);
  }

  /** Every definition of the package is sound, so collecting its closure cannot fail. */
  ghost predicate WithDepsOk(ctx: CX.Context, packageName: string)
  {
    ctx.valid && packageName in ctx.packages &&
    forall i :: 0 <= i < |ctx.packages[packageName]| ==> Sound(ctx, ctx.packages[packageName][i])
  }

  /** The package's definitions and every configuration reachable from them over same-type dependencies. */
  ghost function WithDepsSet(ctx: CX.Context, packageName: string): set<string>
  {
    if packageName in ctx.packages then set x | x in ctx.configs.Keys && Derived(ctx, Elems(ctx.packages[packageName]), x) else {}
  }

  lemma WithDepsClosed(ctx: CX.Context, packageName: string)
    requires WithDepsOk(ctx, packageName)
    ensures Closed(ctx, WithDepsSet(ctx, packageName))
    ensures Elems(ctx.packages[packageName]) <= WithDepsSet(ctx, packageName)
  {
    var roots := Elems(ctx.packages[packageName]);
    var g := DepGraph(ctx);
    forall q | q in roots ensures Sound(ctx, q) {
      var i :| 0 <= i < |ctx.packages[packageName]| && ctx.packages[packageName][i] == q;
    }
    forall x | x in WithDepsSet(ctx, packageName) ensures LocalOk(ctx, x) && Elems(DirectDeps(ctx, x)) <= WithDepsSet(ctx, packageName) {
      var q: string :| q in roots && (q == x || Graphs.Reachable(g, q, x));
      forall y | y in Elems(DirectDeps(ctx, x)) ensures y in WithDepsSet(ctx, packageName) {
        DepGraphEdge(ctx, x, y);
        if q == x {
          Graphs.PathOfEdge(g, x, y);
        } else {
          Graphs.ReachableAppend(g, q, x, y);
        }
      }
    }
  }

  /**
   * GetPackageWithDepsJsonDefPaths: the package's own definitions, then
   * what the traversal of each of them adds, with one visited set shared
   * by all of them.  The result is exactly the definitions and every path
   * reachable from them over same-type dependencies, each dependency once.
   */
  method GetPackageWithDepsJsonDefPaths(ctx: CX.Context, packageName: string) returns (r: Result<seq<string>>)
    ensures r.Ok? || r.Err?
    ensures !CX.GetPackageJsonDefPaths(ctx, packageName).Ok? ==>
      r == Err("cannot get config paths for package '" + packageName + "' - " + CX.GetPackageJsonDefPaths(ctx, packageName).msg)
    ensures r.Ok? <==> WithDepsOk(ctx, packageName)
    ensures r.Ok? ==>
      var defs := ctx.packages[packageName];
      |defs| <= |r.value| && r.value[..|defs|] == defs &&
      Collections.NoDuplicates(r.value[|defs|..]) &&
      Closed(ctx, Elems(r.value)) &&
      Elems(r.value) == WithDepsSet(ctx, packageName)
  {
    var packageDefs := CX.GetPackageJsonDefPaths(ctx, packageName);
    if !packageDefs.Ok? {
      return Err("cannot get config paths for package '" + packageName + "' - " + packageDefs.msg);
    }
    var defs := packageDefs.value;
    ghost var good: set<string> := {};
    if WithDepsOk(ctx, packageName) {
      WithDepsClosed(ctx, packageName);
      good := WithDepsSet(ctx, packageName);
    }
    ClosedIsGood(ctx, good);
    var packageDeps: seq<string> := [];
    var visitedPackages := new Visited();
    WithDepsStart(ctx, defs);
    var i := 0;
    while i < |defs|
      invariant 0 <= i <= |defs|
      invariant WithDepsProgress(ctx, defs, i, visitedPackages.seen, packageDeps)
    {
      ghost var v1 := visitedPackages.seen;
      assert WithDepsOk(ctx, packageName) ==> defs[i] in good;
      var packageDepsTmp := GetAllDepsJsonPaths(ctx, defs[i], good, visitedPackages);
      if !packageDepsTmp.Ok? {
        return Err(packageDepsTmp.msg);
      }
      WithDepsStep(ctx, defs, i, v1, visitedPackages.seen, packageDeps, packageDepsTmp.value);
      packageDeps := packageDeps + packageDepsTmp.value;
      i := i + 1;
    }
    assert defs[..i] == defs;
    var result := defs + packageDeps;
    assert result[..|defs|] == defs && result[|defs|..] == packageDeps;
    assert Elems(result) == visitedPackages.seen;
    forall x | Derived(ctx, Elems(defs), x) ensures x in Elems(result) {
      if x !in Elems(defs) {
        var q :| q in Elems(defs) && Graphs.Reachable(DepGraph(ctx), q, x);
        ClosedReach(ctx, visitedPackages.seen, q, x);
      }
    }
    forall j | 0 <= j < |defs| ensures Sound(ctx, defs[j]) {
      ClosedSound(ctx, visitedPackages.seen, defs[j]);
    }
    assert WithDepsOk(ctx, packageName);
    assert Elems(result) == WithDepsSet(ctx, packageName);
    return Ok(result);
  }

  // ---------------------------------------------------------------------
  // The packages that depend on a package: getAllDepsOnJsonPaths,
  // addDependsOnPackagesToBuild, GetDepsOnJsonDefPaths
  // ---------------------------------------------------------------------

  /** The package names the configurations of the context carry. */
  ghost function Names(ctx: CX.Context): set<string>
  {
    set c | c in ctx.configs.Values :: c.package.name
  }

  /** The names some configuration of the context lists as a dependency. */
  ghost function DependedOn(ctx: CX.Context): set<string>
  {
    set c, d | c in ctx.configs.Values && d in c.dependsOn :: d
  }

  /** `c` is another package, of build type `isDebug`, that lists `name` among its dependencies. */
  predicate DirectDependent(c: CFG.Config, name: string, isDebug: bool)
  {
    c.package.name != name && c.package.isDebug == isDebug && name in c.dependsOn
  }

  /**
   * The reverse dependency graph over package names: `n -> m` when a
   * configuration of `m` of build type `isDebug`, from one of the package
   * directories, depends on `n`.
   */
  ghost function DependentsGraph(ctx: CX.Context, isDebug: bool): Graphs.Graph
  {
    map n | n in DependedOn(ctx) ::
      set c | c in ctx.configs.Values && CX.IsPackageConfig(ctx, c) && DirectDependent(c, n, isDebug) :: c.package.name
  }

  /**
   * What a traversal may still enter once the names in `seen` are visited:
   * the edges of the reverse graph into unvisited packages whose own
   * closure can be formed.
   */
  ghost function OpenGraph(ctx: CX.Context, isDebug: bool, seen: set<string>): Graphs.Graph
  {
    var g := DependentsGraph(ctx, isDebug);
    map n | n in g :: set m | m in g[n] && m !in seen && WithDepsOk(ctx, m)
  }

  /**
   * The packages whose closures a query for the dependents of `base` adds,
   * when `seen` (which holds `base`) was visited before: the unvisited
   * same-type dependents of `base` whose closure can be formed and, with
   * recursion, every package reachable through such dependents.
   */
  ghost function Entered(ctx: CX.Context, isDebug: bool, seen: set<string>, base: string, recursively: bool): set<string>
  {
    var g := OpenGraph(ctx, isDebug, seen);
    if recursively then Graphs.ReachSet(g, base) else if base in g then g[base] else {}
  }

  /** A recursive query enters at least what a direct one enters. */
  lemma EnteredDirectly(ctx: CX.Context, isDebug: bool, seen: set<string>, base: string)
    ensures Entered(ctx, isDebug, seen, base, false) <= Entered(ctx, isDebug, seen, base, true)
  {
    var g := OpenGraph(ctx, isDebug, seen);
    forall m | m in Entered(ctx, isDebug, seen, base, false) ensures m in Graphs.ReachSet(g, base) {
      Graphs.PathOfEdge(g, base, m);
      Graphs.ReachableIsNode(g, base, m);
    }
  }

  lemma PackageConfigIsValue(ctx: CX.Context, c: CFG.Config)
    requires CX.IsPackageConfig(ctx, c)
    ensures c in ctx.configs.Values
  {
    var name, i :| name in ctx.packages && 0 <= i < |ctx.packages[name]| && ctx.packages[name][i] in ctx.configs &&
      ctx.configs[ctx.packages[name][i]] == c;
  }

  /** A same-type configuration listing `base` whose package is unvisited and closes is an edge of the open graph. */
  lemma OpenEdge(ctx: CX.Context, isDebug: bool, seen: set<string>, c: CFG.Config, base: string)
    requires CX.IsPackageConfig(ctx, c) && DirectDependent(c, base, isDebug)
    requires c.package.name !in seen && WithDepsOk(ctx, c.package.name)
    ensures Graphs.Edge(OpenGraph(ctx, isDebug, seen), base, c.package.name)
    ensures c.package.name in Entered(ctx, isDebug, seen, base, false)
  {
    PackageConfigIsValue(ctx, c);
    assert base in DependedOn(ctx);
  }

  /** Every edge of the reverse graph comes from a dependent's configuration. */
  lemma DependentsEdgeConfig(ctx: CX.Context, isDebug: bool, base: string, m: string) returns (c: CFG.Config)
    requires Graphs.Edge(DependentsGraph(ctx, isDebug), base, m)
    ensures CX.IsPackageConfig(ctx, c) && DirectDependent(c, base, isDebug) && c.package.name == m
  {
    c :| c in ctx.configs.Values && CX.IsPackageConfig(ctx, c) && DirectDependent(c, base, isDebug) && c.package.name == m;
  }

  /** An edge of the open graph leads to an unvisited package whose closure can be formed. */
  lemma OpenEdgeTarget(ctx: CX.Context, isDebug: bool, seen: set<string>, a: string, m: string)
    requires Graphs.Edge(OpenGraph(ctx, isDebug, seen), a, m)
    ensures Graphs.Edge(DependentsGraph(ctx, isDebug), a, m) && m !in seen && WithDepsOk(ctx, m)
  {
  }

  /** Nothing entered was visited before, and each entered package closes. */
  lemma EnteredOutside(ctx: CX.Context, isDebug: bool, seen: set<string>, base: string, recursively: bool, n: string)
    requires n in Entered(ctx, isDebug, seen, base, recursively)
    ensures n !in seen && WithDepsOk(ctx, n)
  {
    var g := OpenGraph(ctx, isDebug, seen);
    if recursively {
      var a := Graphs.ReachableLastStep(g, base, n);
      OpenEdgeTarget(ctx, isDebug, seen, a, n);
    } else {
      OpenEdgeTarget(ctx, isDebug, seen, base, n);
    }
  }

  /** Visiting more leaves fewer edges open. */
  lemma OpenShrinks(ctx: CX.Context, isDebug: bool, s1: set<string>, s2: set<string>, a: string, b: string)
    requires s1 <= s2 && Graphs.Reachable(OpenGraph(ctx, isDebug, s2), a, b)
    ensures Graphs.Reachable(OpenGraph(ctx, isDebug, s1), a, b)
  {
    Graphs.ReachableInSupergraph(OpenGraph(ctx, isDebug, s2), OpenGraph(ctx, isDebug, s1), a, b);
  }

  /** Every dependent of `n` whose closure can be formed is in `seen`. */
  ghost predicate DependentsIn(ctx: CX.Context, isDebug: bool, n: string, seen: set<string>)
  {
    forall m :: Graphs.Edge(DependentsGraph(ctx, isDebug), n, m) && WithDepsOk(ctx, m) ==> m in seen
  }

  /**
   * What a recursive query from `base` leaves behind when it started from
   * `s0`: everything newly visited was entered from `base`, and every
   * package it expanded, `base` included, has its closing dependents
   * visited.
   */
  ghost predicate Explored(ctx: CX.Context, isDebug: bool, s0: set<string>, base: string, s1: set<string>)
  {
    var s := s0 + {base};
    // bound to one name, so that a caller proves it as one fact rather than conjunct by conjunct
    var holds := s <= s1 && s1 - s <= Entered(ctx, isDebug, s, base, true) &&
      forall n :: (n in s1 - s0 || n == base) ==> DependentsIn(ctx, isDebug, n, s1);
    holds
  }

  /** A finished traversal has visited exactly what it could enter. */
  lemma ExploredExact(ctx: CX.Context, isDebug: bool, s0: set<string>, base: string, s1: set<string>)
    requires Explored(ctx, isDebug, s0, base, s1)
    ensures s1 == s0 + {base} + Entered(ctx, isDebug, s0 + {base}, base, true)
  {
    var s := s0 + {base};
    var g := OpenGraph(ctx, isDebug, s);
    var w := (s1 - s0) + {base};
    forall x, y | x in w && Graphs.Edge(g, x, y) ensures y in w {
      OpenEdgeTarget(ctx, isDebug, s, x, y);
      assert DependentsIn(ctx, isDebug, x, s1);
    }
    forall b | b in Entered(ctx, isDebug, s, base, true) ensures b in s1 {
      Graphs.ClosedHoldsReach(g, base, w, b);
    }
  }

  /** What a listed configuration `c` adds without recursion: the closure of a direct dependent whose name was not visited. */
  ghost predicate DirectContribution(ctx: CX.Context, c: CFG.Config, name: string, isDebug: bool, seen: set<string>, x: string)
  {
    DirectDependent(c, name, isDebug) && c.package.name !in seen &&
    WithDepsOk(ctx, c.package.name) && x in WithDepsSet(ctx, c.package.name)
  }

  /** The state of getAllDepsOnJsonPaths after the first `k` configurations. */
  ghost predicate DepsOnProgress(ctx: CX.Context, configs: seq<CFG.Config>, k: nat, base: string, isDebug: bool, s0: set<string>,
                                 recursively: bool, seen: set<string>, packs: seq<string>)
    requires k <= |configs|
  {
    var s := s0 + {base};
    // bound to one name, so that a caller proves it as one fact rather than conjunct by conjunct
    var holds :=
      if recursively then
        s <= seen && seen - s <= Entered(ctx, isDebug, s, base, true) &&
        (forall n :: n in seen - s ==> DependentsIn(ctx, isDebug, n, seen)) &&
        (forall j :: 0 <= j < k && DirectDependent(configs[j], base, isDebug) && WithDepsOk(ctx, configs[j].package.name) ==>
          configs[j].package.name in seen) &&
        (forall x :: x in packs <==> exists n :: n in seen - s && x in WithDepsSet(ctx, n))
      else
        seen == s && forall x :: x in packs <==> exists j :: 0 <= j < k && DirectContribution(ctx, configs[j], base, isDebug, s0, x);
    holds
  }

  lemma DepsOnStart(ctx: CX.Context, configs: seq<CFG.Config>, base: string, isDebug: bool, s0: set<string>, recursively: bool)
    ensures DepsOnProgress(ctx, configs, 0, base, isDebug, s0, recursively, s0 + {base}, [])
  {
  }

  /** A configuration that is not an unvisited same-type dependent contributes nothing. */
  lemma DepsOnSkip(ctx: CX.Context, configs: seq<CFG.Config>, k: nat, base: string, isDebug: bool, s0: set<string>,
                   recursively: bool, seen: set<string>, packs: seq<string>)
    requires k < |configs| && DepsOnProgress(ctx, configs, k, base, isDebug, s0, recursively, seen, packs)
    requires !DirectDependent(configs[k], base, isDebug) || configs[k].package.name in seen
    ensures DepsOnProgress(ctx, configs, k + 1, base, isDebug, s0, recursively, seen, packs)
  {
    if recursively {
      forall j | 0 <= j < k + 1 && DirectDependent(configs[j], base, isDebug) && WithDepsOk(ctx, configs[j].package.name)
        ensures configs[j].package.name in seen
      {
        if j < k {
          assert DepsOnProgress(ctx, configs, k, base, isDebug, s0, recursively, seen, packs);
        }
      }
    } else {
      DepsOnSkipDirect(ctx, configs, k, base, isDebug, s0, packs);
    }
  }

  lemma DepsOnSkipDirect(ctx: CX.Context, configs: seq<CFG.Config>, k: nat, base: string, isDebug: bool, s0: set<string>, packs: seq<string>)
    requires k < |configs|
    requires forall x :: x in packs <==> exists j :: 0 <= j < k && DirectContribution(ctx, configs[j], base, isDebug, s0, x)
    requires !DirectDependent(configs[k], base, isDebug) || configs[k].package.name in s0 + {base}
    ensures forall x :: x in packs <==> exists j :: 0 <= j < k + 1 && DirectContribution(ctx, configs[j], base, isDebug, s0, x)
  {
    forall x | x in packs ensures exists j :: 0 <= j < k + 1 && DirectContribution(ctx, configs[j], base, isDebug, s0, x) {
      var j :| 0 <= j < k && DirectContribution(ctx, configs[j], base, isDebug, s0, x);
    }
    forall x | exists j :: 0 <= j < k + 1 && DirectContribution(ctx, configs[j], base, isDebug, s0, x) ensures x in packs {
      var j :| 0 <= j < k + 1 && DirectContribution(ctx, configs[j], base, isDebug, s0, x);
      assert j < k;
    }
  }

  /** Without recursion, the list after a direct dependent holds exactly the contributions of the first k + 1 configurations. */
  lemma DepsOnAddDirect(ctx: CX.Context, configs: seq<CFG.Config>, k: nat, base: string, isDebug: bool, s0: set<string>,
                        packs: seq<string>, packs2: seq<string>)
    requires k < |configs|
    requires forall x :: x in packs <==> exists j :: 0 <= j < k && DirectContribution(ctx, configs[j], base, isDebug, s0, x)
    requires DirectDependent(configs[k], base, isDebug) && configs[k].package.name !in s0
    requires forall x :: x in packs2 <==>
      x in packs || (WithDepsOk(ctx, configs[k].package.name) && x in WithDepsSet(ctx, configs[k].package.name))
    ensures forall x :: x in packs2 <==> exists j :: 0 <= j < k + 1 && DirectContribution(ctx, configs[j], base, isDebug, s0, x)
  {
    forall x | x in packs2 ensures exists j :: 0 <= j < k + 1 && DirectContribution(ctx, configs[j], base, isDebug, s0, x) {
      if x in packs {
        var j :| 0 <= j < k && DirectContribution(ctx, configs[j], base, isDebug, s0, x);
      } else {
        assert DirectContribution(ctx, configs[k], base, isDebug, s0, x);
      }
    }
    forall x | exists j :: 0 <= j < k + 1 && DirectContribution(ctx, configs[j], base, isDebug, s0, x) ensures x in packs2 {
      var j :| 0 <= j < k + 1 && DirectContribution(ctx, configs[j], base, isDebug, s0, x);
      if j < k {
        assert x in packs;
      }
    }
  }

  /** With recursion, a dependent and what its own traversal entered were entered from the base. */
  lemma DepsOnRecEntered(ctx: CX.Context, base: string, isDebug: bool, s: set<string>, seen: set<string>, c: CFG.Config, seen2: set<string>)
    requires s <= seen && seen - s <= Entered(ctx, isDebug, s, base, true)
    requires CX.IsPackageConfig(ctx, c) && DirectDependent(c, base, isDebug)
    requires c.package.name !in seen && WithDepsOk(ctx, c.package.name)
    requires seen2 == seen + {c.package.name} + Entered(ctx, isDebug, seen + {c.package.name}, c.package.name, true)
    ensures seen2 - s <= Entered(ctx, isDebug, s, base, true)
  {
    var m := c.package.name;
    var g := OpenGraph(ctx, isDebug, s);
    OpenEdge(ctx, isDebug, s, c, base);
    Graphs.PathOfEdge(g, base, m);
    Graphs.ReachableIsNode(g, base, m);
    forall n | n in Entered(ctx, isDebug, seen + {m}, m, true) ensures n in Entered(ctx, isDebug, s, base, true) {
      OpenShrinks(ctx, isDebug, s, seen + {m}, m, n);
      Graphs.ReachablePrepend(g, base, m, n);
      Graphs.ReachableIsNode(g, base, n);
    }
  }

  /** With recursion, a dependent's closure and the closures its traversal added are the closures of what is now visited. */
  lemma DepsOnRecPacks(ctx: CX.Context, s: set<string>, seen: set<string>, m: string, e: set<string>, seen2: set<string>,
                       packs: seq<string>, packs2: seq<string>)
    requires s <= seen && m !in seen && seen2 == seen + {m} + e
    requires forall x :: x in packs <==> exists n :: n in seen - s && x in WithDepsSet(ctx, n)
    requires forall x :: x in packs2 <==> x in packs || x in WithDepsSet(ctx, m) || exists n :: n in e && x in WithDepsSet(ctx, n)
    requires forall n :: n in e ==> n !in seen + {m}
    ensures forall x :: x in packs2 <==> exists n :: n in seen2 - s && x in WithDepsSet(ctx, n)
  {
    forall x | x in packs2 ensures exists n :: n in seen2 - s && x in WithDepsSet(ctx, n) {
      if x in packs {
        var n :| n in seen - s && x in WithDepsSet(ctx, n);
        assert n in seen2 - s;
      } else if x in WithDepsSet(ctx, m) {
        assert m in seen2 - s;
      } else {
        var n :| n in e && x in WithDepsSet(ctx, n);
        assert n in seen2 - s;
      }
    }
    forall x | exists n :: n in seen2 - s && x in WithDepsSet(ctx, n) ensures x in packs2 {
      var n :| n in seen2 - s && x in WithDepsSet(ctx, n);
      if n in seen - s {
        assert x in packs;
      } else if n != m {
        assert n in e;
      }
    }
  }

  /** With recursion, a dependent whose closure forms is expanded and leaves its traversal's state. */
  lemma DepsOnAddRec(ctx: CX.Context, configs: seq<CFG.Config>, k: nat, base: string, isDebug: bool, s0: set<string>,
                     seen: set<string>, seen2: set<string>, packs: seq<string>, packs2: seq<string>)
    requires k < |configs| && DepsOnProgress(ctx, configs, k, base, isDebug, s0, true, seen, packs)
    requires CX.IsPackageConfig(ctx, configs[k]) && DirectDependent(configs[k], base, isDebug)
    requires configs[k].package.name !in seen && WithDepsOk(ctx, configs[k].package.name)
    requires seen2 == seen + {configs[k].package.name} +
      Entered(ctx, isDebug, seen + {configs[k].package.name}, configs[k].package.name, true)
    requires Explored(ctx, isDebug, seen, configs[k].package.name, seen2)
    requires forall x :: x in packs2 <==>
      x in packs || x in WithDepsSet(ctx, configs[k].package.name) ||
      exists n :: n in Entered(ctx, isDebug, seen + {configs[k].package.name}, configs[k].package.name, true) && x in WithDepsSet(ctx, n)
    ensures DepsOnProgress(ctx, configs, k + 1, base, isDebug, s0, true, seen2, packs2)
  {
    var s := s0 + {base};
    var m := configs[k].package.name;
    var e := Entered(ctx, isDebug, seen + {m}, m, true);
    DepsOnRecEntered(ctx, base, isDebug, s, seen, configs[k], seen2);
    forall n | n in e ensures n !in seen + {m} {
      EnteredOutside(ctx, isDebug, seen + {m}, m, true, n);
    }
    DepsOnRecPacks(ctx, s, seen, m, e, seen2, packs, packs2);
    forall n | n in seen2 - s ensures DependentsIn(ctx, isDebug, n, seen2) {
      if n in seen {
        assert DependentsIn(ctx, isDebug, n, seen);
      }
    }
  }

  /** With recursion, a dependent whose closure cannot be formed changes nothing. */
  lemma DepsOnAddRecFailed(ctx: CX.Context, configs: seq<CFG.Config>, k: nat, base: string, isDebug: bool, s0: set<string>,
                           seen: set<string>, packs: seq<string>)
    requires k < |configs| && DepsOnProgress(ctx, configs, k, base, isDebug, s0, true, seen, packs)
    requires !WithDepsOk(ctx, configs[k].package.name)
    ensures DepsOnProgress(ctx, configs, k + 1, base, isDebug, s0, true, seen, packs)
  {
  }

  /** Without recursion, the contributions over every listed configuration are the closures of what the base enters. */
  lemma DepsOnEnd(ctx: CX.Context, order: seq<string>, configs: seq<CFG.Config>, base: string, isDebug: bool, s0: set<string>, packs: seq<string>)
    requires Collections.IsEnumeration(order, ctx.packages.Keys) && configs == CX.AllConfigs(ctx, order, None)
    requires forall x :: x in packs <==> exists j :: 0 <= j < |configs| && DirectContribution(ctx, configs[j], base, isDebug, s0, x)
    ensures forall x :: x in packs <==> exists n :: n in Entered(ctx, isDebug, s0 + {base}, base, false) && x in WithDepsSet(ctx, n)
  {
    var s := s0 + {base};
    forall x | x in packs ensures exists n :: n in Entered(ctx, isDebug, s, base, false) && x in WithDepsSet(ctx, n) {
      var j :| 0 <= j < |configs| && DirectContribution(ctx, configs[j], base, isDebug, s0, x);
      CX.AllConfigsMeaning(ctx, order, configs[j]);
      OpenEdge(ctx, isDebug, s, configs[j], base);
    }
    forall x, n | n in Entered(ctx, isDebug, s, base, false) && x in WithDepsSet(ctx, n) ensures x in packs {
      OpenEdgeTarget(ctx, isDebug, s, base, n);
      var c := DependentsEdgeConfig(ctx, isDebug, base, n);
      CX.AllConfigsMeaning(ctx, order, c);
      var j :| 0 <= j < |configs| && configs[j] == c;
      assert DirectContribution(ctx, configs[j], base, isDebug, s0, x);
    }
  }

  /** With recursion, the traversal over every listed configuration has explored what the base enters. */
  lemma DepsOnEndRec(ctx: CX.Context, order: seq<string>, configs: seq<CFG.Config>, base: string, isDebug: bool, s0: set<string>,
                     seen: set<string>, packs: seq<string>)
    requires Collections.IsEnumeration(order, ctx.packages.Keys) && configs == CX.AllConfigs(ctx, order, None)
    requires DepsOnProgress(ctx, configs, |configs|, base, isDebug, s0, true, seen, packs)
    ensures Explored(ctx, isDebug, s0, base, seen)
    ensures seen == s0 + {base} + Entered(ctx, isDebug, s0 + {base}, base, true)
    ensures forall x :: x in packs <==> exists n :: n in Entered(ctx, isDebug, s0 + {base}, base, true) && x in WithDepsSet(ctx, n)
  {
    var s := s0 + {base};
    forall m | Graphs.Edge(DependentsGraph(ctx, isDebug), base, m) && WithDepsOk(ctx, m) ensures m in seen {
      var c := DependentsEdgeConfig(ctx, isDebug, base, m);
      CX.AllConfigsMeaning(ctx, order, c);
      var j :| 0 <= j < |configs| && configs[j] == c;
    }
    assert DependentsIn(ctx, isDebug, base, seen);
    ExploredExact(ctx, isDebug, s0, base, seen);
    forall n | n in Entered(ctx, isDebug, s, base, true) ensures n in seen - s {
      EnteredOutside(ctx, isDebug, s, base, true, n);
    }
  }

  /** The inner loop of getAllDepsOnJsonPaths: whether `name` is among the dependencies. */
  method ListsDependency(deps: seq<string>, name: string) returns (found: bool)
    ensures found <==> name in deps
  {
    var i := 0;
    while i < |deps|
      invariant 0 <= i <= |deps|
      invariant name !in deps[..i]
    {
      if deps[i] == name {
        return true;
      }
      assert deps[..i + 1] == deps[..i] + [deps[i]];
      i := i + 1;
    }
    assert deps[..i] == deps;
    return false;
  }

  /**
   * getAllDepsOnJsonPaths: marks the name of `config` as visited, then
   * goes through every configuration of the context; each other package
   * of the same build type that lists the name as a dependency, and whose
   * name was not visited, is added with its own closure and, recursively,
   * with the packages that depend on it.  Errors of that step are
   * dropped.  The result is exactly the closures of the packages the
   * query enters, and with recursion those are what it visits.
   */
  method GetAllDepsOnJsonPaths(ctx: CX.Context, config: CFG.Config, visited: Visited, recursively: bool) returns (r: Result<seq<string>>)
    modifies visited
    decreases |Names(ctx) - (visited.seen + {config.package.name})|, 1
    ensures r.Ok? <==> ctx.valid
    ensures !r.Ok? ==> r.Err? && visited.seen == old(visited.seen)
    ensures r.Ok? ==>
      visited.seen == old(visited.seen) + {config.package.name} +
      (if recursively then Entered(ctx, config.package.isDebug, old(visited.seen) + {config.package.name}, config.package.name, true) else {})
    ensures r.Ok? && recursively ==> Explored(ctx, config.package.isDebug, old(visited.seen), config.package.name, visited.seen)
    ensures r.Ok? ==> forall x :: x in r.value <==>
      exists n :: n in Entered(ctx, config.package.isDebug, old(visited.seen) + {config.package.name}, config.package.name, recursively) &&
        x in WithDepsSet(ctx, n)
  {
    var packConfigs, order := CX.GetAllPackagesConfigs(ctx, None);
    if !packConfigs.Ok? {
      return Err(packConfigs.msg);
    }
    var configs := packConfigs.value;
    var base := config.package.name;
    var isDebug := config.package.isDebug;
    ghost var s0 := visited.seen;
    visited.seen := visited.seen + {base};
    ghost var v0 := visited.seen;
    var packsToBuild: seq<string> := [];
    DepsOnStart(ctx, configs, base, isDebug, s0, recursively);
    var k := 0;
    while k < |configs|
      invariant 0 <= k <= |configs|
      invariant v0 <= visited.seen
      invariant DepsOnProgress(ctx, configs, k, base, isDebug, s0, recursively, visited.seen, packsToBuild)
    {
      var packConfig := configs[k];
      if packConfig.package.name == base || packConfig.package.isDebug != isDebug {
        DepsOnSkip(ctx, configs, k, base, isDebug, s0, recursively, visited.seen, packsToBuild);
        k := k + 1;
        continue;
      }
      var lists := ListsDependency(packConfig.dependsOn, base);
      if !lists || packConfig.package.name in visited.seen {
        DepsOnSkip(ctx, configs, k, base, isDebug, s0, recursively, visited.seen, packsToBuild);
        k := k + 1;
        continue;
      }
      CX.AllConfigsIn(ctx, order, packConfig);
      FewerUnvisited(Names(ctx), v0, visited.seen);
      PackageConfigIsValue(ctx, packConfig);
      ghost var seen1 := visited.seen;
      var err, packs := AddDependsOnPackagesToBuild(ctx, packsToBuild, packConfig, visited, recursively);
      if !recursively {
        DepsOnAddDirect(ctx, configs, k, base, isDebug, s0, packsToBuild, packs);
      } else if err.Pass? {
        DepsOnAddRec(ctx, configs, k, base, isDebug, s0, seen1, visited.seen, packsToBuild, packs);
      } else {
        DepsOnAddRecFailed(ctx, configs, k, base, isDebug, s0, visited.seen, packsToBuild);
      }
      packsToBuild := packs;
      k := k + 1;
    }
    if !recursively {
      DepsOnEnd(ctx, order, configs, base, isDebug, s0, packsToBuild);
    } else {
      DepsOnEndRec(ctx, order, configs, base, isDebug, s0, visited.seen, packsToBuild);
    }
    return Ok(packsToBuild);
  }

  /**
   * addDependsOnPackagesToBuild: appends the with-dependencies closure of
   * `packConfig`'s package and, when recursive, the packages depending on
   * it.  A closure that fails is an error and adds nothing.
   */
  method AddDependsOnPackagesToBuild(ctx: CX.Context, packsToBuild: seq<string>, packConfig: CFG.Config, visited: Visited, recursively: bool)
    returns (err: Outcome, packs: seq<string>)
    requires ctx.valid && packConfig in ctx.configs.Values && packConfig.package.name !in visited.seen
    modifies visited
    decreases |Names(ctx) - visited.seen|, 0
    ensures err.Pass? <==> WithDepsOk(ctx, packConfig.package.name)
    ensures err.Pass? || err.Fail?
    ensures !err.Pass? ==> packs == packsToBuild && visited.seen == old(visited.seen)
    ensures err.Pass? && !recursively ==>
      visited.seen == old(visited.seen) &&
      forall x :: x in packs <==> x in packsToBuild || x in WithDepsSet(ctx, packConfig.package.name)
    ensures err.Pass? && recursively ==>
      var name := packConfig.package.name;
      var e := Entered(ctx, packConfig.package.isDebug, old(visited.seen) + {name}, name, true);
      visited.seen == old(visited.seen) + {name} + e &&
      Explored(ctx, packConfig.package.isDebug, old(visited.seen), name, visited.seen) &&
      forall x :: x in packs <==> x in packsToBuild || x in WithDepsSet(ctx, name) || exists n :: n in e && x in WithDepsSet(ctx, n)
  {
    var name := packConfig.package.name;
    var packWithDeps := GetPackageWithDepsJsonDefPaths(ctx, name);
    if !packWithDeps.Ok? {
      return Fail(packWithDeps.msg), packsToBuild;
    }
    packs := packsToBuild + packWithDeps.value;
    if recursively {
      StrictlyFewerUnvisited(Names(ctx), visited.seen, visited.seen, name);
      // the context is valid, so the recursive query cannot fail
      var packsDepsOnRecursive := GetAllDepsOnJsonPaths(ctx, packConfig, visited, true);
      packs := packs + packsDepsOnRecursive.value;
    }
    return Pass, packs;
  }

  /** The names visited once the first `i` definitions of a package have been queried for their dependents. */
  ghost function DepsOnVisited(ctx: CX.Context, defs: seq<string>, i: nat, recursively: bool): set<string>
    requires i <= |defs| && forall j :: 0 <= j < i ==> defs[j] in ctx.configs
  {
    if i == 0 then {}
    else
      var c := ctx.configs[defs[i - 1]];
      var s := DepsOnVisited(ctx, defs, i - 1, recursively) + {c.package.name};
      s + (if recursively then Entered(ctx, c.package.isDebug, s, c.package.name, true) else {})
  }

  /** `x` is added by the query of the i-th definition: it is in the closure of a package that query enters. */
  ghost predicate DepsOnOf(ctx: CX.Context, defs: seq<string>, i: nat, recursively: bool, x: string)
    requires i < |defs| && forall j :: 0 <= j <= i ==> defs[j] in ctx.configs
  {
    var c := ctx.configs[defs[i]];
    var s := DepsOnVisited(ctx, defs, i, recursively) + {c.package.name};
    exists n :: n in Entered(ctx, c.package.isDebug, s, c.package.name, recursively) && x in WithDepsSet(ctx, n)
  }

  /**
   * Without recursion the first query, which starts from an empty visited
   * set, adds exactly the closures of the other packages of its build type
   * that list the package and whose closure can be formed.
   */
  lemma DepsOnFirstDirect(ctx: CX.Context, defs: seq<string>, x: string)
    requires |defs| >= 1 && defs[0] in ctx.configs
    ensures var c := ctx.configs[defs[0]];
      DepsOnOf(ctx, defs, 0, false, x) <==>
        exists d :: CX.IsPackageConfig(ctx, d) && DirectDependent(d, c.package.name, c.package.isDebug) &&
          WithDepsOk(ctx, d.package.name) && x in WithDepsSet(ctx, d.package.name)
  {
    var c := ctx.configs[defs[0]];
    var s := {c.package.name};
    assert DepsOnVisited(ctx, defs, 0, false) + {c.package.name} == s;
    if DepsOnOf(ctx, defs, 0, false, x) {
      var n :| n in Entered(ctx, c.package.isDebug, s, c.package.name, false) && x in WithDepsSet(ctx, n);
      OpenEdgeTarget(ctx, c.package.isDebug, s, c.package.name, n);
      var d := DependentsEdgeConfig(ctx, c.package.isDebug, c.package.name, n);
    }
    forall d | CX.IsPackageConfig(ctx, d) && DirectDependent(d, c.package.name, c.package.isDebug) &&
        WithDepsOk(ctx, d.package.name) && x in WithDepsSet(ctx, d.package.name)
      ensures DepsOnOf(ctx, defs, 0, false, x)
    {
      OpenEdge(ctx, c.package.isDebug, s, d, c.package.name);
    }
  }

  /** Appending what the i-th query added keeps the list the contributions of the definitions queried so far. */
  lemma DepsOnOfStep(ctx: CX.Context, defs: seq<string>, i: nat, recursively: bool, packs: seq<string>, found: seq<string>)
    requires i < |defs| && forall j :: 0 <= j <= i ==> defs[j] in ctx.configs
    requires forall x :: x in packs <==> exists j :: 0 <= j < i && DepsOnOf(ctx, defs, j, recursively, x)
    requires forall x :: x in found <==> DepsOnOf(ctx, defs, i, recursively, x)
    ensures forall x :: x in packs + found <==> exists j :: 0 <= j < i + 1 && DepsOnOf(ctx, defs, j, recursively, x)
  {
    forall x | x in packs + found ensures exists j :: 0 <= j < i + 1 && DepsOnOf(ctx, defs, j, recursively, x) {
      if x in packs {
        var j :| 0 <= j < i && DepsOnOf(ctx, defs, j, recursively, x);
      } else {
        assert DepsOnOf(ctx, defs, i, recursively, x);
      }
    }
    forall x | exists j :: 0 <= j < i + 1 && DepsOnOf(ctx, defs, j, recursively, x) ensures x in packs + found {
      var j :| 0 <= j < i + 1 && DepsOnOf(ctx, defs, j, recursively, x);
      if j < i {
        assert x in packs;
      }
    }
  }

  /** A definition that does not load rules out the closure of its package. */
  lemma NotLoadedNotOk(ctx: CX.Context, packageName: string, i: nat)
    requires packageName in ctx.packages && i < |ctx.packages[packageName]| && ctx.packages[packageName][i] !in ctx.configs
    ensures !WithDepsOk(ctx, packageName)
  {
  }

  /** The definitions all load, and `list` holds exactly what the queries of the definitions added, less `removed`. */
  ghost predicate DepsOnResult(ctx: CX.Context, defs: seq<string>, recursively: bool, removed: set<string>, list: seq<string>)
  {
    (forall j :: 0 <= j < |defs| ==> defs[j] in ctx.configs) &&
    forall x :: x in list <==> x !in removed && exists i :: 0 <= i < |defs| && DepsOnOf(ctx, defs, i, recursively, x)
  }

  /**
   * The loop of GetDepsOnJsonDefPaths over the definitions: each is loaded
   * and queried for its dependents, all queries sharing one visited set.
   * `bad` is the first definition that does not load, or -1.
   */
  method QueryDefinitions(ctx: CX.Context, defs: seq<string>, recursively: bool) returns (bad: int, packs: seq<string>)
    requires ctx.valid
    ensures -1 <= bad < |defs|
    ensures bad >= 0 ==> defs[bad] !in ctx.configs && forall j :: 0 <= j < bad ==> defs[j] in ctx.configs
    ensures bad < 0 ==> forall j :: 0 <= j < |defs| ==> defs[j] in ctx.configs
    ensures bad < 0 ==> forall x :: x in packs <==> exists j :: 0 <= j < |defs| && DepsOnOf(ctx, defs, j, recursively, x)
  {
    packs := [];
    var visitedPackages := new Visited();
    var i := 0;
    while i < |defs|
      invariant 0 <= i <= |defs|
      invariant forall j :: 0 <= j < i ==> defs[j] in ctx.configs
      invariant visitedPackages.seen == DepsOnVisited(ctx, defs, i, recursively)
      invariant forall x :: x in packs <==> exists j :: 0 <= j < i && DepsOnOf(ctx, defs, j, recursively, x)
    {
      var config := CX.LoadJSONConfig(ctx, defs[i]);
      if !config.Ok? {
        return i, packs;
      }
      // the context is valid, so the query cannot fail
      var found := GetAllDepsOnJsonPaths(ctx, config.value, visitedPackages, recursively);
      DepsOnOfStep(ctx, defs, i, recursively, packs, found.value);
      packs := packs + found.value;
      i := i + 1;
    }
    return -1, packs;
  }

  /**
   * GetDepsOnJsonDefPaths: the packages depending on each definition of
   * the package, with their closures, without anything of the package's
   * own with-dependencies closure, each path once.  The queries of the
   * definitions share one visited set.
   */
  method GetDepsOnJsonDefPaths(ctx: CX.Context, packageName: string, recursively: bool) returns (r: Result<seq<string>>)
    ensures r.Ok? || r.Err?
    ensures !CX.GetPackageJsonDefPaths(ctx, packageName).Ok? ==> r == Err(CX.GetPackageJsonDefPaths(ctx, packageName).msg)
    ensures CX.GetPackageJsonDefPaths(ctx, packageName).Ok? && (exists i :: 0 <= i < |ctx.packages[packageName]| && ctx.packages[packageName][i] !in ctx.configs) ==>
      exists i :: 0 <= i < |ctx.packages[packageName]| && ctx.packages[packageName][i] !in ctx.configs &&
        (forall j :: 0 <= j < i ==> ctx.packages[packageName][j] in ctx.configs) &&
        r == Err("couldn't load JSON config from " + ctx.packages[packageName][i] + " path - " + CX.LoadJSONConfig(ctx, ctx.packages[packageName][i]).msg)
    ensures r.Ok? <==> WithDepsOk(ctx, packageName)
    ensures r.Ok? ==> Collections.NoDuplicates(r.value)
    ensures r.Ok? ==> DepsOnResult(ctx, ctx.packages[packageName], recursively, WithDepsSet(ctx, packageName), r.value)
  {
    var packageDefs := CX.GetPackageJsonDefPaths(ctx, packageName);
    if !packageDefs.Ok? {
      return Err(packageDefs.msg);
    }
    var defs := packageDefs.value;
    var bad, packsToBuild := QueryDefinitions(ctx, defs, recursively);
    if bad >= 0 {
      NotLoadedNotOk(ctx, packageName, bad);
      var config := CX.LoadJSONConfig(ctx, defs[bad]);
      return Err("couldn't load JSON config from " + defs[bad] + " path - " + config.msg);
    }
    var packsToRemove := GetPackageWithDepsJsonDefPaths(ctx, packageName);
    if !packsToRemove.Ok? {
      return Err(packsToRemove.msg);
    }
    var kept := RemoveStrings(packsToBuild, packsToRemove.value);
    var list := RemoveDuplicates(kept);
    FirstOccurrencesMeaning(kept);
    forall x ensures x in list <==> x in packsToBuild && x !in WithDepsSet(ctx, packageName) {
      WithoutAllMeaning(packsToBuild, packsToRemove.value, x);
      assert x in list <==> x in Elems(kept);
    }
    return Ok(list);
  }
}
