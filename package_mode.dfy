/**
 * Package mode: the order in which the configurations of a build are
 * built.  The configurations are grouped by package name; the
 * `DependsOn` lists of each group give a dependency graph, which is
 * checked for cycles by a depth-first search, sorted depth first from the
 * packages nobody depends on, reversed, expanded back to configurations
 * and freed of repeated (name, build type) pairs.  Then the control flow
 * of building one package and committing the repository.
 */
module PackageMode {
  import opened Wrappers
  import Collections
  import Graphs
  import Strings
  import CFG = Config
  import SH = SignalHandler

  /** ConfigMapType: package name to the configurations loaded for it. */
  type ConfigMap = map<string, seq<CFG.Config>>

  /* ---------------------------------------------------------------- */
  /* removeDuplicates                                                  */
  /* ---------------------------------------------------------------- */

  function BoolString(b: bool): string
  {
    if b then "true" else "false"
  }

  /** The key removeDuplicates tells configurations apart by: the name, a colon and the build type as strconv.FormatBool writes it. */
  function PackageKey(c: CFG.Config): string
  {
    c.package.name + ":" + BoolString(c.package.isDebug)
  }

  /** The key is unambiguous: it fixes the name and the build type. */
  lemma PackageKeyInjective(a: CFG.Config, b: CFG.Config)
    ensures PackageKey(a) == PackageKey(b) <==> a.package.name == b.package.name && a.package.isDebug == b.package.isDebug
  {
    var sa := BoolString(a.package.isDebug);
    var sb := BoolString(b.package.isDebug);
    var ka := a.package.name + ":" + sa;
    var kb := b.package.name + ":" + sb;
    if ka == kb {
      assert ka[|ka| - 2] == sa[|sa| - 2];
      assert kb[|kb| - 2] == sb[|sb| - 2];
      assert sa == sb;
      assert a.package.name == ka[..|a.package.name|];
      assert b.package.name == kb[..|b.package.name|];
    }
  }

  /** The keys of a list of configurations. */
  function KeysOf(cs: seq<CFG.Config>): set<string>
  {
    set i | 0 <= i < |cs| :: PackageKey(cs[i])
  }

  /** The configurations with the first one of each key kept, in their order. */
  function Deduped(cs: seq<CFG.Config>): seq<CFG.Config>
  {
    if cs == [] then []
    else
      var kept := Deduped(cs[..|cs| - 1]);
      if PackageKey(cs[|cs| - 1]) in KeysOf(kept) then kept else kept + [cs[|cs| - 1]]
  }

  /** `cs[i]` is the first configuration of its key. */
  ghost predicate FirstOfKey(cs: seq<CFG.Config>, i: int)
    requires 0 <= i < |cs|
  {
    forall k :: 0 <= k < i ==> PackageKey(cs[k]) != PackageKey(cs[i])
  }

  /** `r` lists, in order, the configurations of `cs` at the strictly increasing positions `idx`, each the first of its key. */
  ghost predicate Picks(cs: seq<CFG.Config>, r: seq<CFG.Config>, idx: seq<int>)
  {
    |idx| == |r| &&
    (forall j :: 0 <= j < |idx| ==> 0 <= idx[j] < |cs| && r[j] == cs[idx[j]] && FirstOfKey(cs, idx[j])) &&
    (forall j, k :: 0 <= j < k < |idx| ==> idx[j] < idx[k])
  }

  lemma KeysOfSnoc(cs: seq<CFG.Config>, c: CFG.Config)
    ensures KeysOf(cs + [c]) == KeysOf(cs) + {PackageKey(c)}
  {
    var r := cs + [c];
    forall k | k in KeysOf(r) ensures k in KeysOf(cs) + {PackageKey(c)} {
      var i :| 0 <= i < |r| && PackageKey(r[i]) == k;
      if i < |cs| {
        assert r[i] == cs[i];
      }
    }
    forall k | k in KeysOf(cs) ensures k in KeysOf(r) {
      var i :| 0 <= i < |cs| && PackageKey(cs[i]) == k;
      assert r[i] == cs[i];
    }
    assert r[|cs|] == c;
  }

  /** removeDuplicates loses no key. */
  lemma {:induction false} DedupedKeys(cs: seq<CFG.Config>)
    ensures KeysOf(Deduped(cs)) == KeysOf(cs)
  {
    if cs != [] {
      var init := cs[..|cs| - 1];
      var last := cs[|cs| - 1];
      var kept := Deduped(init);
      DedupedKeys(init);
      assert cs == init + [last];
      KeysOfSnoc(init, last);
      if PackageKey(last) !in KeysOf(kept) {
        KeysOfSnoc(kept, last);
        assert Deduped(cs) == kept + [last];
      } else {
        assert Deduped(cs) == kept;
      }
    }
  }

  /** removeDuplicates keeps no key twice. */
  lemma {:induction false} DedupedUnique(cs: seq<CFG.Config>)
    ensures forall j, k :: 0 <= j < k < |Deduped(cs)| ==> PackageKey(Deduped(cs)[j]) != PackageKey(Deduped(cs)[k])
  {
    if cs != [] {
      var init := cs[..|cs| - 1];
      var last := cs[|cs| - 1];
      var kept := Deduped(init);
      DedupedUnique(init);
      if PackageKey(last) !in KeysOf(kept) {
        var r := kept + [last];
        forall j, k | 0 <= j < k < |r| ensures PackageKey(r[j]) != PackageKey(r[k]) {
          if k == |kept| {
            assert PackageKey(kept[j]) in KeysOf(kept);
          } else {
            assert r[j] == kept[j] && r[k] == kept[k];
          }
        }
      }
    }
  }

  lemma FirstOfKeyPrefix(cs: seq<CFG.Config>, i: int)
    requires 0 <= i < |cs| - 1
    ensures FirstOfKey(cs, i) <==> FirstOfKey(cs[..|cs| - 1], i)
  {
    var init := cs[..|cs| - 1];
    assert forall k :: 0 <= k <= i ==> init[k] == cs[k];
  }

  /** Picks among all but the last configuration are picks among all of them. */
  lemma PicksLift(cs: seq<CFG.Config>, kept: seq<CFG.Config>, idx0: seq<int>)
    requires |cs| > 0 && Picks(cs[..|cs| - 1], kept, idx0)
    requires forall i :: 0 <= i < |cs| - 1 && FirstOfKey(cs[..|cs| - 1], i) ==> i in idx0
    ensures Picks(cs, kept, idx0)
    ensures forall i :: 0 <= i < |cs| - 1 && FirstOfKey(cs, i) ==> i in idx0
  {
    var n := |cs| - 1;
    forall j | 0 <= j < |idx0| ensures 0 <= idx0[j] < |cs| && kept[j] == cs[idx0[j]] && FirstOfKey(cs, idx0[j]) {
      FirstOfKeyPrefix(cs, idx0[j]);
    }
    forall i | 0 <= i < n && FirstOfKey(cs, i) ensures i in idx0 {
      FirstOfKeyPrefix(cs, i);
    }
  }

  /** A last configuration of a new key is the first of its key and extends the picks. */
  lemma PicksSnoc(cs: seq<CFG.Config>, kept: seq<CFG.Config>, idx0: seq<int>)
    requires |cs| > 0 && Picks(cs, kept, idx0)
    requires forall j :: 0 <= j < |idx0| ==> idx0[j] < |cs| - 1
    requires PackageKey(cs[|cs| - 1]) !in KeysOf(cs[..|cs| - 1])
    ensures Picks(cs, kept + [cs[|cs| - 1]], idx0 + [|cs| - 1])
  {
    var n := |cs| - 1;
    var init := cs[..n];
    var idx := idx0 + [n];
    var r := kept + [cs[n]];
    assert FirstOfKey(cs, n) by {
      forall k | 0 <= k < n ensures PackageKey(cs[k]) != PackageKey(cs[n]) {
        assert cs[k] == init[k];
        assert PackageKey(init[k]) in KeysOf(init);
      }
    }
    forall j | 0 <= j < |idx| ensures 0 <= idx[j] < |cs| && r[j] == cs[idx[j]] && FirstOfKey(cs, idx[j]) {
      if j < |idx0| {
        assert idx[j] == idx0[j] && r[j] == kept[j];
      }
    }
  }

  /**
   * removeDuplicates keeps exactly the first configuration of every key,
   * in the order of the input.
   */
  lemma {:induction false} DedupedPicks(cs: seq<CFG.Config>) returns (idx: seq<int>)
    ensures Picks(cs, Deduped(cs), idx)
    ensures forall i :: 0 <= i < |cs| && FirstOfKey(cs, i) ==> i in idx
  {
    if cs == [] {
      return [];
    }
    var n := |cs| - 1;
    var init := cs[..n];
    var last := cs[n];
    var kept := Deduped(init);
    var idx0 := DedupedPicks(init);
    PicksLift(cs, kept, idx0);
    DedupedKeys(init);
    if PackageKey(last) in KeysOf(kept) {
      idx := idx0;
      assert !FirstOfKey(cs, n) by {
        var k :| 0 <= k < |init| && PackageKey(init[k]) == PackageKey(last);
        assert cs[k] == init[k];
      }
    } else {
      idx := idx0 + [n];
      PicksSnoc(cs, kept, idx0);
    }
  }

  /** removeDuplicates: the loop and its set of seen keys. */
  method RemoveDuplicates(configList: seq<CFG.Config>) returns (newConfigList: seq<CFG.Config>)
    ensures newConfigList == Deduped(configList)
  {
    newConfigList := [];
    var packageMap: set<string> := {};
    var i := 0;
    while i < |configList|
      invariant 0 <= i <= |configList|
      invariant newConfigList == Deduped(configList[..i])
      invariant packageMap == KeysOf(newConfigList)
    {
      var c := configList[i];
      assert configList[..i + 1][..i] == configList[..i];
      var packageName := c.package.name + ":" + BoolString(c.package.isDebug);
      if packageName in packageMap {
        i := i + 1;
        continue;
      }
      KeysOfSnoc(newConfigList, c);
      packageMap := packageMap + {packageName};
      newConfigList := newConfigList + [c];
      i := i + 1;
    }
    assert configList[..i] == configList;
  }

  /* ---------------------------------------------------------------- */
  /* createDependsMap                                                  */
  /* ---------------------------------------------------------------- */

  function Elems(s: seq<string>): set<string>
  {
    set x | x in s
  }

  /** The dependencies named by any of the configurations. */
  function DepsOf(cs: seq<CFG.Config>): set<string>
  {
    if cs == [] then {} else DepsOf(cs[..|cs| - 1]) + Elems(cs[|cs| - 1].dependsOn)
  }

  lemma {:induction false} DepsOfMeaning(cs: seq<CFG.Config>, d: string)
    ensures d in DepsOf(cs) <==> exists c :: c in cs && d in c.dependsOn
  {
    if cs != [] {
      var init := cs[..|cs| - 1];
      var last := cs[|cs| - 1];
      DepsOfMeaning(init, d);
      assert forall c :: c in cs <==> c in init || c == last;
    }
  }

  /** No entry of the map is an empty list. */
  predicate NoEmptyEntry(bm: ConfigMap, order: seq<string>)
  {
    forall i :: 0 <= i < |order| ==> order[i] in bm && bm[order[i]] != []
  }

  /** The node a group of configurations becomes: the name of its first configuration. */
  function NodeName(bm: ConfigMap, k: string): string
    requires k in bm && bm[k] != []
  {
    bm[k][0].package.name
  }

  /** dependsMap after the entries `order` were visited. */
  function DependsMapOf(bm: ConfigMap, order: seq<string>): Graphs.Graph
    requires NoEmptyEntry(bm, order)
  {
    if order == [] then map[]
    else
      var g := DependsMapOf(bm, order[..|order| - 1]);
      var k := order[|order| - 1];
      var n := NodeName(bm, k);
      g[n := (if n in g then g[n] else {}) + DepsOf(bm[k])]
  }

  /** allDependencies after the entries `order` were visited. */
  function AllDependenciesOf(bm: ConfigMap, order: seq<string>): set<string>
    requires NoEmptyEntry(bm, order)
  {
    if order == [] then {} else AllDependenciesOf(bm, order[..|order| - 1]) + DepsOf(bm[order[|order| - 1]])
  }

  /** Some visited group is named `n`. */
  ghost predicate NamedIn(bm: ConfigMap, order: seq<string>, n: string)
    requires NoEmptyEntry(bm, order)
  {
    exists i :: 0 <= i < |order| && NodeName(bm, order[i]) == n
  }

  /** Some configuration of a visited group named `n` depends on `d`. */
  ghost predicate DependsIn(bm: ConfigMap, order: seq<string>, n: string, d: string)
    requires NoEmptyEntry(bm, order)
  {
    exists i, c :: 0 <= i < |order| && NodeName(bm, order[i]) == n && c in bm[order[i]] && d in c.dependsOn
  }

  lemma PrefixOf(order: seq<string>, i: int)
    requires 0 <= i < |order| - 1
    ensures order[..|order| - 1][i] == order[i]
  {
  }

  /** createDependsMap makes one node per group name. */
  lemma {:induction false} DependsMapNodes(bm: ConfigMap, order: seq<string>, n: string)
    requires NoEmptyEntry(bm, order)
    ensures n in DependsMapOf(bm, order) <==> NamedIn(bm, order, n)
  {
    if order != [] {
      var init := order[..|order| - 1];
      assert NoEmptyEntry(bm, init);
      DependsMapNodes(bm, init, n);
      if NamedIn(bm, order, n) && !NamedIn(bm, init, n) {
        var i :| 0 <= i < |order| && NodeName(bm, order[i]) == n;
        if i < |order| - 1 {
          PrefixOf(order, i);
        }
      }
      if NamedIn(bm, init, n) {
        var i :| 0 <= i < |init| && NodeName(bm, init[i]) == n;
        PrefixOf(order, i);
      }
    }
  }

  /**
   * The edges of a node are every `DependsOn` of every configuration in
   * the groups of that name, debug and release together.
   */
  lemma {:induction false} DependsMapEdges(bm: ConfigMap, order: seq<string>, n: string, d: string)
    requires NoEmptyEntry(bm, order)
    requires n in DependsMapOf(bm, order)
    ensures d in DependsMapOf(bm, order)[n] <==> DependsIn(bm, order, n, d)
  {
    var init := order[..|order| - 1];
    var k := order[|order| - 1];
    var last := |order| - 1;
    assert NoEmptyEntry(bm, init);
    DepsOfMeaning(bm[k], d);
    DependsMapNodes(bm, init, n);
    if n in DependsMapOf(bm, init) {
      DependsMapEdges(bm, init, n, d);
    }
    if DependsIn(bm, init, n, d) {
      var i, c :| 0 <= i < |init| && NodeName(bm, init[i]) == n && c in bm[init[i]] && d in c.dependsOn;
      PrefixOf(order, i);
    }
    if DependsIn(bm, order, n, d) && !DependsIn(bm, init, n, d) {
      var i, c :| 0 <= i < |order| && NodeName(bm, order[i]) == n && c in bm[order[i]] && d in c.dependsOn;
      if i < last {
        PrefixOf(order, i);
        assert false;
      }
    }
    if NodeName(bm, k) == n && d in DepsOf(bm[k]) {
      var c :| c in bm[k] && d in c.dependsOn;
      assert DependsIn(bm, order, n, d);
    }
    if !DependsIn(bm, init, n, d) {
      assert !(n in DependsMapOf(bm, init) && d in DependsMapOf(bm, init)[n]);
    }
  }

  /** allDependencies is every `DependsOn` of every configuration. */
  lemma {:induction false} AllDependenciesMeaning(bm: ConfigMap, order: seq<string>, d: string)
    requires NoEmptyEntry(bm, order)
    ensures d in AllDependenciesOf(bm, order) <==> exists m :: DependsIn(bm, order, m, d)
  {
    if order != [] {
      var init := order[..|order| - 1];
      var k := order[|order| - 1];
      var last := |order| - 1;
      assert NoEmptyEntry(bm, init);
      AllDependenciesMeaning(bm, init, d);
      DepsOfMeaning(bm[k], d);
      forall m | DependsIn(bm, init, m, d) ensures DependsIn(bm, order, m, d) {
        var i, c :| 0 <= i < |init| && NodeName(bm, init[i]) == m && c in bm[init[i]] && d in c.dependsOn;
        PrefixOf(order, i);
      }
      forall m | DependsIn(bm, order, m, d) && !DependsIn(bm, init, m, d)
        ensures exists c :: c in bm[k] && d in c.dependsOn
      {
        var i, c :| 0 <= i < |order| && NodeName(bm, order[i]) == m && c in bm[order[i]] && d in c.dependsOn;
        if i < last {
          PrefixOf(order, i);
          assert false;
        }
      }
      if d in DepsOf(bm[k]) {
        var c :| c in bm[k] && d in c.dependsOn;
        assert DependsIn(bm, order, NodeName(bm, k), d);
      }
    }
  }

  const InvalidEntryMessage := "invalid entry in dependency map"

  /** The inner loops of createDependsMap over one group's configurations and their `DependsOn`. */
  method AddGroup(item0: set<string>, all0: set<string>, configArray: seq<CFG.Config>) returns (item: set<string>, allDependencies: set<string>)
    ensures item == item0 + DepsOf(configArray)
    ensures allDependencies == all0 + DepsOf(configArray)
  {
    item, allDependencies := item0, all0;
    var i := 0;
    while i < |configArray|
      invariant 0 <= i <= |configArray|
      invariant item == item0 + DepsOf(configArray[..i])
      invariant allDependencies == all0 + DepsOf(configArray[..i])
    {
      var config := configArray[i];
      assert configArray[..i + 1][..i] == configArray[..i];
      if |config.dependsOn| == 0 {
        i := i + 1;
        continue;
      }
      var j := 0;
      while j < |config.dependsOn|
        invariant 0 <= j <= |config.dependsOn|
        invariant item == item0 + DepsOf(configArray[..i]) + Elems(config.dependsOn[..j])
        invariant allDependencies == all0 + DepsOf(configArray[..i]) + Elems(config.dependsOn[..j])
      {
        var v := config.dependsOn[j];
        assert Elems(config.dependsOn[..j + 1]) == Elems(config.dependsOn[..j]) + {v} by {
          assert config.dependsOn[..j + 1] == config.dependsOn[..j] + [v];
        }
        item := item + {v};
        allDependencies := allDependencies + {v};
        j := j + 1;
      }
      assert config.dependsOn[..j] == config.dependsOn;
      i := i + 1;
    }
    assert configArray[..i] == configArray;
  }

  /** One more visited group: its edges join those of its name, and all its dependencies join allDependencies. */
  lemma DependsMapStep(bm: ConfigMap, order: seq<string>, i: nat, dependsMap: Graphs.Graph, all: set<string>)
    requires i < |order| && NoEmptyEntry(bm, order[..i]) && order[i] in bm && bm[order[i]] != []
    requires dependsMap == DependsMapOf(bm, order[..i]) && all == AllDependenciesOf(bm, order[..i])
    ensures NoEmptyEntry(bm, order[..i + 1])
    ensures DependsMapOf(bm, order[..i + 1]) ==
      dependsMap[NodeName(bm, order[i]) := (if NodeName(bm, order[i]) in dependsMap then dependsMap[NodeName(bm, order[i])] else {}) + DepsOf(bm[order[i]])]
    ensures AllDependenciesOf(bm, order[..i + 1]) == all + DepsOf(bm[order[i]])
  {
    assert order[..i + 1][..i] == order[..i];
  }

  /**
   * createDependsMap, visiting the groups in the order the runtime picks:
   * a panic on an empty group, otherwise the graph and the set of all
   * dependencies.
   */
  method CreateDependsMap(bm: ConfigMap) returns (r: Result<(Graphs.Graph, set<string>)>, ghost order: seq<string>)
    ensures Collections.IsEnumeration(order, bm.Keys)
    ensures r.Panic? <==> exists k :: k in bm && bm[k] == []
    ensures r.Panic? ==> r.msg == InvalidEntryMessage
    ensures !r.Panic? ==> r.Ok? && NoEmptyEntry(bm, order)
    ensures r.Ok? ==> r.value.0 == DependsMapOf(bm, order) && r.value.1 == AllDependenciesOf(bm, order)
  {
    var keys := Collections.Enumerate(bm.Keys);
    order := keys;
    var allDependencies: set<string> := {};
    var dependsMap: Graphs.Graph := map[];
    var i := 0;
    while i < |keys|
      invariant 0 <= i <= |keys|
      invariant NoEmptyEntry(bm, order[..i])
      invariant dependsMap == DependsMapOf(bm, order[..i])
      invariant allDependencies == AllDependenciesOf(bm, order[..i])
    {
      var configArray := bm[keys[i]];
      if |configArray| == 0 {
        return Panic(InvalidEntryMessage), order;
      }
      DependsMapStep(bm, order, i, dependsMap, allDependencies);
      var packageName := configArray[0].package.name;
      var item := if packageName in dependsMap then dependsMap[packageName] else {};
      item, allDependencies := AddGroup(item, allDependencies, configArray);
      dependsMap := dependsMap[packageName := item];
      i := i + 1;
    }
    assert order[..i] == order;
    assert forall k :: k in bm ==> bm[k] != [] by {
      forall k | k in bm ensures bm[k] != [] {
        var j :| 0 <= j < |order| && order[j] == k;
      }
    }
    return Ok((dependsMap, allDependencies)), order;
  }

  /* ---------------------------------------------------------------- */
  /* checkForCircularDependency and detectCycle                        */
  /* ---------------------------------------------------------------- */

  /** The packages on the recursion stack: those marked true. A missing key reads as false. */
  function Stack(visited: map<string, bool>): set<string>
  {
    set k | k in visited && visited[k]
  }

  lemma StackUpdate(visited: map<string, bool>, k: string, b: bool)
    ensures Stack(visited[k := b]) == if b then Stack(visited) + {k} else Stack(visited) - {k}
  {
  }

  /** From `p` one can reach a package on the stack `s`, or a package on a cycle. */
  ghost predicate LeadsBack(g: Graphs.Graph, s: set<string>, p: string)
  {
    exists x :: Graphs.Reachable(g, p, x) && (x in s || Graphs.Reachable(g, x, x))
  }

  /** The last package of `walk` is one already on the stack when the search reached it. */
  ghost predicate Revisits(s: set<string>, p: string, walk: seq<string>)
    requires walk != []
  {
    var x := walk[|walk| - 1];
    x in s || x == p || x in walk[..|walk| - 1]
  }

  lemma RevisitsCons(s: set<string>, p: string, d: string, w: seq<string>)
    requires w != [] && Revisits(s + {p}, d, w)
    ensures Revisits(s, p, [d] + w)
  {
    var walk := [d] + w;
    assert walk[|walk| - 1] == w[|w| - 1];
    assert walk[..|walk| - 1] == [d] + w[..|w| - 1];
  }

  /** Some successor of `p` is on the stack `s` or leads back to it. */
  ghost predicate SuccessorLeadsBack(g: Graphs.Graph, s: set<string>, p: string)
  {
    p in g && exists y :: y in g[p] && (y in s || LeadsBack(g, s, y))
  }

  /** Leading back from `p` with `p` off the stack is leading back from a successor with `p` on it. */
  lemma LeadsBackBySuccessor(g: Graphs.Graph, s: set<string>, p: string)
    ensures LeadsBack(g, s, p) <==> SuccessorLeadsBack(g, s + {p}, p)
  {
    if SuccessorLeadsBack(g, s + {p}, p) {
      var y :| y in g[p] && (y in s + {p} || LeadsBack(g, s + {p}, y));
      Graphs.PathOfEdge(g, p, y);
      if y in s + {p} {
        if y == p {
          assert Graphs.Reachable(g, y, y);
        }
      } else {
        var x :| Graphs.Reachable(g, y, x) && (x in s + {p} || Graphs.Reachable(g, x, x));
        Graphs.ReachablePrepend(g, p, y, x);
        if x == p {
          assert Graphs.Reachable(g, x, x);
        }
      }
    }
    if LeadsBack(g, s, p) {
      var x :| Graphs.Reachable(g, p, x) && (x in s || Graphs.Reachable(g, x, x));
      var y := Graphs.ReachableFirstStep(g, p, x);
      if y == x {
        if x !in s {
          assert Graphs.Reachable(g, y, y);
          assert LeadsBack(g, s + {p}, y);
        }
      } else {
        assert LeadsBack(g, s + {p}, y);
      }
    }
  }

  /** detectCycle's shared state: the graph and the `visited` map, which holds the current recursion stack. */
  class CycleDetector {
    const dependsMap: Graphs.Graph
    var visited: map<string, bool>

    constructor (g: Graphs.Graph)
      ensures dependsMap == g && visited == map[]
    {
      dependsMap := g;
      visited := map[];
    }

    /**
     * detectCycle: depth first from `packageName`, which goes on the stack
     * on entry and comes off it on a clean return.  It reports a cycle
     * exactly when some walk from `packageName` gets back to the stack or
     * runs into a cycle; the text is that walk after `packageName`, joined
     * by " -> ", ending at the package met again.
     */
    method DetectCycle(packageName: string) returns (detected: bool, cycleString: string, ghost walk: seq<string>)
      requires packageName !in Stack(visited)
      modifies this
      decreases Graphs.Nodes(dependsMap) + {packageName} - Stack(visited), 1
      ensures detected <==> LeadsBack(dependsMap, old(Stack(visited)), packageName)
      ensures !detected ==> Stack(visited) == old(Stack(visited))
      ensures detected ==> walk != [] && Graphs.IsPath(dependsMap, [packageName] + walk)
      ensures detected ==> Revisits(old(Stack(visited)), packageName, walk) && cycleString == Strings.Join(walk, " -> ")
    {
      ghost var s0 := Stack(visited);
      LeadsBackBySuccessor(dependsMap, s0, packageName);
      StackUpdate(visited, packageName, true);
      visited := visited[packageName := true];
      if packageName in dependsMap {
        assert packageName in Graphs.Nodes(dependsMap);
        detected, cycleString, walk := VisitDependencies(packageName, s0);
        if detected {
          return;
        }
      }
      StackUpdate(visited, packageName, false);
      visited := visited[packageName := false];
      return false, "", [];
    }

    /** The loop of detectCycle over the dependencies of `packageName`, which is on the stack above `s0`. */
    method VisitDependencies(packageName: string, ghost s0: set<string>) returns (detected: bool, cycleString: string, ghost walk: seq<string>)
      requires packageName in dependsMap && packageName !in s0 && Stack(visited) == s0 + {packageName}
      modifies this
      decreases Graphs.Nodes(dependsMap) - Stack(visited), 2
      ensures detected <==> SuccessorLeadsBack(dependsMap, s0 + {packageName}, packageName)
      ensures !detected ==> Stack(visited) == s0 + {packageName}
      ensures detected ==> walk != [] && Graphs.IsPath(dependsMap, [packageName] + walk)
      ensures detected ==> Revisits(s0, packageName, walk) && cycleString == Strings.Join(walk, " -> ")
    {
      var depsMap := Collections.Enumerate(dependsMap[packageName]);
      ghost var onStack := s0 + {packageName};
      var i := 0;
      while i < |depsMap|
        invariant 0 <= i <= |depsMap|
        invariant Stack(visited) == onStack
        invariant forall j :: 0 <= j < i ==> depsMap[j] !in onStack && !LeadsBack(dependsMap, onStack, depsMap[j])
      {
        var depPackageName := depsMap[i];
        assert Graphs.Edge(dependsMap, packageName, depPackageName);
        if depPackageName in visited && visited[depPackageName] {
          Graphs.PathOfEdge(dependsMap, packageName, depPackageName);
          return true, depPackageName, [depPackageName];
        }
        assert depPackageName in Graphs.Nodes(dependsMap);
        assert Graphs.Nodes(dependsMap) + {depPackageName} - Stack(visited) == Graphs.Nodes(dependsMap) - Stack(visited);
        var found, rest, w := DetectCycle(depPackageName);
        if found {
          Graphs.PrependEdge(dependsMap, packageName, [depPackageName] + w);
          assert [packageName] + ([depPackageName] + w) == [packageName, depPackageName] + w;
          RevisitsCons(s0, packageName, depPackageName, w);
          Strings.JoinCons(depPackageName, w, " -> ");
          return true, depPackageName + " -> " + rest, [depPackageName] + w;
        }
        i := i + 1;
      }
      forall y | y in dependsMap[packageName] ensures !(y in onStack || LeadsBack(dependsMap, onStack, y)) {
        assert y in depsMap;
      }
      return false, "", [];
    }

    /** The reset between two roots: every package marked false. */
    method ClearStack()
      modifies this
      ensures visited.Keys == old(visited).Keys && Stack(visited) == {}
    {
      var keys := Collections.Enumerate(visited.Keys);
      var i := 0;
      while i < |keys|
        invariant 0 <= i <= |keys|
        invariant visited.Keys == old(visited).Keys
        invariant forall k :: k in visited && visited[k] ==> k in keys[i..]
      {
        visited := visited[keys[i] := false];
        i := i + 1;
      }
    }
  }

  const CycleMessagePrefix := "circular dependency detected - "

  /** A walk whose last package also occurs earlier on it contains a cycle. */
  lemma CycleOfWalk(g: Graphs.Graph, cycle: seq<string>)
    requires Graphs.IsPath(g, cycle) && |cycle| >= 2 && cycle[|cycle| - 1] in cycle[..|cycle| - 1]
    ensures Graphs.HasCycle(g)
  {
    var n := |cycle| - 1;
    var i :| 0 <= i < n && cycle[i] == cycle[n];
    Graphs.SlicePath(g, cycle, i, n + 1);
    var c := cycle[i..n + 1];
    assert c[0] == cycle[i] && c[|c| - 1] == cycle[n];
  }

  /**
   * checkForCircularDependency: a search from every package, in the order
   * the runtime picks, with the stack cleared in between.  An error exactly
   * when the graph has a cycle; its message spells out a walk whose last
   * package occurs earlier on it.
   */
  method CheckForCircularDependency(dependsMap: Graphs.Graph) returns (err: Outcome, ghost cycle: seq<string>)
    ensures err.Fail? <==> Graphs.HasCycle(dependsMap)
    ensures !err.Fail? ==> err.Pass?
    ensures err.Fail? ==> CycleError(dependsMap, err.msg, cycle)
  {
    var detector := new CycleDetector(dependsMap);
    var names := Collections.Enumerate(dependsMap.Keys);
    var i := 0;
    while i < |names|
      invariant 0 <= i <= |names|
      invariant detector.dependsMap == dependsMap && Stack(detector.visited) == {}
      invariant forall j :: 0 <= j < i ==> !LeadsBack(dependsMap, {}, names[j])
    {
      var packageName := names[i];
      var cycleDetected, cycleString, w := detector.DetectCycle(packageName);
      if cycleDetected {
        cycle := [packageName] + w;
        CycleReport(dependsMap, packageName, w, cycleString);
        CycleErrorIsCycle(dependsMap, CycleMessagePrefix + packageName + " -> " + cycleString, cycle);
        return Fail(CycleMessagePrefix + packageName + " -> " + cycleString), cycle;
      }
      detector.ClearStack();
      i := i + 1;
    }
    NoRootLeadsBack(dependsMap, names);
    return Pass, [];
  }

  /**
   * The message of a cycle: the walk `cycle`, joined by " -> ", whose last
   * package occurs earlier on it.
   */
  ghost predicate CycleError(g: Graphs.Graph, msg: string, cycle: seq<string>)
  {
    // bound to one name, so that a caller proves it as one fact rather than conjunct by conjunct
    var holds := Graphs.IsPath(g, cycle) && |cycle| >= 2 && cycle[|cycle| - 1] in cycle[..|cycle| - 1] &&
      msg == CycleMessagePrefix + Strings.Join(cycle, " -> ");
    holds
  }

  /** The walk a search from a root reports, with the root in front, is a cycle. */
  lemma CycleReport(g: Graphs.Graph, p: string, w: seq<string>, cycleString: string)
    requires w != [] && Graphs.IsPath(g, [p] + w) && Revisits({}, p, w) && cycleString == Strings.Join(w, " -> ")
    ensures CycleError(g, CycleMessagePrefix + p + " -> " + cycleString, [p] + w)
  {
    var cycle := [p] + w;
    assert cycle[|cycle| - 1] == w[|w| - 1];
    assert cycle[..|cycle| - 1] == [p] + w[..|w| - 1];
    Strings.JoinCons(p, w, " -> ");
    assert CycleMessagePrefix + p + " -> " + cycleString == CycleMessagePrefix + (p + " -> " + cycleString);
  }

  /** A reported cycle is a cycle of the graph. */
  lemma CycleErrorIsCycle(g: Graphs.Graph, msg: string, cycle: seq<string>)
    requires CycleError(g, msg, cycle)
    ensures Graphs.HasCycle(g)
  {
    CycleOfWalk(g, cycle);
  }

  /** When no search from a package of the graph leads back, the graph has no cycle. */
  lemma NoRootLeadsBack(g: Graphs.Graph, names: seq<string>)
    requires forall k :: k in g ==> k in names
    requires forall j :: 0 <= j < |names| ==> !LeadsBack(g, {}, names[j])
    ensures !Graphs.HasCycle(g)
  {
    if Graphs.HasCycle(g) {
      var p := CycleLeadsBack(g);
      assert false;
    }
  }

  /** The first package of a cycle leads back. */
  lemma CycleLeadsBack(g: Graphs.Graph) returns (p: string)
    requires Graphs.HasCycle(g)
    ensures p in g && LeadsBack(g, {}, p)
  {
    var c :| Graphs.IsPath(g, c) && |c| >= 2 && c[0] == c[|c| - 1];
    p := c[0];
    assert Graphs.Edge(g, c[0], c[1]);
    assert Graphs.Reachable(g, p, p);
  }

  /** With an empty stack, leading back means reaching a cycle. */
  lemma LeadsBackCycle(g: Graphs.Graph, p: string) returns (x: string)
    requires LeadsBack(g, {}, p)
    ensures Graphs.Reachable(g, x, x) && Graphs.HasCycle(g)
  {
    x :| Graphs.Reachable(g, p, x) && (x in {} || Graphs.Reachable(g, x, x));
    var c :| Graphs.IsPath(g, c) && |c| >= 2 && c[0] == x && c[|c| - 1] == x;
  }

  /* ---------------------------------------------------------------- */
  /* sortDependencies                                                  */
  /* ---------------------------------------------------------------- */

  /** Everything reachable from `s[i]` comes after position `i`. */
  ghost predicate ReachClosed(g: Graphs.Graph, s: seq<string>, i: int)
    requires 0 <= i < |s|
  {
    forall x :: Graphs.Reachable(g, s[i], x) ==> x in s[i + 1..]
  }

  /** Every package from position `lo` on is followed by all it depends on, directly or not. */
  ghost predicate PreOrderedFrom(g: Graphs.Graph, s: seq<string>, lo: nat)
  {
    forall i :: lo <= i < |s| ==> ReachClosed(g, s, i)
  }

  /** Appending a pre-ordered list keeps both parts pre-ordered. */
  lemma PreOrderedAppend(g: Graphs.Graph, s: seq<string>, lo: nat, t: seq<string>)
    requires PreOrderedFrom(g, s, lo) && PreOrderedFrom(g, t, 0)
    ensures PreOrderedFrom(g, s + t, lo)
  {
    var r := s + t;
    forall i | lo <= i < |r| ensures ReachClosed(g, r, i) {
      forall x | Graphs.Reachable(g, r[i], x) ensures x in r[i + 1..] {
        if i < |s| {
          assert ReachClosed(g, s, i);
          var k :| i + 1 <= k < |s| && s[k] == x;
          assert r[k] == x;
        } else {
          assert r[i] == t[i - |s|];
          assert ReachClosed(g, t, i - |s|);
          var k :| i - |s| + 1 <= k < |t| && t[k] == x;
          assert r[|s| + k] == x;
        }
      }
    }
  }

  /**
   * sortDependencies: the root, then for each of its dependencies in the
   * order the runtime picks, that dependency's own list.  Without a visited
   * set, a package reached along several walks is listed once per walk.
   */
  method SortDependencies(g: Graphs.Graph, rootName: string) returns (sorted: seq<string>)
    requires !Graphs.HasCycle(g)
    decreases |Graphs.ReachSet(g, rootName)|
    ensures |sorted| >= 1 && sorted[0] == rootName
    ensures forall k :: 1 <= k < |sorted| ==> Graphs.Reachable(g, rootName, sorted[k])
    ensures PreOrderedFrom(g, sorted, 0)
  {
    sorted := [rootName];
    if rootName !in g || |g[rootName]| == 0 {
      assert ReachClosed(g, sorted, 0) by {
        forall x | Graphs.Reachable(g, rootName, x) ensures false {
          var y := Graphs.ReachableFirstStep(g, rootName, x);
        }
      }
      return;
    }
    var rootDeps := Collections.Enumerate(g[rootName]);
    var i := 0;
    while i < |rootDeps|
      invariant 0 <= i <= |rootDeps|
      invariant |sorted| >= 1 && sorted[0] == rootName
      invariant forall k :: 1 <= k < |sorted| ==> Graphs.Reachable(g, rootName, sorted[k])
      invariant forall j :: 0 <= j < i ==> rootDeps[j] in sorted[1..]
      invariant PreOrderedFrom(g, sorted, 1)
    {
      var packageName := rootDeps[i];
      assert Graphs.Edge(g, rootName, packageName);
      Graphs.ReachSetShrinks(g, rootName, packageName);
      var packageDeps := SortDependencies(g, packageName);
      SortStep(g, rootName, rootDeps, i, sorted, packageDeps);
      sorted := sorted + packageDeps;
      i := i + 1;
    }
    SortRootClosed(g, rootName, rootDeps, sorted);
  }

  /** Appending the list of the i-th dependency keeps the loop invariant of sortDependencies. */
  lemma SortStep(g: Graphs.Graph, root: string, deps: seq<string>, i: nat, sorted: seq<string>, sub: seq<string>)
    requires i < |deps| && Graphs.Edge(g, root, deps[i])
    requires |sorted| >= 1 && sorted[0] == root
    requires forall k :: 1 <= k < |sorted| ==> Graphs.Reachable(g, root, sorted[k])
    requires forall j :: 0 <= j < i ==> deps[j] in sorted[1..]
    requires PreOrderedFrom(g, sorted, 1)
    requires |sub| >= 1 && sub[0] == deps[i]
    requires forall k :: 1 <= k < |sub| ==> Graphs.Reachable(g, deps[i], sub[k])
    requires PreOrderedFrom(g, sub, 0)
    ensures (sorted + sub)[0] == root
    ensures forall k :: 1 <= k < |sorted + sub| ==> Graphs.Reachable(g, root, (sorted + sub)[k])
    ensures forall j :: 0 <= j < i + 1 ==> deps[j] in (sorted + sub)[1..]
    ensures PreOrderedFrom(g, sorted + sub, 1)
  {
    var r := sorted + sub;
    PreOrderedAppend(g, sorted, 1, sub);
    forall k | 1 <= k < |r| ensures Graphs.Reachable(g, root, r[k]) {
      if k >= |sorted| {
        var m := k - |sorted|;
        assert r[k] == sub[m];
        if m == 0 {
          Graphs.PathOfEdge(g, root, deps[i]);
        } else {
          Graphs.ReachablePrepend(g, root, deps[i], sub[m]);
        }
      }
    }
    forall j | 0 <= j < i + 1 ensures deps[j] in r[1..] {
      if j < i {
        assert deps[j] in sorted[1..];
        var k :| 0 <= k < |sorted| - 1 && sorted[1..][k] == deps[j];
        assert r[k + 1] == deps[j];
      } else {
        assert r[|sorted|] == deps[i];
      }
    }
  }

  /** Once every dependency of the root is listed after it, so is everything the root reaches. */
  lemma SortRootClosed(g: Graphs.Graph, root: string, deps: seq<string>, sorted: seq<string>)
    requires !Graphs.HasCycle(g) && root in g && Collections.IsEnumeration(deps, g[root])
    requires |sorted| >= 1 && sorted[0] == root
    requires forall j :: 0 <= j < |deps| ==> deps[j] in sorted[1..]
    requires PreOrderedFrom(g, sorted, 1)
    ensures PreOrderedFrom(g, sorted, 0)
  {
    forall x | Graphs.Reachable(g, root, x) ensures x in sorted[1..] {
      var y := Graphs.ReachableFirstStep(g, root, x);
      var j :| 0 <= j < |deps| && deps[j] == y;
      var k :| 1 <= k < |sorted| && sorted[k] == y;
      if y != x {
        assert ReachClosed(g, sorted, k);
        var m :| k + 1 <= m < |sorted| && sorted[m] == x;
        assert sorted[1..][m - 1] == x;
      }
    }
  }

  /* ---------------------------------------------------------------- */
  /* TopologicalSort                                                   */
  /* ---------------------------------------------------------------- */

  /** Everything reachable from `s[i]` comes before position `i`. */
  ghost predicate ReachBefore(g: Graphs.Graph, s: seq<string>, i: int)
    requires 0 <= i < |s|
  {
    forall x :: Graphs.Reachable(g, s[i], x) ==> x in s[..i]
  }

  /** The build order of package names: every package after all it depends on, and every node of the graph listed. */
  ghost predicate BuildOrder(g: Graphs.Graph, names: seq<string>)
  {
    // bound to one name, so that a caller proves it as one fact rather than conjunct by conjunct
    var holds := (forall i :: 0 <= i < |names| ==> ReachBefore(g, names, i)) && (forall n :: n in g ==> n in names);
    holds
  }

  /** The reverse of a pre-ordered list lists every package after what it reaches. */
  lemma ReverseOrdered(g: Graphs.Graph, s: seq<string>, rev: seq<string>, i: int)
    requires PreOrderedFrom(g, s, 0) && rev == Collections.Reverse(s) && 0 <= i < |rev|
    ensures ReachBefore(g, rev, i)
  {
    var n := |s|;
    assert rev[i] == s[n - 1 - i];
    assert ReachClosed(g, s, n - 1 - i);
    forall x | Graphs.Reachable(g, rev[i], x) ensures x in rev[..i] {
      var k :| n - i <= k < n && s[k] == x;
      assert rev[n - 1 - k] == x;
      assert rev[..i][n - 1 - k] == x;
    }
  }

  /** Every node of the graph is a root (nobody's dependency) or is reached from one. */
  lemma {:induction false} RootAbove(g: Graphs.Graph, all: set<string>, n: string) returns (r: string)
    requires !Graphs.HasCycle(g) && n in g
    requires forall d :: d in all ==> exists a :: a in g && d in g[a]
    ensures r in g && r !in all && (r == n || Graphs.Reachable(g, r, n))
    decreases |Graphs.Ancestors(g, n)|
  {
    if n !in all {
      return n;
    }
    var a :| a in g && n in g[a];
    Graphs.AncestorsShrink(g, a, n);
    r := RootAbove(g, all, a);
    if r == a {
      Graphs.PathOfEdge(g, a, n);
    } else {
      Graphs.ReachableAppend(g, r, a, n);
    }
  }

  /** Every dependency createDependsMap collects is an edge of its graph. */
  lemma DependencyHasParent(bm: ConfigMap, order: seq<string>, d: string)
    requires NoEmptyEntry(bm, order) && d in AllDependenciesOf(bm, order)
    ensures exists a :: a in DependsMapOf(bm, order) && d in DependsMapOf(bm, order)[a]
  {
    AllDependenciesMeaning(bm, order, d);
    var m :| DependsIn(bm, order, m, d);
    var i, c :| 0 <= i < |order| && NodeName(bm, order[i]) == m && c in bm[order[i]] && d in c.dependsOn;
    DependsMapNodes(bm, order, m);
    DependsMapEdges(bm, order, m, d);
  }

  /** The lists of all roots, one after the other, hold every node of the graph. */
  lemma RootsCover(g: Graphs.Graph, all: set<string>, roots: seq<string>, sorted: seq<string>)
    requires !Graphs.HasCycle(g)
    requires forall d :: d in all ==> exists a :: a in g && d in g[a]
    requires forall r :: r in g && r !in all ==> r in roots
    requires forall j :: 0 <= j < |roots| ==> roots[j] in sorted
    requires PreOrderedFrom(g, sorted, 0)
    ensures forall n :: n in g ==> n in sorted
  {
    forall n | n in g ensures n in sorted {
      var r := RootAbove(g, all, n);
      var j :| 0 <= j < |roots| && roots[j] == r;
      if r != n {
        var k :| 0 <= k < |sorted| && sorted[k] == r;
        assert ReachClosed(g, sorted, k);
      }
    }
  }

  /** One more root's list: the concatenation stays pre-ordered and lists every root so far. */
  lemma RootStep(g: Graphs.Graph, roots: seq<string>, i: nat, sorted: seq<string>, sub: seq<string>)
    requires i < |roots| && PreOrderedFrom(g, sorted, 0) && PreOrderedFrom(g, sub, 0)
    requires forall j :: 0 <= j < i ==> roots[j] in sorted
    requires |sub| >= 1 && sub[0] == roots[i]
    ensures PreOrderedFrom(g, sorted + sub, 0)
    ensures forall j :: 0 <= j < i + 1 ==> roots[j] in sorted + sub
  {
    PreOrderedAppend(g, sorted, 0, sub);
    assert (sorted + sub)[|sorted|] == roots[i];
  }

  /** The configurations listed for a package name; a name without an entry contributes none. */
  function Block(bm: ConfigMap, n: string): seq<CFG.Config>
  {
    if n in bm then bm[n] else []
  }

  /** The configurations of every name in `names`, in that order. */
  function ConfigsOf(bm: ConfigMap, names: seq<string>): seq<CFG.Config>
  {
    if names == [] then [] else ConfigsOf(bm, names[..|names| - 1]) + Block(bm, names[|names| - 1])
  }

  lemma {:induction false} ConfigsOfAppend(bm: ConfigMap, a: seq<string>, b: seq<string>)
    ensures ConfigsOf(bm, a + b) == ConfigsOf(bm, a) + ConfigsOf(bm, b)
    decreases |b|
  {
    if b == [] {
      assert a + b == a;
    } else {
      var init := b[..|b| - 1];
      assert (a + b)[..|a + b| - 1] == a + init;
      ConfigsOfAppend(bm, a, init);
    }
  }

  /** The block of `names[i]` sits in the configurations right after those of the names before it. */
  lemma ConfigsSplit(bm: ConfigMap, names: seq<string>, i: int)
    requires 0 <= i < |names|
    ensures ConfigsOf(bm, names) == ConfigsOf(bm, names[..i]) + Block(bm, names[i]) + ConfigsOf(bm, names[i + 1..])
    ensures ConfigsOf(bm, names[..i + 1]) == ConfigsOf(bm, names[..i]) + Block(bm, names[i])
  {
    assert names == names[..i] + [names[i]] + names[i + 1..];
    ConfigsOfAppend(bm, names[..i] + [names[i]], names[i + 1..]);
    ConfigsOfAppend(bm, names[..i], [names[i]]);
    assert [names[i]][..0] == [];
    assert names[..i + 1] == names[..i] + [names[i]];
  }

  /** A configuration of the list lies in the block of some name. */
  lemma {:induction false} ConfigsLocate(bm: ConfigMap, names: seq<string>, u: int) returns (i: int)
    requires 0 <= u < |ConfigsOf(bm, names)|
    ensures 0 <= i < |names| && names[i] in bm
    ensures |ConfigsOf(bm, names[..i])| <= u < |ConfigsOf(bm, names[..i])| + |bm[names[i]]|
    ensures ConfigsOf(bm, names)[u] == bm[names[i]][u - |ConfigsOf(bm, names[..i])|]
  {
    var init := names[..|names| - 1];
    var last := names[|names| - 1];
    if u < |ConfigsOf(bm, init)| {
      i := ConfigsLocate(bm, init, u);
      assert init[..i] == names[..i];
    } else {
      i := |names| - 1;
      assert names[..i] == init;
    }
  }

  /** A configuration in the block at position `i`, between the blocks before it and those after. */
  lemma ConfigsPlace(bm: ConfigMap, names: seq<string>, i: int, w: int)
    requires 0 <= i < |names| && names[i] in bm && 0 <= w < |bm[names[i]]|
    ensures |ConfigsOf(bm, names[..i])| + w < |ConfigsOf(bm, names[..i + 1])| <= |ConfigsOf(bm, names)|
    ensures ConfigsOf(bm, names)[|ConfigsOf(bm, names[..i])| + w] == bm[names[i]][w]
  {
    ConfigsSplit(bm, names, i);
  }

  /** The configurations of a prefix come first. */
  lemma ConfigsPrefix(bm: ConfigMap, names: seq<string>, j: int, i: int)
    requires 0 <= j <= i <= |names|
    ensures |ConfigsOf(bm, names[..j])| <= |ConfigsOf(bm, names[..i])|
  {
    assert names[..i] == names[..j] + names[j..i];
    ConfigsOfAppend(bm, names[..j], names[j..i]);
  }

  /**
   * The roots of TopologicalSort: a copy of dependsMap with every
   * dependency deleted, its keys in the order the runtime picks.
   */
  method Roots(dependsMap: Graphs.Graph, allDependencies: set<string>) returns (roots: seq<string>)
    ensures Collections.IsEnumeration(roots, dependsMap.Keys - allDependencies)
  {
    var dependsMapCopy := dependsMap;
    var dependencies := Collections.Enumerate(allDependencies);
    var i := 0;
    while i < |dependencies|
      invariant 0 <= i <= |dependencies|
      invariant dependsMapCopy.Keys == dependsMap.Keys - Elems(dependencies[..i])
    {
      assert Elems(dependencies[..i + 1]) == Elems(dependencies[..i]) + {dependencies[i]} by {
        assert dependencies[..i + 1] == dependencies[..i] + [dependencies[i]];
      }
      dependsMapCopy := dependsMapCopy - {dependencies[i]};
      i := i + 1;
    }
    assert dependencies[..i] == dependencies;
    assert Elems(dependencies) == allDependencies;
    roots := Collections.Enumerate(dependsMapCopy.Keys);
  }

  /** The loop of TopologicalSort over the roots: their lists, one after the other. */
  method SortRoots(g: Graphs.Graph, roots: seq<string>) returns (sortedDependencies: seq<string>)
    requires !Graphs.HasCycle(g)
    ensures PreOrderedFrom(g, sortedDependencies, 0)
    ensures forall j :: 0 <= j < |roots| ==> roots[j] in sortedDependencies
  {
    sortedDependencies := [];
    var i := 0;
    while i < |roots|
      invariant 0 <= i <= |roots|
      invariant PreOrderedFrom(g, sortedDependencies, 0)
      invariant forall j :: 0 <= j < i ==> roots[j] in sortedDependencies
    {
      var sub := SortDependencies(g, roots[i]);
      RootStep(g, roots, i, sortedDependencies, sub);
      sortedDependencies := sortedDependencies + sub;
      i := i + 1;
    }
  }

  /** The reversal of TopologicalSort, filling a slice of the same length from its last index down. */
  method ReverseNames(sortedDependencies: seq<string>) returns (sortedReverse: array<string>)
    ensures fresh(sortedReverse)
    ensures sortedReverse[..] == Collections.Reverse(sortedDependencies)
  {
    var sortedLen := |sortedDependencies|;
    sortedReverse := new string[sortedLen];
    var i := sortedLen - 1;
    while i >= 0
      invariant -1 <= i < sortedLen
      invariant forall m :: i < m < sortedLen ==> sortedReverse[m] == sortedDependencies[sortedLen - m - 1]
    {
      sortedReverse[i] := sortedDependencies[sortedLen - i - 1];
      i := i - 1;
    }
    Collections.ReverseAt(sortedDependencies, sortedReverse[..]);
  }

  /** The loop of TopologicalSort that appends the configurations of each name in turn. */
  method ExpandConfigs(bm: ConfigMap, sortedReverse: array<string>) returns (sortedDependenciesConfig: seq<CFG.Config>)
    ensures sortedDependenciesConfig == ConfigsOf(bm, sortedReverse[..])
  {
    sortedDependenciesConfig := [];
    var i := 0;
    while i < sortedReverse.Length
      invariant 0 <= i <= sortedReverse.Length
      invariant sortedDependenciesConfig == ConfigsOf(bm, sortedReverse[..i])
    {
      assert sortedReverse[..i + 1][..i] == sortedReverse[..i];
      sortedDependenciesConfig := sortedDependenciesConfig + Block(bm, sortedReverse[i]);
      i := i + 1;
    }
    assert sortedReverse[..i] == sortedReverse[..];
  }

  /** The reverse of the roots' lists is a build order of the whole graph. */
  lemma ReversedIsBuildOrder(bm: ConfigMap, order: seq<string>, roots: seq<string>, sorted: seq<string>, rev: seq<string>)
    requires NoEmptyEntry(bm, order) && !Graphs.HasCycle(DependsMapOf(bm, order))
    requires Collections.IsEnumeration(roots, DependsMapOf(bm, order).Keys - AllDependenciesOf(bm, order))
    requires PreOrderedFrom(DependsMapOf(bm, order), sorted, 0)
    requires forall j :: 0 <= j < |roots| ==> roots[j] in sorted
    requires rev == Collections.Reverse(sorted)
    ensures BuildOrder(DependsMapOf(bm, order), rev)
  {
    var g := DependsMapOf(bm, order);
    var all := AllDependenciesOf(bm, order);
    forall d | d in all ensures exists a :: a in g && d in g[a] {
      DependencyHasParent(bm, order, d);
    }
    RootsCover(g, all, roots, sorted);
    forall m | 0 <= m < |rev| ensures ReachBefore(g, rev, m) {
      ReverseOrdered(g, sorted, rev, m);
    }
    forall n | n in g ensures n in rev {
      var m :| 0 <= m < |sorted| && sorted[m] == n;
      assert rev[|sorted| - 1 - m] == n;
    }
  }

  /**
   * TopologicalSort: a panic on an empty group; an error, and no list, on
   * a cycle; otherwise the lists of the roots in the order the runtime
   * picks, reversed into a build order, expanded to the configurations
   * of each name and freed of repeated keys.
   */
  method TopologicalSort(bm: ConfigMap) returns (r: Result<seq<CFG.Config>>, ghost order: seq<string>, ghost rev: seq<string>, ghost cycle: seq<string>)
    ensures Collections.IsEnumeration(order, bm.Keys)
    ensures r.Panic? <==> exists k :: k in bm && bm[k] == []
    ensures r.Panic? ==> r.msg == InvalidEntryMessage
    ensures !r.Panic? ==> NoEmptyEntry(bm, order)
    ensures r.Err? <==> !r.Panic? && Graphs.HasCycle(DependsMapOf(bm, order))
    ensures r.Err? ==> CycleError(DependsMapOf(bm, order), r.msg, cycle)
    ensures r.Ok? ==> BuildOrder(DependsMapOf(bm, order), rev) && r.value == Deduped(ConfigsOf(bm, rev))
  {
    var maps;
    maps, order := CreateDependsMap(bm);
    if maps.Panic? {
      return Panic(maps.msg), order, [], [];
    }
    var dependsMap, allDependencies := maps.value.0, maps.value.1;
    var err;
    err, cycle := CheckForCircularDependency(dependsMap);
    if err.Fail? {
      return Err(err.msg), order, [], cycle;
    }
    var roots := Roots(dependsMap, allDependencies);
    var sortedDependencies := SortRoots(dependsMap, roots);
    var sortedReverse := ReverseNames(sortedDependencies);
    rev := sortedReverse[..];
    ReversedIsBuildOrder(bm, order, roots, sortedDependencies, rev);
    var sortedDependenciesConfig := ExpandConfigs(bm, sortedReverse);
    var result := RemoveDuplicates(sortedDependenciesConfig);
    return Ok(result), order, rev, [];
  }

  /** How addConfigsToDefsMap fills the map: every configuration sits under its own package name. */
  predicate WellKeyed(bm: ConfigMap)
  {
    forall k, j :: k in bm && 0 <= j < |bm[k]| ==> bm[k][j].package.name == k
  }

  /** The keys of every configuration in the map. */
  ghost function AllKeys(bm: ConfigMap): set<string>
  {
    set k, c | k in bm && c in bm[k] :: PackageKey(c)
  }

  /** Under WellKeyed, a configuration of the expanded list lies in the block of its own name. */
  lemma LocateNamed(bm: ConfigMap, names: seq<string>, u: int) returns (i: int)
    requires WellKeyed(bm) && 0 <= u < |ConfigsOf(bm, names)|
    ensures 0 <= i < |names| && names[i] in bm && names[i] == ConfigsOf(bm, names)[u].package.name
    ensures |ConfigsOf(bm, names[..i])| <= u
    ensures ConfigsOf(bm, names)[u] in bm[names[i]]
  {
    i := ConfigsLocate(bm, names, u);
    var w := u - |ConfigsOf(bm, names[..i])|;
    assert ConfigsOf(bm, names)[u] == bm[names[i]][w];
  }

  /** A configuration of the block at `j` occurs before the blocks from `i > j` on. */
  lemma EarlierCopy(bm: ConfigMap, names: seq<string>, j: int, i: int, c: CFG.Config) returns (v: int)
    requires 0 <= j < i <= |names| && names[j] in bm && c in bm[names[j]]
    ensures 0 <= v < |ConfigsOf(bm, names[..i])| && v < |ConfigsOf(bm, names)| && ConfigsOf(bm, names)[v] == c
  {
    var w :| 0 <= w < |bm[names[j]]| && bm[names[j]][w] == c;
    ConfigsPlace(bm, names, j, w);
    ConfigsPrefix(bm, names, j + 1, i);
    v := |ConfigsOf(bm, names[..j])| + w;
  }

  /** The first configuration of a key comes no later than any other of that key. */
  lemma FirstNoLater(cs: seq<CFG.Config>, u: int, v: int)
    requires 0 <= u < |cs| && 0 <= v < |cs| && FirstOfKey(cs, u) && PackageKey(cs[v]) == PackageKey(cs[u])
    ensures u <= v
  {
  }

  /** The kept configurations come in the order of their positions. */
  lemma PicksOrder(cs: seq<CFG.Config>, r: seq<CFG.Config>, idx: seq<int>, a: int, b: int)
    requires Picks(cs, r, idx) && 0 <= a < |idx| && 0 <= b < |idx| && idx[a] < idx[b]
    ensures a < b
  {
  }

  /**
   * The order TopologicalSort promises: when the package of one kept
   * configuration depends on that of another, directly or not, the
   * dependency's configuration comes first.
   */
  lemma DependencyFirst(bm: ConfigMap, order: seq<string>, rev: seq<string>, out: seq<CFG.Config>, a: int, b: int)
    requires NoEmptyEntry(bm, order) && WellKeyed(bm)
    requires BuildOrder(DependsMapOf(bm, order), rev) && out == Deduped(ConfigsOf(bm, rev))
    requires 0 <= a < |out| && 0 <= b < |out|
    requires Graphs.Reachable(DependsMapOf(bm, order), out[b].package.name, out[a].package.name)
    ensures a < b
  {
    var g := DependsMapOf(bm, order);
    var cs := ConfigsOf(bm, rev);
    var idx := DedupedPicks(cs);
    var ua, ub := idx[a], idx[b];
    var ib := LocateNamed(bm, rev, ub);
    assert ReachBefore(g, rev, ib);
    var j :| 0 <= j < ib && rev[j] == out[a].package.name;
    var ia := LocateNamed(bm, rev, ua);
    var v := EarlierCopy(bm, rev, j, ib, cs[ua]);
    FirstNoLater(cs, ua, v);
    PicksOrder(cs, out, idx, a, b);
  }

  /** A direct `DependsOn` between two packages of the map orders their kept configurations the same way. */
  lemma DirectDependencyFirst(bm: ConfigMap, order: seq<string>, rev: seq<string>, out: seq<CFG.Config>, a: int, b: int, c: CFG.Config)
    requires NoEmptyEntry(bm, order) && WellKeyed(bm) && Collections.IsEnumeration(order, bm.Keys)
    requires BuildOrder(DependsMapOf(bm, order), rev) && out == Deduped(ConfigsOf(bm, rev))
    requires 0 <= a < |out| && 0 <= b < |out|
    requires out[b].package.name in bm && c in bm[out[b].package.name] && out[a].package.name in c.dependsOn
    ensures a < b
  {
    var p, d := out[b].package.name, out[a].package.name;
    var i :| 0 <= i < |order| && order[i] == p;
    assert NodeName(bm, order[i]) == p;
    DependsMapNodes(bm, order, p);
    DependsMapEdges(bm, order, p, d);
    Graphs.PathOfEdge(DependsMapOf(bm, order), p, d);
    DependencyFirst(bm, order, rev, out, a, b);
  }

  /** `c` is one of the configurations of the map. */
  ghost predicate InMap(bm: ConfigMap, c: CFG.Config)
  {
    exists k :: k in bm && c in bm[k]
  }

  /** Every kept configuration is one of the map's. */
  lemma KeptFromMap(bm: ConfigMap, rev: seq<string>, out: seq<CFG.Config>)
    requires WellKeyed(bm) && out == Deduped(ConfigsOf(bm, rev))
    ensures forall j :: 0 <= j < |out| ==> InMap(bm, out[j])
  {
    var cs := ConfigsOf(bm, rev);
    var idx := DedupedPicks(cs);
    forall j | 0 <= j < |out| ensures InMap(bm, out[j]) {
      var u := idx[j];
      var i := LocateNamed(bm, rev, u);
      assert out[j] == cs[u];
      assert rev[i] in bm && out[j] in bm[rev[i]];
    }
  }

  /** The expanded list has exactly the keys of the map once every package of the map is in the build order. */
  lemma ExpandedKeys(bm: ConfigMap, order: seq<string>, rev: seq<string>)
    requires NoEmptyEntry(bm, order) && WellKeyed(bm) && Collections.IsEnumeration(order, bm.Keys)
    requires BuildOrder(DependsMapOf(bm, order), rev)
    ensures KeysOf(ConfigsOf(bm, rev)) == AllKeys(bm)
  {
    var cs := ConfigsOf(bm, rev);
    forall key | key in KeysOf(cs) ensures key in AllKeys(bm) {
      var u :| 0 <= u < |cs| && PackageKey(cs[u]) == key;
      var i := LocateNamed(bm, rev, u);
    }
    forall key | key in AllKeys(bm) ensures key in KeysOf(cs) {
      var k, c :| k in bm && c in bm[k] && PackageKey(c) == key;
      var o :| 0 <= o < |order| && order[o] == k;
      assert NodeName(bm, order[o]) == k;
      DependsMapNodes(bm, order, k);
      var i :| 0 <= i < |rev| && rev[i] == k;
      var v := EarlierCopy(bm, rev, i, |rev|, c);
    }
  }

  /**
   * What TopologicalSort keeps: configurations of the map only, every key
   * of the map, and each key once.  Dependencies without an entry add
   * nothing.
   */
  lemma KeptOnce(bm: ConfigMap, order: seq<string>, rev: seq<string>, out: seq<CFG.Config>)
    requires NoEmptyEntry(bm, order) && WellKeyed(bm) && Collections.IsEnumeration(order, bm.Keys)
    requires BuildOrder(DependsMapOf(bm, order), rev) && out == Deduped(ConfigsOf(bm, rev))
    ensures forall j :: 0 <= j < |out| ==> InMap(bm, out[j])
    ensures KeysOf(out) == AllKeys(bm)
    ensures forall j, k :: 0 <= j < k < |out| ==> PackageKey(out[j]) != PackageKey(out[k])
  {
    KeptFromMap(bm, rev, out);
    ExpandedKeys(bm, order, rev);
    DedupedKeys(ConfigsOf(bm, rev));
    DedupedUnique(ConfigsOf(bm, rev));
  }

  /* ---------------------------------------------------------------- */
  /* addConfigsToDefsMap                                               */
  /* ---------------------------------------------------------------- */

  /** The configurations among `loaded` that loaded and carry the name `k`, in order. */
  function LoadedNamed(loaded: seq<Result<CFG.Config>>, k: string): seq<CFG.Config>
  {
    if loaded == [] then []
    else
      var last := loaded[|loaded| - 1];
      LoadedNamed(loaded[..|loaded| - 1], k) + (if last.Ok? && last.value.package.name == k then [last.value] else [])
  }

  /** The list a package has after the loading: what it had, then what loaded under its name. */
  function EntryAfter(defsMap: ConfigMap, loaded: seq<Result<CFG.Config>>, k: string): seq<CFG.Config>
  {
    (if k in defsMap then defsMap[k] else []) + LoadedNamed(loaded, k)
  }

  /** Every configuration LoadedNamed lists carries the name. */
  lemma {:induction false} LoadedNamedNamed(loaded: seq<Result<CFG.Config>>, k: string)
    ensures forall j :: 0 <= j < |LoadedNamed(loaded, k)| ==> LoadedNamed(loaded, k)[j].package.name == k
  {
    if loaded != [] {
      LoadedNamedNamed(loaded[..|loaded| - 1], k);
    }
  }

  /** One loaded configuration added under its name; one that did not load changes nothing. */
  function AddLoaded(defsMap: ConfigMap, config: Result<CFG.Config>): ConfigMap
  {
    if !config.Ok? then defsMap
    else
      var n := config.value.package.name;
      defsMap[n := (if n in defsMap then defsMap[n] else []) + [config.value]]
  }

  /** The map after every configuration of `loaded` was added in turn. */
  function Filled(defsMap: ConfigMap, loaded: seq<Result<CFG.Config>>): ConfigMap
  {
    if loaded == [] then defsMap else AddLoaded(Filled(defsMap, loaded[..|loaded| - 1]), loaded[|loaded| - 1])
  }

  /** The filled map has a list for every name that had one or that loaded, and that list is the old one followed by what loaded under the name. */
  lemma {:induction false} FilledMeaning(defsMap0: ConfigMap, loaded: seq<Result<CFG.Config>>, k: string)
    ensures k in Filled(defsMap0, loaded) <==> k in defsMap0 || LoadedNamed(loaded, k) != []
    ensures k in Filled(defsMap0, loaded) ==> Filled(defsMap0, loaded)[k] == EntryAfter(defsMap0, loaded, k)
  {
    if loaded != [] {
      var init := loaded[..|loaded| - 1];
      FilledMeaning(defsMap0, init, k);
      if k !in Filled(defsMap0, init) {
        assert LoadedNamed(init, k) == [];
      }
    }
  }

  /**
   * addConfigsToDefsMap, with the result of loading each path given: a
   * configuration that does not load is skipped (and logged); the others
   * are appended under their package name.
   */
  method AddConfigsToDefsMap(defsMap0: ConfigMap, loaded: seq<Result<CFG.Config>>) returns (defsMap: ConfigMap)
    ensures defsMap == Filled(defsMap0, loaded)
  {
    defsMap := defsMap0;
    var i := 0;
    while i < |loaded|
      invariant 0 <= i <= |loaded|
      invariant defsMap == Filled(defsMap0, loaded[..i])
    {
      assert loaded[..i + 1][..i] == loaded[..i];
      var config := loaded[i];
      if !config.Ok? {
        i := i + 1;
        continue;
      }
      var packageName := config.value.package.name;
      if packageName !in defsMap {
        defsMap := defsMap[packageName := []];
      }
      defsMap := defsMap[packageName := defsMap[packageName] + [config.value]];
      i := i + 1;
    }
    assert loaded[..i] == loaded;
  }

  /** A map filled by addConfigsToDefsMap from a well-keyed one stays well keyed: what TopologicalSort's guarantees rest on. */
  lemma AddConfigsWellKeyed(defsMap0: ConfigMap, loaded: seq<Result<CFG.Config>>)
    requires WellKeyed(defsMap0)
    ensures WellKeyed(Filled(defsMap0, loaded))
  {
    var defsMap: ConfigMap := Filled(defsMap0, loaded);
    forall k: string, j: int | k in defsMap && 0 <= j < |defsMap[k]| ensures defsMap[k][j].package.name == k {
      FilledMeaning(defsMap0, loaded, k);
      LoadedNamedNamed(loaded, k);
      var before := if k in defsMap0 then defsMap0[k] else [];
      if j >= |before| {
        assert defsMap[k][j] == LoadedNamed(loaded, k)[j - |before|];
      }
    }
  }

  /* ---------------------------------------------------------------- */
  /* buildAndCopyPackage and BuildPackage                              */
  /* ---------------------------------------------------------------- */

  /** The output directory mode; only the Git LFS one is implemented. */
  datatype OutputDirMode = GitLFS | OtherMode(name: string)

  const InvalidModeMessage := "invalid OutputDirmode. Only GitLFS is supported"

  /** One Build of a package, with what running it and copying its result give. */
  datatype BuildStep = BuildStep(imageName: string, packageName: string, runBuild: Outcome, copyToRepository: Outcome, copyToSysroot: Outcome)

  /** What ends a step: the first of its three actions that fails, or Pass. */
  function StepError(b: BuildStep): (r: Outcome)
    ensures r.Pass? <==> b.runBuild.Pass? && b.copyToRepository.Pass? && b.copyToSysroot.Pass?
    ensures !b.runBuild.Pass? ==> r == b.runBuild
  {
    if !b.runBuild.Pass? then b.runBuild
    else if !b.copyToRepository.Pass? then b.copyToRepository
    else b.copyToSysroot
  }

  /** The position of the first step that fails, or the number of steps when none does. */
  function Stopped(build: seq<BuildStep>): (r: nat)
    ensures r <= |build|
    ensures forall i :: 0 <= i < r ==> StepError(build[i]).Pass?
    ensures r < |build| ==> !StepError(build[r]).Pass?
  {
    if build == [] then 0
    else if !StepError(build[0]).Pass? then 0
    else 1 + Stopped(build[1..])
  }

  /** What buildAndCopyPackage returns for a valid mode: the error of the first failing step, nil if none fails. */
  function CopyOutcome(build: seq<BuildStep>): Outcome
  {
    if Stopped(build) < |build| then StepError(build[Stopped(build)]) else Pass
  }

  /** The handler a failed RunBuild leaves registered: its CleanUp, returned before the remover runs. */
  function LeftBehind(build: seq<BuildStep>): seq<SH.Handler>
  {
    var s := Stopped(build);
    if s < |build| && !build[s].runBuild.Pass? then [SH.CleanUp(build[s].imageName, build[s].packageName)] else []
  }

  /**
   * buildAndCopyPackage: a mode other than Git LFS is refused before any
   * build runs; otherwise each Build registers its CleanUp, runs, is
   * copied to the repository and then to the sysroot, and removes the
   * handler again.  A failed run returns at once, leaving the handler; a
   * failed copy ends the loop and the handler is removed.
   */
  method BuildAndCopyPackage(mode: OutputDirMode, build: seq<BuildStep>, handlers: SH.SignalHandlers) returns (err: Outcome, runs: nat)
    modifies handlers
    ensures mode != GitLFS ==> err == Fail(InvalidModeMessage) && runs == 0 && handlers.handlers == old(handlers.handlers)
    ensures mode == GitLFS ==> err == CopyOutcome(build)
    ensures mode == GitLFS ==> runs == if Stopped(build) < |build| then Stopped(build) + 1 else |build|
    ensures mode == GitLFS ==> handlers.handlers == old(handlers.handlers) + LeftBehind(build)
  {
    if mode != GitLFS {
      return Fail(InvalidModeMessage), 0;
    }
    err := Pass;
    runs := 0;
    var removeHandler := false;
    var i := 0;
    while i < |build|
      invariant 0 <= i <= |build| && runs == i
      invariant forall j :: 0 <= j < i ==> StepError(build[j]).Pass?
      invariant err == Pass && !removeHandler && handlers.handlers == old(handlers.handlers)
    {
      var buildConfig := build[i];
      handlers.AddHandler(SH.CleanUp(buildConfig.imageName, buildConfig.packageName));
      removeHandler := true;
      runs := runs + 1;
      err := buildConfig.runBuild;
      if !err.Pass? {
        StoppedAt(build, i);
        return;
      }
      err := buildConfig.copyToRepository;
      if !err.Pass? {
        StoppedAt(build, i);
        break;
      }
      err := buildConfig.copyToSysroot;
      if !err.Pass? {
        StoppedAt(build, i);
        break;
      }
      var _ := handlers.RemoveLastHandler();
      removeHandler := false;
      i := i + 1;
    }
    if removeHandler {
      var _ := handlers.RemoveLastHandler();
    }
    if err.Pass? {
      StoppedAt(build, i);
    }
  }

  /** The first failing step is the one a scan that passed every step before it fails on. */
  lemma StoppedAt(build: seq<BuildStep>, i: nat)
    requires i <= |build| && forall j :: 0 <= j < i ==> StepError(build[j]).Pass?
    requires i < |build| ==> !StepError(build[i]).Pass?
    ensures Stopped(build) == i
  {
  }

  /** A failed step that passed its run also passes the remover: only a failed RunBuild leaves a handler behind. */
  lemma LeftBehindMeaning(build: seq<BuildStep>)
    ensures |LeftBehind(build)| <= 1
    ensures LeftBehind(build) != [] <==> Stopped(build) < |build| && !build[Stopped(build)].runBuild.Pass?
    ensures CopyOutcome(build).Pass? <==> forall i :: 0 <= i < |build| ==> StepError(build[i]).Pass?
    ensures CopyOutcome(build).Pass? ==> LeftBehind(build) == []
  {
  }

  /** The configurations to build, with the Builds of each. */
  datatype ConfigBuild = ConfigBuild(name: string, builds: seq<BuildStep>)

  /** What buildAndCopyPackage returns in the given mode. */
  function PackageOutcome(mode: OutputDirMode, build: seq<BuildStep>): Outcome
  {
    if mode != GitLFS then Fail(InvalidModeMessage) else CopyOutcome(build)
  }

  /** buildAllPackages passes over a configuration without Builds; buildSinglePackage builds every one. */
  predicate Considered(all: bool, c: ConfigBuild)
  {
    !all || c.builds != []
  }

  /** The position of the first configuration that is built and fails, or the number of configurations. */
  function ConfigsStopped(mode: OutputDirMode, all: bool, configs: seq<ConfigBuild>): (r: nat)
    ensures r <= |configs|
    ensures forall i :: 0 <= i < r ==> !Considered(all, configs[i]) || PackageOutcome(mode, configs[i].builds).Pass?
    ensures r < |configs| ==> Considered(all, configs[r]) && !PackageOutcome(mode, configs[r].builds).Pass?
  {
    if configs == [] then 0
    else if Considered(all, configs[0]) && !PackageOutcome(mode, configs[0].builds).Pass? then 0
    else 1 + ConfigsStopped(mode, all, configs[1..])
  }

  /** The error of a package, prefixed with the package's name: the configuration's in buildAllPackages, the requested one in buildSinglePackage. */
  function Wrapped(all: bool, packageName: string, c: ConfigBuild, e: Outcome): Outcome
  {
    if e.Fail? then Fail("cannot build package '" + (if all then c.name else packageName) + "' - " + e.msg) else e
  }

  /** What the build loop returns: nil when every configuration built, else the first error, wrapped. */
  function ConfigsOutcome(mode: OutputDirMode, all: bool, packageName: string, configs: seq<ConfigBuild>): Outcome
  {
    var s := ConfigsStopped(mode, all, configs);
    if s < |configs| then Wrapped(all, packageName, configs[s], PackageOutcome(mode, configs[s].builds)) else Pass
  }

  /** The handler the build loop leaves registered: that of a failed RunBuild in the configuration it stopped at. */
  function ConfigsLeftBehind(mode: OutputDirMode, all: bool, configs: seq<ConfigBuild>): seq<SH.Handler>
  {
    var s := ConfigsStopped(mode, all, configs);
    if s < |configs| && mode == GitLFS then LeftBehind(configs[s].builds) else []
  }

  /**
   * The loop of buildAllPackages (`all`) and of buildSinglePackage over the
   * prepared configurations: each is built and copied in turn, and the
   * first error ends the loop, prefixed with the package name.
   */
  method BuildConfigs(mode: OutputDirMode, all: bool, packageName: string, configs: seq<ConfigBuild>, handlers: SH.SignalHandlers) returns (err: Outcome)
    modifies handlers
    ensures err == ConfigsOutcome(mode, all, packageName, configs)
    ensures handlers.handlers == old(handlers.handlers) + ConfigsLeftBehind(mode, all, configs)
  {
    var i := 0;
    while i < |configs|
      invariant 0 <= i <= |configs|
      invariant forall j :: 0 <= j < i ==> !Considered(all, configs[j]) || PackageOutcome(mode, configs[j].builds).Pass?
      invariant handlers.handlers == old(handlers.handlers)
    {
      var config := configs[i];
      if all && |config.builds| == 0 {
        i := i + 1;
        continue;
      }
      var e, _ := BuildAndCopyPackage(mode, config.builds, handlers);
      if !e.Pass? {
        ConfigsStoppedAt(mode, all, configs, i);
        return Wrapped(all, packageName, config, e);
      }
      LeftBehindMeaning(config.builds);
      i := i + 1;
    }
    ConfigsStoppedAt(mode, all, configs, i);
    return Pass;
  }

  lemma ConfigsStoppedAt(mode: OutputDirMode, all: bool, configs: seq<ConfigBuild>, i: nat)
    requires i <= |configs|
    requires forall j :: 0 <= j < i ==> !Considered(all, configs[j]) || PackageOutcome(mode, configs[j].builds).Pass?
    requires i < |configs| ==> Considered(all, configs[i]) && !PackageOutcome(mode, configs[i].builds).Pass?
    ensures ConfigsStopped(mode, all, configs) == i
  {
  }

  /** The build loop succeeds exactly when every configuration it builds succeeds. */
  lemma ConfigsOutcomeMeaning(mode: OutputDirMode, all: bool, packageName: string, configs: seq<ConfigBuild>)
    ensures ConfigsOutcome(mode, all, packageName, configs).Pass? <==>
      forall i :: 0 <= i < |configs| && Considered(all, configs[i]) ==> PackageOutcome(mode, configs[i].builds).Pass?
  {
    var s := ConfigsStopped(mode, all, configs);
    if s < |configs| {
      assert !PackageOutcome(mode, configs[s].builds).Pass?;
    }
  }

  /**
   * A mode other than Git LFS fails every package that has a Build to
   * make; buildAllPackages, which skips configurations without Builds,
   * then succeeds only when there is nothing to build.
   */
  lemma InvalidModeFails(mode: OutputDirMode, all: bool, packageName: string, configs: seq<ConfigBuild>)
    requires mode != GitLFS
    ensures ConfigsOutcome(mode, all, packageName, configs).Pass? <==> forall i :: 0 <= i < |configs| ==> !Considered(all, configs[i])
    ensures ConfigsLeftBehind(mode, all, configs) == []
  {
    ConfigsOutcomeMeaning(mode, all, packageName, configs);
  }

  /** The stack after the remover of BuildPackage ran: the last handler, whichever it is, is gone. */
  function AfterRemover(hs: seq<SH.Handler>): seq<SH.Handler>
  {
    if hs == [] then [] else hs[..|hs| - 1]
  }

  /**
   * BuildPackage, with the outcome of each of its steps given: the
   * platform string, the repository's initialisation and the pre-build
   * checks must pass before anything is registered; then RestoreAllChanges
   * is registered, the configurations are prepared and built, the
   * repository is committed only when all of that succeeded, and the
   * remover drops the last handler.
   */
  method BuildPackage(platformString: Outcome, repoInit: Outcome, preBuildChecks: Outcome, all: bool, packageName: string,
                      prepared: Result<seq<ConfigBuild>>, mode: OutputDirMode, handlers: SH.SignalHandlers) returns (err: Outcome, committed: bool)
    modifies handlers
    ensures !(platformString.Pass? && repoInit.Pass? && preBuildChecks.Pass?) ==> !committed && handlers.handlers == old(handlers.handlers)
    ensures !platformString.Pass? ==> err == platformString
    ensures platformString.Pass? && !repoInit.Pass? ==> err == repoInit
    ensures platformString.Pass? && repoInit.Pass? && !preBuildChecks.Pass? ==> err == preBuildChecks
    ensures platformString.Pass? && repoInit.Pass? && preBuildChecks.Pass? ==>
      err == (if prepared.Ok? then ConfigsOutcome(mode, all, packageName, prepared.value) else prepared.ToOutcome())
    ensures platformString.Pass? && repoInit.Pass? && preBuildChecks.Pass? ==>
      handlers.handlers == AfterRemover(old(handlers.handlers) + [SH.RestoreAllChanges] +
                                        (if prepared.Ok? then ConfigsLeftBehind(mode, all, prepared.value) else []))
    ensures committed <==> err.Pass?
  {
    committed := false;
    if !platformString.Pass? {
      return platformString, false;
    }
    if !repoInit.Pass? {
      return repoInit, false;
    }
    if !preBuildChecks.Pass? {
      return preBuildChecks, false;
    }
    handlers.AddHandler(SH.RestoreAllChanges);
    if prepared.Ok? {
      err := BuildConfigs(mode, all, packageName, prepared.value, handlers);
    } else {
      err := prepared.ToOutcome();
    }
    if !err.Pass? {
      var _ := handlers.RemoveLastHandler();
      return;
    }
    committed := true;
    var _ := handlers.RemoveLastHandler();
  }

  /**
   * The remover BuildPackage calls drops RestoreAllChanges only when the
   * build left nothing behind; after a failed RunBuild it drops that
   * build's CleanUp instead, and RestoreAllChanges stays registered.
   */
  lemma RemoverDropsLast(hs: seq<SH.Handler>, left: seq<SH.Handler>)
    requires |left| <= 1
    ensures left == [] ==> AfterRemover(hs + [SH.RestoreAllChanges] + left) == hs
    ensures left != [] ==> AfterRemover(hs + [SH.RestoreAllChanges] + left) == hs + [SH.RestoreAllChanges]
  {
    if left == [] {
      assert hs + [SH.RestoreAllChanges] + left == hs + [SH.RestoreAllChanges];
    }
    assert (hs + [SH.RestoreAllChanges] + left)[..|hs| + 1] == hs + [SH.RestoreAllChanges];
  }
}
