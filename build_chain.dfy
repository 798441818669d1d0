/**
 * A build chain: the steps of a build, each rendered to shell lines, run
 * one after another in one shell.
 */
module BuildChain {
  import opened Wrappers
  import Collections
  import SS = StartupScript
  import EV = EnvironmentVariables
  import Git
  import CM = CMake
  import MK = GNUMake

  /**
   * The implementations of CMDLineInterface that a build uses.  A step over
   * a Go map carries the order in which the runtime visits the map.
   */
  datatype Step =
    | Startup(script: SS.StartupScript)
    | Env(vars: EV.EnvironmentVariables, envOrder: seq<string>)
    | Clone(git: Git.Git)
    | Checkout(git: Git.Git)
    | SubmoduleUpdate(git: Git.Git)
    | CMakeStep(cmake: CM.CMake, defineOrder: seq<string>)
    | Make(make: MK.GNUMake)

  predicate WellOrdered(s: Step)
  {
    match s
    case Env(v, o) => Collections.IsEnumeration(o, EV.Entries(v).Keys)
    case CMakeStep(c, o) => Collections.IsEnumeration(o, CM.Defines(c).Keys)
    case _ => true
  }

  /** ConstructCMDLine of one step; a panic inside it is a Panic result. */
  function StepCmdLine(s: Step): (r: Result<seq<string>>)
    requires WellOrdered(s)
    ensures !r.Err?
  {
    match s
    case Startup(sc) => Ok(SS.ConstructCmdLine(sc))
    case Env(v, o) => EV.ConstructCmdLine(v, o)
    case Clone(g) => Git.CloneCmdLine(g)
    case Checkout(g) => Git.CheckoutCmdLine(g)
    case SubmoduleUpdate(g) => Git.SubmoduleUpdateCmdLine(g)
    case CMakeStep(c, o) => CM.ConstructCmdLine(c, o)
    case Make(m) => Ok(MK.ConstructCmdLine(m))
  }

  predicate AllWellOrdered(chain: seq<Step>)
  {
    forall i :: 0 <= i < |chain| ==> WellOrdered(chain[i])
  }

  /** What each step renders, in chain order. */
  function Rendered(chain: seq<Step>): (r: seq<Result<seq<string>>>)
    requires AllWellOrdered(chain)
    ensures |r| == |chain| && forall i :: 0 <= i < |chain| ==> r[i] == StepCmdLine(chain[i])
  {
    seq(|chain|, i requires 0 <= i < |chain| => StepCmdLine(chain[i]))
  }

  predicate AllOk(rs: seq<Result<seq<string>>>)
  {
    forall i :: 0 <= i < |rs| ==> rs[i].Ok?
  }

  /** The lines of all results one after the other, if they are all lines. */
  function Values(rs: seq<Result<seq<string>>>): seq<seq<string>>
    requires AllOk(rs)
  {
    seq(|rs|, i requires 0 <= i < |rs| => rs[i].value)
  }

  /**
   * The loop of GenerateCommands over what the steps render: the lines in
   * order, or the first failure.
   */
  function Concat(rs: seq<Result<seq<string>>>): (r: Result<seq<string>>)
    ensures r.Ok? <==> AllOk(rs)
    ensures !r.Ok? ==> exists i :: 0 <= i < |rs| && rs[i] == r && AllOk(rs[..i])
    ensures r.Ok? ==> r.value == Collections.Flatten(Values(rs))
  {
    if rs == [] then Ok([])
    else
      var first :- rs[0];
      var rest := Concat(rs[1..]);
      if !rest.Ok? then
        var i :| 0 <= i < |rs[1..]| && rs[1..][i] == rest && AllOk(rs[1..][..i]);
        assert rs[..i + 1] == [rs[0]] + rs[1..][..i];
        rest
      else
        assert Values(rs) == [first] + Values(rs[1..]);
        Ok(first + rest.value)
  }

  lemma {:induction false} ConcatAppend(a: seq<Result<seq<string>>>, b: seq<Result<seq<string>>>)
    requires AllOk(a) && AllOk(b)
    ensures Concat(a + b) == Ok(Concat(a).value + Concat(b).value)
  {
    assert AllOk(a + b) by {
      assert forall i :: 0 <= i < |a + b| ==> (a + b)[i] == if i < |a| then a[i] else b[i - |a|];
    }
    assert Values(a + b) == Values(a) + Values(b);
    Collections.FlattenAppend(Values(a), Values(b));
  }

  /**
   * GenerateCommands: the lines of every step in chain order.  The first
   * step that panics ends the whole rendering with its panic.
   */
  function GenerateCommands(chain: seq<Step>): (r: Result<seq<string>>)
    requires AllWellOrdered(chain)
    ensures !r.Err?
    ensures r.Ok? <==> forall i :: 0 <= i < |chain| ==> StepCmdLine(chain[i]).Ok?
    ensures r.Panic? ==>
      exists i :: 0 <= i < |chain| && StepCmdLine(chain[i]) == r && (forall j :: 0 <= j < i ==> StepCmdLine(chain[j]).Ok?)
    ensures r.Ok? ==> r.value == Collections.Flatten(Values(Rendered(chain)))
  {
    var rs := Rendered(chain);
    var r := Concat(rs);
    if !r.Ok? then
      var i :| 0 <= i < |rs| && rs[i] == r && AllOk(rs[..i]);
      assert forall j :: 0 <= j < i ==> rs[..i][j] == StepCmdLine(chain[j]);
      r
    else
      r
  }

  /** Rendering two chains one after the other renders their concatenation. */
  lemma {:induction false} GenerateCommandsAppend(a: seq<Step>, b: seq<Step>)
    requires AllWellOrdered(a) && AllWellOrdered(b)
    requires GenerateCommands(a).Ok? && GenerateCommands(b).Ok?
    ensures AllWellOrdered(a + b)
    ensures GenerateCommands(a + b) == Ok(GenerateCommands(a).value + GenerateCommands(b).value)
  {
    RenderedAppend(a, b);
    ConcatAppend(Rendered(a), Rendered(b));
  }

  lemma RenderedAppend(a: seq<Step>, b: seq<Step>)
    requires AllWellOrdered(a) && AllWellOrdered(b)
    ensures AllWellOrdered(a + b)
    ensures Rendered(a + b) == Rendered(a) + Rendered(b)
  {
    assert forall i :: 0 <= i < |a + b| ==> (a + b)[i] == if i < |a| then a[i] else b[i - |a|];
  }

  /** An empty chain renders to no lines. */
  lemma EmptyChain()
    ensures GenerateCommands([]) == Ok([])
  {
  }

  /** The number of lines is the sum of the steps' numbers of lines. */
  function LineCount(rs: seq<Result<seq<string>>>): nat
    requires AllOk(rs)
  {
    if rs == [] then 0 else |rs[0].value| + LineCount(rs[1..])
  }

  lemma {:induction false} ConcatLength(rs: seq<Result<seq<string>>>)
    requires AllOk(rs)
    ensures |Concat(rs).value| == LineCount(rs)
  {
    if rs != [] {
      ConcatLength(rs[1..]);
    }
  }

  lemma GenerateCommandsLength(chain: seq<Step>)
    requires AllWellOrdered(chain)
    requires GenerateCommands(chain).Ok?
    ensures |GenerateCommands(chain).value| == LineCount(Rendered(chain))
  {
    ConcatLength(Rendered(chain));
  }

  lemma {:induction false} ConcatInPlace(rs: seq<Result<seq<string>>>, i: nat)
    requires AllOk(rs) && i < |rs|
    ensures AllOk(rs[..i]) && AllOk(rs[i + 1..])
    ensures Concat(rs).value == Concat(rs[..i]).value + rs[i].value + Concat(rs[i + 1..]).value
  {
    var tail := [rs[i]] + rs[i + 1..];
    assert rs == rs[..i] + tail;
    assert AllOk(tail) && AllOk(rs[..i]) && AllOk(rs[i + 1..]);
    ConcatAppend(rs[..i], tail);
    ConcatAppend([rs[i]], rs[i + 1..]);
    assert Values([rs[i]]) == [rs[i].value];
  }

  lemma RenderedSlice(chain: seq<Step>, i: nat, j: nat)
    requires AllWellOrdered(chain) && i <= j <= |chain|
    ensures AllWellOrdered(chain[i..j])
    ensures Rendered(chain[i..j]) == Rendered(chain)[i..j]
  {
  }

  /** The lines of step i come right after the lines of the steps before it. */
  lemma StepLinesInPlace(chain: seq<Step>, i: nat)
    requires AllWellOrdered(chain)
    requires GenerateCommands(chain).Ok?
    requires i < |chain|
    ensures AllWellOrdered(chain[..i]) && AllWellOrdered(chain[i + 1..])
    ensures GenerateCommands(chain).value ==
      GenerateCommands(chain[..i]).value + StepCmdLine(chain[i]).value + GenerateCommands(chain[i + 1..]).value
  {
    var rs := Rendered(chain);
    ConcatInPlace(rs, i);
    RenderedSlice(chain, 0, i);
    RenderedSlice(chain, i + 1, |chain|);
    assert chain[0..i] == chain[..i] && rs[0..i] == rs[..i];
    assert chain[i + 1..|chain|] == chain[i + 1..] && rs[i + 1..|rs|] == rs[i + 1..];
  }
}
