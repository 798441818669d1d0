/**
 * The startup script step: the build shell sources a script before the
 * build, if the script exists.
 */
module StartupScript {
  import opened Wrappers
  import Strings

  datatype StartupScript = StartupScript(scriptPath: string)

  const DefaultScriptPath := "/environment.sh"

  /** FillDefault sets the script path to `/environment.sh`. */
  function FillDefault(s: StartupScript): (r: StartupScript)
    ensures r.scriptPath == DefaultScriptPath
  {
    StartupScript(DefaultScriptPath)
  }

  /** FillDynamic leaves the step unchanged and never fails. */
  function FillDynamic(s: StartupScript): (r: (StartupScript, Outcome))
    ensures r.0 == s && r.1.Pass?
  {
    (s, Pass)
  }

  /** CheckPrerequisites never fails. */
  function CheckPrerequisites(s: StartupScript): (r: Outcome)
    ensures r.Pass?
  {
    Pass
  }

  /**
   * ConstructCMDLine: a single line that sources the script when it is a
   * regular file; the same path is tested and sourced.
   */
  function ConstructCmdLine(s: StartupScript): (r: seq<string>)
    ensures |r| == 1
    ensures r[0] == "test -f " + Strings.Quote(s.scriptPath) + " && . " + Strings.Quote(s.scriptPath)
  {
    ["test -f " + Strings.Quote(s.scriptPath) + " && . " + Strings.Quote(s.scriptPath)]
  }

  /** The script path can be read back from the rendered line: the line determines the path. */
  lemma {:induction false} CmdLineDeterminesPath(s: StartupScript, t: StartupScript)
    requires ConstructCmdLine(s) == ConstructCmdLine(t)
    ensures s == t
  {
    var a := ConstructCmdLine(s)[0];
    var b := ConstructCmdLine(t)[0];
    assert |a| == 2 * |s.scriptPath| + 18;
    assert |b| == 2 * |t.scriptPath| + 18;
    assert |s.scriptPath| == |t.scriptPath|;
    var n := |s.scriptPath|;
    assert a[9..9 + n] == s.scriptPath;
    assert b[9..9 + n] == t.scriptPath;
  }
}
