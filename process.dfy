/**
 * Running an external program: the argument vector is either a fixed list
 * or what a command-line handler generates, never both.
 */
module Process {
  import opened Wrappers

  /** What a CmdLineHandler's GenerateCmdLine returns: the arguments and an error. */
  datatype Generated = Generated(args: seq<string>, err: Outcome)

  /** ProcessArgs: at most one of the two sources should be set. */
  datatype ProcessArgs = ProcessArgs(cmdLineHandler: Option<Generated>, extraArgs: Option<seq<string>>)

  datatype Process = Process(commandAbsolutePath: string, args: ProcessArgs)

  const BothSetMessage := "process - ExtraArgs and CmdLineHandler cannot be set at one time"

  /**
   * The argument vector of Run: the executable path, then the extra
   * arguments or the generated ones (whose error is ignored).
   */
  function Argv(p: Process): (r: Result<seq<string>>)
    ensures r.Err? <==> p.args.extraArgs.Some? && p.args.cmdLineHandler.Some?
    ensures !r.Panic?
    ensures r.Ok? ==> |r.value| >= 1 && r.value[0] == p.commandAbsolutePath
    ensures r.Ok? && p.args.extraArgs.Some? ==> r.value[1..] == p.args.extraArgs.value
    ensures r.Ok? && p.args.cmdLineHandler.Some? ==> r.value[1..] == p.args.cmdLineHandler.value.args
    ensures r.Ok? && p.args.extraArgs.None? && p.args.cmdLineHandler.None? ==> r.value == [p.commandAbsolutePath]
  {
    if p.args.extraArgs.Some? && p.args.cmdLineHandler.Some? then Err(BothSetMessage)
    else
      var rest := if p.args.extraArgs.Some? then p.args.extraArgs.value
                  else if p.args.cmdLineHandler.Some? then p.args.cmdLineHandler.value.args
                  else [];
      Ok([p.commandAbsolutePath] + rest)
  }

  /** The outcome of Run and the argument vector it started, if it started anything. */
  datatype RunResult = RunResult(err: Outcome, started: Option<seq<string>>)

  /**
   * Run.  `exec` is what running the program returns; Go's exec reports
   * a non-zero exit status as an error too, so the later exit-code test
   * never changes the outcome.
   */
  function Run(p: Process, exec: Outcome): (r: RunResult)
    ensures r.started.None? <==> Argv(p).Err?
    ensures r.started.None? ==> r.err == Fail(BothSetMessage)
    ensures r.started.Some? ==> r.started.value == Argv(p).value && r.err == exec
  {
    match Argv(p)
    case Ok(argv) => RunResult(exec, Some(argv))
    case Err(m) => RunResult(Fail(m), None)
    case Panic(m) => RunResult(Abort(m), None)
  }
}
