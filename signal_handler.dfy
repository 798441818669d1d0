/**
 * The global stack of clean-up handlers run when the program is
 * interrupted.
 */
module SignalHandler {
  import opened Wrappers
  import Collections

  /** The clean-up functions the packager registers. */
  datatype Handler =
    | RestoreAllChanges
    | CleanUp(imageName: string, packageName: string)
    | StopAndRemoveContainer(imageName: string, packageName: string)

  /** The package-level `handlers` slice. */
  class SignalHandlers {
    var handlers: seq<Handler>

    constructor ()
      ensures handlers == []
    {
      handlers := [];
    }

    /** AddHandler appends the handler; its remover is RemoveLastHandler. */
    method AddHandler(h: Handler)
      modifies this
      ensures handlers == old(handlers) + [h]
    {
      handlers := handlers + [h];
    }

    /**
     * removeLastHandler drops the last handler, whichever it is, without
     * running it; on an empty stack it is an error and nothing changes.
     */
    method RemoveLastHandler() returns (err: Outcome)
      modifies this
      ensures old(handlers) == [] ==> err == Fail("no handler to remove") && handlers == old(handlers)
      ensures old(handlers) != [] ==> err == Pass && handlers == old(handlers)[..|old(handlers)| - 1]
    {
      if handlers == [] {
        err := Fail("no handler to remove");
      } else {
        handlers := handlers[..|handlers| - 1];
        err := Pass;
      }
    }

    /**
     * executeAllHandlers runs every handler once, the last registered
     * first.  `run` gives each handler's result; an error is logged and
     * the remaining handlers still run.
     */
    method ExecuteAllHandlers(run: Handler -> Outcome) returns (executed: seq<Handler>, logged: seq<string>)
      ensures executed == Collections.Reverse(handlers)
      ensures logged == ErrorLog(executed, run)
    {
      executed := [];
      logged := [];
      var i := |handlers| - 1;
      while i >= 0
        invariant -1 <= i < |handlers|
        invariant |executed| == |handlers| - 1 - i
        invariant forall k :: 0 <= k < |executed| ==> executed[k] == handlers[|handlers| - 1 - k]
        invariant logged == ErrorLog(executed, run)
      {
        var err := run(handlers[i]);
        ErrorLogStep(executed, handlers[i], run);
        executed := executed + [handlers[i]];
        if !err.Pass? {
          logged := logged + ["Handler returned error - " + err.msg];
        }
        i := i - 1;
      }
      Collections.ReverseAt(handlers, executed);
    }

    /** On the registered signal every handler runs, then the program exits with status 1. */
    method OnSignal(run: Handler -> Outcome) returns (executed: seq<Handler>, exitCode: int)
      ensures executed == Collections.Reverse(handlers)
      ensures exitCode == 1
    {
      var logged;
      executed, logged := ExecuteAllHandlers(run);
      exitCode := 1;
    }
  }

  /** The errors logged while running `executed` in order, one line per handler that failed. */
  function ErrorLog(executed: seq<Handler>, run: Handler -> Outcome): seq<string>
  {
    if executed == [] then []
    else
      var last := executed[|executed| - 1];
      ErrorLog(executed[..|executed| - 1], run) + (if run(last).Pass? then [] else ["Handler returned error - " + run(last).msg])
  }

  lemma ErrorLogStep(executed: seq<Handler>, h: Handler, run: Handler -> Outcome)
    ensures ErrorLog(executed + [h], run) == ErrorLog(executed, run) + (if run(h).Pass? then [] else ["Handler returned error - " + run(h).msg])
  {
    assert (executed + [h])[..|executed|] == executed;
  }

  /** Nothing is logged exactly when every handler succeeded, and never more than one line per handler. */
  lemma {:induction false} ErrorLogMeaning(executed: seq<Handler>, run: Handler -> Outcome)
    ensures |ErrorLog(executed, run)| <= |executed|
    ensures ErrorLog(executed, run) == [] <==> forall i :: 0 <= i < |executed| ==> run(executed[i]).Pass?
  {
    if executed != [] {
      var init := executed[..|executed| - 1];
      ErrorLogMeaning(init, run);
      assert forall i :: 0 <= i < |init| ==> init[i] == executed[i];
    }
  }

  /** A handler added and removed again leaves the stack as it was. */
  method AddThenRemove(s: SignalHandlers, h: Handler) returns (err: Outcome)
    modifies s
    ensures err == Pass && s.handlers == old(s.handlers)
  {
    s.AddHandler(h);
    err := s.RemoveLastHandler();
    assert (old(s.handlers) + [h])[..|old(s.handlers)|] == old(s.handlers);
  }
}
