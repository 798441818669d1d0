/**
 * Running commands in one bash session over SSH: the environment exports,
 * then the commands, then `exit`, each written to bash's standard input
 * followed by "\n\r".
 */
module ShellEvaluator {
  import opened Wrappers
  import Collections
  import EnvironmentVariables
  import SSH = SSHSession

  datatype ShellEvaluator = ShellEvaluator(commands: seq<string>, env: Option<map<string, string>>)

  /** The Env map; a nil map ranges over nothing. */
  function Env(s: ShellEvaluator): map<string, string>
  {
    if s.env.Some? then s.env.value else map[]
  }

  /** The export lines in the order the map is ranged over; keys are not validated here. */
  function Exports(order: seq<string>, env: map<string, string>): (r: seq<string>)
    requires forall i :: 0 <= i < |order| ==> order[i] in env
    ensures |r| == |order|
    ensures forall i :: 0 <= i < |order| ==> r[i] == EnvironmentVariables.ExportLine(order[i], env[order[i]])
  {
    if order == [] then [] else [EnvironmentVariables.ExportLine(order[0], env[order[0]])] + Exports(order[1..], env)
  }

  /** The lines RunOverSSH writes: exports ++ Commands ++ ["exit"]. */
  function CommandStream(s: ShellEvaluator, order: seq<string>): (r: seq<string>)
    requires Collections.IsEnumeration(order, Env(s).Keys)
    ensures |r| == |Env(s)| + |s.commands| + 1
    ensures r[..|Env(s)|] == Exports(order, Env(s))
    ensures r[|Env(s)|..|r| - 1] == s.commands
    ensures r[|r| - 1] == "exit"
  {
    Collections.EnumerationSize(order, Env(s).Keys);
    var e := Exports(order, Env(s));
    Collections.ThreeParts(e, s.commands, "exit");
    e + s.commands + ["exit"]
  }

  /** Every export of the environment is in the stream, ahead of every command. */
  lemma ExportsPrecedeCommands(s: ShellEvaluator, order: seq<string>, k: string, c: nat)
    requires Collections.IsEnumeration(order, Env(s).Keys)
    requires k in Env(s) && c < |s.commands|
    ensures exists i :: 0 <= i < |Env(s)| && CommandStream(s, order)[i] == EnvironmentVariables.ExportLine(k, Env(s)[k])
    ensures CommandStream(s, order)[|Env(s)| + c] == s.commands[c]
  {
    var r := CommandStream(s, order);
    Collections.EnumerationSize(order, Env(s).Keys);
    var i :| 0 <= i < |order| && order[i] == k;
    assert r[..|Env(s)|][i] == r[i];
    assert r[|Env(s)|..|r| - 1][c] == r[|Env(s)| + c];
  }

  /** What one line becomes on the wire. */
  function Wire(line: string): string
  {
    line + "\n\r"
  }

  function WireAll(lines: seq<string>): (r: seq<string>)
    ensures |r| == |lines|
    ensures forall i :: 0 <= i < |lines| ==> r[i] == Wire(lines[i])
  {
    if lines == [] then [] else [Wire(lines[0])] + WireAll(lines[1..])
  }

  lemma {:induction false} WireAllAppend(a: seq<string>, b: seq<string>)
    ensures WireAll(a + b) == WireAll(a) + WireAll(b)
  {
  }

  /** The writes succeed up to the last one attempted; that one failed, or all lines were written. */
  predicate WroteUntilFailure(lines: seq<string>, write: string -> Outcome, written: seq<string>)
  {
    // bound to one name, so that a caller proves it as one fact rather than conjunct by conjunct
    var holds := |written| <= |lines| && written == WireAll(lines[..|written|]) &&
      (forall i :: 0 <= i < |written| - 1 ==> write(written[i]).Pass?) &&
      (|written| < |lines| ==> |written| >= 1 && !write(written[|written| - 1]).Pass?);
    holds
  }

  /** One more line written. */
  lemma WireAllStep(lines: seq<string>, k: nat)
    requires k < |lines|
    ensures WireAll(lines[..k + 1]) == WireAll(lines[..k]) + [Wire(lines[k])]
  {
    WireAllAppend(lines[..k], [lines[k]]);
    assert lines[..k + 1] == lines[..k] + [lines[k]];
  }

  /** The writes stop at the first failure, line k. */
  lemma StoppedAt(lines: seq<string>, write: string -> Outcome, k: nat)
    requires k < |lines| && !write(Wire(lines[k])).Pass?
    requires forall i :: 0 <= i < k ==> write(Wire(lines[i])).Pass?
    ensures WroteUntilFailure(lines, write, WireAll(lines[..k + 1]))
    ensures WireAll(lines[..k + 1])[k] == Wire(lines[k])
  {
    var w := WireAll(lines[..k + 1]);
    assert |w| == k + 1;
    assert forall i :: 0 <= i < |w| ==> w[i] == Wire(lines[i]);
  }

  /** Every write succeeded. */
  lemma WroteAll(lines: seq<string>, write: string -> Outcome)
    requires forall i :: 0 <= i < |lines| ==> write(Wire(lines[i])).Pass?
    ensures WroteUntilFailure(lines, write, WireAll(lines))
  {
    var w := WireAll(lines);
    assert lines[..|w|] == lines;
    assert forall i :: 0 <= i < |w| ==> w[i] == Wire(lines[i]);
  }

  /** The write loop: each line in order, stopping at the first failed write, whose error is returned. */
  method WriteLines(lines: seq<string>, write: string -> Outcome) returns (err: Outcome, written: seq<string>)
    ensures WroteUntilFailure(lines, write, written)
    ensures err.Pass? <==> forall i :: 0 <= i < |lines| ==> write(Wire(lines[i])).Pass?
    ensures err.Pass? ==> written == WireAll(lines)
    ensures !err.Pass? ==> |written| >= 1 && err == write(written[|written| - 1])
  {
    written := [];
    var k := 0;
    while k < |lines|
      invariant 0 <= k <= |lines|
      invariant written == WireAll(lines[..k])
      invariant forall i :: 0 <= i < k ==> write(Wire(lines[i])).Pass?
    {
      var chunk := Wire(lines[k]);
      var e := write(chunk);
      WireAllStep(lines, k);
      written := written + [chunk];
      if !e.Pass? {
        StoppedAt(lines, write, k);
        err := e;
        return;
      }
      k := k + 1;
    }
    assert lines[..k] == lines;
    WroteAll(lines, write);
    err := Pass;
  }

  /**
   * RunOverSSH with the effects given: `login(i)` is the outcome of login
   * attempt i, `start` that of starting bash, `write` that of writing one
   * chunk and `wait` that of waiting for bash.  Returns the error and the
   * chunks attempted.
   */
  method RunOverSSH(s: ShellEvaluator, order: seq<string>, login: nat -> Outcome, start: Outcome, write: string -> Outcome, wait: Outcome)
    returns (err: Outcome, written: seq<string>)
    requires Collections.IsEnumeration(order, Env(s).Keys)
    ensures SSH.FirstSuccess(login, SSH.ConnectionRetries + 1).None? ==>
      err == Fail(SSH.RetryFailedPrefix + login(SSH.ConnectionRetries).msg) && written == []
    ensures SSH.FirstSuccess(login, SSH.ConnectionRetries + 1).Some? && !start.Pass? ==>
      err == Fail("problem while executing program " + start.msg) && written == []
    ensures SSH.FirstSuccess(login, SSH.ConnectionRetries + 1).Some? && start.Pass? ==>
      WroteUntilFailure(CommandStream(s, order), write, written) &&
      (if written == WireAll(CommandStream(s, order)) && write(written[|written| - 1]).Pass?
       then err == (if wait.Pass? then Pass else Fail("invalid wait - " + wait.msg))
       else err == write(written[|written| - 1]))
  {
    written := [];
    var session := new SSH.SSHSession();
    var calls, sleeps;
    err, calls, sleeps := session.LoginMultipleAttempts(login);
    if !err.Pass? {
      return;
    }
    err := session.Start("bash", start);
    if !err.Pass? {
      return;
    }
    var lines := CommandStream(s, order);
    err, written := WriteLines(lines, write);
    if !err.Pass? {
      assert !write(written[|written| - 1]).Pass?;
      return;
    }
    assert write(written[|written| - 1]).Pass?;
    err := session.Wait(wait);
  }
}
