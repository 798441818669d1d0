/**
 * An SSH session to the build container: the login retry loop, the
 * logged-in flag and the guards of the calls that need a live session.
 * The network (dialling, the PTY, the pipe copies) is not modelled: each
 * attempt's outcome is a parameter.
 */
module SSHSession {
  import opened Wrappers

  datatype SSHCredentials = SSHCredentials(ipAddress: string, port: int, username: string, password: string)

  /** numberObConnectionAttemptsConst: retries after the first attempt. */
  const ConnectionRetries := 5

  function FillDefault(c: SSHCredentials): (r: SSHCredentials)
    ensures r == SSHCredentials("127.0.0.1", 1122, "root", "1234")
    ensures 0 <= r.port < 0x1_0000
  {
    SSHCredentials("127.0.0.1", 1122, "root", "1234")
  }

  function FillDynamic(c: SSHCredentials): (r: (SSHCredentials, Outcome))
    ensures r.0 == c && r.1.Pass?
  {
    (c, Pass)
  }

  function CheckPrerequisites(c: SSHCredentials): (r: Outcome)
    ensures r.Pass?
  {
    Pass
  }

  /** The index of the first successful attempt among the first n, if any. */
  function FirstSuccess(login: nat -> Outcome, n: nat): (r: Option<nat>)
    ensures r.Some? ==> r.value < n && login(r.value).Pass? && forall i :: 0 <= i < r.value ==> !login(i).Pass?
    ensures r.None? ==> forall i :: 0 <= i < n ==> !login(i).Pass?
  {
    if n == 0 then None
    else match FirstSuccess(login, n - 1)
      case Some(i) => Some(i)
      case None => if login(n - 1).Pass? then Some(n - 1) else None
  }

  const RetryFailedPrefix := "cannot connect to docker container over ssh - "

  class SSHSession {
    /** sshSession != nil */
    var hasSession: bool
    /** sshClient != nil */
    var hasClient: bool

    constructor()
      ensures !hasSession && !hasClient
    {
      hasSession := false;
      hasClient := false;
    }

    /** The receiver itself is never nil here, so only the session field counts. */
    predicate IsLoggedIn()
      reads this
    {
      hasSession
    }

    /** Login with its outcome given: on success both handles are set, on failure nothing changes. */
    method Login(result: Outcome) returns (err: Outcome)
      modifies this
      ensures err == result
      ensures result.Pass? ==> hasSession && hasClient
      ensures !result.Pass? ==> hasSession == old(hasSession) && hasClient == old(hasClient)
    {
      err := result;
      if result.Pass? {
        hasSession := true;
        hasClient := true;
      }
    }

    /**
     * LoginMultipleAttempts: Login is called until it succeeds, at most
     * ConnectionRetries + 1 times, with a sleep after every failure but the
     * last.  `login(i)` is the outcome of attempt i.
     */
    method LoginMultipleAttempts(login: nat -> Outcome) returns (err: Outcome, calls: nat, sleeps: nat)
      modifies this
      ensures 1 <= calls <= ConnectionRetries + 1
      ensures sleeps == calls - 1
      ensures var first := FirstSuccess(login, ConnectionRetries + 1);
        match first
        case Some(i) => err == Pass && calls == i + 1 && IsLoggedIn()
        case None => (err == Fail(RetryFailedPrefix + login(ConnectionRetries).msg) && calls == ConnectionRetries + 1
          && hasSession == old(hasSession) && hasClient == old(hasClient))
    {
      var attempts := 0;
      calls := 0;
      sleeps := 0;
      while true
        invariant 0 <= attempts <= ConnectionRetries
        invariant calls == attempts && sleeps == attempts
        invariant forall i :: 0 <= i < attempts ==> !login(i).Pass?
        invariant hasSession == old(hasSession) && hasClient == old(hasClient)
        decreases ConnectionRetries - attempts
      {
        var e := Login(login(attempts));
        calls := calls + 1;
        if e.Pass? {
          err := Pass;
          assert FirstSuccess(login, ConnectionRetries + 1) == Some(attempts) by {
            FirstSuccessAt(login, attempts, ConnectionRetries + 1);
          }
          return;
        }
        if attempts >= ConnectionRetries {
          err := Fail(RetryFailedPrefix + e.msg);
          return;
        }
        attempts := attempts + 1;
        sleeps := sleeps + 1;
      }
    }

    /** Logout closes and clears the session when there is one; the client handle stays. */
    method Logout()
      modifies this
      ensures !hasSession
      ensures hasClient == old(hasClient)
    {
      if !hasSession {
        return;
      }
      hasSession := false;
    }

    /** Start on a session that was never opened dereferences nil. */
    method Start(command: string, result: Outcome) returns (err: Outcome)
      ensures !IsLoggedIn() ==> err.Abort?
      ensures IsLoggedIn() ==> (err.Pass? <==> result.Pass?)
      ensures IsLoggedIn() && !result.Pass? ==> err == Fail("problem while executing program " + result.msg)
    {
      if !hasSession {
        err := Abort("invalid memory address or nil pointer dereference");
      } else if !result.Pass? {
        err := Fail("problem while executing program " + result.msg);
      } else {
        err := Pass;
      }
    }

    method Wait(result: Outcome) returns (err: Outcome)
      ensures !IsLoggedIn() ==> err == Fail("cannot wait for not active session")
      ensures IsLoggedIn() ==> (err.Pass? <==> result.Pass?)
      ensures IsLoggedIn() && !result.Pass? ==> err == Fail("invalid wait - " + result.msg)
    {
      if !hasSession {
        err := Fail("cannot wait for not active session");
      } else if !result.Pass? {
        err := Fail("invalid wait - " + result.msg);
      } else {
        err := Pass;
      }
    }

    /**
     * SetEnvironment: refused on an inactive session, otherwise every
     * variable is sent in `order` until the first failure, which is returned.
     */
    method SetEnvironment(env: map<string, string>, order: seq<string>, setenv: (string, string) -> Outcome) returns (err: Outcome, sent: nat)
      requires forall i :: 0 <= i < |order| ==> order[i] in env
      ensures !IsLoggedIn() ==> err == Fail("cannot set environment for not active session") && sent == 0
      ensures IsLoggedIn() ==> sent <= |order| && forall i :: 0 <= i < sent - 1 ==> setenv(order[i], env[order[i]]).Pass?
      ensures IsLoggedIn() && err.Pass? ==> sent == |order| && forall i :: 0 <= i < |order| ==> setenv(order[i], env[order[i]]).Pass?
      ensures IsLoggedIn() && !err.Pass? ==> 1 <= sent && err == setenv(order[sent - 1], env[order[sent - 1]])
    {
      sent := 0;
      if !hasSession {
        err := Fail("cannot set environment for not active session");
        return;
      }
      while sent < |order|
        invariant sent <= |order|
        invariant forall i :: 0 <= i < sent ==> setenv(order[i], env[order[i]]).Pass?
      {
        var e := setenv(order[sent], env[order[sent]]);
        sent := sent + 1;
        if !e.Pass? {
          err := e;
          return;
        }
      }
      err := Pass;
    }
  }

  lemma FirstSuccessAt(login: nat -> Outcome, i: nat, n: nat)
    requires i < n && login(i).Pass? && forall j :: 0 <= j < i ==> !login(j).Pass?
    ensures FirstSuccess(login, n) == Some(i)
  {
  }

  /** After a successful retry loop the session is logged in, and a later Logout leaves it out. */
  method LoginThenLogout(login: nat -> Outcome) returns (before: bool, after: bool)
    ensures before <==> FirstSuccess(login, ConnectionRetries + 1).Some?
    ensures !after
  {
    var s := new SSHSession();
    var err, calls, sleeps := s.LoginMultipleAttempts(login);
    before := s.IsLoggedIn();
    s.Logout();
    after := s.IsLoggedIn();
  }
}
