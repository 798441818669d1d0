/**
 * The platform string `machine-distro-release` that names every package
 * and every sysroot directory, and the rules that fill it in.
 */
module PlatformString {
  import opened Wrappers
  import Strings

  /** PlatformStringMode is a Go string type: any string can be stored in it. */
  type Mode = string

  const ModeExplicit: Mode := "explicit"
  const ModeAnyMachine: Mode := "any_machine"
  const ModeAuto: Mode := "auto"

  datatype PlatformStringExplicit = PlatformStringExplicit(distroName: string, distroRelease: string, machine: string)

  datatype PlatformString = PlatformString(mode: Mode, str: PlatformStringExplicit)

  const Zero := PlatformString("", PlatformStringExplicit("", "", ""))

  predicate AllEmpty(s: PlatformStringExplicit)
  {
    s.distroName == "" && s.distroRelease == "" && s.machine == ""
  }

  /** Serialize: `machine-distro-release`; it panics when all three parts are empty. */
  function Serialize(p: PlatformString): (r: Result<string>)
    ensures r.Panic? <==> AllEmpty(p.str)
    ensures !r.Err?
    ensures r.Ok? ==> r.value == p.str.machine + "-" + p.str.distroName + "-" + p.str.distroRelease
  {
    if AllEmpty(p.str) then Panic("Sorry, invalid platform string")
    else Ok(p.str.machine + "-" + p.str.distroName + "-" + p.str.distroRelease)
  }

  /**
   * When no part contains '-', the serialized form splits back into the
   * three parts, so two different platforms never share a package name or a
   * sysroot directory.
   */
  lemma {:induction false} SerializeSplits(p: PlatformString)
    requires !AllEmpty(p.str)
    requires '-' !in p.str.machine && '-' !in p.str.distroName && '-' !in p.str.distroRelease
    ensures Serialize(p).Ok?
    ensures Strings.Split(Serialize(p).value, '-') == [p.str.machine, p.str.distroName, p.str.distroRelease]
  {
    var parts := [p.str.machine, p.str.distroName, p.str.distroRelease];
    Strings.SplitJoin(parts, '-');
    assert parts[1..] == [p.str.distroName, p.str.distroRelease];
    assert parts[1..][1..] == [p.str.distroRelease];
    assert Strings.Join(parts[1..][1..], "-") == p.str.distroRelease;
    assert Strings.Join(parts[1..], "-") == p.str.distroName + "-" + p.str.distroRelease;
    assert Strings.Join(parts, "-") == Serialize(p).value;
  }

  lemma SerializeInjective(p: PlatformString, q: PlatformString)
    requires !AllEmpty(p.str) && !AllEmpty(q.str)
    requires '-' !in p.str.machine && '-' !in p.str.distroName && '-' !in p.str.distroRelease
    requires '-' !in q.str.machine && '-' !in q.str.distroName && '-' !in q.str.distroRelease
    requires Serialize(p) == Serialize(q)
    ensures p.str == q.str
  {
    SerializeSplits(p);
    SerializeSplits(q);
  }

  /** FillDefault: an empty platform string becomes explicit and "unknown" in every part. */
  function FillDefault(p: PlatformString): (r: PlatformString)
    ensures p == Zero ==> r.mode == ModeExplicit && r.str == PlatformStringExplicit("unknown", "unknown", "unknown")
    ensures p != Zero ==> r == p
  {
    if p == Zero then PlatformString(ModeExplicit, PlatformStringExplicit("unknown", "unknown", "unknown"))
    else p
  }

  /**
   * CheckPrerequisites.  `argsGiven` says whether the initializer received
   * arguments.  The messages for an empty part call Serialize, which panics
   * when all three parts are empty.
   */
  function CheckPrerequisites(p: PlatformString, argsGiven: bool): (r: Outcome)
    ensures p.mode == "" ==> r.Fail?
    ensures p.mode != "" && p.mode != ModeAuto && p.mode != ModeAnyMachine && p.mode != ModeExplicit ==> r.Fail?
    ensures p.mode == ModeExplicit ==> r.Pass?
    ensures (p.mode == ModeAuto || p.mode == ModeAnyMachine) ==>
      r == if !argsGiven then Pass
           else if AllEmpty(p.str) then Abort("Sorry, invalid platform string")
           else if p.str.distroName == "" || p.str.distroRelease == "" || p.str.machine == "" then Fail(MissingPartsMessage(p).value)
           else Pass
  {
    if p.mode == "" then Fail("please fill up PlatformStringMode")
    else if p.mode == ModeExplicit then Pass
    else if p.mode != ModeAuto && p.mode != ModeAnyMachine then Fail("unsupported PlatformStringMode '" + p.mode + "'")
    else if !argsGiven then Pass
    else
      var msg := MissingPartsMessage(p);
      if msg.Panic? then Abort(msg.msg)
      else if msg.value != "" then Fail(msg.value)
      else Pass
  }

  /** The error text of CheckPrerequisites: one line per empty part. */
  function MissingPartsMessage(p: PlatformString): (r: Result<string>)
    ensures r.Panic? <==> AllEmpty(p.str)
    ensures !r.Err?
    ensures r.Ok? ==> (r.value == "" <==> (p.str.distroName != "" && p.str.distroRelease != "" && p.str.machine != ""))
  {
    var s :- Serialize(p);
    Ok((if p.str.distroName == "" then "please fill up DistroName for a PlatformString '" + s + "'\n" else "") +
       (if p.str.distroRelease == "" then "please fill up DistroRelease for a PlatformString '" + s + "'\n" else "") +
       (if p.str.machine == "" then "please fill up Machine for a PlatformString '" + s + "'\n" else ""))
  }

  /** The class `[^\n\r]`. */
  predicate NotLineBreak(c: char)
  {
    c != '\n' && c != '\r'
  }

  /**
   * stripNewline: FindString of `^([^\n\r]+)` compiled with CompilePOSIX,
   * whose `^` also matches after a newline.  The match begins at the first
   * line that starts with something other than a line break and runs up to
   * the next line break; it is empty when no line qualifies.
   */
  function StripNewline(s: string): (r: string)
    ensures '\n' !in r && '\r' !in r
    ensures r == "" <==> forall k :: 0 <= k < |s| ==> !Strings.RunStartsAt(s, k, NotLineBreak)
    ensures r != "" ==>
      var i := Strings.FirstRunStart(s, 0, NotLineBreak);
      i + |r| <= |s| && r == s[i..i + |r|] && (i + |r| < |s| ==> !NotLineBreak(s[i + |r|]))
  {
    var r := Strings.FirstLineRun(s, NotLineBreak);
    assert forall k :: 0 <= k < |r| ==> NotLineBreak(r[k]);
    r
  }

  /** The usual answer of a command, one line and a line break, gives that line. */
  lemma StripNewlineFirstLine(line: string, rest: string)
    requires line != "" && '\n' !in line && '\r' !in line
    requires rest == "" || rest[0] == '\n' || rest[0] == '\r'
    ensures StripNewline(line + rest) == line
  {
    Strings.FirstLineRunFirstLine(line, rest, NotLineBreak);
  }

  /** An empty first line is skipped: the answer is the next line. */
  lemma StripNewlineSkipsEmptyLine(line: string, rest: string)
    requires line != "" && '\n' !in line && '\r' !in line
    requires rest == "" || rest[0] == '\n' || rest[0] == '\r'
    ensures StripNewline("\n" + line + rest) == line
  {
    Strings.FirstLineRunAfterNewline(line, rest, NotLineBreak);
  }

  /**
   * getSystemArchitecture's normalisation of `uname -m`: the first line,
   * lower-cased, with every '_' replaced by '-'.
   */
  function NormalizeMachine(unameOutput: string): (r: string)
    ensures '_' !in r
    ensures |r| == |StripNewline(unameOutput)| <= |unameOutput|
    ensures forall i :: 0 <= i < |r| ==>
      r[i] == if StripNewline(unameOutput)[i] == '_' then '-' else Strings.LowerChar(StripNewline(unameOutput)[i])
  {
    Strings.ReplaceChar(Strings.ToLower(StripNewline(unameOutput)), '_', '-')
  }

  /** What the remote commands print, or an SSH error message. */
  datatype RemoteOutput = RemoteOutput(
    dockerRun: Outcome,
    lsbReleaseId: Result<string>,
    lsbReleaseRelease: Result<string>,
    unameMachine: Result<string>)

  /**
   * The container started and every remote command determinePlatformString
   * asks answered: both lsb_release queries and, in auto mode, uname.
   */
  predicate StartedAndAnswered(p: PlatformString, out: RemoteOutput)
  {
    p.mode != ModeExplicit && out.dockerRun.Pass? && out.lsbReleaseId.Ok? && out.lsbReleaseRelease.Ok? &&
    (p.mode == ModeAuto ==> out.unameMachine.Ok?)
  }

  /**
   * determinePlatformString: runs the build container, asks it for the
   * distribution, the release and (in auto mode) the machine.  A failing
   * container start is an error; a failing SSH command, explicit mode or an
   * unknown mode panics.
   */
  function DeterminePlatformString(p: PlatformString, out: RemoteOutput): (r: Result<PlatformString>)
    ensures p.mode == ModeExplicit ==> r.Panic?
    ensures p.mode != ModeExplicit && out.dockerRun.Fail? ==> r == Err(out.dockerRun.msg)
    ensures r.Err? <==> p.mode != ModeExplicit && out.dockerRun.Fail?
    ensures r.Ok? <==> StartedAndAnswered(p, out) && (p.mode == ModeAuto || p.mode == ModeAnyMachine)
    ensures p.mode != ModeExplicit && out.dockerRun.Pass? && !StartedAndAnswered(p, out) ==> r.Panic?
    ensures r.Ok? ==> r.value.mode == p.mode && (p.mode == ModeAuto || p.mode == ModeAnyMachine)
    ensures r.Ok? ==> out.lsbReleaseId.Ok? && r.value.str.distroName == Strings.ToLower(StripNewline(out.lsbReleaseId.value))
    ensures r.Ok? ==> out.lsbReleaseRelease.Ok? && r.value.str.distroRelease == Strings.ToLower(StripNewline(out.lsbReleaseRelease.value))
    ensures r.Ok? && p.mode == ModeAnyMachine ==> r.value.str.machine == "any"
    ensures r.Ok? && p.mode == ModeAuto ==> out.unameMachine.Ok? && r.value.str.machine == NormalizeMachine(out.unameMachine.value)
  {
    if p.mode == ModeExplicit then Panic("cannot determine PlatformString for explicit mode")
    else if !out.dockerRun.Pass? then
      if out.dockerRun.Fail? then Err(out.dockerRun.msg) else Panic(out.dockerRun.msg)
    else
      var id :- RemoteCommand("lsb_release -is", out.lsbReleaseId);
      var release :- RemoteCommand("lsb_release -rs", out.lsbReleaseRelease);
      var name := Strings.ToLower(StripNewline(id));
      var version := Strings.ToLower(StripNewline(release));
      if p.mode == ModeAuto then
        var machine :- RemoteCommand("uname -m", out.unameMachine);
        Ok(PlatformString(p.mode, PlatformStringExplicit(name, version, NormalizeMachine(machine))))
      else if p.mode == ModeAnyMachine then
        Ok(PlatformString(p.mode, PlatformStringExplicit(name, version, "any")))
      else Panic("unsupported PlatformStringMode")
  }

  /** runShellCommandOverSSH: an SSH failure panics. */
  function RemoteCommand(command: string, out: Result<string>): (r: Result<string>)
    ensures r.Ok? <==> out.Ok?
    ensures r.Ok? ==> r.value == out.value
    ensures !r.Ok? ==> r.Panic?
  {
    if out.Ok? then out else Panic("cannot run command '" + command + "'")
  }

  /**
   * FillDynamic: with arguments, explicit mode panics and the other modes
   * are determined remotely; without arguments nothing changes.
   */
  function FillDynamic(p: PlatformString, args: Option<RemoteOutput>): (r: Result<PlatformString>)
    ensures args.None? ==> r == Ok(p)
    ensures args.Some? && p.mode == ModeExplicit ==> r.Panic?
    ensures args.Some? && p.mode != ModeExplicit ==> r == DeterminePlatformString(p, args.value)
  {
    match args
    case None => Ok(p)
    case Some(out) =>
      if p.mode == ModeExplicit then Panic("cannot init PlatformString for args. Explicit mode is set")
      else DeterminePlatformString(p, out)
  }

  /** A platform determined in any mode passes CheckPrerequisites unless a remote answer was empty. */
  lemma DeterminedPasses(p: PlatformString, out: RemoteOutput)
    requires DeterminePlatformString(p, out).Ok?
    requires var s := DeterminePlatformString(p, out).value.str;
      s.distroName != "" && s.distroRelease != "" && s.machine != ""
    ensures CheckPrerequisites(DeterminePlatformString(p, out).value, true) == Pass
  {
  }
}
