/**
 * The stand-in `uname` tool of the build images: it reads a recorded
 * `uname -a` line and prints the machine name with `-m`.
 */
module Uname {
  import opened Wrappers
  import Strings

  /** The longest suffix without ' '. */
  function TrailingNonSpace(s: string): (r: string)
    ensures Strings.HasSuffix(s, r) && ' ' !in r
    ensures |r| < |s| ==> s[|s| - |r| - 1] == ' '
  {
    if s == [] || s[|s| - 1] == ' ' then ""
    else
      var init := s[..|s| - 1];
      var rest := TrailingNonSpace(init);
      var r := rest + [s[|s| - 1]];
      assert init[|init| - |rest|..] == rest;
      assert s[|s| - |r|..] == init[|init| - |rest|..] + [s[|s| - 1]];
      assert |r| < |s| ==> s[|s| - |r| - 1] == init[|init| - |rest| - 1];
      r
  }

  /**
   * The group of ` +([^ ]+) [^ ]+$`: the token before the last one, when
   * exactly one space separates the two and at least one space precedes it.
   */
  function ParseMachine(line: string): (r: Option<string>)
    ensures r.Some? ==> r.value != "" && ' ' !in r.value && |r.value| + 3 <= |line|
  {
    var last := TrailingNonSpace(line);
    if last == "" || |last| == |line| then None
    else
      var before := line[..|line| - |last| - 1];
      var machine := TrailingNonSpace(before);
      if machine == "" || |machine| == |before| then None
      else Some(machine)
  }

  /** A line `<anything> <machine> <last>` yields the machine. */
  lemma {:induction false} ParseMachineOf(pre: string, machine: string, last: string)
    requires machine != "" && ' ' !in machine && last != "" && ' ' !in last
    ensures ParseMachine(pre + " " + machine + " " + last) == Some(machine)
  {
    var before := pre + " " + machine;
    var line := before + " " + last;
    TrailingNonSpaceOf(before + " ", last);
    assert TrailingNonSpace(line) == last;
    assert line[..|line| - |last| - 1] == before;
    assert before == (pre + " ") + machine;
    TrailingNonSpaceOf(pre + " ", machine);
    assert TrailingNonSpace(before) == machine && |machine| < |before|;
  }

  /** Conversely, whatever ParseMachine yields sits in the line in that shape. */
  lemma ParseMachineShape(line: string)
    requires ParseMachine(line).Some?
    ensures var m := ParseMachine(line).value;
      m != "" && ' ' !in m &&
      exists pre, last :: last != "" && ' ' !in last && line == pre + " " + m + " " + last
  {
    var last := TrailingNonSpace(line);
    var before := line[..|line| - |last| - 1];
    var m := TrailingNonSpace(before);
    var pre := before[..|before| - |m| - 1];
    assert before == pre + " " + m;
    assert line == before + " " + last;
  }

  lemma {:induction false} TrailingNonSpaceOf(s: string, t: string)
    requires t != "" && ' ' !in t && s != "" && s[|s| - 1] == ' '
    ensures TrailingNonSpace(s + t) == t
  {
    var init := t[..|t| - 1];
    var c := t[|t| - 1];
    assert c in t;
    assert (s + t)[..|s + t| - 1] == s + init;
    if init != "" {
      assert forall x :: x in init ==> x in t;
      TrailingNonSpaceOf(s, init);
    } else {
      assert s + init == s;
    }
    assert init + [c] == t;
  }

  class UnameData {
    var machine: string

    constructor()
      ensures machine == ""
    {
      machine := "";
    }

    /**
     * ReadFromFile: only the first line is read; a file that cannot be
     * opened, is empty or whose first line does not match is fatal.
     */
    method ReadFromFile(opens: bool, lines: seq<string>) returns (err: Outcome)
      modifies this
      ensures !opens ==> err.Abort? && machine == old(machine)
      ensures opens && lines == [] ==> err == Abort("cannot scan next line in the input file") && machine == old(machine)
      ensures opens && lines != [] && ParseMachine(lines[0]).None? ==> err.Abort? && machine == old(machine)
      ensures err.Pass? <==> opens && lines != [] && ParseMachine(lines[0]).Some?
      ensures err.Pass? ==> machine == ParseMachine(lines[0]).value
    {
      if !opens {
        err := Abort("cannot open input file");
        return;
      }
      if lines == [] {
        err := Abort("cannot scan next line in the input file");
        return;
      }
      var parsed := ParseMachine(lines[0]);
      if parsed.None? {
        err := Abort("Cannot parse ' +([^ ]+) [^ ]+$' from '" + lines[0] + "'");
        return;
      }
      machine := parsed.value;
      err := Pass;
    }
  }

  /** What main prints: the machine and a newline with `-m`, nothing otherwise. */
  function Output(machineFlag: bool, machine: string): (r: string)
    ensures machineFlag ==> r == machine + "\n"
    ensures !machineFlag ==> r == ""
  {
    if machineFlag then machine + "\n" else ""
  }
}
