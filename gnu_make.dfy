/** The GNU Make step: build with a number of jobs, then install. */
module GNUMake {
  import opened Wrappers
  import Strings

  /** `jobsCount` is unexported in Go, so JSON never sets it; only FillDefault does. */
  datatype GNUMake = GNUMake(cmdLineVars: Option<map<string, string>>, jobsCount: int)

  const DefaultJobsCount := 10

  /** FillDefault replaces the step with ten jobs and no variables. */
  function FillDefault(m: GNUMake): (r: GNUMake)
    ensures r.jobsCount == DefaultJobsCount && r.cmdLineVars.None?
  {
    GNUMake(None, DefaultJobsCount)
  }

  /** FillDynamic leaves the step unchanged and never fails. */
  function FillDynamic(m: GNUMake): (r: (GNUMake, Outcome))
    ensures r.0 == m && r.1.Pass?
  {
    (m, Pass)
  }

  /** CheckPrerequisites never fails. */
  function CheckPrerequisites(m: GNUMake): (r: Outcome)
    ensures r.Pass?
  {
    Pass
  }

  /**
   * ConstructCMDLine: exactly two lines, `make -j <jobs>` and
   * `make install`; CMDLineVars does not appear in them.
   */
  function ConstructCmdLine(m: GNUMake): (r: seq<string>)
    ensures |r| == 2
    ensures r[0] == "make -j " + Strings.IntToString(m.jobsCount)
    ensures r[1] == "make install"
  {
    Strings.Join3("make", "-j", Strings.IntToString(m.jobsCount), " ");
    Strings.Join2("make", "install", " ");
    [Strings.Join(["make", "-j", Strings.IntToString(m.jobsCount)], " "), Strings.Join(["make", "install"], " ")]
  }

  /** The default step renders `make -j 10`. */
  lemma DefaultCmdLine(m: GNUMake)
    ensures ConstructCmdLine(FillDefault(m)) == ["make -j 10", "make install"]
  {
    assert Strings.NatToString(1) == "1";
    assert Strings.NatToString(10) == Strings.NatToString(1) + [Strings.DigitChar(0)];
    assert Strings.IntToString(10) == "10";
    assert "make -j " + "10" == "make -j 10";
  }
}
