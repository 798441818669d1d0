/**
 * The packager's command line: three subcommands (build-image,
 * build-package, create-sysroot), of which the one that ran selects the
 * mode, and the checks made on the build-package flags once parsing has
 * succeeded.  The argument parser itself is outside the model; what it
 * reports is an input.
 */
module CmdArgs {
  import opened Wrappers

  /** The flags of the build-package subcommand, with their parsed values. */
  datatype BuildPackageArgs = BuildPackageArgs(
    all: bool,
    name: string,
    buildDeps: bool,
    buildDepsOn: bool,
    buildDepsOnRecursive: bool,
    dockerImageName: string,
    outputDir: string)

  /** What a successful parse reports: which subcommand parsers ran, and the build-package flags. */
  datatype Parsed = Parsed(buildImageHappened: bool, buildPackageHappened: bool, createSysrootHappened: bool, packageArgs: BuildPackageArgs)

  const EmptyMessage := "cannot be empty"

  /**
   * checkForEmpty, the validator of the image-name options: it rejects a
   * single empty argument and passes everything else.
   */
  function CheckForEmpty(args: seq<string>): (r: Outcome)
    ensures r.Fail? <==> |args| == 1 && args[0] == ""
    ensures !r.Fail? ==> r.Pass?
    ensures r.Fail? ==> r.msg == EmptyMessage
  {
    if |args| == 1 && |args[0]| == 0 then Fail(EmptyMessage) else Pass
  }

  /** The validator looks at nothing but a lone argument: several arguments pass even when empty. */
  lemma CheckForEmptyOnlyLone(args: seq<string>)
    requires |args| != 1
    ensures CheckForEmpty(args) == Pass
  {
  }

  /** The flag conflicts ParseArgs rejects, in the order ParseArgs checks them. */
  function FlagConflict(a: BuildPackageArgs): (r: Outcome)
    ensures r.Fail? <==> (a.all && (a.buildDeps || a.buildDepsOn || a.buildDepsOnRecursive)) || (!a.all && a.buildDepsOn && a.buildDepsOnRecursive)
    ensures !r.Fail? ==> r.Pass?
  {
    if a.all then
      if a.buildDeps then Fail("all and build-deps flags at the same time")
      else if a.buildDepsOn then Fail("all and build-deps-on flags at the same time")
      else if a.buildDepsOnRecursive then Fail("all and build-deps-on-recursive flags at the same time")
      else Pass
    else if a.buildDepsOn && a.buildDepsOnRecursive then Fail("build-deps-on and build-deps-on-recursive flags at the same time")
    else Pass
  }

  /** `--all` with any dependency flag is rejected, and the message names the first one in the order build-deps, -on, -on-recursive. */
  lemma AllConflicts(a: BuildPackageArgs)
    requires a.all
    ensures a.buildDeps ==> FlagConflict(a) == Fail("all and build-deps flags at the same time")
    ensures !a.buildDeps && a.buildDepsOn ==> FlagConflict(a) == Fail("all and build-deps-on flags at the same time")
    ensures !a.buildDeps && !a.buildDepsOn && a.buildDepsOnRecursive ==> FlagConflict(a) == Fail("all and build-deps-on-recursive flags at the same time")
  {
  }

  /** `--build-deps` goes together with either dependents flag: no rule forbids it. */
  lemma BuildDepsWithDepsOnAccepted(a: BuildPackageArgs)
    requires !a.all && a.buildDeps && (a.buildDepsOn != a.buildDepsOnRecursive)
    ensures FlagConflict(a) == Pass
  {
  }

  class CmdLineArgs {
    var buildImage: bool
    var buildPackage: bool
    var createSysroot: bool
    var buildPackageArgs: BuildPackageArgs

    /** InitFlags: every flag at its default, no mode selected. */
    constructor ()
      ensures !buildImage && !buildPackage && !createSysroot
      ensures buildPackageArgs == BuildPackageArgs(false, "", false, false, false, "", "")
    {
      buildImage := false;
      buildPackage := false;
      createSysroot := false;
      buildPackageArgs := BuildPackageArgs(false, "", false, false, false, "", "");
    }

    /**
     * ParseArgs: a failed parse changes nothing and returns the parser's
     * error; otherwise the modes are set from the subcommands that ran,
     * whether or not the flags then conflict.
     */
    method ParseArgs(parse: Result<Parsed>) returns (err: Outcome)
      modifies this
      ensures !parse.Ok? ==> err == Fail(parse.msg)
      ensures !parse.Ok? ==> buildImage == old(buildImage) && buildPackage == old(buildPackage) && createSysroot == old(createSysroot)
      ensures !parse.Ok? ==> buildPackageArgs == old(buildPackageArgs)
      ensures parse.Ok? ==> buildImage == parse.value.buildImageHappened && buildPackage == parse.value.buildPackageHappened
      ensures parse.Ok? ==> createSysroot == parse.value.createSysrootHappened && buildPackageArgs == parse.value.packageArgs
      ensures parse.Ok? ==> err == FlagConflict(parse.value.packageArgs)
    {
      if !parse.Ok? {
        return Fail(parse.msg);
      }
      var p := parse.value;
      buildPackageArgs := p.packageArgs;
      buildImage := p.buildImageHappened;
      buildPackage := p.buildPackageHappened;
      createSysroot := p.createSysrootHappened;
      err := FlagConflict(buildPackageArgs);
    }
  }
}
