/** The tar invocation that packs the container's install directory. */
module Tar {
  import opened Wrappers
  import Strings
  import Paths
  import Constants

  datatype Tar = Tar(archiveName: string, sourceDir: string)

  /** The arguments FillDynamic reads. */
  datatype TarInitArgs = TarInitArgs(archiveName: string, sourceDir: string)

  function FillDefault(t: Tar): (r: Tar)
    ensures r.archiveName == "" && r.sourceDir == ""
  {
    Tar("", "")
  }

  function FillDynamic(t: Tar, args: TarInitArgs): (r: (Tar, Outcome))
    ensures r.0.archiveName == args.archiveName && r.0.sourceDir == args.sourceDir && r.1.Pass?
  {
    (Tar(args.archiveName, args.sourceDir), Pass)
  }

  function CheckPrerequisites(t: Tar): (r: Outcome)
    ensures r.Pass? <==> t.archiveName != "" && t.sourceDir != ""
    ensures t.archiveName == "" ==> r == Fail("empty archive name")
    ensures t.archiveName != "" && t.sourceDir == "" ==> r == Fail("empty source directory name")
  {
    if t.archiveName == "" then Fail("empty archive name")
    else if t.sourceDir == "" then Fail("empty source directory name")
    else Pass
  }

  /** `tar cvf <SourceDir joined with ArchiveName> -C <SourceDir> .` */
  function ConstructCmdLine(t: Tar): (r: seq<string>)
    ensures |r| == 1
    ensures Strings.HasPrefix(r[0], "tar cvf " + Paths.Join([t.sourceDir, t.archiveName]))
    ensures Strings.HasSuffix(r[0], " -C " + t.sourceDir + " .")
  {
    var line := "tar cvf " + Paths.Join([t.sourceDir, t.archiveName]) + " -C " + t.sourceDir + " .";
    assert line == ("tar cvf " + Paths.Join([t.sourceDir, t.archiveName])) + (" -C " + t.sourceDir + " .");
    [line]
  }

  lemma InstallDirClean()
    ensures Paths.IsCleanAbsolute(Constants.DockerInstallDir)
  {
    Strings.SplitWithoutSeparator("INSTALL", '/');
    assert Constants.DockerInstallDir[1..] == "INSTALL";
  }

  /** A plain file name joined under the install directory. */
  lemma InstallJoin(archiveName: string)
    requires Paths.IsPlainSegment(archiveName)
    ensures Paths.Join([Constants.DockerInstallDir, archiveName]) == "/INSTALL/" + archiveName
  {
    InstallDirClean();
    Paths.JoinUnderAbsolute(Constants.DockerInstallDir, [archiveName]);
    assert Strings.Join([archiveName], "/") == archiveName;
    assert [Constants.DockerInstallDir] + [archiveName] == [Constants.DockerInstallDir, archiveName];
    assert Constants.DockerInstallDir + "/" == "/INSTALL/";
  }

  /** The archive of the install directory that the download step asks for. */
  lemma InstallArchiveCmdLine(archiveName: string)
    requires Paths.IsPlainSegment(archiveName)
    ensures ConstructCmdLine(Tar(archiveName, Constants.DockerInstallDir)) ==
      ["tar cvf /INSTALL/" + archiveName + " -C /INSTALL ."]
  {
    InstallJoin(archiveName);
    var head := "tar cvf /INSTALL/" + archiveName;
    assert "tar cvf " + ("/INSTALL/" + archiveName) == head;
    assert " -C " + Constants.DockerInstallDir + " ." == " -C /INSTALL .";
    assert head + " -C " + Constants.DockerInstallDir + " ." == head + (" -C " + Constants.DockerInstallDir + " .");
  }

  /** Initialising with both arguments set passes the checks. */
  lemma InitializedIsValid(t: Tar, args: TarInitArgs)
    requires args.archiveName != "" && args.sourceDir != ""
    ensures CheckPrerequisites(FillDynamic(FillDefault(t), args).0).Pass?
  {
  }
}
