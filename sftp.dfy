/**
 * Downloading the container's install directory: it is packed remotely
 * with tar, the archive is fetched over SFTP into an empty local
 * directory, unpacked there and removed.
 */
module SFTP {
  import opened Wrappers
  import Strings
  import Constants
  import Tar

  const ArchiveName := "install_arch.tar"
  const ArchiveNameSep := "/" + ArchiveName

  datatype SFTP = SFTP(remoteDir: string, emptyLocalDir: string)

  predicate NoDoubleSlash(s: string)
  {
    forall i :: 0 <= i < |s| - 1 ==> !(s[i] == '/' && s[i + 1] == '/')
  }

  /** The characters other than '/', in order. */
  function WithoutSlashes(s: string): string
  {
    if s == [] then "" else (if s[0] == '/' then "" else [s[0]]) + WithoutSlashes(s[1..])
  }

  /**
   * normalizePath: every run of two or more '/' becomes one '/'.  The
   * pattern `[/]{2,}` always compiles, so its error result never occurs.
   */
  function NormalizePath(p: string): (r: string)
    ensures |r| <= |p|
    ensures p != "" ==> r != "" && r[0] == p[0]
    ensures NoDoubleSlash(r)
    ensures WithoutSlashes(r) == WithoutSlashes(p)
  {
    if p == [] then []
    else if |p| >= 2 && p[0] == '/' && p[1] == '/' then NormalizePath(p[1..])
    else
      var rest := NormalizePath(p[1..]);
      var r := [p[0]] + rest;
      assert r[1..] == rest;
      r
  }

  /** A path without "//" is left alone, so normalizing twice is normalizing once. */
  lemma {:induction false} NormalizeFixed(p: string)
    requires NoDoubleSlash(p)
    ensures NormalizePath(p) == p
  {
    if p != [] {
      assert NoDoubleSlash(p[1..]) by {
        forall i | 0 <= i < |p[1..]| - 1 ensures !(p[1..][i] == '/' && p[1..][i + 1] == '/') {
          assert p[1..][i] == p[i + 1] && p[1..][i + 1] == p[i + 2];
        }
      }
      NormalizeFixed(p[1..]);
      assert [p[0]] + p[1..] == p;
    }
  }

  /**
   * Two slashes normalise like one wherever they stand; with NormalizeFixed
   * this pins NormalizePath down: collapsing the pairs one by one ends in a
   * path without "//", which is the result.
   */
  lemma {:induction false} NormalizeDoubled(x: string, y: string)
    ensures NormalizePath(x + "//" + y) == NormalizePath(x + "/" + y)
  {
    var p := x + "//" + y;
    var q := x + "/" + y;
    if x == [] {
      assert p[1..] == q;
    } else {
      NormalizeDoubled(x[1..], y);
      assert p[1..] == x[1..] + "//" + y;
      assert q[1..] == x[1..] + "/" + y;
      assert p[0] == q[0] && p[1] == q[1];
    }
  }

  lemma NormalizeIdempotent(p: string)
    ensures NormalizePath(NormalizePath(p)) == NormalizePath(p)
  {
    NormalizeFixed(NormalizePath(p));
  }

  /** The archive DownloadDirectory asks the container to build. */
  function ArchiveTar(): (r: Tar.Tar)
    ensures Tar.CheckPrerequisites(r).Pass?
  {
    Tar.Tar(ArchiveName, Constants.DockerInstallDir)
  }

  function RemoteArchive(s: SFTP): string { s.remoteDir + ArchiveNameSep }
  function LocalArchive(s: SFTP): string { s.emptyLocalDir + ArchiveNameSep }

  /** What Lstat reports about the remote archive. */
  datatype Stat = Missing | StatError(msg: string) | Present

  /** The outcomes of the steps DownloadDirectory takes, each an effect outside the model. */
  datatype Effects = Effects(
    archive: Outcome,     // the tar run over SSH
    login: Outcome,       // the retried SSH login
    client: Outcome,      // opening the SFTP client
    localExists: bool,
    localEntries: nat,
    remoteStat: Stat,
    open: Outcome,        // opening the remote archive
    create: Outcome,      // creating the local file
    copy: Outcome,        // copying and closing
    unarchive: Outcome,
    remove: Outcome)

  datatype Action =
    | ArchiveRemotely(commands: seq<string>)
    | Login
    | OpenClient
    | Download(remote: string, local: string)
    | Unarchive(archive: string, dir: string)
    | RemoveArchive(path: string)
    | CloseClient

  /** copyFile: the remote file must exist and be readable, the local one creatable. */
  function CopyFile(remote: string, local: string, fx: Effects): (r: (Outcome, seq<Action>))
    ensures r.0.Pass? <==> fx.remoteStat.Present? && fx.open.Pass? && fx.create.Pass? && fx.copy.Pass?
    ensures fx.remoteStat.Missing? ==> r == (Fail("requested remote file " + remote + " does not exist"), [])
    ensures r.1 == [] || r.1 == [Download(remote, NormalizePath(local))]
    ensures r.0.Pass? ==> r.1 == [Download(remote, NormalizePath(local))]
  {
    match fx.remoteStat
    case Missing => (Fail("requested remote file " + remote + " does not exist"), [])
    case StatError(m) => (Fail("error retrieving " + remote + " remote file info: " + m), [])
    case Present =>
      if !fx.open.Pass? then (Fail("cannot open file for read - " + remote + "," + fx.open.msg), [])
      else if !fx.create.Pass? then (fx.create, [])
      else (fx.copy, [Download(remote, NormalizePath(local))])
  }

  /** The steps after the SFTP client is open; the client is closed on every way out. */
  function Fetch(s: SFTP, fx: Effects): (r: (Outcome, seq<Action>))
    ensures |r.1| >= 1 && r.1[|r.1| - 1] == CloseClient
    ensures r.0.Pass? <==> (fx.localExists && fx.localEntries == 0
      && CopyFile(RemoteArchive(s), LocalArchive(s), fx).0.Pass? && fx.unarchive.Pass? && fx.remove.Pass?)
    ensures !fx.localExists || fx.localEntries != 0 ==> r.1 == [CloseClient]
    ensures r.0.Pass? ==> r.1 == [Download(RemoteArchive(s), NormalizePath(LocalArchive(s))),
      Unarchive(LocalArchive(s), s.emptyLocalDir), RemoveArchive(LocalArchive(s)), CloseClient]
  {
    if !fx.localExists then (Fail("EmptyLocalDir '" + s.emptyLocalDir + "' does not exist"), [CloseClient])
    else if fx.localEntries != 0 then (Fail("local directory '" + s.emptyLocalDir + "' is not empty"), [CloseClient])
    else
      var local := LocalArchive(s);
      var copied := CopyFile(RemoteArchive(s), local, fx);
      if !copied.0.Pass? then (Fail("cannot copy recursive " + copied.0.msg), copied.1 + [CloseClient])
      else
        var fetched := copied.1 + [Unarchive(local, s.emptyLocalDir)];
        if !fx.unarchive.Pass? then (Fail("cannot unarchive tar archive locally - " + fx.unarchive.msg), fetched + [CloseClient])
        else if !fx.remove.Pass? then
          (Fail("cannot remove local archive " + local + ": " + fx.remove.msg), fetched + [RemoveArchive(local), CloseClient])
        else (Pass, fetched + [RemoveArchive(local), CloseClient])
  }

  /** DownloadDirectory: the error and the steps taken, in order. */
  function DownloadDirectory(s: SFTP, fx: Effects): (r: (Outcome, seq<Action>))
    ensures |r.1| >= 1 && r.1[0] == ArchiveRemotely(Tar.ConstructCmdLine(ArchiveTar()))
    ensures !fx.archive.Pass? ==> r.0 == Fail("cannot archive " + Constants.DockerInstallDir + " dir in docker container - " + fx.archive.msg) && |r.1| == 1
    ensures fx.archive.Pass? && !fx.login.Pass? ==> r.0 == Fail("SFTP DownloadDirectory error - " + fx.login.msg) && r.1[1..] == [Login]
    ensures fx.archive.Pass? && fx.login.Pass? ==>
      if fx.client.Pass? then r.0 == Fetch(s, fx).0 && r.1[1..] == [Login, OpenClient] + Fetch(s, fx).1
      else r.0 == Fail("SFTP DownloadDirectory problem - " + fx.client.msg) && r.1[1..] == [Login, OpenClient]
  {
    var tarRun := [ArchiveRemotely(Tar.ConstructCmdLine(ArchiveTar()))];
    if !fx.archive.Pass? then
      (Fail("cannot archive " + Constants.DockerInstallDir + " dir in docker container - " + fx.archive.msg), tarRun)
    else if !fx.login.Pass? then (Fail("SFTP DownloadDirectory error - " + fx.login.msg), tarRun + [Login])
    else if !fx.client.Pass? then (Fail("SFTP DownloadDirectory problem - " + fx.client.msg), tarRun + [Login, OpenClient])
    else
      var fetched := Fetch(s, fx);
      var rest := [Login, OpenClient] + fetched.1;
      var steps := tarRun + rest;
      assert steps[1..] == rest by {
        assert forall i :: 0 <= i < |rest| ==> steps[1..][i] == rest[i];
      }
      (fetched.0, steps)
  }

  /** DownloadDirectory succeeds exactly when every step does and the local directory exists and is empty. */
  lemma DownloadSucceeds(s: SFTP, fx: Effects)
    ensures DownloadDirectory(s, fx).0.Pass? <==>
      fx.archive.Pass? && fx.login.Pass? && fx.client.Pass? && fx.localExists && fx.localEntries == 0 &&
      fx.remoteStat.Present? && fx.open.Pass? && fx.create.Pass? && fx.copy.Pass? && fx.unarchive.Pass? && fx.remove.Pass?
  {
  }

  /** A missing or non-empty local directory stops the download before anything is fetched, after the remote tar ran. */
  lemma LocalDirCheckedFirst(s: SFTP, fx: Effects)
    requires fx.archive.Pass? && fx.login.Pass? && fx.client.Pass?
    requires !fx.localExists || fx.localEntries != 0
    ensures !DownloadDirectory(s, fx).0.Pass?
    ensures forall i :: 0 <= i < |DownloadDirectory(s, fx).1| ==> !DownloadDirectory(s, fx).1[i].Download?
  {
    var tarRun := [ArchiveRemotely(Tar.ConstructCmdLine(ArchiveTar()))];
    assert Fetch(s, fx).1 == [CloseClient];
    assert DownloadDirectory(s, fx).1 == tarRun + ([Login, OpenClient] + [CloseClient]);
  }

  /** A full download fetches the remote archive into the local directory, unpacks it and only then removes it. */
  lemma SuccessfulSteps(s: SFTP, fx: Effects)
    requires DownloadDirectory(s, fx).0.Pass?
    ensures DownloadDirectory(s, fx).1 == [ArchiveRemotely(Tar.ConstructCmdLine(ArchiveTar())), Login, OpenClient,
      Download(RemoteArchive(s), NormalizePath(LocalArchive(s))), Unarchive(LocalArchive(s), s.emptyLocalDir),
      RemoveArchive(LocalArchive(s)), CloseClient]
  {
    DownloadSucceeds(s, fx);
    var tarRun := [ArchiveRemotely(Tar.ConstructCmdLine(ArchiveTar()))];
    var fetched := [Download(RemoteArchive(s), NormalizePath(LocalArchive(s))), Unarchive(LocalArchive(s), s.emptyLocalDir),
      RemoveArchive(LocalArchive(s)), CloseClient];
    assert Fetch(s, fx).1 == fetched;
    assert DownloadDirectory(s, fx).1 == tarRun + ([Login, OpenClient] + fetched);
  }

  /** The remote command is the single tar line over the install directory. */
  lemma ArchiveCommands()
    ensures Tar.ConstructCmdLine(ArchiveTar()) == ["tar cvf /INSTALL/" + ArchiveName + " -C /INSTALL ."]
  {
    assert '/' !in ArchiveName;
    Tar.InstallArchiveCmdLine(ArchiveName);
  }

  /** A missing remote archive is an error, after the local directory was found empty. */
  lemma MissingRemoteArchive(s: SFTP, fx: Effects)
    requires fx.archive.Pass? && fx.login.Pass? && fx.client.Pass? && fx.localExists && fx.localEntries == 0
    requires fx.remoteStat.Missing?
    ensures DownloadDirectory(s, fx).0 == Fail("cannot copy recursive requested remote file " + RemoteArchive(s) + " does not exist")
  {
    var missing := "requested remote file " + RemoteArchive(s) + " does not exist";
    assert CopyFile(RemoteArchive(s), LocalArchive(s), fx).0 == Fail(missing);
    assert Fetch(s, fx).0 == Fail("cannot copy recursive " + missing);
    assert "cannot copy recursive " + "requested remote file " == "cannot copy recursive requested remote file ";
    assert "cannot copy recursive " + missing == "cannot copy recursive requested remote file " + RemoteArchive(s) + " does not exist";
  }
}
