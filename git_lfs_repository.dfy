/**
 * The package repository kept in a Git LFS working tree.
 *
 * Archives live at `<repo>/<distro>/<release>/<machine>/<package>/<name>.zip`.
 * The repository is checked before a build (it exists, it is a git
 * repository, `git status` is clean), committed or restored afterwards, and
 * its contents can be compared with the package definitions: every archive
 * in the tree must be expected by some definition, while an expected
 * archive that is missing is only worth a warning.
 */
module GitLFSRepository {
  import opened Wrappers
  import Strings
  import Paths
  import Collections
  import PKG = Package

  const GitExecutablePath := "/usr/bin/git"
  /** How many paths a message lists at most. */
  const ListFileCount := 10

  /** What running one git command produced: a working directory lookup, the start, the exit code, stdout. */
  datatype GitRun = GitRun(cwd: Option<string>, started: bool, exitCode: int, output: string)

  /** A git process as prepareAndRun sets it up: the directory it runs in and its argv. */
  datatype Invocation = Invocation(dir: string, argv: seq<string>)

  /**
   * prepareAndRun: git runs in the repository, a relative repository path
   * being taken from the working directory; success means it started and
   * exited with status 0: cmd.Run reports every other ending as an error,
   * a death by signal (exit code -1) included, so the later test of a
   * positive exit code never decides anything.  The invocation is None when
   * the working directory cannot be found and nothing is run.
   */
  function PrepareAndRun(repoPath: string, cmdline: seq<string>, run: GitRun): (r: (bool, Option<Invocation>, string))
    ensures r.0 <==> r.1.Some? && run.started && run.exitCode == 0
    ensures r.1.Some? ==> r.1.value.argv == [GitExecutablePath] + cmdline
    ensures r.1.Some? && |repoPath| > 0 && repoPath[0] == '/' ==> r.1.value.dir == repoPath
    ensures r.1.None? <==> (repoPath == "" || repoPath[0] != '/') && run.cwd.None?
  {
    var dir: Option<string> :=
      if |repoPath| > 0 && repoPath[0] == '/' then Some(repoPath)
      else if run.cwd.None? then None
      else Some(Paths.Join([run.cwd.value, repoPath]));
    if dir.None? then (false, None, "")
    else
      var inv := Invocation(dir.value, [GitExecutablePath] + cmdline);
      (run.started && run.exitCode == 0, Some(inv), if run.started then run.output else "")
  }

  const StatusCmd := ["status", "-s"]
  const AddCmd := ["add", "*"]
  const CommitCmd := ["commit", "-m", "Build packages"]
  const RestoreCmd := ["restore", "."]

  /** The directories a check of the repository looks at. */
  datatype RepoState = RepoState(repoExists: bool, gitDirExists: bool)

  function NotExistMessage(repoPath: string): string
  {
    "package repository '" + repoPath + "' does not exist"
  }

  function NotGitMessage(repoPath: string): string
  {
    "package repository '" + repoPath + "' is not a git repository"
  }

  const DirtyMessage := "sorry, but the given git root does not have empty `git status`. clean up changes and try again"

  /**
   * CheckPrerequisites: the repository must exist, contain `.git` and show
   * an empty `git status -s`; a failing status command counts as not empty.
   */
  function CheckPrerequisites(repoPath: string, state: RepoState, status: GitRun): (r: Outcome)
    ensures r.Pass? <==> state.repoExists && state.gitDirExists && PrepareAndRun(repoPath, StatusCmd, status).0 && PrepareAndRun(repoPath, StatusCmd, status).2 == ""
    ensures !state.repoExists ==> r == Fail(NotExistMessage(repoPath))
    ensures state.repoExists && !state.gitDirExists ==> r == Fail(NotGitMessage(repoPath))
    ensures !r.Abort?
  {
    if !state.repoExists then Fail(NotExistMessage(repoPath))
    else if !state.gitDirExists then Fail(NotGitMessage(repoPath))
    else
      var st := PrepareAndRun(repoPath, StatusCmd, status);
      if !st.0 || st.2 != "" then Fail(DirtyMessage) else Pass
  }

  /** The invocations a sequence of runs issued, in order. */
  function Issued(runs: seq<Option<Invocation>>): seq<Invocation>
  {
    if runs == [] then [] else (if runs[0].Some? then [runs[0].value] else []) + Issued(runs[1..])
  }

  /** CommitAllChanges: `git add *`, then `git commit -m "Build packages"` only when the add succeeded. */
  function CommitAllChanges(repoPath: string, add: GitRun, commit: GitRun): (r: (Outcome, seq<Option<Invocation>>))
    ensures !PrepareAndRun(repoPath, AddCmd, add).0 ==> r == (Fail("cannot add changes"), [PrepareAndRun(repoPath, AddCmd, add).1])
    ensures PrepareAndRun(repoPath, AddCmd, add).0 ==>
      r.1 == [PrepareAndRun(repoPath, AddCmd, add).1, PrepareAndRun(repoPath, CommitCmd, commit).1] &&
      (r.0.Pass? <==> PrepareAndRun(repoPath, CommitCmd, commit).0) &&
      (r.0.Fail? ==> r.0.msg == "cannot commit changes")
    ensures !r.0.Abort?
  {
    var a := PrepareAndRun(repoPath, AddCmd, add);
    if !a.0 then (Fail("cannot add changes"), [a.1])
    else
      var c := PrepareAndRun(repoPath, CommitCmd, commit);
      (if c.0 then Pass else Fail("cannot commit changes"), [a.1, c.1])
  }

  /** RestoreAllChanges: only `git restore .`. */
  function RestoreAllChanges(repoPath: string, restore: GitRun): (r: (Outcome, Option<Invocation>))
    ensures r.0.Pass? <==> PrepareAndRun(repoPath, RestoreCmd, restore).0
    ensures r.0.Fail? ==> r.0.msg == "cannot restore changes"
    ensures r.1 == PrepareAndRun(repoPath, RestoreCmd, restore).1
    ensures !r.0.Abort?
  {
    var run := PrepareAndRun(repoPath, RestoreCmd, restore);
    (if run.0 then Pass else Fail("cannot restore changes"), run.1)
  }

  /** A successful commit issues exactly `git add *` and `git commit -m "Build packages"` in the repository. */
  lemma CommitIssuesAddThenCommit(repoPath: string, add: GitRun, commit: GitRun)
    requires |repoPath| > 0 && repoPath[0] == '/'
    requires CommitAllChanges(repoPath, add, commit).0.Pass?
    ensures Issued(CommitAllChanges(repoPath, add, commit).1) ==
      [Invocation(repoPath, [GitExecutablePath, "add", "*"]), Invocation(repoPath, [GitExecutablePath, "commit", "-m", "Build packages"])]
  {
    var runs := CommitAllChanges(repoPath, add, commit).1;
    var a := Invocation(repoPath, [GitExecutablePath] + AddCmd);
    var c := Invocation(repoPath, [GitExecutablePath] + CommitCmd);
    assert runs == [Some(a), Some(c)];
    assert runs[1..] == [Some(c)] && runs[1..][1..] == [];
    assert Issued(runs[1..]) == [c];
    assert [GitExecutablePath] + AddCmd == [GitExecutablePath, "add", "*"];
    assert [GitExecutablePath] + CommitCmd == [GitExecutablePath, "commit", "-m", "Build packages"];
  }

  /** createPackagePath: path.Join(repo, path.Join(distro, release, machine, name)). */
  function CreatePackagePath(repoPath: string, p: PKG.Package): string
  {
    var s := p.platformString.str;
    Paths.Join([repoPath, Paths.Join([s.distroName, s.distroRelease, s.machine, p.name])])
  }

  predicate PlainPackage(p: PKG.Package)
  {
    Paths.IsPlainSegment(p.platformString.str.distroName) && Paths.IsPlainSegment(p.platformString.str.distroRelease) &&
    Paths.IsPlainSegment(p.platformString.str.machine) && Paths.IsPlainSegment(p.name)
  }

  function Segments(p: PKG.Package): seq<string>
  {
    [p.platformString.str.distroName, p.platformString.str.distroRelease, p.platformString.str.machine, p.name]
  }

  /** path.Join of two elements, the first non-empty, is the cleaned text with one slash between them. */
  lemma JoinTwo(a: string, b: string)
    requires a != ""
    ensures Paths.Join([a, b]) == Paths.Clean(a + "/" + b)
  {
    assert Paths.FirstNonEmpty([a, b]) == 0;
    assert [a, b][0..] == [a, b];
    Strings.Join2(a, b, "/");
  }

  /** Cleaning `dir/` followed by plain elements, under a cleaned absolute dir, changes nothing. */
  lemma CleanUnder(dir: string, segs: seq<string>)
    requires Paths.IsCleanAbsolute(dir)
    requires |segs| >= 1 && forall i :: 0 <= i < |segs| ==> Paths.IsPlainSegment(segs[i])
    ensures Paths.Clean(dir + "/" + Strings.Join(segs, "/")) == dir + "/" + Strings.Join(segs, "/")
  {
    Paths.JoinUnderAbsolute(dir, segs);
    assert Paths.FirstNonEmpty([dir] + segs) == 0;
    assert ([dir] + segs)[0..] == [dir] + segs;
    Strings.JoinAppend([dir], segs, "/");
  }

  /** path.Join(dir, path.Join(segs...)) under a cleaned absolute dir is plain concatenation. */
  lemma {:induction false} NestedJoin(dir: string, segs: seq<string>)
    requires Paths.IsCleanAbsolute(dir)
    requires |segs| >= 1 && forall i :: 0 <= i < |segs| ==> Paths.IsPlainSegment(segs[i])
    ensures Paths.Join([dir, Paths.Join(segs)]) == dir + "/" + Strings.Join(segs, "/")
  {
    Paths.JoinPlain(segs);
    JoinTwo(dir, Strings.Join(segs, "/"));
    CleanUnder(dir, segs);
  }

  /** The same under a relative directory that is one plain element. */
  lemma {:induction false} NestedJoinRelative(dir: string, segs: seq<string>)
    requires Paths.IsPlainSegment(dir)
    requires |segs| >= 1 && forall i :: 0 <= i < |segs| ==> Paths.IsPlainSegment(segs[i])
    ensures Paths.Join([dir, Paths.Join(segs)]) == dir + "/" + Strings.Join(segs, "/")
  {
    Paths.JoinPlain(segs);
    var all := [dir] + segs;
    assert forall i :: 0 <= i < |all| ==> Paths.IsPlainSegment(all[i]);
    Paths.JoinPlain(all);
    Strings.JoinAppend([dir], segs, "/");
    JoinTwo(dir, Strings.Join(segs, "/"));
    assert Paths.FirstNonEmpty(all) == 0 && all[0..] == all;
  }

  /**
   * The package directory is `<repo>/<distro>/<release>/<machine>/<name>`
   * exactly, for a cleaned absolute repository and plain parts.
   */
  lemma PackagePathUnderAbsolute(repoPath: string, p: PKG.Package)
    requires Paths.IsCleanAbsolute(repoPath) && PlainPackage(p)
    ensures CreatePackagePath(repoPath, p) == repoPath + "/" + p.platformString.str.distroName + "/" +
      p.platformString.str.distroRelease + "/" + p.platformString.str.machine + "/" + p.name
  {
    var segs := Segments(p);
    NestedJoin(repoPath, segs);
    Strings.Join4(segs[0], segs[1], segs[2], segs[3], "/");
  }

  /** The same for a relative repository given as one plain element. */
  lemma PackagePathUnderRelative(repoPath: string, p: PKG.Package)
    requires Paths.IsPlainSegment(repoPath) && PlainPackage(p)
    ensures CreatePackagePath(repoPath, p) == repoPath + "/" + p.platformString.str.distroName + "/" +
      p.platformString.str.distroRelease + "/" + p.platformString.str.machine + "/" + p.name
  {
    var segs := Segments(p);
    NestedJoinRelative(repoPath, segs);
    Strings.Join4(segs[0], segs[1], segs[2], segs[3], "/");
  }

  /** The archive a package is expected at: filepath.Join(packagePath + "/" + fullName + ".zip"). */
  function ExpectedPath(repoPath: string, p: PKG.Package, fullName: string): string
  {
    Paths.Join([CreatePackagePath(repoPath, p) + "/" + fullName + ".zip"])
  }

  /** A file name appended to a nested join under a cleaned absolute dir survives filepath.Join unchanged. */
  lemma {:induction false} FileUnder(dir: string, segs: seq<string>, file: string)
    requires Paths.IsCleanAbsolute(dir) && Paths.IsPlainSegment(file)
    requires |segs| >= 1 && forall i :: 0 <= i < |segs| ==> Paths.IsPlainSegment(segs[i])
    ensures Paths.Join([Paths.Join([dir, Paths.Join(segs)]) + "/" + file]) == Paths.Join([dir, Paths.Join(segs)]) + "/" + file
  {
    NestedJoin(dir, segs);
    Strings.JoinAppend(segs, [file], "/");
    var all := segs + [file];
    assert forall i :: 0 <= i < |all| ==> Paths.IsPlainSegment(all[i]);
    CleanUnder(dir, all);
    var x := Paths.Join([dir, Paths.Join(segs)]) + "/" + file;
    assert x == dir + "/" + Strings.Join(all, "/");
    assert Paths.FirstNonEmpty([x]) == 0 && [x][0..] == [x];
  }

  /** Under a cleaned absolute repository the expected archive is the package directory, a slash and the file name. */
  lemma ExpectedPathShape(repoPath: string, p: PKG.Package, fullName: string)
    requires Paths.IsCleanAbsolute(repoPath) && PlainPackage(p) && Paths.IsPlainSegment(fullName + ".zip")
    ensures ExpectedPath(repoPath, p, fullName) == CreatePackagePath(repoPath, p) + "/" + fullName + ".zip"
  {
    var dir := CreatePackagePath(repoPath, p);
    FileUnder(repoPath, Segments(p), fullName + ".zip");
    assert dir == Paths.Join([repoPath, Paths.Join(Segments(p))]);
    assert dir + "/" + fullName + ".zip" == dir + "/" + (fullName + ".zip");
  }

  /** How many of the definitions loaded. */
  function SomeCount(configs: seq<Option<PKG.Package>>): nat
  {
    if configs == [] then 0 else (if configs[0].Some? then 1 else 0) + SomeCount(configs[1..])
  }

  /**
   * getPackages: the packages of every definition that could be loaded, in
   * the order they were listed, with the platform string replaced by the
   * one of the build.  A definition that fails to load is skipped.
   */
  function LoadedPackages(configs: seq<Option<PKG.Package>>, platform: PKG.PS.PlatformString): (r: seq<PKG.Package>)
    ensures |r| == SomeCount(configs) <= |configs|
    ensures forall i :: 0 <= i < |r| ==> r[i].platformString == platform
    ensures (forall i :: 0 <= i < |configs| ==> configs[i].Some?) ==> |r| == |configs|
  {
    if configs == [] then []
    else
      (if configs[0].Some? then [configs[0].value.(platformString := platform)] else []) + LoadedPackages(configs[1..], platform)
  }

  /**
   * The definition at `k` that loaded is the package at the position
   * counting the loaded ones before it: with the length above, the result
   * is the loaded packages, in order, and nothing else.
   */
  lemma {:induction false} LoadedPackagesAt(configs: seq<Option<PKG.Package>>, platform: PKG.PS.PlatformString, k: nat)
    requires k < |configs| && configs[k].Some?
    ensures SomeCount(configs[..k]) < |LoadedPackages(configs, platform)|
    ensures LoadedPackages(configs, platform)[SomeCount(configs[..k])] == configs[k].value.(platformString := platform)
  {
    if k > 0 {
      LoadedPackagesAt(configs[1..], platform, k - 1);
      assert configs[..k][1..] == configs[1..][..k - 1];
    } else {
      assert configs[..k] == [];
    }
  }

  /** The packages CheckGitLfsConsistency compares with: none when the definitions cannot be listed, whose error it drops. */
  function ListedPackages(listing: Option<seq<Option<PKG.Package>>>, platform: PKG.PS.PlatformString): (r: seq<PKG.Package>)
    ensures listing.None? ==> r == []
    ensures listing.Some? ==> r == LoadedPackages(listing.value, platform)
  {
    if listing.Some? then LoadedPackages(listing.value, platform) else []
  }

  /** The expected archive of every package, in order. */
  function ExpectedPaths(repoPath: string, packs: seq<PKG.Package>, fullName: PKG.Package -> string): (r: seq<string>)
    ensures |r| == |packs|
    ensures forall i :: 0 <= i < |packs| ==> r[i] == ExpectedPath(repoPath, packs[i], fullName(packs[i]))
  {
    if packs == [] then [] else [ExpectedPath(repoPath, packs[0], fullName(packs[0]))] + ExpectedPaths(repoPath, packs[1..], fullName)
  }

  /** What the directory walk hands to its callback: a path, its last element and whether it is a directory. */
  datatype Entry = Entry(path: string, name: string, isDir: bool)

  predicate IsGitDir(e: Entry)
  {
    e.isDir && e.name == ".git"
  }

  /** `path` lies inside one of the directories in `dirs`. */
  predicate Inside(path: string, dirs: seq<string>)
  {
    exists i :: 0 <= i < |dirs| && Strings.HasPrefix(path, dirs[i] + "/")
  }

  /**
   * The entries filepath.WalkDir delivers, in walk order: the callback
   * answers SkipDir for a `.git` directory, so nothing inside one that has
   * been delivered is delivered afterwards.
   */
  function Delivered(entries: seq<Entry>, skipped: seq<string>): (r: seq<Entry>)
    ensures |r| <= |entries|
    ensures forall i :: 0 <= i < |r| ==> r[i] in entries && !Inside(r[i].path, skipped)
  {
    if entries == [] then []
    else
      var e := entries[0];
      if Inside(e.path, skipped) then Delivered(entries[1..], skipped)
      else
        InsideExtend(skipped, e.path);
        [e] + Delivered(entries[1..], if IsGitDir(e) then skipped + [e.path] else skipped)
  }

  /** Inside a directory of a list is inside it once the list grows. */
  lemma InsideExtend(dirs: seq<string>, d: string)
    ensures forall x :: Inside(x, dirs) ==> Inside(x, dirs + [d])
  {
    forall x | Inside(x, dirs) ensures Inside(x, dirs + [d]) {
      var i :| 0 <= i < |dirs| && Strings.HasPrefix(x, dirs[i] + "/");
      assert (dirs + [d])[i] == dirs[i];
    }
  }

  /** The paths of the files among the delivered entries. */
  function Files(entries: seq<Entry>): (r: seq<string>)
    ensures |r| <= |entries|
  {
    if entries == [] then [] else (if entries[0].isDir then [] else [entries[0].path]) + Files(entries[1..])
  }

  /**
   * Going through the found files in order, each one takes away one copy of
   * itself from the expected paths, and one that finds none left is an
   * error path.  The result is what is left expected and the error paths;
   * as multisets both are differences.
   */
  function Consume(expected: multiset<string>, found: seq<string>): (r: (multiset<string>, seq<string>))
    ensures |r.1| <= |found|
    ensures forall i :: 0 <= i < |r.1| ==> r.1[i] in found
  {
    if found == [] then (expected, [])
    else
      var f := found[0];
      if f in expected then Consume(expected - multiset{f}, found[1..])
      else
        var c := Consume(expected, found[1..]);
        (c.0, [f] + c.1)
  }

  /** What is left expected and the error paths are the two multiset differences. */
  lemma {:induction false} ConsumeMultiset(expected: multiset<string>, found: seq<string>)
    ensures Consume(expected, found).0 == expected - multiset(found)
    ensures multiset(Consume(expected, found).1) == multiset(found) - expected
  {
    if found != [] {
      var f := found[0];
      assert found == [f] + found[1..];
      if f in expected {
        ConsumeMultiset(expected - multiset{f}, found[1..]);
      } else {
        ConsumeMultiset(expected, found[1..]);
      }
    }
  }

  /** With nothing expected, every file found is an error path. */
  lemma {:induction false} ConsumeNothing(found: seq<string>)
    ensures Consume(multiset{}, found) == (multiset{}, found)
  {
    if found != [] {
      ConsumeNothing(found[1..]);
      assert found == [found[0]] + found[1..];
    }
  }

  /** With no path found twice, a file is an error path iff it is not expected at all. */
  lemma {:induction false} ConsumeDistinct(expected: multiset<string>, found: seq<string>)
    requires Collections.NoDuplicates(found)
    ensures forall f :: f in Consume(expected, found).1 <==> f in found && f !in expected
  {
    if found != [] {
      var g := found[0];
      var rest := found[1..];
      assert found == [g] + rest;
      assert g !in rest;
      assert Collections.NoDuplicates(rest) by {
        forall i, j | 0 <= i < j < |rest| ensures rest[i] != rest[j] {
          assert rest[i] == found[i + 1] && rest[j] == found[j + 1];
        }
      }
      if g in expected {
        ConsumeDistinct(expected - multiset{g}, rest);
        forall f | f in rest ensures (f in expected - multiset{g}) <==> f in expected {
          assert f != g;
        }
      } else {
        ConsumeDistinct(expected, rest);
      }
    }
  }

  /** The first index of `x` in `s`, as slices.Index finds it. */
  function IndexOf(s: seq<string>, x: string): (r: nat)
    requires x in s
    ensures r < |s| && s[r] == x
    ensures forall j :: 0 <= j < r ==> s[j] != x
  {
    if s[0] == x then 0 else 1 + IndexOf(s[1..], x)
  }

  /** Overwriting an element with the last one and dropping the last removes one copy of that element. */
  lemma SwapRemove(s: seq<string>, idx: nat)
    requires idx < |s|
    ensures multiset(s[idx := s[|s| - 1]][..|s| - 1]) == multiset(s) - multiset{s[idx]}
  {
    var last := |s| - 1;
    var t := s[idx := s[last]];
    if idx == last {
      assert s == s[..last] + [s[last]];
      assert t[..last] == s[..last];
    } else {
      assert s == s[..idx] + [s[idx]] + s[idx + 1..last] + [s[last]];
      assert t[..last] == s[..idx] + [s[last]] + s[idx + 1..last];
    }
  }

  /**
   * The walk callback over every delivered entry: a file that is expected
   * is taken off `expected` by moving the last expected path into its
   * place; any other file is an error path.
   */
  method MatchFiles(entries: seq<Entry>, expected0: seq<string>) returns (errorPaths: seq<string>, expected: seq<string>)
    ensures errorPaths == Consume(multiset(expected0), Files(entries)).1
    ensures multiset(expected) == Consume(multiset(expected0), Files(entries)).0
  {
    ghost var all := Consume(multiset(expected0), Files(entries));
    errorPaths := [];
    expected := expected0;
    var i := 0;
    assert entries[0..] == entries;
    while i < |entries|
      invariant 0 <= i <= |entries|
      invariant all.0 == Consume(multiset(expected), Files(entries[i..])).0
      invariant all.1 == errorPaths + Consume(multiset(expected), Files(entries[i..])).1
    {
      var e := entries[i];
      assert entries[i..][1..] == entries[i + 1..];
      if !e.isDir {
        var rest := Files(entries[i + 1..]);
        assert Files(entries[i..]) == [e.path] + rest;
        assert ([e.path] + rest)[1..] == rest;
        var missing;
        ghost var before := multiset(expected);
        missing, expected := TakeOne(expected, e.path);
        if missing {
          assert multiset(expected) == before;
          assert Consume(before, [e.path] + rest) == (Consume(before, rest).0, [e.path] + Consume(before, rest).1);
          errorPaths := errorPaths + [e.path];
        } else {
          assert Consume(before, [e.path] + rest) == Consume(multiset(expected), rest);
        }
      } else {
        assert Files(entries[i..]) == Files(entries[i + 1..]);
      }
      i := i + 1;
    }
  }

  /** One file of the walk: remove one copy of it from the expected paths, or report that there is none. */
  method TakeOne(expected: seq<string>, path: string) returns (missing: bool, rest: seq<string>)
    ensures missing <==> path !in multiset(expected)
    ensures multiset(rest) == multiset(expected) - multiset{path}
  {
    if path !in expected {
      assert multiset(expected) - multiset{path} == multiset(expected);
      return true, expected;
    }
    var index := IndexOf(expected, path);
    SwapRemove(expected, index);
    rest := expected[index := expected[|expected| - 1]];
    rest := rest[..|rest| - 1];
    missing := false;
  }

  /** The first paths of a list, at most ListFileCount of them, as the listing loops log them. */
  method ListFirst(paths: seq<string>) returns (listed: seq<string>)
    ensures |paths| <= ListFileCount ==> listed == paths
    ensures |paths| > ListFileCount ==> listed == paths[..ListFileCount]
  {
    listed := [];
    var i := 0;
    while i < |paths|
      invariant 0 <= i <= |paths| && i <= ListFileCount
      invariant listed == paths[..i]
    {
      if i > ListFileCount - 1 {
        break;
      }
      listed := listed + [paths[i]];
      i := i + 1;
    }
  }

  const NotSubsetMessage := "packages in Git Lfs are not subset of packages in Json definitions"

  /** What printErrors logs: the error paths, or when there are none the expected paths left over. */
  datatype Report = Report(errors: seq<string>, warnings: seq<string>)

  /**
   * printErrors: any error path makes the check fail and lists the first
   * ten of them; otherwise missing archives are listed as a warning and
   * the check passes.
   */
  method PrintErrors(errorPaths: seq<string>, expected: seq<string>) returns (err: Outcome, report: Report)
    ensures err.Pass? <==> errorPaths == []
    ensures err.Fail? ==> err.msg == NotSubsetMessage
    ensures !err.Abort?
    ensures errorPaths != [] ==> report.warnings == [] && |report.errors| == (if |errorPaths| < ListFileCount then |errorPaths| else ListFileCount)
    ensures errorPaths != [] ==> report.errors == errorPaths[..|report.errors|]
    ensures errorPaths == [] ==> report.errors == [] && |report.warnings| == (if |expected| < ListFileCount then |expected| else ListFileCount)
    ensures errorPaths == [] ==> report.warnings == expected[..|report.warnings|]
  {
    if |errorPaths| > 0 {
      var listed := ListFirst(errorPaths);
      return Fail(NotSubsetMessage), Report(listed, []);
    }
    var warned: seq<string> := [];
    if |expected| > 0 {
      warned := ListFirst(expected);
    }
    return Pass, Report([], warned);
  }

  /** The loop of CheckGitLfsConsistency that lists the expected archive of every package. */
  method CollectExpectedPaths(repoPath: string, packs: seq<PKG.Package>, fullName: PKG.Package -> string)
    returns (expectedPackPaths: seq<string>)
    ensures expectedPackPaths == ExpectedPaths(repoPath, packs, fullName)
  {
    expectedPackPaths := [];
    var k := 0;
    while k < |packs|
      invariant 0 <= k <= |packs| && |expectedPackPaths| == k
      invariant forall i :: 0 <= i < k ==> expectedPackPaths[i] == ExpectedPath(repoPath, packs[i], fullName(packs[i]))
    {
      var path := ExpectedPath(repoPath, packs[k], fullName(packs[k]));
      expectedPackPaths := expectedPackPaths + [path];
      k := k + 1;
    }
  }

  /**
   * CheckGitLfsConsistency.  The packages come from getPackages on the
   * listing of the definitions; when that listing fails its error is
   * overwritten, nothing is expected and every file found is an error
   * path.  A walk that cannot start at the repository hands a nil entry
   * to a callback that asks for its name: a panic.
   */
  method CheckGitLfsConsistency(repoPath: string, listing: Option<seq<Option<PKG.Package>>>, platform: PKG.PS.PlatformString,
                                fullName: PKG.Package -> string, walk: Option<seq<Entry>>)
    returns (err: Outcome, report: Report, left: seq<string>)
    ensures walk.None? ==> err.Abort?
    ensures walk.Some? ==>
      var found := Files(Delivered(walk.value, []));
      var expected := multiset(ExpectedPaths(repoPath, ListedPackages(listing, platform), fullName));
      (err.Pass? <==> Consume(expected, found).1 == []) &&
      (err.Fail? ==>
        err.msg == NotSubsetMessage && |report.errors| <= |Consume(expected, found).1| &&
        report.errors == Consume(expected, found).1[..|report.errors|]) &&
      multiset(left) == Consume(expected, found).0 &&
      (err.Pass? ==>
        report.errors == [] && |report.warnings| == (if |left| < ListFileCount then |left| else ListFileCount) &&
        report.warnings == left[..|report.warnings|])
    ensures walk.Some? && listing.None? ==> (err.Pass? <==> Files(Delivered(walk.value, [])) == [])
  {
    var packs := ListedPackages(listing, platform);
    var expectedPackPaths := CollectExpectedPaths(repoPath, packs, fullName);
    if walk.None? {
      return Abort("invalid memory address or nil pointer dereference"), Report([], []), [];
    }
    var errorPackPaths;
    errorPackPaths, left := MatchFiles(Delivered(walk.value, []), expectedPackPaths);
    err, report := PrintErrors(errorPackPaths, left);
    if listing.None? {
      ConsumeNothing(Files(Delivered(walk.value, [])));
    }
  }

  lemma {:induction false} ExpectedPathsSnoc(repoPath: string, packs: seq<PKG.Package>, p: PKG.Package, fullName: PKG.Package -> string)
    ensures ExpectedPaths(repoPath, packs + [p], fullName) == ExpectedPaths(repoPath, packs, fullName) + [ExpectedPath(repoPath, p, fullName(p))]
  {
    if packs == [] {
      assert [] + [p] == [p];
    } else {
      assert (packs + [p])[1..] == packs[1..] + [p];
      ExpectedPathsSnoc(repoPath, packs[1..], p, fullName);
    }
  }

  /**
   * For a walk that never delivers a file twice, the check fails iff some
   * delivered file is not an expected archive; archives that are missing
   * never make it fail.
   */
  lemma ConsistentIff(repoPath: string, packs: seq<PKG.Package>, fullName: PKG.Package -> string, entries: seq<Entry>)
    requires Collections.NoDuplicates(Files(Delivered(entries, [])))
    ensures var found := Files(Delivered(entries, []));
      var expected := ExpectedPaths(repoPath, packs, fullName);
      Consume(multiset(expected), found).1 == [] <==> forall f :: f in found ==> f in expected
  {
    var found := Files(Delivered(entries, []));
    var expected := ExpectedPaths(repoPath, packs, fullName);
    ConsumeDistinct(multiset(expected), found);
    if Consume(multiset(expected), found).1 != [] {
      var f := Consume(multiset(expected), found).1[0];
      assert f in Consume(multiset(expected), found).1;
    }
  }

  /**
   * CopyToRepository: create the package directory, then the archive in
   * it; its result is the path of the archive.
   */
  function CopyToRepository(repoPath: string, p: PKG.Package, sourceExists: bool, mkdirOk: bool, zipOk: bool): (r: Result<string>)
    ensures !mkdirOk ==> r.Err?
    ensures r.Ok? <==> mkdirOk && PKG.CreatePackage(p, CreatePackagePath(repoPath, p), sourceExists, true, zipOk).Ok?
    ensures r.Ok? ==> r.value == CreatePackagePath(repoPath, p) + "/" + PKG.CreatePackageName(p).value + ".zip"
  {
    var dir := CreatePackagePath(repoPath, p);
    if !mkdirOk then Err("cannot create package directory")
    else PKG.CreatePackage(p, dir, sourceExists, true, zipOk)
  }

  /**
   * An archive that CopyToRepository wrote is where the consistency check
   * expects it, when the full package name is the archive name.
   */
  lemma CopiedIsExpected(repoPath: string, p: PKG.Package, sourceExists: bool, zipOk: bool, fullName: PKG.Package -> string)
    requires Paths.IsCleanAbsolute(repoPath) && PlainPackage(p)
    requires CopyToRepository(repoPath, p, sourceExists, true, zipOk).Ok?
    requires fullName(p) == PKG.CreatePackageName(p).value && Paths.IsPlainSegment(fullName(p) + ".zip")
    ensures CopyToRepository(repoPath, p, sourceExists, true, zipOk).value in ExpectedPaths(repoPath, [p], fullName)
  {
    ExpectedPathShape(repoPath, p, fullName(p));
    assert ExpectedPaths(repoPath, [p], fullName)[0] == ExpectedPath(repoPath, p, fullName(p));
  }
}
