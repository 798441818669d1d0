/**
 * A sysroot: the directory of installed packages that later builds see.
 * Copying a package into it never overwrites a file already there.  The
 * sysroot's files are held in memory as the set of their paths relative
 * to the sysroot directory.
 */
module Sysroot {
  import opened Wrappers
  import Strings
  import Paths
  import PS = PlatformString
  import BP = BuiltPackages

  /** listFilesCount: how many conflicting files are reported. */
  const ListFilesCount := 10

  /** One entry of a directory walk. */
  datatype WalkEntry = WalkEntry(path: string, isDir: bool, statOk: bool, walkError: bool)

  /** An entry getExistingFilesInDir keeps: a file that stats successfully. */
  predicate Kept(e: WalkEntry)
  {
    !e.isDir && e.statOk
  }

  /** The position of the first entry reporting an error, or the walk's length. */
  function FirstError(walk: seq<WalkEntry>): (r: nat)
    ensures r <= |walk|
    ensures forall j :: 0 <= j < r ==> !walk[j].walkError
    ensures r < |walk| ==> walk[r].walkError
  {
    if walk == [] || walk[0].walkError then 0 else 1 + FirstError(walk[1..])
  }

  /** How many entries of a walk are kept files. */
  function KeptCount(walk: seq<WalkEntry>): nat
  {
    if walk == [] then 0 else (if Kept(walk[0]) then 1 else 0) + KeptCount(walk[1..])
  }

  /**
   * getExistingFilesInDir: the files of a walk, with the directory prefix
   * trimmed, that stat successfully; an entry reporting an error ends the
   * walk.
   */
  function ExistingFiles(dirPath: string, walk: seq<WalkEntry>): (r: seq<string>)
    ensures |r| <= |walk|
    ensures forall f :: f in r ==> exists i :: 0 <= i < |walk| && !walk[i].isDir && walk[i].statOk && f == Strings.TrimPrefix(walk[i].path, dirPath)
    ensures (forall i :: 0 <= i < |walk| ==> !walk[i].walkError) ==>
      forall i :: 0 <= i < |walk| && !walk[i].isDir && walk[i].statOk ==> Strings.TrimPrefix(walk[i].path, dirPath) in r
  {
    if walk == [] || walk[0].walkError then []
    else
      var rest := ExistingFiles(dirPath, walk[1..]);
      assert forall i :: 1 <= i < |walk| ==> walk[1..][i - 1] == walk[i];
      if !walk[0].isDir && walk[0].statOk then [Strings.TrimPrefix(walk[0].path, dirPath)] + rest else rest
  }

  /**
   * The files before the first walk error are all there is: one per kept
   * entry before it.
   */
  lemma {:induction false} ExistingFilesLength(dirPath: string, walk: seq<WalkEntry>)
    ensures |ExistingFiles(dirPath, walk)| == KeptCount(walk[..FirstError(walk)])
  {
    if walk == [] || walk[0].walkError {
      assert walk[..0] == [];
    } else {
      ExistingFilesLength(dirPath, walk[1..]);
      assert walk[..FirstError(walk)] == [walk[0]] + walk[1..][..FirstError(walk[1..])];
    }
  }

  /**
   * In walk order: a kept entry before the first error sits after the kept
   * entries that precede it.
   */
  lemma {:induction false} ExistingFilesAt(dirPath: string, walk: seq<WalkEntry>, i: int)
    requires 0 <= i < FirstError(walk) && Kept(walk[i])
    ensures KeptCount(walk[..i]) < |ExistingFiles(dirPath, walk)|
    ensures ExistingFiles(dirPath, walk)[KeptCount(walk[..i])] == Strings.TrimPrefix(walk[i].path, dirPath)
  {
    if i == 0 {
      assert walk[..0] == [];
    } else {
      ExistingFilesAt(dirPath, walk[1..], i - 1);
      assert walk[..i] == [walk[0]] + walk[1..][..i - 1];
    }
  }

  /** The files to copy that the sysroot already has, in copying order, each as often as it is to be copied. */
  function Intersection(toCopy: seq<string>, inSysroot: set<string>): (r: seq<string>)
    ensures forall f :: f in r <==> f in toCopy && f in inSysroot
    ensures |r| <= |toCopy|
  {
    if toCopy == [] then []
    else (if toCopy[0] in inSysroot then [toCopy[0]] else []) + Intersection(toCopy[1..], inSysroot)
  }

  /** A conflicting file is reported as often as it is to be copied. */
  lemma {:induction false} IntersectionCount(toCopy: seq<string>, inSysroot: set<string>, f: string)
    ensures multiset(Intersection(toCopy, inSysroot))[f] == if f in inSysroot then multiset(toCopy)[f] else 0
  {
    if toCopy != [] {
      IntersectionCount(toCopy[1..], inSysroot, f);
      assert toCopy == [toCopy[0]] + toCopy[1..];
      var head := if toCopy[0] in inSysroot then [toCopy[0]] else [];
      assert multiset(head + Intersection(toCopy[1..], inSysroot)) == multiset(head) + multiset(Intersection(toCopy[1..], inSysroot));
    }
  }

  /** The intersection keeps copying order: it distributes over concatenation. */
  lemma {:induction false} IntersectionAppend(a: seq<string>, b: seq<string>, inSysroot: set<string>)
    ensures Intersection(a + b, inSysroot) == Intersection(a, inSysroot) + Intersection(b, inSysroot)
  {
    if a == [] {
      assert a + b == b;
    } else {
      var head := if a[0] in inSysroot then [a[0]] else [];
      assert (a + b)[0] == a[0] && (a + b)[1..] == a[1..] + b;
      assert Intersection(a + b, inSysroot) == head + Intersection(a[1..] + b, inSysroot);
      IntersectionAppend(a[1..], b, inSysroot);
      assert Intersection(a, inSysroot) == head + Intersection(a[1..], inSysroot);
    }
  }

  /** A single file is kept exactly when the sysroot has it. */
  lemma IntersectionOne(f: string, inSysroot: set<string>)
    ensures Intersection([f], inSysroot) == if f in inSysroot then [f] else []
  {
    assert [f][1..] == [];
  }

  /** The lines printOverwriteFilesError lists: at most n of the conflicting files. */
  function ReportedFiles(platform: string, problematic: seq<string>, n: int): (r: seq<string>)
    requires n >= 1
    ensures |r| == if |problematic| < n then |problematic| else n
    ensures forall i :: 0 <= i < |r| ==> r[i] == BP.SysrootDirectoryName + "/" + platform + problematic[i]
  {
    if problematic == [] then []
    else if n == 1 then [BP.SysrootDirectoryName + "/" + platform + problematic[0]]
    else [BP.SysrootDirectoryName + "/" + platform + problematic[0]] + ReportedFiles(platform, problematic[1..], n - 1)
  }

  /** The name of the sysroot directory: the platform string, with `_debug` for a debug sysroot. */
  function DirName(isDebug: bool, platform: string): string
  {
    platform + (if isDebug then "_debug" else "")
  }

  /** What a directory listing gives for its first entry. */
  datatype FirstEntry = NoEntries | Entry(name: string) | ReadDirError(msg: string)

  /** IsSysrootDirectoryEmpty: true when the directory cannot be opened or has no entries. */
  function IsDirectoryEmpty(opens: bool, first: FirstEntry): (r: bool)
    ensures r <==> !opens || first.NoEntries?
  {
    if !opens then true else first.NoEntries?
  }

  class Sysroot {
    var isDebug: bool
    var platformString: Option<PS.PlatformString>
    var builtPackages: BP.BuiltPackages
    /** The sysroot's files, relative to its directory. */
    var files: set<string>
    var dirExists: bool

    constructor(isDebug: bool, platformString: Option<PS.PlatformString>)
      ensures this.isDebug == isDebug && this.platformString == platformString
      ensures files == {} && !dirExists && fresh(builtPackages) && builtPackages.packages == []
    {
      this.isDebug := isDebug;
      this.platformString := platformString;
      builtPackages := new BP.BuiltPackages();
      files := {};
      dirExists := false;
    }

    /** CheckPrerequisites: only a missing platform string is refused. */
    function CheckPrerequisites(): (r: Outcome)
      reads this
      ensures r.Pass? <==> platformString.Some?
      ensures !r.Pass? ==> r == Fail("sysroot PlatformString cannot be nil")
    {
      if platformString.None? then Fail("sysroot PlatformString cannot be nil") else Pass
    }

    /**
     * GetSysrootPath under the working directory `cwd`: a nil platform
     * string or one that cannot be serialized panics.
     */
    function GetSysrootPath(cwd: string): (r: Result<string>)
      reads this
      ensures r.Ok? <==> platformString.Some? && PS.Serialize(platformString.value).Ok?
      ensures !r.Ok? ==> r.Panic?
      ensures r.Ok? ==> r.value == Paths.Join([cwd, BP.SysrootDirectoryName, DirName(isDebug, PS.Serialize(platformString.value).value)])
    {
      if platformString.None? then Panic("invalid memory address or nil pointer dereference")
      else
        var platform :- PS.Serialize(platformString.value);
        Ok(Paths.Join([cwd, BP.SysrootDirectoryName, DirName(isDebug, platform)]))
    }

    /**
     * CopyToSysroot: `sourceFiles` are the source's files relative to it,
     * `copy` the outcome of copying and `write` that of saving the list of
     * built packages.  Any file already in the sysroot is a conflict that
     * stops the copy before anything changes.
     */
    method CopyToSysroot(cwd: string, sourceFiles: seq<string>, packageName: string, copy: Outcome, write: Outcome)
      returns (err: Outcome, reported: seq<string>)
      modifies this, builtPackages
      ensures builtPackages == old(builtPackages)
      ensures isDebug == old(isDebug) && platformString == old(platformString) && dirExists == old(dirExists)
      ensures !GetSysrootPath(cwd).Ok? ==> err.Abort? && files == old(files) && builtPackages.packages == old(builtPackages.packages)
      ensures GetSysrootPath(cwd).Ok? && Intersection(sourceFiles, old(files)) != [] ==>
        err == Fail("trying to overwrite files in sysroot") && files == old(files) && builtPackages.packages == old(builtPackages.packages)
        && reported == ReportedFiles(PS.Serialize(platformString.value).value, Intersection(sourceFiles, old(files)), ListFilesCount)
      ensures GetSysrootPath(cwd).Ok? && Intersection(sourceFiles, old(files)) == [] && !copy.Pass? ==>
        err == copy && files == old(files) && builtPackages.packages == old(builtPackages.packages)
      ensures GetSysrootPath(cwd).Ok? && Intersection(sourceFiles, old(files)) == [] && copy.Pass? ==>
        err == write && files == old(files) + (set f | f in sourceFiles) && builtPackages.packages == old(builtPackages.packages) + [packageName]
    {
      reported := [];
      var path := GetSysrootPath(cwd);
      if !path.Ok? {
        err := path.ToOutcome();
        return;
      }
      var conflicts := Intersection(sourceFiles, files);
      if conflicts != [] {
        reported := ReportedFiles(PS.Serialize(platformString.value).value, conflicts, ListFilesCount);
        err := Fail("trying to overwrite files in sysroot");
        return;
      }
      if !copy.Pass? {
        err := copy;
        return;
      }
      files := files + set f | f in sourceFiles;
      var written, jsonPath;
      err, written, jsonPath := builtPackages.AddToBuiltPackages(packageName, write);
    }

    /** CreateSysrootDir: creates the directory only when it is missing; a failing mkdir panics. */
    method CreateSysrootDir(cwd: string, mkdir: Outcome) returns (err: Outcome)
      modifies this
      ensures isDebug == old(isDebug) && platformString == old(platformString) && files == old(files) && builtPackages == old(builtPackages)
      ensures !GetSysrootPath(cwd).Ok? ==> err.Abort? && dirExists == old(dirExists)
      ensures GetSysrootPath(cwd).Ok? && old(dirExists) ==> err == Pass && dirExists
      ensures GetSysrootPath(cwd).Ok? && !old(dirExists) ==> (err.Pass? <==> mkdir.Pass?) && (dirExists <==> mkdir.Pass?)
      ensures err.Pass? ==> dirExists
    {
      var path := GetSysrootPath(cwd);
      if !path.Ok? {
        err := path.ToOutcome();
        return;
      }
      if !dirExists {
        if !mkdir.Pass? {
          err := Abort("cannot create sysroot dir: '" + path.value + "'");
          return;
        }
        dirExists := true;
      }
      err := Pass;
    }
  }

  /** Copying the same package twice fails the second time: its files are already there. */
  method CopyTwiceConflicts(s: Sysroot, cwd: string, sourceFiles: seq<string>, name: string) returns (first: Outcome, second: Outcome)
    requires s.GetSysrootPath(cwd).Ok? && sourceFiles != []
    modifies s, s.builtPackages
    ensures first.Pass? ==> second == Fail("trying to overwrite files in sysroot")
  {
    var reported;
    first, reported := s.CopyToSysroot(cwd, sourceFiles, name, Pass, Pass);
    if first.Pass? {
      assert sourceFiles[0] in sourceFiles;
      assert sourceFiles[0] in s.files;
      assert sourceFiles[0] in Intersection(sourceFiles, s.files);
      second, reported := s.CopyToSysroot(cwd, sourceFiles, name, Pass, Pass);
    } else {
      second := first;
    }
  }

  /** Creating the directory a second time does nothing and succeeds. */
  method CreateTwice(s: Sysroot, cwd: string, mkdir: Outcome) returns (first: Outcome, second: Outcome)
    modifies s
    ensures first.Pass? ==> second == Pass
  {
    first := s.CreateSysrootDir(cwd, mkdir);
    second := s.CreateSysrootDir(cwd, Fail("not called"));
  }
}
