/**
 * A package description and the file name of the archive the packager
 * builds for it: `[lib]<name>[d][-dev]_<version>_<platform>.zip`.
 */
module Package {
  import opened Wrappers
  import Strings
  import PS = PlatformString

  datatype Package = Package(
    name: string,
    versionTag: string,
    platformString: PS.PlatformString,
    isLibrary: bool,
    isDevLib: bool,
    isDebug: bool)

  const DefaultPackageName := "generic-package"
  const DefaultVersionTag := "v0.0.0"

  /** FillDefault replaces the whole package with the defaults. */
  function FillDefault(p: Package): (r: Package)
    ensures r.name == DefaultPackageName && r.versionTag == DefaultVersionTag
    ensures !r.isDebug && r.isDevLib && r.isLibrary
    ensures r.platformString.mode == PS.ModeAuto && PS.AllEmpty(r.platformString.str)
  {
    Package(DefaultPackageName, DefaultVersionTag, PS.PlatformString(PS.ModeAuto, PS.PlatformStringExplicit("", "", "")), true, true, false)
  }

  predicate IsDigits(s: string)
  {
    s != "" && forall i :: 0 <= i < |s| ==> '0' <= s[i] <= '9'
  }

  /** `v<digits>.<digits>.<digits>` and nothing else. */
  predicate VersionTagText(s: string)
  {
    |s| >= 1 && s[0] == 'v' &&
    var parts := Strings.Split(s[1..], '.');
    |parts| == 3 && IsDigits(parts[0]) && IsDigits(parts[1]) && IsDigits(parts[2])
  }

  /** The text from `i` to `j` is a whole line of `s` and a version tag. */
  predicate VersionTagLine(s: string, i: int, j: int)
  {
    0 <= i <= j <= |s| && Strings.LineStart(s, i) && Strings.LineEnd(s, j) && VersionTagText(s[i..j])
  }

  /**
   * `^v[0-9]+\.[0-9]+\.[0-9]+$` compiled with CompilePOSIX, whose anchors
   * match at every line boundary: some line of the text is a version tag.
   */
  predicate IsVersionTag(s: string)
  {
    exists i, j :: 0 <= i <= j <= |s| && VersionTagLine(s, i, j)
  }

  /** On a text of one line, the whole text must be the version tag. */
  lemma IsVersionTagSingleLine(s: string)
    requires '\n' !in s
    ensures IsVersionTag(s) <==> VersionTagText(s)
  {
    if IsVersionTag(s) {
      var i, j :| 0 <= i <= j <= |s| && VersionTagLine(s, i, j);
      Strings.SingleLineAnchors(s, i, j);
      assert s[i..j] == s;
    }
    if VersionTagText(s) {
      assert s[0..|s|] == s;
      assert VersionTagLine(s, 0, |s|);
    }
  }

  /** A version tag followed by a newline, as a file or a command prints it, still passes. */
  lemma VersionTagWithNewline(t: string)
    requires VersionTagText(t)
    ensures IsVersionTag(t + "\n")
  {
    var s := t + "\n";
    assert s[0..|t|] == t;
    assert s[|t|] == '\n';
    assert VersionTagLine(s, 0, |t|);
  }

  /** CheckPrerequisites: a development library must be a library, the version must be vN.N.N, the name non-empty. */
  function CheckPrerequisites(p: Package): (r: Outcome)
    ensures r.Pass? <==> (p.isLibrary || !p.isDevLib) && IsVersionTag(p.versionTag) && p.name != ""
    ensures !p.isLibrary && p.isDevLib ==> r == Fail("IsDevLib is true but IsLibrary is false")
    ensures !r.Abort?
  {
    if !p.isLibrary && p.isDevLib then Fail("IsDevLib is true but IsLibrary is false")
    else if !IsVersionTag(p.versionTag) then Fail("VersionTag " + p.versionTag + " is not valid version tag")
    else if p.name == "" then Fail("package name cannot be empty")
    else Pass
  }

  /** The default package passes its own checks. */
  lemma DefaultIsValid(p: Package)
    ensures CheckPrerequisites(FillDefault(p)) == Pass
  {
    var v := DefaultVersionTag[1..];
    assert v == "0.0.0";
    assert VersionTagText(DefaultVersionTag) by {
      Strings.SplitAtFirst("0", '.', "0.0");
      Strings.SplitAtFirst("0", '.', "0");
      Strings.SplitWithoutSeparator("0", '.');
      assert "0" + ['.'] + "0.0" == v;
      assert "0" + ['.'] + "0" == "0.0";
    }
    assert DefaultVersionTag[0..|DefaultVersionTag|] == DefaultVersionTag;
    assert VersionTagLine(DefaultVersionTag, 0, |DefaultVersionTag|);
  }

  /** The part of the name before the version: `[lib]<name>[d][-dev]`. */
  function Stem(p: Package): string
  {
    (if p.isLibrary then "lib" else "") + p.name + (if p.isDebug then "d" else "") + (if p.isDevLib then "-dev" else "")
  }

  /** CreatePackageName; it panics where Serialize does, when the platform string is empty. */
  function CreatePackageName(p: Package): (r: Result<string>)
    ensures r.Panic? <==> PS.AllEmpty(p.platformString.str)
    ensures !r.Err?
    ensures r.Ok? ==> r.value == Stem(p) + "_" + p.versionTag + "_" + PS.Serialize(p.platformString).value
  {
    var platform :- PS.Serialize(p.platformString);
    var parts := [Stem(p), "_", p.versionTag, "_", platform];
    assert Strings.Join(parts[3..], "") == "_" + platform by {
      assert parts[3..][1..] == [platform];
    }
    assert Strings.Join(parts[1..], "") == "_" + p.versionTag + "_" + platform by {
      assert parts[1..][1..] == parts[2..] && parts[2..][1..] == parts[3..];
    }
    Ok(Strings.Join(parts, ""))
  }

  /** The length of a package name adds up from its parts (used to tell names apart). */
  lemma NameLength(p: Package)
    requires CreatePackageName(p).Ok?
    ensures |CreatePackageName(p).value| ==
      (if p.isLibrary then 3 else 0) + |p.name| + (if p.isDebug then 1 else 0) + (if p.isDevLib then 4 else 0)
      + 2 + |p.versionTag| + |PS.Serialize(p.platformString).value|
  {
  }

  /**
   * Packages that differ only in being a debug build, a library or a
   * development library get different archive names, so one never
   * overwrites the other in the repository.
   */
  lemma FlagsChangeName(p: Package, q: Package)
    requires p.name == q.name && p.versionTag == q.versionTag && p.platformString == q.platformString
    requires (p.isDebug, p.isLibrary, p.isDevLib) != (q.isDebug, q.isLibrary, q.isDevLib)
    requires CreatePackageName(p).Ok?
    ensures CreatePackageName(q).Ok? && CreatePackageName(p) != CreatePackageName(q)
  {
    NameLength(p);
    NameLength(q);
    if |CreatePackageName(p).value| == |CreatePackageName(q).value| {
      // 3 * lib + debug + 4 * dev only collides for lib + debug against dev
      if p.isLibrary {
        SameLengthNamesDiffer(p, q);
      } else {
        SameLengthNamesDiffer(q, p);
      }
    }
  }

  /** `lib<name>d_...` and `<name>-dev_...` have equal length but differ in the last character of the stem. */
  lemma SameLengthNamesDiffer(p: Package, q: Package)
    requires p.name == q.name && p.versionTag == q.versionTag && p.platformString == q.platformString
    requires p.isLibrary && !q.isLibrary && p.isDebug && !q.isDebug && !p.isDevLib && q.isDevLib
    requires CreatePackageName(p).Ok?
    ensures CreatePackageName(q).Ok? && CreatePackageName(p) != CreatePackageName(q)
  {
    var n := |p.name|;
    var a := CreatePackageName(p).value;
    var b := CreatePackageName(q).value;
    assert Stem(p) == "lib" + p.name + "d";
    assert Stem(q) == q.name + "-dev";
    assert a[n + 3] == Stem(p)[n + 3] == 'd';
    assert b[n + 3] == Stem(q)[n + 3] == 'v';
  }

  /**
   * CreatePackage's result: the archive `<outputDir>/<name>.zip`.  A
   * missing source directory, a failing mkdir or a failing zip is an error.
   */
  function CreatePackage(p: Package, outputDir: string, sourceExists: bool, mkdirOk: bool, zipOk: bool): (r: Result<string>)
    ensures !sourceExists || !mkdirOk ==> r.Err?
    ensures r.Ok? <==> sourceExists && mkdirOk && zipOk && CreatePackageName(p).Ok?
    ensures r.Ok? ==> r.value == outputDir + "/" + CreatePackageName(p).value + ".zip"
  {
    if !sourceExists then Err("source directory does not exist")
    else if !mkdirOk then Err("cannot create output directory")
    else
      var name :- CreatePackageName(p);
      if !zipOk then Err("cannot create zip archive")
      else Ok(outputDir + "/" + name + ".zip")
  }
}
