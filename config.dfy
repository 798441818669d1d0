/**
 * A package's build configuration, as read from its JSON file: the
 * environment, where to clone from, how to build, the package description,
 * the docker images to build in and the packages it depends on.
 */
module Config {
  import opened Wrappers
  import Git
  import CM = CMake
  import EV = EnvironmentVariables
  import SSH = SSHSession
  import PKG = Package
  import PS = PlatformString

  /** `cmake` is a pointer in the configuration, nil when the file has no CMake section. */
  datatype BuildSystem = BuildSystem(cmake: Option<CM.CMake>)

  datatype DockerMatrix = DockerMatrix(imageNames: seq<string>)

  /** `env` is a Go map, which may be nil (None). */
  datatype Config = Config(
    env: Option<map<string, string>>,
    git: Git.Git,
    build: BuildSystem,
    package: PKG.Package,
    dockerMatrix: DockerMatrix,
    dependsOn: seq<string>)

  const ZeroPackage := PKG.Package("", "", PS.Zero, false, false, false)

  /** FillDefault replaces the whole configuration by an empty one. */
  function FillDefault(c: Config): (r: Config)
    ensures r.env == Some(map[]) && r.dependsOn == [] && r.dockerMatrix.imageNames == []
    ensures r.git == Git.Git("", "", "") && r.build.cmake.None? && r.package == ZeroPackage
  {
    Config(Some(map[]), Git.Git("", "", ""), BuildSystem(None), ZeroPackage, DockerMatrix([]), [])
  }

  /** FillDefault does not look at what was there before. */
  lemma FillDefaultForgets(a: Config, b: Config)
    ensures FillDefault(a) == FillDefault(b)
  {
  }

  /** The images GetBuildStructure builds for: all of them for an empty name, otherwise those equal to it. */
  function Selected(images: seq<string>, imageName: string): (r: seq<string>)
    ensures |r| <= |images|
  {
    if images == [] then []
    else (if imageName != "" && imageName != images[0] then [] else [images[0]]) + Selected(images[1..], imageName)
  }

  /** With an empty name every image is selected; otherwise exactly the entries equal to the name, as often as they occur. */
  lemma {:induction false} SelectedMeaning(images: seq<string>, imageName: string)
    ensures imageName == "" ==> Selected(images, imageName) == images
    ensures imageName != "" ==> |Selected(images, imageName)| == multiset(images)[imageName]
    ensures imageName != "" ==> forall i :: 0 <= i < |Selected(images, imageName)| ==> Selected(images, imageName)[i] == imageName
  {
    if images != [] {
      SelectedMeaning(images[1..], imageName);
      assert images == [images[0]] + images[1..];
    }
  }

  lemma {:induction false} SelectedAppend(a: seq<string>, b: seq<string>, imageName: string)
    ensures Selected(a + b, imageName) == Selected(a, imageName) + Selected(b, imageName)
  {
    if a == [] {
      assert a + b == b;
    } else {
      var head := if imageName != "" && imageName != a[0] then [] else [a[0]];
      assert (a + b)[0] == a[0];
      assert (a + b)[1..] == a[1..] + b;
      assert Selected(a + b, imageName) == head + Selected(a[1..] + b, imageName);
      SelectedAppend(a[1..], b, imageName);
      assert Selected(a, imageName) == head + Selected(a[1..], imageName);
    }
  }

  /** Selecting over one more image adds that image exactly when it is selected. */
  lemma SelectedStep(images: seq<string>, i: nat, imageName: string)
    requires i < |images|
    ensures Selected(images[..i + 1], imageName) ==
      Selected(images[..i], imageName) + (if imageName != "" && imageName != images[i] then [] else [images[i]])
  {
    SelectedAppend(images[..i], [images[i]], imageName);
    assert images[..i + 1] == images[..i] + [images[i]];
    assert [images[i]][1..] == [];
  }

  /** A selected image at position i comes right after those selected before it. */
  lemma SelectedAt(images: seq<string>, i: nat, imageName: string)
    requires i < |images| && (imageName == "" || imageName == images[i])
    ensures |Selected(images[..i], imageName)| < |Selected(images, imageName)|
    ensures Selected(images, imageName)[|Selected(images[..i], imageName)|] == images[i]
  {
    SelectedStep(images, i, imageName);
    SelectedAppend(images[..i + 1], images[i + 1..], imageName);
    assert images == images[..i + 1] + images[i + 1..];
  }

  /** What building in one image yields, before it is merged over a default Build. */
  datatype BuildStructure = BuildStructure(
    imageName: string,
    env: EV.EnvironmentVariables,
    git: Git.Git,
    cmake: CM.CMake,
    sshCredentials: SSH.SSHCredentials,
    package: PKG.Package)

  /**
   * The outside world for GetBuildStructure: whether `docker images` runs
   * (a default docker is checked with it), what initialising the
   * configured package gives in each image (its platform string may be
   * read from inside the image), and whether a default Build initialises
   * (it fails when the local install directory exists).
   */
  datatype Effects = Effects(dockerImages: Outcome, initPackage: string -> Result<PKG.Package>, defaultBuild: Outcome)

  /** Initialize on a CMake: FillDefault runs only on the zero value; the other steps never fail. */
  function InitializeCMake(c: CM.CMake): (r: CM.CMake)
    ensures c != CM.CMake(None, "", "") ==> r == c
    ensures c == CM.CMake(None, "", "") ==> CM.Defines(r) == map["CMAKE_BUILD_TYPE" := "Debug"]
  {
    if c == CM.CMake(None, "", "") then CM.FillDefault(c) else c
  }

  const NilDereference := "invalid memory address or nil pointer dereference"

  /**
   * fillBuildStructure: a default docker for the image, the configured
   * environment, git and cmake, default ssh credentials and the
   * initialised package.  Every initialisation error panics, and so does a
   * configuration without a CMake section, whose nil pointer Initialize
   * dereferences.
   */
  function FillBuildStructure(c: Config, image: string, fx: Effects): (r: Result<BuildStructure>)
    ensures r.Ok? <==> fx.dockerImages.Pass? && c.build.cmake.Some? && fx.initPackage(image).Ok?
    ensures !r.Ok? ==> r.Panic?
    ensures r.Ok? ==>
      r.value.imageName == image && r.value.git == c.git &&
      r.value.env.env.Some? && EV.Entries(r.value.env) == EV.Entries(EV.EnvironmentVariables(c.env)) &&
      r.value.cmake == InitializeCMake(c.build.cmake.value) &&
      r.value.sshCredentials == SSH.FillDefault(SSH.SSHCredentials("", 0, "", "")) &&
      r.value.package == fx.initPackage(image).value
  {
    if !fx.dockerImages.Pass? then Panic(fx.dockerImages.msg)
    else if c.build.cmake.None? then Panic(NilDereference)
    else
      var pkg := fx.initPackage(image);
      if !pkg.Ok? then Panic(pkg.msg)
      else
        Ok(BuildStructure(image, EV.FillDefault(EV.EnvironmentVariables(c.env)), c.git, InitializeCMake(c.build.cmake.value),
                          SSH.FillDefault(SSH.SSHCredentials("", 0, "", "")), pkg.value))
  }

  /** One image's Build: its structure, and a default Build that must initialise to be merged into. */
  function BuildFor(c: Config, image: string, fx: Effects): (r: Result<BuildStructure>)
    ensures r.Ok? <==> FillBuildStructure(c, image, fx).Ok? && fx.defaultBuild.Pass?
    ensures r.Ok? ==> r == FillBuildStructure(c, image, fx)
    ensures !r.Ok? ==> r.Panic?
  {
    var b := FillBuildStructure(c, image, fx);
    if !b.Ok? then b
    else if !fx.defaultBuild.Pass? then Panic(fx.defaultBuild.msg)
    else b
  }

  /** The i-th Build is the one for the i-th selected image. */
  predicate BuildsAt(c: Config, sel: seq<string>, fx: Effects, builds: seq<BuildStructure>, i: nat)
    requires i < |sel| && i < |builds|
  {
    BuildFor(c, sel[i], fx) == Ok(builds[i]) && builds[i].imageName == sel[i]
  }

  /**
   * GetBuildStructure: one Build per selected entry of the docker matrix,
   * in matrix order, each for the image it came from; the first panic
   * ends the program.
   */
  method GetBuildStructure(c: Config, imageName: string, fx: Effects) returns (r: Result<seq<BuildStructure>>)
    ensures r.Ok? <==> forall i :: 0 <= i < |Selected(c.dockerMatrix.imageNames, imageName)| ==> BuildFor(c, Selected(c.dockerMatrix.imageNames, imageName)[i], fx).Ok?
    ensures !r.Ok? ==> r.Panic?
    ensures r.Ok? ==> |r.value| == |Selected(c.dockerMatrix.imageNames, imageName)|
    ensures r.Ok? ==> forall i :: 0 <= i < |r.value| ==> BuildsAt(c, Selected(c.dockerMatrix.imageNames, imageName), fx, r.value, i)
  {
    var images := c.dockerMatrix.imageNames;
    var builds: seq<BuildStructure> := [];
    var i := 0;
    while i < |images|
      invariant 0 <= i <= |images|
      invariant |builds| == |Selected(images[..i], imageName)|
      invariant forall j :: 0 <= j < |builds| ==> BuildsAt(c, Selected(images[..i], imageName), fx, builds, j)
    {
      SelectedStep(images, i, imageName);
      if imageName != "" && imageName != images[i] {
        assert Selected(images[..i + 1], imageName) == Selected(images[..i], imageName) + [];
        assert Selected(images[..i], imageName) + [] == Selected(images[..i], imageName);
        i := i + 1;
        continue;
      }
      var b := BuildFor(c, images[i], fx);
      if !b.Ok? {
        SelectedAt(images, i, imageName);
        return Panic(b.msg);
      }
      ghost var sel := Selected(images[..i], imageName);
      assert Selected(images[..i + 1], imageName) == sel + [images[i]];
      ghost var before := builds;
      builds := builds + [b.value];
      forall j | 0 <= j < |builds|
        ensures BuildsAt(c, sel + [images[i]], fx, builds, j)
      {
        if j < |before| {
          assert BuildsAt(c, sel, fx, before, j);
        }
      }
      i := i + 1;
    }
    assert images[..i] == images;
    forall j | 0 <= j < |builds|
      ensures BuildFor(c, Selected(images, imageName)[j], fx).Ok?
    {
      assert BuildsAt(c, Selected(images, imageName), fx, builds, j);
    }
    return Ok(builds);
  }
}
