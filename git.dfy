/**
 * The git steps of a build: clone, checkout of the configured revision and
 * submodule update, as shell commands for the build container.
 */
module Git {
  import opened Wrappers
  import Strings

  /** ClonePath is not read from JSON; the build sets it. */
  datatype Git = Git(uri: string, revision: string, clonePath: string)

  const GitExecutablePath := "git"

  /** validateGITPath: an empty clone path panics. */
  function ValidateGitPath(path: string): (r: Outcome)
    ensures r.Pass? <==> path != ""
    ensures !r.Pass? ==> r.Abort?
  {
    if path == "" then Abort("git path is empty") else Pass
  }

  lemma CloneText(uri: string, path: string)
    ensures Strings.Join([GitExecutablePath, "clone", "--recursive", uri, path], " ") == "git clone --recursive " + uri + " " + path
  {
    Strings.Join5(GitExecutablePath, "clone", "--recursive", uri, path, " ");
    assert GitExecutablePath + " " == "git ";
    assert "git " + "clone" + " " == "git clone ";
    assert "git clone " + "--recursive" + " " == "git clone --recursive ";
  }

  lemma CheckoutText(revision: string)
    ensures Strings.Join([GitExecutablePath, "checkout", revision], " ") == "git checkout " + revision
  {
    Strings.Join3(GitExecutablePath, "checkout", revision, " ");
    assert GitExecutablePath + " " == "git ";
    assert "git " + "checkout" + " " == "git checkout ";
  }

  /** GitClone.ConstructCMDLine: one command that clones the repository with its submodules into ClonePath. */
  function CloneCmdLine(g: Git): (r: Result<seq<string>>)
    ensures r.Panic? <==> g.clonePath == ""
    ensures !r.Err?
    ensures r.Ok? ==> r.value == ["git clone --recursive " + g.uri + " " + g.clonePath]
  {
    var _ :- ValidateGitPath(g.clonePath).ToResult();
    CloneText(g.uri, g.clonePath);
    Ok([Strings.Join([GitExecutablePath, "clone", "--recursive", g.uri, g.clonePath], " ")])
  }

  /** GitCheckout.ConstructCMDLine: enter ClonePath, check out the revision, leave again. */
  function CheckoutCmdLine(g: Git): (r: Result<seq<string>>)
    ensures r.Panic? <==> g.clonePath == ""
    ensures !r.Err?
    ensures r.Ok? ==> r.value == ["pushd " + g.clonePath, "git checkout " + g.revision, "popd"]
  {
    var _ :- ValidateGitPath(g.clonePath).ToResult();
    CheckoutText(g.revision);
    Ok(["pushd " + g.clonePath, Strings.Join([GitExecutablePath, "checkout", g.revision], " "), "popd"])
  }

  const SubmoduleUpdateWords := [GitExecutablePath, "submodule", "update", "--init", "--recursive"]

  lemma SubmoduleUpdateText()
    ensures Strings.Join(SubmoduleUpdateWords, " ") == "git submodule update --init --recursive"
  {
    Strings.Join5(GitExecutablePath, "submodule", "update", "--init", "--recursive", " ");
    assert GitExecutablePath + " " == "git ";
    assert "git " + "submodule" + " " == "git submodule ";
    assert "git submodule " + "update" + " " == "git submodule update ";
    assert "git submodule update " + "--init" + " " == "git submodule update --init ";
    assert "git submodule update --init " + "--recursive" == "git submodule update --init --recursive";
  }

  /** GitSubmoduleUpdate.ConstructCMDLine: enter ClonePath, update all submodules recursively, leave again. */
  function SubmoduleUpdateCmdLine(g: Git): (r: Result<seq<string>>)
    ensures r.Panic? <==> g.clonePath == ""
    ensures !r.Err?
    ensures r.Ok? ==> r.value == ["pushd " + g.clonePath, "git submodule update --init --recursive", "popd"]
  {
    var _ :- ValidateGitPath(g.clonePath).ToResult();
    SubmoduleUpdateText();
    Ok(["pushd " + g.clonePath, Strings.Join(SubmoduleUpdateWords, " "), "popd"])
  }
}
