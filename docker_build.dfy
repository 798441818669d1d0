/** Building a Docker image from a directory with a Dockerfile. */
module DockerBuild {
  import opened Wrappers
  import Process

  datatype DockerBuild = DockerBuild(dockerfileDir: string, tag: string)

  /** prepareBuildArgs: `build <dir>`, then `--tag <tag>` when the directory is given. */
  function PrepareBuildArgs(b: DockerBuild): (r: seq<string>)
    ensures b.dockerfileDir != "" ==> r == ["build", b.dockerfileDir, "--tag", b.tag]
    ensures b.dockerfileDir == "" ==> r == ["build", ""]
  {
    ["build", b.dockerfileDir] + (if b.dockerfileDir != "" then ["--tag", b.tag] else [])
  }

  /**
   * Build: an empty Dockerfile directory is an error before anything runs;
   * otherwise `docker build` runs and its failure (a run error or a
   * non-zero exit status, both in `exec`) is the error.
   */
  function Build(b: DockerBuild, dockerPath: string, exec: Outcome): (r: Process.RunResult)
    ensures b.dockerfileDir == "" ==> r.started.None? && r.err == Fail("DockerBuild - DockerfileDir is empty")
    ensures b.dockerfileDir != "" ==> r.started == Some([dockerPath, "build", b.dockerfileDir, "--tag", b.tag])
    ensures b.dockerfileDir != "" ==> (r.err.Pass? <==> exec.Pass?)
    ensures !r.err.Abort?
  {
    if b.dockerfileDir == "" then Process.RunResult(Fail("DockerBuild - DockerfileDir is empty"), None)
    else
      var argv := [dockerPath] + PrepareBuildArgs(b);
      assert argv == [dockerPath, "build", b.dockerfileDir, "--tag", b.tag];
      Process.RunResult(if exec.Pass? then Pass else Fail("DockerBuild build error - " + exec.msg), Some(argv))
  }
}
