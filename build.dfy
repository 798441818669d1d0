/**
 * One build of one package in one docker image: the parts of the build
 * (environment, docker container, git checkout, cmake, make, ssh
 * credentials, package) and RunBuild, which prepares them, starts the
 * container, runs the build chain in it over ssh and copies the installed
 * files out.
 */
module Build {
  import opened Wrappers
  import Collections
  import Paths
  import C = Constants
  import DK = Docker
  import Git
  import CM = CMake
  import MK = GNUMake
  import EV = EnvironmentVariables
  import SS = StartupScript
  import BC = BuildChain
  import SSH = SSHSession
  import PKG = Package
  import SR = Sysroot
  import SH = SignalHandler
  import Process

  const InstallPrefixDefine := "CMAKE_INSTALL_PREFIX"
  const PrefixPathDefine := "CMAKE_PREFIX_PATH"
  const SysrootMount := "/sysroot"

  /** GetLocalInstallDirPath: `<cwd>/localInstall`; a working directory that cannot be read is fatal. */
  function LocalInstallDirPath(cwd: Option<string>): (r: Result<string>)
    ensures r.Ok? <==> cwd.Some?
    ensures !r.Ok? ==> r.Panic?
  {
    if cwd.None? then Panic("cannot call Getwd") else Ok(Paths.Join([cwd.value, C.LocalInstallDirName]))
  }

  function ExistsMessage(copyDir: string): string
  {
    "package directory exist. Please delete it: " + copyDir
  }

  /** CheckPrerequisites: the local install directory must not exist yet. */
  function CheckPrerequisites(cwd: Option<string>, installDirExists: bool): (r: Outcome)
    ensures r.Pass? <==> cwd.Some? && !installDirExists
    ensures cwd.None? ==> r.Abort?
    ensures cwd.Some? && installDirExists ==> r == Fail(ExistsMessage(LocalInstallDirPath(cwd).value))
  {
    var copyDir := LocalInstallDirPath(cwd);
    if !copyDir.Ok? then copyDir.ToOutcome()
    else if installDirExists then Fail(ExistsMessage(copyDir.value)) else Pass
  }

  /** CleanUp: nothing to do without the install directory, otherwise the result of removing it. */
  function CleanUp(cwd: Option<string>, installDirExists: bool, removeAll: Outcome): (r: Outcome)
    ensures cwd.None? ==> r.Abort?
    ensures cwd.Some? && !installDirExists ==> r == Pass
    ensures cwd.Some? && installDirExists ==> r == removeAll
  {
    var copyDir := LocalInstallDirPath(cwd);
    if !copyDir.Ok? then copyDir.ToOutcome()
    else if !installDirExists then Pass else removeAll
  }

  /**
   * downloadInstalledFiles: create the local install directory when it is
   * missing, open the log file, then download the container's install
   * directory into it.
   */
  function DownloadInstalledFiles(copyDir: string, dirExists: bool, mkdir: bool, logOpens: bool, sftp: Outcome): (r: Outcome)
    ensures !dirExists && !mkdir ==> r == Fail("cannot create directory " + copyDir)
    ensures (dirExists || mkdir) && !logOpens ==> r.Fail?
    ensures r.Pass? <==> (dirExists || mkdir) && logOpens && sftp.Pass?
    ensures (dirExists || mkdir) && logOpens ==> r == sftp
  {
    if !dirExists && !mkdir then Fail("cannot create directory " + copyDir)
    else if !logOpens then Fail("failed to open file")
    else sftp
  }

  /** The outside effects of a build, in the order RunBuild causes them. */
  datatype Event =
    | HandlerAdded(handler: SH.Handler)
    | ContainerRun(argv: seq<string>)
    | CommandsSent(commands: seq<string>)
    | InstalledFilesDownloaded(copyDir: string)
    | ContainerStopped(started: Option<seq<string>>)
    | ContainerRemoved(started: Option<seq<string>>)
    | HandlerRemoved

  /**
   * stopAndRemoveContainer: stop the container, then remove it even when
   * the stop failed; failures are only logged and the result is always nil.
   */
  function StopAndRemoveContainer(d: DK.Docker, dockerPath: string, stop: Outcome, rm: Outcome): (r: (Outcome, seq<Event>, nat))
    reads d
    ensures r.0 == Pass
    ensures r.1 == [ContainerStopped(d.Stop(dockerPath, stop).started), ContainerRemoved(d.RemoveContainer(dockerPath, rm).started)]
    ensures r.2 == (if stop.Pass? then 0 else 1) + (if d.RemoveContainer(dockerPath, rm).err.Pass? then 0 else 1)
  {
    var s := d.Stop(dockerPath, stop);
    var m := d.RemoveContainer(dockerPath, rm);
    (Pass, [ContainerStopped(s.started), ContainerRemoved(m.started)], (if s.err.Pass? then 0 else 1) + (if m.err.Pass? then 0 else 1))
  }

  /** The steps of a build, always in this order. */
  function Chain(env: EV.EnvironmentVariables, envOrder: seq<string>, git: Git.Git, cmake: CM.CMake, defineOrder: seq<string>, make: MK.GNUMake): (r: seq<BC.Step>)
    ensures |r| == 7
    ensures r[0].Startup? && r[1].Env? && r[2].Clone? && r[3].Checkout? && r[4].SubmoduleUpdate? && r[5].CMakeStep? && r[6].Make?
    ensures r[2].git == git && r[3].git == git && r[4].git == git && r[5].cmake == cmake && r[1].vars == env
  {
    [BC.Startup(SS.FillDefault(SS.StartupScript(""))), BC.Env(env, envOrder), BC.Clone(git), BC.Checkout(git), BC.SubmoduleUpdate(git),
     BC.CMakeStep(cmake, defineOrder), BC.Make(make)]
  }

  /** The defines after preparation: the install prefix, and the sysroot as prefix path when there is one. */
  function PreparedDefines(given: map<string, string>, withSysroot: bool): (r: map<string, string>)
    ensures r.Keys == given.Keys + {InstallPrefixDefine} + (if withSysroot then {PrefixPathDefine} else {})
    ensures InstallPrefixDefine in r && r[InstallPrefixDefine] == C.DockerInstallDir
    ensures withSysroot ==> r[PrefixPathDefine] == SysrootMount
    ensures forall k :: k in given && k != InstallPrefixDefine && !(withSysroot && k == PrefixPathDefine) ==> r[k] == given[k]
  {
    var d := given[InstallPrefixDefine := C.DockerInstallDir];
    if withSysroot then d[PrefixPathDefine := SysrootMount] else d
  }

  /** A pointer member after FillDefault: kept when set, the default when nil. */
  function FilledFrom<T>(before: Option<T>, default: T): (r: Option<T>)
    ensures r.Some?
    ensures before.Some? ==> r == before
    ensures before.None? ==> r.value == default
  {
    if before.Some? then before else Some(default)
  }

  predicate IsDefaultDocker(d: DK.Docker)
    reads d
  {
    d.imageName == DK.DefaultImageName && d.runAsDaemon && d.ports == Some(map[1122 := 22]) && d.volumes == Some(map[]) && d.containerId == ""
  }

  /** CreateAndInitialize of a Docker: the defaults, checked by running `docker images`; a failure panics. */
  method DefaultDocker(dockerImages: Outcome) returns (err: Outcome, d: DK.Docker)
    ensures fresh(d) && IsDefaultDocker(d)
    ensures err.Pass? <==> dockerImages.Pass?
    ensures !err.Pass? ==> err.Abort?
  {
    d := new DK.Docker();
    d.FillDefault();
    err := if dockerImages.Pass? then Pass else Abort(dockerImages.msg);
  }

  /**
   * The effects once the container is about to run: the handler comes
   * first and its removal last; only a running container gets the
   * commands, and then it is stopped and removed whatever the build did.
   */
  predicate RunEvents(events: seq<Event>, fx: Effects, commands: seq<string>, handler: SH.Handler)
    requires fx.cwd.Some?
  {
    // bound to one name, so that a caller proves it as one fact rather than conjunct by conjunct
    var holds :=
      |events| >= 3 && events[0] == HandlerAdded(handler) && events[1].ContainerRun? && events[|events| - 1] == HandlerRemoved &&
      ContainerEvents(events[2..|events| - 1], fx, commands);
    holds
  }

  lemma RunEventsOf(handler: SH.Handler, argv: seq<string>, middle: seq<Event>, fx: Effects, commands: seq<string>)
    requires fx.cwd.Some? && ContainerEvents(middle, fx, commands)
    ensures RunEvents([HandlerAdded(handler), ContainerRun(argv)] + middle + [HandlerRemoved], fx, commands, handler)
  {
    var head := [HandlerAdded(handler), ContainerRun(argv)];
    Collections.MiddleOf(head, middle, [HandlerRemoved]);
  }

  /** The commands, the download when the ssh build passed, and a stop followed by a remove are what happens in a started container. */
  lemma ContainerEventsOf(fx: Effects, commands: seq<string>, teardown: seq<Event>)
    requires fx.cwd.Some? && fx.dockerRun.Pass?
    requires |teardown| == 2 && teardown[0].ContainerStopped? && teardown[1].ContainerRemoved?
    ensures fx.ssh.Pass? ==> ContainerEvents([CommandsSent(commands), InstalledFilesDownloaded(LocalInstallDirPath(fx.cwd).value)] + teardown, fx, commands)
    ensures !fx.ssh.Pass? ==> ContainerEvents([CommandsSent(commands)] + teardown, fx, commands)
  {
  }

  /** What happens between running the container and removing the handler. */
  predicate ContainerEvents(middle: seq<Event>, fx: Effects, commands: seq<string>)
    requires fx.cwd.Some?
  {
    if !fx.dockerRun.Pass? then middle == []
    else
      |middle| >= 3 && middle[0] == CommandsSent(commands) &&
      middle[|middle| - 2].ContainerStopped? && middle[|middle| - 1].ContainerRemoved? &&
      if fx.ssh.Pass? then |middle| == 4 && middle[1] == InstalledFilesDownloaded(LocalInstallDirPath(fx.cwd).value)
      else |middle| == 3
  }

  /** The error of a build whose container was started: the run's, then the ssh build's, then the download's. */
  function RunError(fx: Effects): (r: Outcome)
    requires fx.cwd.Some?
    ensures r.Pass? <==> fx.dockerRun.Pass? && fx.ssh.Pass? && DownloadInstalledFiles(LocalInstallDirPath(fx.cwd).value, false, fx.downloadMkdir, fx.tarLogOpens, fx.sftp).Pass?
  {
    if !fx.dockerRun.Pass? then Fail("dockerRun run error - " + fx.dockerRun.msg)
    else if !fx.ssh.Pass? then fx.ssh
    else DownloadInstalledFiles(LocalInstallDirPath(fx.cwd).value, false, fx.downloadMkdir, fx.tarLogOpens, fx.sftp)
  }

  /** What the outside world does while RunBuild runs. */
  datatype Effects = Effects(
    cwd: Option<string>,
    installDirExists: bool,
    sysrootMkdir: Outcome,
    buildLogOpens: bool,
    dockerImages: Outcome,
    existingDirs: set<string>,
    dockerPath: string,
    dockerRun: Outcome,
    dockerStdout: string,
    ssh: Outcome,
    downloadMkdir: bool,
    tarLogOpens: bool,
    sftp: Outcome,
    stop: Outcome,
    rm: Outcome)

  class Build {
    var env: Option<EV.EnvironmentVariables>
    var docker: DK.Docker?
    var git: Option<Git.Git>
    var cmake: Option<CM.CMake>
    var gnuMake: Option<MK.GNUMake>
    var sshCredentials: Option<SSH.SSHCredentials>
    var package: Option<PKG.Package>
    var sysroot: SR.Sysroot?

    /** A Build whose members are all nil. */
    constructor ()
      ensures env.None? && docker == null && git.None? && cmake.None? && gnuMake.None?
      ensures sshCredentials.None? && package.None? && sysroot == null
    {
      env := None;
      docker := null;
      git := None;
      cmake := None;
      gnuMake := None;
      sshCredentials := None;
      package := None;
      sysroot := null;
    }

    predicate AllSet()
      reads this
    {
      env.Some? && docker != null && git.Some? && cmake.Some? && gnuMake.Some? && sshCredentials.Some? && package.Some?
    }

    method SetSysroot(s: SR.Sysroot?)
      modifies this
      ensures sysroot == s
      ensures env == old(env) && docker == old(docker) && git == old(git) && cmake == old(cmake)
      ensures gnuMake == old(gnuMake) && sshCredentials == old(sshCredentials) && package == old(package)
    {
      sysroot := s;
    }

    /**
     * FillDefault: every nil member becomes a freshly initialised default;
     * members already set stay as they are.  Initialising a default docker
     * runs `docker images` (`dockerImages`), and initialising a default
     * package gives `defaultPackage`; CreateAndInitialize panics on their
     * errors.
     */
    method FillDefault(dockerImages: Outcome, defaultPackage: Result<PKG.Package>) returns (err: Outcome)
      modifies this
      ensures sysroot == old(sysroot)
      ensures git == FilledFrom(old(git), Git.Git("", "", ""))
      ensures old(docker) != null ==> docker == old(docker)
      ensures old(docker) == null && dockerImages.Pass? ==> fresh(docker) && IsDefaultDocker(docker)
      ensures old(docker) == null && !dockerImages.Pass? ==> err.Abort?
      ensures err.Pass? <==> (old(docker) != null || dockerImages.Pass?) && (old(package).Some? || defaultPackage.Ok?)
      ensures !err.Fail?
      ensures err.Pass? ==>
        AllSet() &&
        sshCredentials == FilledFrom(old(sshCredentials), SSH.FillDefault(SSH.SSHCredentials("", 0, "", ""))) &&
        cmake == FilledFrom(old(cmake), CM.FillDefault(CM.CMake(None, "", ""))) &&
        gnuMake == FilledFrom(old(gnuMake), MK.FillDefault(MK.GNUMake(None, 0))) &&
        env == FilledFrom(old(env), EV.FillDefault(EV.EnvironmentVariables(None))) &&
        package == (if old(package).Some? then old(package) else Some(defaultPackage.value))
    {
      if git.None? {
        git := Some(Git.Git("", "", ""));
      }
      if docker == null {
        var d;
        err, d := DefaultDocker(dockerImages);
        if !err.Pass? {
          return;
        }
        docker := d;
      }
      FillValueMembers();
      if package.None? {
        if !defaultPackage.Ok? {
          return Abort(defaultPackage.msg);
        }
        package := Some(defaultPackage.value);
      }
      err := Pass;
    }

    /** The members of FillDefault that are plain values: ssh credentials, cmake, make and the environment. */
    method FillValueMembers()
      modifies this
      ensures sysroot == old(sysroot) && git == old(git) && docker == old(docker) && package == old(package)
      ensures sshCredentials == FilledFrom(old(sshCredentials), SSH.FillDefault(SSH.SSHCredentials("", 0, "", "")))
      ensures cmake == FilledFrom(old(cmake), CM.FillDefault(CM.CMake(None, "", "")))
      ensures gnuMake == FilledFrom(old(gnuMake), MK.FillDefault(MK.GNUMake(None, 0)))
      ensures env == FilledFrom(old(env), EV.FillDefault(EV.EnvironmentVariables(None)))
    {
      if sshCredentials.None? {
        sshCredentials := Some(SSH.FillDefault(SSH.SSHCredentials("", 0, "", "")));
      }
      if cmake.None? {
        cmake := Some(CM.FillDefault(CM.CMake(None, "", "")));
      }
      if gnuMake.None? {
        gnuMake := Some(MK.FillDefault(MK.GNUMake(None, 0)));
      }
      if env.None? {
        env := Some(EV.FillDefault(EV.EnvironmentVariables(None)));
      }
    }

    /**
     * The preparation in RunBuild goes through: the configuration gives no
     * install prefix but has a defines map, and with a sysroot its directory
     * is there or can be made, its mount is new to a docker with a volumes
     * map, and no prefix path is given either.
     */
    predicate PrepareSucceeds(cwd: string, sysrootMkdir: Outcome)
      reads this, docker, sysroot
      requires AllSet()
    {
      InstallPrefixDefine !in CM.Defines(cmake.value) && cmake.value.defines.Some? &&
      (sysroot != null ==>
        sysroot.GetSysrootPath(cwd).Ok? && (sysroot.dirExists || sysrootMkdir.Pass?) &&
        docker.volumes.Some? && sysroot.GetSysrootPath(cwd).value !in docker.Volumes() &&
        PrefixPathDefine !in CM.Defines(cmake.value))
    }

    /**
     * The part of RunBuild after the preparation reaches `docker run`: the
     * build log opens, the chain renders over the given map orders, and the
     * docker initialises (`docker images` runs and every mounted host
     * directory exists).
     */
    predicate Launches(fx: Effects, envOrder: seq<string>, defineOrder: seq<string>)
      reads this, docker
      requires AllSet()
    {
      fx.buildLogOpens && BC.AllWellOrdered(BuildChain(envOrder, defineOrder)) && BC.GenerateCommands(BuildChain(envOrder, defineOrder)).Ok? &&
      fx.dockerImages.Pass? && forall h :: h in docker.Volumes() ==> h in fx.existingDirs
    }

    /**
     * The preparation in RunBuild: clone into and build from `/git`,
     * install into `/INSTALL` (a define of the configuration itself is an
     * error), and with a sysroot create its directory, mount it at
     * `/sysroot` and let cmake look for packages there.
     */
    method Prepare(cwd: string, sysrootMkdir: Outcome) returns (err: Outcome)
      requires AllSet()
      modifies this, docker, sysroot
      ensures AllSet() && docker == old(docker) && sysroot == old(sysroot)
      ensures env == old(env) && gnuMake == old(gnuMake) && sshCredentials == old(sshCredentials) && package == old(package)
      ensures git == Some(old(git.value).(clonePath := C.DockerGitCloneDir))
      ensures cmake.value.sourceDir == C.DockerGitCloneDir && cmake.value.cmakeListDir == old(cmake.value.cmakeListDir)
      ensures InstallPrefixDefine in old(CM.Defines(cmake.value)) ==> err == Fail("do not specify CMAKE_INSTALL_PREFIX")
      ensures InstallPrefixDefine !in old(CM.Defines(cmake.value)) && old(cmake.value.defines).None? ==> err.Abort?
      ensures err.Pass? <==> old(PrepareSucceeds(cwd, sysrootMkdir))
      ensures err.Pass? ==> cmake.value.defines == Some(PreparedDefines(old(CM.Defines(cmake.value)), sysroot != null))
      ensures err.Pass? && sysroot == null ==> docker.volumes == old(docker.volumes)
      ensures err.Pass? && sysroot != null ==>
        sysroot.dirExists && sysroot.GetSysrootPath(cwd).Ok? &&
        docker.volumes == Some(old(docker.Volumes())[sysroot.GetSysrootPath(cwd).value := SysrootMount])
      ensures docker.imageName == old(docker.imageName) && docker.ports == old(docker.ports)
      ensures docker.runAsDaemon == old(docker.runAsDaemon) && docker.containerId == old(docker.containerId)
      ensures sysroot != null ==> sysroot.platformString == old(sysroot.platformString) && sysroot.isDebug == old(sysroot.isDebug)
    {
      git := Some(git.value.(clonePath := C.DockerGitCloneDir));
      cmake := Some(cmake.value.(sourceDir := C.DockerGitCloneDir));
      if InstallPrefixDefine in CM.Defines(cmake.value) {
        return Fail("do not specify CMAKE_INSTALL_PREFIX");
      }
      if cmake.value.defines.None? {
        return Abort("assignment to entry in nil map");
      }
      cmake := Some(cmake.value.(defines := Some(cmake.value.defines.value[InstallPrefixDefine := C.DockerInstallDir])));
      if sysroot != null {
        err := sysroot.CreateSysrootDir(cwd, sysrootMkdir);
        if !err.Pass? {
          return;
        }
        var sysPath := sysroot.GetSysrootPath(cwd).value;
        err := docker.SetVolume(sysPath, SysrootMount);
        if !err.Pass? {
          return;
        }
        var c := CM.SetDefine(cmake.value, PrefixPathDefine, SysrootMount);
        if !c.Ok? {
          return c.ToOutcome();
        }
        cmake := Some(c.value);
      }
      err := Pass;
    }

    /** The build chain of the prepared build, over the given orders of its maps. */
    function BuildChain(envOrder: seq<string>, defineOrder: seq<string>): (r: seq<BC.Step>)
      reads this
      requires AllSet()
      ensures r == Chain(env.value, envOrder, git.value, cmake.value, defineOrder, gnuMake.value)
    {
      Chain(env.value, envOrder, git.value, cmake.value, defineOrder, gnuMake.value)
    }

    /**
     * RunBuild.  The result is the error, the outside effects in order and
     * the shell lines of the build.
     */
    method RunBuild(fx: Effects, handlers: SH.SignalHandlers)
      returns (err: Outcome, events: seq<Event>, commands: seq<string>, envOrder: seq<string>, defineOrder: seq<string>)
      modifies this, docker, sysroot, handlers
      ensures handlers.handlers == old(handlers.handlers)
      ensures !CheckPrerequisites(fx.cwd, fx.installDirExists).Pass? ==>
        err == CheckPrerequisites(fx.cwd, fx.installDirExists) && events == [] && git == old(git) && cmake == old(cmake)
      ensures CheckPrerequisites(fx.cwd, fx.installDirExists).Pass? && !old(AllSet()) ==> err.Abort? && events == []
      ensures CheckPrerequisites(fx.cwd, fx.installDirExists).Pass? && old(AllSet()) && InstallPrefixDefine in old(CM.Defines(cmake.value)) ==>
        err == Fail("do not specify CMAKE_INSTALL_PREFIX") && events == []
      ensures events != [] ==>
        AllSet() && fx.cwd.Some? && RunEvents(events, fx, commands, SH.StopAndRemoveContainer(docker.imageName, package.value.name)) &&
        err == RunError(fx) &&
        git.value.clonePath == C.DockerGitCloneDir && cmake.value.sourceDir == C.DockerGitCloneDir &&
        cmake.value.defines == Some(PreparedDefines(old(CM.Defines(cmake.value)), sysroot != null))
      ensures events != [] ==>
        Collections.IsEnumeration(envOrder, EV.Entries(env.value).Keys) && Collections.IsEnumeration(defineOrder, CM.Defines(cmake.value).Keys) &&
        BC.AllWellOrdered(BuildChain(envOrder, defineOrder)) && BC.GenerateCommands(BuildChain(envOrder, defineOrder)) == Ok(commands)
      ensures events == [] ==> !err.Pass?
      ensures events != [] <==>
        CheckPrerequisites(fx.cwd, fx.installDirExists).Pass? && old(AllSet()) && old(PrepareSucceeds(fx.cwd.value, fx.sysrootMkdir)) &&
        AllSet() && Launches(fx, envOrder, defineOrder)
    {
      events, commands, envOrder, defineOrder := [], [], [], [];
      err := CheckPrerequisites(fx.cwd, fx.installDirExists);
      if !err.Pass? {
        return;
      }
      if !AllSet() {
        return Abort("invalid memory address or nil pointer dereference"), [], [], [], [];
      }
      err := Prepare(fx.cwd.value, fx.sysrootMkdir);
      if !err.Pass? {
        return;
      }
      err, events, commands, envOrder, defineOrder := Launch(fx, handlers);
    }

    /** RunBuild after the preparation: render the chain, initialise the docker, then run the container. */
    method Launch(fx: Effects, handlers: SH.SignalHandlers)
      returns (err: Outcome, events: seq<Event>, commands: seq<string>, envOrder: seq<string>, defineOrder: seq<string>)
      requires AllSet() && fx.cwd.Some?
      modifies docker, handlers
      ensures handlers.handlers == old(handlers.handlers)
      ensures events != [] ==> RunEvents(events, fx, commands, SH.StopAndRemoveContainer(docker.imageName, package.value.name)) && err == RunError(fx)
      ensures events != [] ==>
        Collections.IsEnumeration(envOrder, EV.Entries(env.value).Keys) && Collections.IsEnumeration(defineOrder, CM.Defines(cmake.value).Keys) &&
        BC.AllWellOrdered(BuildChain(envOrder, defineOrder)) && BC.GenerateCommands(BuildChain(envOrder, defineOrder)) == Ok(commands)
      ensures events == [] ==> !err.Pass?
      ensures Collections.IsEnumeration(envOrder, EV.Entries(env.value).Keys) && Collections.IsEnumeration(defineOrder, CM.Defines(cmake.value).Keys)
      ensures events != [] <==> old(Launches(fx, envOrder, defineOrder))
      ensures Launches(fx, envOrder, defineOrder) == old(Launches(fx, envOrder, defineOrder))
    {
      events, commands := [], [];
      envOrder := Collections.Enumerate(EV.Entries(env.value).Keys);
      defineOrder := Collections.Enumerate(CM.Defines(cmake.value).Keys);
      var chain := BuildChain(envOrder, defineOrder);
      if !fx.buildLogOpens {
        return Fail("failed to open file"), [], [], envOrder, defineOrder;
      }
      var generated := BC.GenerateCommands(chain);
      if !generated.Ok? {
        return generated.ToOutcome(), [], [], envOrder, defineOrder;
      }
      err := InitializeDocker(fx.dockerImages, fx.existingDirs);
      if !err.Pass? {
        return err, [], [], envOrder, defineOrder;
      }
      commands := generated.value;
      err, events := RunContainer(fx, handlers, commands, package.value.name);
    }

    /**
     * The container part of RunBuild: register the stop-and-remove handler,
     * run the container, and only once it runs send the commands, download
     * the installed files and tear the container down again; the handler
     * is removed last.
     */
    method RunContainer(fx: Effects, handlers: SH.SignalHandlers, commands: seq<string>, packageName: string) returns (err: Outcome, events: seq<Event>)
      requires docker != null && fx.cwd.Some?
      modifies docker, handlers
      ensures handlers.handlers == old(handlers.handlers)
      ensures docker.imageName == old(docker.imageName) && docker.volumes == old(docker.volumes)
      ensures RunEvents(events, fx, commands, SH.StopAndRemoveContainer(docker.imageName, packageName))
      ensures err == RunError(fx)
    {
      var handler := SH.StopAndRemoveContainer(docker.imageName, packageName);
      handlers.AddHandler(handler);
      var argv;
      err, argv := StartContainer(fx);
      var middle: seq<Event> := [];
      if err.Pass? {
        err, middle := InContainer(fx, commands);
      }
      var _ := handlers.RemoveLastHandler();
      events := [HandlerAdded(handler), ContainerRun(argv)] + middle + [HandlerRemoved];
      RunEventsOf(handler, argv, middle, fx, commands);
    }

    /** `docker run` of the build's container, its ports and volumes in the order the maps are visited. */
    method StartContainer(fx: Effects) returns (err: Outcome, argv: seq<string>)
      requires docker != null
      modifies docker
      ensures docker.imageName == old(docker.imageName) && docker.volumes == old(docker.volumes)
      ensures err.Pass? <==> fx.dockerRun.Pass?
      ensures !fx.dockerRun.Pass? ==> err == Fail("dockerRun run error - " + fx.dockerRun.msg)
    {
      var portOrder := Collections.Enumerate(docker.Ports().Keys);
      var volumeOrder := Collections.Enumerate(docker.Volumes().Keys);
      err, argv := docker.Run(fx.dockerPath, portOrder, volumeOrder, fx.dockerRun, fx.dockerStdout);
    }

    /** The ssh build in the running container, the download of what it installed, then stopping and removing the container. */
    method InContainer(fx: Effects, commands: seq<string>) returns (err: Outcome, middle: seq<Event>)
      requires docker != null && fx.cwd.Some? && fx.dockerRun.Pass?
      ensures ContainerEvents(middle, fx, commands)
      ensures err == RunError(fx)
    {
      err := fx.ssh;
      if err.Pass? {
        var copyDir := LocalInstallDirPath(fx.cwd).value;
        err := DownloadInstalledFiles(copyDir, false, fx.downloadMkdir, fx.tarLogOpens, fx.sftp);
        var teardown := StopAndRemoveContainer(docker, fx.dockerPath, fx.stop, fx.rm).1;
        middle := [CommandsSent(commands), InstalledFilesDownloaded(copyDir)] + teardown;
        ContainerEventsOf(fx, commands, teardown);
      } else {
        var teardown := StopAndRemoveContainer(docker, fx.dockerPath, fx.stop, fx.rm).1;
        middle := [CommandsSent(commands)] + teardown;
        ContainerEventsOf(fx, commands, teardown);
      }
    }

    /**
     * Initialize(build.Docker): FillDefault only for a zero docker, then
     * CheckPrerequisites, which runs `docker images` and checks that every
     * mounted host directory exists.
     */
    method InitializeDocker(dockerImages: Outcome, existingDirs: set<string>) returns (err: Outcome)
      requires docker != null
      modifies docker
      ensures old(IsZeroDocker()) ==> docker.imageName == DK.DefaultImageName && docker.volumes == Some(map[])
      ensures !old(IsZeroDocker()) ==> docker.imageName == old(docker.imageName) && docker.volumes == old(docker.volumes) && docker.ports == old(docker.ports)
      ensures err.Pass? <==> dockerImages.Pass? && forall h :: h in docker.Volumes() ==> h in existingDirs
      ensures !dockerImages.Pass? ==> err == dockerImages
    {
      if IsZeroDocker() {
        docker.FillDefault();
      }
      var order := Collections.Enumerate(docker.Volumes().Keys);
      err := docker.CheckPrerequisites(dockerImages, existingDirs, order);
    }

    predicate IsZeroDocker()
      reads this, docker
      requires docker != null
    {
      docker.imageName == "" && docker.ports.None? && docker.volumes.None? && !docker.runAsDaemon && docker.containerId == ""
    }
  }
}
