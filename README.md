# bringauto packager — a Dafny model of the build orchestration core

The bringauto packager is a cross-compilation package builder. It reads a
context of package definitions (JSON configurations grouped by package
name) and resolves the dependencies between them into a build order. For
every package it builds a "build chain" of shell commands, runs it inside an
ephemeral Docker container reached over SSH, downloads the installed files
over SFTP as a tar archive, and copies them into a Git LFS package
repository and a local sysroot. The repository is committed once the whole
batch succeeds and restored when any package fails. A process-wide stack of
signal handlers holds the clean-up actions.

This project models that core, one Dafny module per Go source file:

- PackageMode: the dependency graph, cycle detection, topological sort and
  the build loop with its handler bookkeeping.
- ContextManager and BuilderContextManager: the dependency and dependents
  searches over a context.
- Build, BuildChain, CMake, GNUMake, EnvironmentVariables, StartupScript
  and Git: the command lines of the build chain.
- Docker, DockerBuild and DockerImage: the Docker command lines and guards,
  and the image-listing scanner.
- SSHSession, ShellEvaluator, SFTP and Tar: the SSH session, the shell
  stream, the SFTP download and the tar command.
- GitLFSRepository, Sysroot and BuiltPackages: the repository and sysroot
  write-back.
- SignalHandler and Process: the handler stack and argument assembly.
- Prerequisites: the Initialize protocol (FillDefault, FillDynamic, then
  CheckPrerequisites).
- Package, PlatformString, Config and CmdArgs: package names, platform
  strings, configurations and command-line checks.
- LsbRelease and Uname: the two OS shims.

Helper modules (Wrappers, Collections, Graphs, Strings, Paths, Constants)
hold what several modules share. That is the result types, sequence
enumerations, walks and cycles over string graphs, joins and string
searches, and Go's `path.Clean` and `path.Join`.

Conventions of the model:

- A Go error is `Fail`/`Err`. `panic` and `log.Fatal` are `Abort`/`Panic`.
- A nil map or pointer is an `Option`.
- Everything outside the program is an input of the operation that consults it:
  - process runs and their output;
  - the file system, the context tree and the repository tree, as in-memory maps and sets;
  - the parsed command line;
  - the outcome of loading a JSON file.
- Go map iteration order is either chosen nondeterministically inside a
  method or passed in as an explicit enumeration of the keys. So no
  property depends on one order.

Where the code and its documentation disagree, the model follows the
code:

- getAllDepsJsonPaths (modules/bringauto_context/ContextManager.go) counts
  the matching configurations, not the dependencies.
- The expressions of validateKey, validateVariableName, the version tag
  check, stripNewline and the container id of DockerRun are compiled with
  CompilePOSIX, whose `^` and `$` match at every line boundary. So a key
  passes when any of its lines starts with a letter or digit; a variable
  name or version tag passes when any whole line matches; stripNewline and
  the container id take the first run that starts a line. On one-line
  input that is the usual reading.
- PlatformString.CheckPrerequisites: Go's `switch` does not fall through,
  so the auto and any-machine modes still reach the argument checks.

## Model

| member | source | states |
|---|---|---|
| Build.LocalInstallDirPath | modules/bringauto_build/Build.go:160-168 | the local install directory is `<cwd>/localInstall`; without a readable working directory the call is fatal |
| Build.CheckPrerequisites | modules/bringauto_build/Build.go:62-69 | passes exactly when the local install directory does not exist; an existing one is an error naming its path |
| Build.CleanUp | modules/bringauto_build/Build.go:187-198 | nothing happens without the install directory; otherwise the result is that of removing it |
| Build.DownloadInstalledFiles | modules/bringauto_build/Build.go:200-228 | a missing directory that cannot be created is an error, an unopenable log is an error, otherwise the result is the SFTP download's |
| Build.StopAndRemoveContainer | modules/bringauto_build/Build.go:170-185 | always returns nil; the stop is followed by the remove even when the stop failed, and each failure is logged once |
| Build.Chain | modules/bringauto_build/Build.go:97-112 | the chain is the startup script, environment, clone, checkout, submodule update, CMake and make, in that order, over the build's own members |
| Build.PreparedDefines | modules/bringauto_build/Build.go:84-95 | after preparation the defines gain the install prefix `/INSTALL` and, with a sysroot, the prefix path `/sysroot`; every other define is kept |
| Build.FilledFrom | modules/bringauto_build/Build.go:32-53 | a member that is set is kept, a nil member becomes the default |
| Build.DefaultDocker | modules/bringauto_build/Build.go:35-37 | the default docker is fresh and has the default values; it initialises exactly when `docker images` runs, and otherwise panics |
| Build.RunEventsOf | modules/bringauto_build/Build.go:135-143 | a run registers the stop-and-remove handler, runs the container, and removes the handler last |
| Build.ContainerEventsOf | modules/bringauto_build/Build.go:143-153 | in a started container the commands are sent; the installed files are downloaded only after a successful ssh build; the container is stopped and removed at the end |
| Build.RunError | modules/bringauto_build/Build.go:139-153 | a started build succeeds exactly when the container run, the ssh build and the download all pass |
| Build.Build.constructor | modules/bringauto_build/Build.go:18-27 | a new Build has every member nil |
| Build.Build.SetSysroot | modules/bringauto_build/Build.go:156-158 | sets the sysroot and changes no other member |
| Build.Build.FillDefault | modules/bringauto_build/Build.go:31-56 | every nil member becomes an initialised default and every set member is kept; it fails exactly when a default docker or a default package cannot be initialised, and that failure panics |
| Build.Build.FillValueMembers | modules/bringauto_build/Build.go:38-49 | the ssh credentials, CMake, make and environment of a Build are each kept when set or defaulted when nil; no other member changes |
| Build.Build.Prepare | modules/bringauto_build/Build.go:81-95 | clone path and CMake source directory become `/git`; a configured install prefix is an error; it passes exactly when there is no install prefix, the defines map exists and, with a sysroot, its directory exists or is made, its mount is new to a volumes map and no prefix path is configured; then the defines get the install prefix, and a sysroot is mounted at `/sysroot` |
| Build.Build.BuildChain | modules/bringauto_build/Build.go:97-112 | the chain of the prepared build uses its environment, git, CMake and make |
| Build.Build.RunBuild | modules/bringauto_build/Build.go:73-154 | the container runs (the events are non-empty) exactly when the prerequisite check passes, every member is set, the preparation succeeds, the build log opens, the prepared chain renders and the docker initialises; the failed prerequisite check and the configured install prefix stop the build before anything runs; a Build with a nil member (which CreateAndInitialize never yields) is modelled as a panic at the start; otherwise the commands are the rendered build chain, the events are one container run, and the error is the first failure of run, ssh build and download; the handler stack ends unchanged |
| Build.Build.Launch | modules/bringauto_build/Build.go:114-153 | the container runs exactly when the build log opens, the build chain renders over the map orders it returns, `docker images` runs and every mounted host directory exists; the commands are the rendered chain; the handler stack is left as it was |
| Build.Build.RunContainer | modules/bringauto_build/Build.go:135-153 | the stop-and-remove handler surrounds the container run; the commands, the download and the teardown happen only once the container runs; the error is the first failure |
| Build.Build.StartContainer | modules/bringauto_build/Build.go:135-142 | `docker run` passes exactly when the container starts; its failure is wrapped as a dockerRun error |
| Build.Build.InContainer | modules/bringauto_build/Build.go:143-153 | the ssh build, the download after a successful build, and a stop and remove that always happen |
| Build.Build.InitializeDocker | modules/bringauto_build/Build.go:130-133 | a zero docker gets the defaults and any other docker is kept; initialisation passes exactly when `docker images` runs and every mounted host directory exists |
| BuildChain.StepCmdLine | modules/bringauto_build/BuildChain.go:11-17 | one step renders its lines or panics; it never returns an ordinary error |
| BuildChain.Rendered | modules/bringauto_build/BuildChain.go:13-15 | there is one rendering per step, in chain order, each that step's own |
| BuildChain.Concat | modules/bringauto_build/BuildChain.go:12-16 | gathering the renderings succeeds exactly when all succeed, and then gives their lines in order; otherwise it gives the first failure, after only successes |
| BuildChain.ConcatAppend | modules/bringauto_build/BuildChain.go:12-16 | gathering two runs of successful renderings gives the first run's lines followed by the second's |
| BuildChain.GenerateCommands | modules/bringauto_build/BuildChain.go:11-17 | the lines of every step in chain order; succeeds exactly when every step renders, and otherwise stops at the first step that panics |
| BuildChain.GenerateCommandsAppend | modules/bringauto_build/BuildChain.go:11-17 | rendering two chains one after the other gives the lines of their concatenation |
| BuildChain.RenderedAppend | modules/bringauto_build/BuildChain.go:13-15 | the renderings of a concatenated chain are those of the parts, in order |
| BuildChain.EmptyChain | modules/bringauto_build/BuildChain.go:11-17 | an empty chain gives no lines |
| BuildChain.ConcatLength | modules/bringauto_build/BuildChain.go:12-16 | the gathered lines are as many as the renderings hold together |
| BuildChain.GenerateCommandsLength | modules/bringauto_build/BuildChain.go:11-17 | the commands are as many as the lines all steps render |
| BuildChain.ConcatInPlace | modules/bringauto_build/BuildChain.go:12-16 | the lines of one rendering sit between those before it and those after it |
| BuildChain.RenderedSlice | modules/bringauto_build/BuildChain.go:13-15 | rendering a stretch of the chain gives the same stretch of the renderings |
| BuildChain.StepLinesInPlace | modules/bringauto_build/BuildChain.go:11-17 | the lines of step i come right after the lines of every earlier step and right before those of every later one |
| BuilderContextManager.FilterMeaning | bap-builder/ContextManager.go:108-118 | a definition is kept exactly when it was listed, it loads, and its build type equals the requested one |
| BuilderContextManager.DirectOfMeaning | bap-builder/ContextManager.go:101-119 | a definition is a direct dependency exactly when it is a same-type definition of one of the listed dependencies |
| BuilderContextManager.DirectMeaning | bap-builder/ContextManager.go:92-122 | the direct dependencies of a definition are the loadable definitions, with its own build type, of the packages it depends on; an unlistable dependency contributes none |
| BuilderContextManager.DepGraph | bap-builder/ContextManager.go:92-122 | the dependency graph has a node for every definition that loads |
| BuilderContextManager.EdgeAt | bap-builder/ContextManager.go:115-116 | every listed direct dependency is an edge of the graph |
| BuilderContextManager.ClosureMeaning | bap-builder/ContextManager.go:92-122 | what the recursion lists for a definition is exactly what is reachable from it |
| BuilderContextManager.ExpandMeaning | bap-builder/ContextManager.go:108-118 | the part listed from the i-th successor onwards holds exactly what leads from one of those successors, all of it reachable |
| BuilderContextManager.BlockMeaning | bap-builder/ContextManager.go:115-116 | the stretch listed for one successor holds that successor and exactly what is reachable from it |
| BuilderContextManager.ClosureHolds | bap-builder/ContextManager.go:92-122 | for every definition at once, what the recursion lists is what is reachable |
| BuilderContextManager.LenientDeps | bap-builder/ContextManager.go:92-122 | getAllDepsJsonPaths of a definition from which no cycle is reachable lists exactly what is reachable from it |
| BuilderContextManager.ExpandHas | bap-builder/ContextManager.go:115-116 | every successor from the i-th onwards is listed |
| BuilderContextManager.ExpandTwice | bap-builder/ContextManager.go:115-116 | a definition reachable from two different listed successors is listed at least twice |
| BuilderContextManager.ListedPerPath | bap-builder/ContextManager.go:100-121 | without a visited set, a definition reachable through two different direct dependencies is listed at least twice |
| BuilderContextManager.NoSuccessors | bap-builder/ContextManager.go:100-121 | a definition without direct dependencies lists nothing |
| BuilderContextManager.SameBuildType | bap-builder/ContextManager.go:114 | every definition reached has the build type of the one the walk started from |
| BuilderContextManager.NoDependencies | bap-builder/ContextManager.go:101 | a configuration that depends on nothing lists nothing |
| BuilderContextManager.AcyclicContextEnds | bap-builder/ContextManager.go:92-122 | in a context without dependency cycles every closure ends |
| BuilderContextManager.AllDepsMeaning | bap-builder/ContextManager.go:132-134 | the closures of several definitions together hold exactly what is reachable from one of them |
| BuilderContextManager.GetPackageWithDepsJsonDefPaths | bap-builder/ContextManager.go:126-139 | provided no dependency cycle is reachable from the package's definitions: fails exactly when they cannot be listed, with the message naming the package; otherwise gives those definitions followed by the closure of each in turn |
| BuiltPackages.JsonFilePath | modules/bringauto_sysroot/BuiltPackages.go:28 | the list is stored as `built_packages.json` in the sysroot directory |
| BuiltPackages.BuiltPackages.constructor | modules/bringauto_sysroot/BuiltPackages.go:16-18 | a new list is empty |
| BuiltPackages.BuiltPackages.AddToBuiltPackages | modules/bringauto_sysroot/BuiltPackages.go:22-30 | the name is appended, duplicates included; the whole list is written to the file, and the error is the write's |
| BuiltPackages.BuiltPackages.UpdateBuiltPackages | modules/bringauto_sysroot/BuiltPackages.go:34-47 | a missing file changes nothing and is no error; a read or parse error is reported and changes nothing; otherwise the list becomes the file's content |
| BuiltPackages.AddTwice | modules/bringauto_sysroot/BuiltPackages.go:22-30 | two additions keep both names, in order, after what was there |
| CMake.FillDefault | modules/bringauto_build/CMake.go:18-26 | the defaults are a Debug build type and the list directory `./`, with no source directory |
| CMake.ValidVariableNameSingleLine | modules/bringauto_build/CMake.go:61-68 | on a one-line name the whole name must be letters, digits and underscores |
| CMake.ValidVariableNameOtherLines | modules/bringauto_build/CMake.go:61-68 | a name with one valid line passes whatever its other lines hold, and `A-` fails |
| CMake.DefineTokens | modules/bringauto_build/CMake.go:39-45 | succeeds exactly when every name has a line made wholly of letters, digits and underscores; one `-Dkey="value"` token per define, in visiting order; otherwise the panic names an invalid name |
| CMake.ListPath | modules/bringauto_build/CMake.go:49 | the list path is empty when both directories are, and a plain list directory under a cleaned absolute source directory is appended after a slash |
| CMake.ConstructCmdLine | modules/bringauto_build/CMake.go:36-51 | succeeds exactly when every define name is valid in that line-anchored sense and the source directory is set; the single line starts with `cmake`, holds the define tokens and ends with the list path; an invalid name panics first |
| CMake.CmdLineShape | modules/bringauto_build/CMake.go:49-50 | the joined line begins with `cmake ` and ends with the list path |
| CMake.SetDefine | modules/bringauto_build/CMake.go:53-59 | an existing key or a nil map panics; otherwise exactly one define is added and nothing else changes |
| CMake.DefaultCmdLine | modules/bringauto_build/CMake.go:18-51 | the defaults render once a source directory is set |
| CmdArgs.CheckForEmpty | bap-builder/CmdArgs.go:181-188 | fails with "cannot be empty" exactly when the only argument given is empty, and passes otherwise |
| CmdArgs.CheckForEmptyOnlyLone | bap-builder/CmdArgs.go:182 | zero or several arguments always pass, even empty ones |
| CmdArgs.FlagConflict | bap-builder/CmdArgs.go:204-218 | rejects exactly `--all` together with any dependency flag, and `--build-deps-on` together with `--build-deps-on-recursive` |
| CmdArgs.AllConflicts | bap-builder/CmdArgs.go:204-213 | with `--all`, the message names the first dependency flag given, in the order build-deps, build-deps-on, build-deps-on-recursive |
| CmdArgs.BuildDepsWithDepsOnAccepted | bap-builder/CmdArgs.go:204-220 | `--build-deps` together with only one of the dependents flags is accepted |
| CmdArgs.CmdLineArgs.constructor | bap-builder/CmdArgs.go:79-177 | after InitFlags every flag has its default value and no mode is selected |
| CmdArgs.CmdLineArgs.ParseArgs | bap-builder/CmdArgs.go:193-221 | a failed parse returns the parser's error and changes nothing; otherwise the modes and flags are taken from the parse, and the error is the first flag conflict |
| Config.FillDefault | modules/bringauto_config/Config.go:41-50 | the defaults are an empty environment, no dependencies, no images, an empty git, no CMake and a zero package |
| Config.FillDefaultForgets | modules/bringauto_config/Config.go:41-50 | the defaults do not depend on what the configuration held before |
| Config.Selected | modules/bringauto_config/Config.go:86-89 | never selects more images than the matrix holds |
| Config.SelectedMeaning | modules/bringauto_config/Config.go:86-89 | an empty name selects every image; any other name selects exactly its occurrences in the matrix, as often as it occurs |
| Config.SelectedAppend | modules/bringauto_config/Config.go:86-89 | the selection over two parts of the matrix is the selection over the first part followed by the selection over the second |
| Config.SelectedStep | modules/bringauto_config/Config.go:86-89 | one more image adds that image to the selection exactly when the name is empty or equal to it |
| Config.SelectedAt | modules/bringauto_config/Config.go:86-96 | a selected image comes right after the images selected before it |
| Config.InitializeCMake | modules/bringauto_config/Config.go:118-121 | only a zero CMake is defaulted, to a Debug build type; any other CMake is kept |
| Config.FillBuildStructure | modules/bringauto_config/Config.go:102-139 | a build for the image, with the configured environment, git and CMake, default ssh credentials and the initialised package; every initialisation failure panics, and so does a configuration without a CMake section |
| Config.BuildFor | modules/bringauto_config/Config.go:90-96 | the build of one image is its filled structure once a default Build initialises; otherwise the program panics |
| Config.GetBuildStructure | modules/bringauto_config/Config.go:84-100 | one build per selected image, in matrix order, each for the image it came from; succeeds exactly when every selected image gives a build, and otherwise panics |
| Context.GetPackageJsonDefPaths | modules/bringauto_context/ContextManager.go:109-136 | succeeds exactly when the context is valid and the package has a directory, and then gives that directory's JSON definitions; otherwise an error |
| Context.LoadJSONConfig | modules/bringauto_config/Config.go:60-70 | loads exactly the files that decode as a configuration, giving what they decode to; every other path is an error |
| Context.LoadedAt | modules/bringauto_context/ContextManager.go:53-64 | never loads more configurations than there are paths |
| Context.WithPlatform | modules/bringauto_context/ContextManager.go:60-62 | a given platform string replaces the package's own; name, build type and dependencies are kept |
| Context.LoadedAtMeaning | modules/bringauto_context/ContextManager.go:53-64 | the configurations loaded from a directory are exactly those its listed files load to |
| Context.AllConfigsMeaning | modules/bringauto_context/ContextManager.go:45-67 | without a platform string the configurations collected are exactly those of the context's packages, whatever order the directories are visited in |
| Context.AllConfigsIn | modules/bringauto_context/ContextManager.go:52-65 | every configuration collected belongs to a package of the context |
| Context.AllConfigsHas | modules/bringauto_context/ContextManager.go:52-65 | every configuration of a package of the context is collected |
| Context.GetAllPackagesConfigs | modules/bringauto_context/ContextManager.go:45-67 | fails exactly when the context is invalid; otherwise collects the loadable configurations directory by directory in map visiting order, skipping files that do not load |
| Context.LoadDirectory | modules/bringauto_context/ContextManager.go:53-64 | the inner loop loads, in order, exactly what the directory's files load to |
| ContextManager.Visited.constructor | modules/bringauto_context/ContextManager.go:241 | a new visited map is empty |
| ContextManager.Without | modules/bringauto_context/ContextManager.go:298-307 | removing a string never lengthens the list |
| ContextManager.WithoutAppend | modules/bringauto_context/ContextManager.go:300-305 | removing a string from two parts of a list is removing it from each part, in order |
| ContextManager.WithoutMeaning | modules/bringauto_context/ContextManager.go:298-307 | an element survives exactly when it was there and is not the string removed |
| ContextManager.WithoutStep | modules/bringauto_context/ContextManager.go:300-305 | one more element is kept exactly when it differs from the string removed |
| ContextManager.RemoveString | modules/bringauto_context/ContextManager.go:298-307 | compacts the list in place: the new prefix is the old list without the string, in order, and the cells past the old length are untouched |
| ContextManager.WithoutAllMeaning | modules/bringauto_context/ContextManager.go:289-294 | a string survives exactly when it was in the first list and is not in the second |
| ContextManager.RemoveStrings | modules/bringauto_context/ContextManager.go:289-294 | the result is the first list with every string of the second removed |
| ContextManager.FirstOccurrencesMeaning | modules/bringauto_context/ContextManager.go:311-322 | removing duplicates leaves no duplicates and loses or adds no string |
| ContextManager.RemoveDuplicates | modules/bringauto_context/ContextManager.go:311-322 | the result keeps the first occurrence of each string, in order |
| ContextManager.KeepWithout | modules/bringauto_context/ContextManager.go:290-292 | removing one string and then the rest is removing all of them at once |
| ContextManager.WithoutAllIsKeep | modules/bringauto_context/ContextManager.go:289-294 | removing strings one by one is the one-pass filter that keeps the order of what it keeps |
| ContextManager.KeepNone | modules/bringauto_context/ContextManager.go:289-294 | removing nothing changes nothing |
| ContextManager.FirstOccurrencesIdempotent | modules/bringauto_context/ContextManager.go:311-322 | a list without duplicates is left as it is |
| ContextManager.DepPathsAppend | modules/bringauto_context/ContextManager.go:151-155 | the definitions of two lists of dependencies are those of the first list followed by those of the second |
| ContextManager.SameType | modules/bringauto_context/ContextManager.go:157-164 | exactly the listed definitions with the given build type are kept |
| ContextManager.SameTypeAppend | modules/bringauto_context/ContextManager.go:157-164 | keeping the same-type definitions of two parts is keeping those of each part, in order |
| ContextManager.CollectedCompose | modules/bringauto_context/ContextManager.go:170-175 | two collections one after the other form one collection from the first visited set to the last |
| ContextManager.CollectedVisit | modules/bringauto_context/ContextManager.go:166-175 | a definition not yet visited is listed first and its own closure after it |
| ContextManager.DerivedFromDirect | modules/bringauto_context/ContextManager.go:157-176 | everything derived from the direct dependencies of a definition is reachable from it |
| ContextManager.ClosedReach | modules/bringauto_context/ContextManager.go:166-169 | nothing reachable leaves a set closed under dependencies |
| ContextManager.DepPathsSplit | modules/bringauto_context/ContextManager.go:151-155 | the definitions of all dependencies are those before the k-th, then the k-th's, then those after it |
| ContextManager.SameTypeMiddle | modules/bringauto_context/ContextManager.go:157-164 | a middle part of a loadable list loads, and its same-type definitions are among those of the whole |
| ContextManager.DependencyGoodAt | modules/bringauto_context/ContextManager.go:151-161 | a dependency of a sound configuration can be located and all its definitions load |
| ContextManager.ClosedDependencies | modules/bringauto_context/ContextManager.go:151-181 | in a closed set every dependency of every configuration is good |
| ContextManager.ClosedIsGood | modules/bringauto_context/ContextManager.go:142-184 | a set closed under dependencies is good |
| ContextManager.ClosedSound | modules/bringauto_context/ContextManager.go:142-184 | every configuration in a closed set is sound, so its closure succeeds |
| ContextManager.DepPathsStep | modules/bringauto_context/ContextManager.go:151-157 | the definitions of one more dependency are added at the end, and so are their same-type ones |
| ContextManager.DepsProgressStep | modules/bringauto_context/ContextManager.go:151-177 | after one more dependency, the count grows by its same-type definitions and the list by what they contributed |
| ContextManager.DepsProgressCount | modules/bringauto_context/ContextManager.go:179-181 | a configuration whose every dependency has a same-type definition passes the count check |
| ContextManager.DepsProgressEnd | modules/bringauto_context/ContextManager.go:177-183 | after all dependencies the direct dependencies are visited and everything listed is reachable |
| ContextManager.GetAllDepsJsonPaths | modules/bringauto_context/ContextManager.go:142-184 | marks the definition visited; every failure to locate or load and a dependency without a same-type definition is an error; a sound definition succeeds, listing each unvisited same-type dependency definition followed by its closure, all of it reachable, the visited set only growing |
| ContextManager.CollectDependencies | modules/bringauto_context/ContextManager.go:151-177 | the loop over the dependencies succeeds on a sound configuration and counts and lists what each dependency contributes |
| ContextManager.CollectProgressPaths | modules/bringauto_context/ContextManager.go:157-164 | the same-type definitions up to one more are those before and that definition when its build type matches |
| ContextManager.CollectProgressSkip | modules/bringauto_context/ContextManager.go:162-169 | a same-type definition is counted, and one already visited adds nothing to the list |
| ContextManager.CollectProgressVisit | modules/bringauto_context/ContextManager.go:165-175 | an unvisited same-type definition is counted and appended with its closure |
| ContextManager.CollectDependency | modules/bringauto_context/ContextManager.go:157-176 | the loop over one dependency's definitions fails when one does not load, succeeds when sound, and counts every same-type definition, visited or not |
| ContextManager.WithDepsStep | modules/bringauto_context/ContextManager.go:242-248 | one more definition of the package adds what its traversal finds with the shared visited set |
| ContextManager.WithDepsClosed | modules/bringauto_context/ContextManager.go:235-253 | the package's closure holds its own definitions and is closed under dependencies |
| ContextManager.GetPackageWithDepsJsonDefPaths | modules/bringauto_context/ContextManager.go:235-253 | an unknown package is an error naming it; the call succeeds exactly when the closure can be formed, and then gives the package's definitions followed by distinct dependency definitions, together exactly the closure |
| ContextManager.PackageConfigIsValue | modules/bringauto_context/ContextManager.go:191 | every configuration of the context is among its loaded configurations |
| ContextManager.EnteredDirectly | modules/bringauto_context/ContextManager.go:208-228 | a recursive query enters at least what a direct one enters |
| ContextManager.OpenEdge | modules/bringauto_context/ContextManager.go:198-208 | a same-type configuration listing the package, whose own package is unvisited and closes, is an edge the traversal can take |
| ContextManager.DependentsEdgeConfig | modules/bringauto_context/ContextManager.go:198-203 | every edge of the reverse graph comes from a same-type configuration listing the package |
| ContextManager.OpenEdgeTarget | modules/bringauto_context/ContextManager.go:204-208 | an edge the traversal can take leads to an unvisited package whose closure forms |
| ContextManager.EnteredOutside | modules/bringauto_context/ContextManager.go:204-218 | nothing the traversal enters was visited before, and its closure forms |
| ContextManager.OpenShrinks | modules/bringauto_context/ContextManager.go:204-207 | visiting more leaves fewer paths open |
| ContextManager.ExploredExact | modules/bringauto_context/ContextManager.go:190-231 | a finished traversal has visited exactly what it could enter from the base |
| ContextManager.DepsOnStart | modules/bringauto_context/ContextManager.go:195-196 | the traversal starts with the base marked visited and nothing listed |
| ContextManager.DepsOnSkip | modules/bringauto_context/ContextManager.go:198-207 | a configuration that is not a same-type dependent of the base, or whose package is already visited, leaves the traversal state as it was |
| ContextManager.DepsOnSkipDirect | modules/bringauto_context/ContextManager.go:198-207 | without recursion a configuration that is skipped adds no contribution |
| ContextManager.DepsOnAddDirect | modules/bringauto_context/ContextManager.go:208-222 | without recursion a direct dependent adds exactly its closure |
| ContextManager.DepsOnRecEntered | modules/bringauto_context/ContextManager.go:223-228 | with recursion, a dependent and what its traversal visits were entered from the base |
| ContextManager.DepsOnRecPacks | modules/bringauto_context/ContextManager.go:222-228 | with recursion, the list holds exactly the closures of the packages visited since the start |
| ContextManager.DepsOnAddRec | modules/bringauto_context/ContextManager.go:208-228 | with recursion, a dependent whose closure forms is expanded and the state stays exact |
| ContextManager.DepsOnAddRecFailed | modules/bringauto_context/ContextManager.go:218-221 | a dependent whose closure cannot be formed changes nothing |
| ContextManager.DepsOnEnd | modules/bringauto_context/ContextManager.go:197-214 | without recursion, the contributions over every configuration are exactly the closures of the unvisited direct dependents whose closure forms |
| ContextManager.DepsOnEndRec | modules/bringauto_context/ContextManager.go:197-214 | with recursion, the traversal over every configuration has visited exactly what the base enters and listed exactly their closures |
| ContextManager.ListsDependency | modules/bringauto_context/ContextManager.go:202-211 | the inner loop finds the name exactly when it is among the dependencies |
| ContextManager.GetAllDepsOnJsonPaths | modules/bringauto_context/ContextManager.go:190-215 | fails exactly when the context is invalid and then changes nothing; marks the package visited; lists exactly the closures of the packages it enters: the unvisited direct dependents whose closure forms, and with recursion everything reachable from them along such dependents; with recursion it visits exactly those packages |
| ContextManager.AddDependsOnPackagesToBuild | modules/bringauto_context/ContextManager.go:217-231 | passes exactly when the dependent's closure forms, and a failure adds and visits nothing; without recursion it appends exactly that closure; with recursion also the closures of every package its traversal enters, which it marks visited |
| ContextManager.NotLoadedNotOk | modules/bringauto_context/ContextManager.go:267-271 | a definition of the package that does not load rules out the result |
| ContextManager.DepsOnOfStep | modules/bringauto_context/ContextManager.go:266-277 | appending what one more definition's query added keeps the list exactly the contributions of the definitions queried so far |
| ContextManager.DepsOnFirstDirect | modules/bringauto_context/ContextManager.go:195-222 | without recursion, the first definition's query adds exactly the closures of the other same-type packages that list the package and whose closure forms |
| ContextManager.QueryDefinitions | modules/bringauto_context/ContextManager.go:264-277 | stops at the first definition that does not load; otherwise every definition loads, and the list holds exactly what the query of each definition, sharing one visited set, adds |
| ContextManager.GetDepsOnJsonDefPaths | modules/bringauto_context/ContextManager.go:259-285 | an unknown package is an error, and so is an unloadable definition, the error naming the first one; it succeeds exactly when the package's closure can be formed, and then lists without duplicates exactly what the query of each definition, sharing one visited set, adds, less the package's own closure |
| Docker.FlagArgs | modules/bringauto_docker/DockerRun.go:46-54 | a flag before every value gives twice as many arguments as values |
| Docker.FlagArgsAt | modules/bringauto_docker/DockerRun.go:46-54 | the i-th pair of arguments is the flag followed by the i-th value |
| Docker.PortMappings | modules/bringauto_docker/DockerRun.go:46-50 | one `host:container` mapping per port, in the order the map is visited |
| Docker.VolumeMappings | modules/bringauto_docker/DockerRun.go:51-54 | one `host:container` mapping per volume, in the order the map is visited |
| Docker.PortArgs | modules/bringauto_docker/DockerRun.go:46-50 | two arguments for every port |
| Docker.PortArgsAt | modules/bringauto_docker/DockerRun.go:46-50 | the i-th pair of arguments is `-p` and the i-th port mapping visited |
| Docker.VolumeArgs | modules/bringauto_docker/DockerRun.go:51-54 | two arguments for every volume |
| Docker.VolumeArgsAt | modules/bringauto_docker/DockerRun.go:51-54 | the i-th pair of arguments is `-v` and the i-th volume mapping visited |
| Docker.RunArgs | modules/bringauto_docker/DockerRun.go:40-58 | `run`, then `-d` for a daemon, then the port arguments, then the volume arguments, and the image name last |
| Docker.ContainerIdOf | modules/bringauto_docker/DockerRun.go:31-36 | an alphanumeric run; empty exactly when no line starts with a letter or digit; otherwise the run from the first line start holding one, up to the first other character |
| Docker.ContainerIdOfLine | modules/bringauto_docker/DockerRun.go:31-36 | an id followed by a newline is read back whole |
| Docker.ContainerIdAfterEmptyLine | modules/bringauto_docker/DockerRun.go:31-36 | an id after an empty first line is still found |
| Docker.Docker.constructor | modules/bringauto_docker/Docker.go:15-28 | a new Docker is the zero value: no image, nil maps, not a daemon, no container |
| Docker.Docker.FillDefault | modules/bringauto_docker/Docker.go:30-40 | the defaults are image `debian11`, a daemon, port 1122 mapped to 22 and no volumes |
| Docker.Docker.SetVolume | modules/bringauto_docker/Docker.go:74-80 | a new host directory is mapped to the container directory; an existing mapping or a nil map panics and changes nothing; no other field changes |
| Docker.Docker.CheckPrerequisites | modules/bringauto_docker/Docker.go:49-70 | passes exactly when `docker images` runs and every mounted host directory exists; the run's error comes first |
| Docker.Docker.RunCmdLine | modules/bringauto_docker/DockerRun.go:40-58 | the `docker run` arguments: `run`, `-d` for a daemon, a pair per port, a pair per volume and the image name |
| Docker.Docker.Run | modules/bringauto_docker/DockerRun.go:15-38 | runs docker with the run arguments; on success the container id is ContainerIdOf the output; a failure is wrapped and changes nothing |
| Docker.Docker.StopCmdLine | modules/bringauto_docker/DockerStop.go:32-36 | `stop` and the container id, whatever the id is |
| Docker.Docker.Stop | modules/bringauto_docker/DockerStop.go:13-30 | runs `docker stop <id>` without checking the id and fails exactly when the process fails |
| Docker.Docker.RmCmdLine | modules/bringauto_docker/DockerRm.go:31-35 | `rm` and the container id |
| Docker.Docker.RemoveContainer | modules/bringauto_docker/DockerRm.go:11-29 | without a container id it fails before running anything; otherwise `docker rm <id>` fails exactly when the process fails |
| Docker.MissingVolume | modules/bringauto_docker/Docker.go:63-67 | passes exactly when every host directory visited exists |
| Docker.RunCmdLineLength | modules/bringauto_docker/DockerRun.go:40-58 | the `docker run` arguments hold a pair for every port and for every volume |
| Docker.DefaultContainerCommands | modules/bringauto_docker/DockerStop.go:32-36 | a container never run stops and removes with an empty id, and only the removal refuses it |
| DockerBuild.PrepareBuildArgs | modules/bringauto_docker/DockerBuild.go:53-61 | `build <dir> --tag <tag>`, and only `build` with an empty directory |
| DockerBuild.Build | modules/bringauto_docker/DockerBuild.go:20-51 | an empty Dockerfile directory is an error before anything runs; otherwise `docker build <dir> --tag <tag>` runs and fails exactly when the process fails or exits non-zero |
| DockerImage.PatternRejected | modules/bringauto_docker/DockerImage.go:23 | POSIX syntax refuses the image-line pattern, so its compilation fails |
| DockerImage.LeadingSpace | modules/bringauto_docker/DockerImage.go:23 | the longest prefix of blanks of a line |
| DockerImage.LeadingNonSpace | modules/bringauto_docker/DockerImage.go:23 | the longest prefix without a space |
| DockerImage.LastNonBlank | modules/bringauto_docker/DockerImage.go:23 | the last position after the first that holds no space, if any |
| DockerImage.ParseImageLine | modules/bringauto_docker/DockerImage.go:23-37 | a matching line starts with an alphanumeric id and names a non-empty image without spaces; an empty line does not match |
| DockerImage.LeadingAlnumOf | modules/bringauto_docker/DockerImage.go:23 | an alphanumeric id followed by something else is exactly the id |
| DockerImage.LeadingNonSpaceOf | modules/bringauto_docker/DockerImage.go:23 | a name without spaces followed by a space is exactly the name |
| DockerImage.ParseListingLine | modules/bringauto_docker/DockerImage.go:23-37 | a line `<id> <name>`, ended or followed by a space, yields exactly that name |
| DockerImage.ParseAfterOneSpace | modules/bringauto_docker/DockerImage.go:23-37 | after an id and one space, the name is the leading run of non-spaces |
| DockerImage.OneLeadingSpace | modules/bringauto_docker/DockerImage.go:23 | a single leading space is taken as the separator |
| DockerImage.Scan | modules/bringauto_docker/DockerImage.go:32-43 | the scan answers true or false or is fatal; it never returns an ordinary error |
| DockerImage.ScanFalse | modules/bringauto_docker/DockerImage.go:32-43 | the answer is false exactly when every line matches and none names the image |
| DockerImage.MatchedPrefix | modules/bringauto_docker/DockerImage.go:32-41 | a prefix of the lines matches without the image exactly when its first line matches another image and the rest does too |
| DockerImage.ScanStops | modules/bringauto_docker/DockerImage.go:32-43 | the answer is true exactly at a line naming the image, and fatal exactly at a line that does not match, every earlier line matching another image |
| DockerImage.ImageExists | modules/bringauto_docker/DockerImage.go:14-44 | with the pattern compiled as intended: a failing `docker ls` answers false, otherwise the lines after the header are scanned |
| DockerImage.ImageExistsAsWritten | modules/bringauto_docker/DockerImage.go:14-44 | as written: a failing `docker ls` answers false |
| DockerImage.AsWrittenPanics | modules/bringauto_docker/DockerImage.go:23-31 | as written, every successful `docker ls` ends in a panic on the nil pattern |
| DockerImage.HeaderOnly | modules/bringauto_docker/DockerImage.go:28-43 | output with only a header answers false |
| DockerImage.TrailingNewlineFatal | modules/bringauto_docker/DockerImage.go:28-36 | output ending in a newline leaves an empty last line, which is fatal unless the image is found first |
| EnvironmentVariables.FillDefault | modules/bringauto_build/EnvironmentVariables.go:14-19 | a nil map becomes an empty one and a set map is kept, so the variables never change |
| EnvironmentVariables.ValidKeySingleLine | modules/bringauto_build/EnvironmentVariables.go:38-46 | on a one-line key only the first character is looked at |
| EnvironmentVariables.ValidKeyLaterLine | modules/bringauto_build/EnvironmentVariables.go:38-46 | a key passes once any of its lines starts with a letter or digit |
| EnvironmentVariables.InvalidKeyExample | modules/bringauto_build/EnvironmentVariables.go:38-46 | `-A` fails and `-` newline `A` passes |
| EnvironmentVariables.ValidateKey | modules/bringauto_build/EnvironmentVariables.go:38-46 | a key passes exactly when one of its lines starts with a letter or digit (the expression is anchored only at a line start); any other key panics |
| EnvironmentVariables.ExportLineInjective | modules/bringauto_build/EnvironmentVariables.go:33 | for keys without `=`, the export line determines its key and value |
| EnvironmentVariables.ExportLines | modules/bringauto_build/EnvironmentVariables.go:31-34 | succeeds exactly when every key visited has a line starting with a letter or digit; one `export key="value"` line per key visited, in order; the first invalid key panics |
| EnvironmentVariables.ConstructCmdLine | modules/bringauto_build/EnvironmentVariables.go:29-36 | succeeds exactly when every key passes validateKey's line-anchored test; then there is one line per variable, every variable is exported, and every line exports a variable |
| EnvironmentVariables.LinesAreDistinct | modules/bringauto_build/EnvironmentVariables.go:29-36 | for keys without `=`, no line is rendered twice |
| Git.ValidateGitPath | modules/bringauto_git/Git.go:72-76 | an empty clone path panics and every other path passes |
| Git.CloneText | modules/bringauto_git/Git.go:32-39 | the clone words join to `git clone --recursive <uri> <path>` |
| Git.CheckoutText | modules/bringauto_git/Git.go:44-51 | the checkout words join to `git checkout <revision>` |
| Git.CloneCmdLine | modules/bringauto_git/Git.go:30-40 | never an ordinary error: panics exactly for an empty clone path; otherwise one line cloning the repository with its submodules into the clone path |
| Git.CheckoutCmdLine | modules/bringauto_git/Git.go:42-54 | never an ordinary error: panics exactly for an empty clone path; otherwise the three lines that enter the clone path, check out the revision and leave |
| Git.SubmoduleUpdateText | modules/bringauto_git/Git.go:58-67 | the update words join to `git submodule update --init --recursive` |
| Git.SubmoduleUpdateCmdLine | modules/bringauto_git/Git.go:56-70 | never an ordinary error: panics exactly for an empty clone path; otherwise the three lines that enter the clone path, update all submodules recursively and leave |
| GitLFSRepository.PrepareAndRun | modules/bringauto_repository/GitLFSRepository.go:244-272 | git runs in the repository, a relative path being joined to the working directory; success means it started and exited with status 0, since cmd.Run reports a non-zero status or a death by signal as an error; nothing runs without a working directory |
| GitLFSRepository.CheckPrerequisites | modules/bringauto_repository/GitLFSRepository.go:38-51 | passes exactly when the repository exists, holds `.git` and `git status -s` succeeds with no output; the missing repository and the missing `.git` have their own messages |
| GitLFSRepository.CommitAllChanges | modules/bringauto_repository/GitLFSRepository.go:53-64 | `git add *`, then `git commit -m "Build packages"` only if the add succeeded; each failure has its own message |
| GitLFSRepository.RestoreAllChanges | modules/bringauto_repository/GitLFSRepository.go:66-72 | runs `git restore .` and fails exactly when it fails, with "cannot restore changes" |
| GitLFSRepository.CommitIssuesAddThenCommit | modules/bringauto_repository/GitLFSRepository.go:207-230 | a commit issues exactly the add and then the commit, both in the repository |
| GitLFSRepository.JoinTwo | modules/bringauto_repository/GitLFSRepository.go:169 | joining two elements is cleaning them with one slash between |
| GitLFSRepository.CleanUnder | modules/bringauto_repository/GitLFSRepository.go:163-169 | plain elements under a cleaned absolute directory are already clean |
| GitLFSRepository.NestedJoin | modules/bringauto_repository/GitLFSRepository.go:163-169 | the nested join under a cleaned absolute directory is plain concatenation |
| GitLFSRepository.NestedJoinRelative | modules/bringauto_repository/GitLFSRepository.go:163-169 | the same for a relative directory that is one plain element |
| GitLFSRepository.PackagePathUnderAbsolute | modules/bringauto_repository/GitLFSRepository.go:162-170 | the package directory is `<repo>/<distro>/<release>/<machine>/<name>` for a cleaned absolute repository and plain parts |
| GitLFSRepository.PackagePathUnderRelative | modules/bringauto_repository/GitLFSRepository.go:162-170 | the same for a relative repository given as one plain element |
| GitLFSRepository.FileUnder | modules/bringauto_repository/GitLFSRepository.go:79 | a file name appended to the package directory survives the join unchanged |
| GitLFSRepository.ExpectedPathShape | modules/bringauto_repository/GitLFSRepository.go:79 | the expected archive is the package directory, a slash and the full name with `.zip` |
| GitLFSRepository.LoadedPackages | modules/bringauto_repository/GitLFSRepository.go:110-135 | as many packages as definitions that load, each with the build's platform string; nothing is skipped when all load |
| GitLFSRepository.LoadedPackagesAt | modules/bringauto_repository/GitLFSRepository.go:110-135 | each definition that loads gives the package at the position counting the loaded ones before it, with the build's platform string |
| GitLFSRepository.ListedPackages | modules/bringauto_repository/GitLFSRepository.go:75-84 | a listing that fails gives no packages; otherwise the loaded packages |
| GitLFSRepository.ExpectedPaths | modules/bringauto_repository/GitLFSRepository.go:77-81 | one expected archive per package, in order |
| GitLFSRepository.CollectExpectedPaths | modules/bringauto_repository/GitLFSRepository.go:77-81 | the loop lists exactly the expected archive of every package, in order |
| GitLFSRepository.Delivered | modules/bringauto_repository/GitLFSRepository.go:84-87 | the walk delivers entries in order and nothing inside a skipped `.git` directory |
| GitLFSRepository.InsideExtend | modules/bringauto_repository/GitLFSRepository.go:85-87 | what is inside a skipped directory stays skipped as more directories are skipped |
| GitLFSRepository.Files | modules/bringauto_repository/GitLFSRepository.go:88 | only the files among the delivered entries are looked at |
| GitLFSRepository.Consume | modules/bringauto_repository/GitLFSRepository.go:88-96 | every error path is a file found |
| GitLFSRepository.ConsumeMultiset | modules/bringauto_repository/GitLFSRepository.go:88-96 | what is left expected is the expected paths minus the files found, and the error paths are the files found minus the expected paths, counted with multiplicity |
| GitLFSRepository.ConsumeDistinct | modules/bringauto_repository/GitLFSRepository.go:88-96 | when no file is found twice, a file is an error path exactly when it is not expected |
| GitLFSRepository.ConsumeNothing | modules/bringauto_repository/GitLFSRepository.go:88-96 | with nothing expected, every file found is an error path |
| GitLFSRepository.IndexOf | modules/bringauto_repository/GitLFSRepository.go:93 | the first index holding the path |
| GitLFSRepository.SwapRemove | modules/bringauto_repository/GitLFSRepository.go:94-95 | moving the last path into a slot and dropping the last removes exactly one copy of the slot's path |
| GitLFSRepository.MatchFiles | modules/bringauto_repository/GitLFSRepository.go:84-99 | after the walk the expected paths left and the error paths are exactly the multiset differences of expected and found |
| GitLFSRepository.TakeOne | modules/bringauto_repository/GitLFSRepository.go:89-96 | a file is missing from the expected paths exactly when no copy is left; otherwise one copy is removed |
| GitLFSRepository.ListFirst | modules/bringauto_repository/GitLFSRepository.go:141-157 | the listing loops name the first ten paths, or all of them when there are fewer |
| GitLFSRepository.PrintErrors | modules/bringauto_repository/GitLFSRepository.go:137-160 | fails exactly when there are error paths, listing the first ten; otherwise the first ten missing archives are a warning and it passes |
| GitLFSRepository.CheckGitLfsConsistency | modules/bringauto_repository/GitLFSRepository.go:74-108 | a walk that cannot start panics; otherwise fails exactly when some file found is not an expected archive of the listed packages, and reports as PrintErrors does; when the definitions cannot be listed nothing is expected, so any file found fails it |
| GitLFSRepository.ExpectedPathsSnoc | modules/bringauto_repository/GitLFSRepository.go:78-81 | one more package adds its archive at the end |
| GitLFSRepository.ConsistentIff | modules/bringauto_repository/GitLFSRepository.go:84-107 | for a walk that finds no file twice, the check passes exactly when every file found is an expected archive; missing archives never fail it |
| GitLFSRepository.CopyToRepository | modules/bringauto_repository/GitLFSRepository.go:175-190 | creates the package directory, then the archive in it; succeeds exactly when both succeed, and the archive is `<package dir>/<name>.zip` |
| GitLFSRepository.CopiedIsExpected | modules/bringauto_repository/GitLFSRepository.go:79 | the archive copied is where the consistency check expects it |
| GNUMake.FillDefault | modules/bringauto_build/GNUMake.go:19-24 | the defaults are ten jobs and no variables |
| GNUMake.FillDynamic | modules/bringauto_build/GNUMake.go:26-28 | changes nothing and never fails |
| GNUMake.CheckPrerequisites | modules/bringauto_build/GNUMake.go:30-32 | never fails |
| GNUMake.ConstructCmdLine | modules/bringauto_build/GNUMake.go:34-41 | exactly two lines, `make -j <jobs>` and `make install`; the command-line variables do not appear |
| GNUMake.DefaultCmdLine | modules/bringauto_build/GNUMake.go:19-41 | the defaults render `make -j 10` and `make install` |
| Prerequisites.PrepareArgs | modules/bringauto_prerequisites/initializer.go:82-94 | a lone Args pointer is passed on as it is; any other arguments are wrapped in a new Args record |
| Prerequisites.Instance.constructor | modules/bringauto_prerequisites/initializer.go:23 | the instance holds the value given |
| Prerequisites.Initialize | modules/bringauto_prerequisites/initializer.go:23-56 | a non-struct is an error and a type without the three methods is left alone; otherwise FillDefault runs only on the zero value, then FillDynamic, then CheckPrerequisites, stopping at the first error |
| Prerequisites.CreateAndInitialize | modules/bringauto_prerequisites/initializer.go:60-67 | a zero instance initialised as Initialize does; any error panics |
| Prerequisites.InitializeGit | modules/bringauto_git/Prerequisites.go:5-19 | initialising a git step never fails and never changes it |
| LsbRelease.ParseLine | tools/lsb_release/main.go:106-116 | a line yields a value exactly when it is the field's label followed by a non-empty text without tabs, and the value is that text |
| LsbRelease.AtMostOneField | tools/lsb_release/main.go:80-83 | no line matches both patterns |
| LsbRelease.Match | tools/lsb_release/main.go:91-99 | the field a line sets and its value, whatever the order the patterns are tried in; a line that matches neither sets nothing |
| LsbRelease.Handled | tools/lsb_release/main.go:88-100 | no more lines are counted than there are |
| LsbRelease.PrefixStep | tools/lsb_release/main.go:89-100 | one more line is counted when it matches, and sets the field it matches |
| LsbRelease.ScanStep | tools/lsb_release/main.go:89-100 | handling one line moves the scan on by that line |
| LsbRelease.LsbReleaseData.constructor | tools/lsb_release/main.go:66-69 | a new record has both fields empty |
| LsbRelease.LsbReleaseData.ReadFromFile | tools/lsb_release/main.go:71-104 | a file that cannot be opened is fatal and changes nothing; otherwise each field ends as the value of the last line setting it, the count is that of the matching lines, and with validation a count other than two panics |
| LsbRelease.LsbReleaseData.ScanLines | tools/lsb_release/main.go:89-100 | the loop leaves the fields and the count as the scan of every line gives them |
| LsbRelease.TryPatterns | tools/lsb_release/main.go:91-99 | the inner loop finds the pattern a line matches, if any |
| LsbRelease.CountedValidationMisses | tools/lsb_release/main.go:101 | counting lines accepts a listing with two release lines and no distributor, and rejects one that repeats the release line; checking the fields does the opposite |
| LsbRelease.Snoc | tools/lsb_release/main.go:89-100 | one more line adds one to the count when it matches, and then overrides the field it sets |
| LsbRelease.FourLineListing | tools/lsb_release/main.go:71-104 | the usual four-line listing sets both fields and passes both validations |
| LsbRelease.NoLabel | tools/lsb_release/main.go:80-83 | a line starting like neither label sets nothing |
| LsbRelease.ValidationMeansFound | tools/lsb_release/main.go:101-103 | with the intended validation, passing means both fields are set to non-empty values |
| LsbRelease.FoundValue | tools/lsb_release/main.go:94-96 | a field set by some line is non-empty afterwards |
| LsbRelease.Output | tools/lsb_release/main.go:138-152 | with `-s` the bare values, otherwise the labelled ones; the id before the release, each only when asked for |
| Package.FillDefault | modules/bringauto_package/Package.go:35-47 | the defaults are the default name and version, not a debug build, a development library, and an auto platform string |
| Package.IsVersionTagSingleLine | modules/bringauto_package/Package.go:59-62 | on a one-line text the whole text must be `vN.N.N` |
| Package.VersionTagWithNewline | modules/bringauto_package/Package.go:59-62 | a version tag followed by a newline still passes |
| Package.CheckPrerequisites | modules/bringauto_package/Package.go:54-67 | passes exactly when a development library is a library, some line of the version is `vN.N.N` and the name is set; the library check is reported first |
| Package.DefaultIsValid | modules/bringauto_package/Package.go:35-67 | the default package passes its own checks |
| Package.CreatePackageName | modules/bringauto_package/Package.go:97-114 | never an ordinary error: panics exactly when the platform string is all empty, otherwise gives `[lib]<name>[d][-dev]_<version>_<platform>` |
| Package.NameLength | modules/bringauto_package/Package.go:97-114 | the name's length is the sum of its parts' lengths |
| Package.FlagsChangeName | modules/bringauto_package/Package.go:99-108 | packages differing only in the debug, library or development flags get different archive names |
| Package.SameLengthNamesDiffer | modules/bringauto_package/Package.go:99-108 | the two flag combinations whose names have equal length still differ |
| Package.CreatePackage | modules/bringauto_package/Package.go:74-92 | a missing source, a failing mkdir and a failing zip are errors; otherwise the archive is `<outputDir>/<name>.zip` |
| PlatformString.Serialize | modules/bringauto_package/PlatformString.go:144-149 | never an ordinary error: panics exactly when all three parts are empty, otherwise gives `machine-distro-release` |
| PlatformString.SerializeSplits | modules/bringauto_package/PlatformString.go:144-149 | when no part contains `-`, the serialized form splits back into its three parts |
| PlatformString.SerializeInjective | modules/bringauto_package/PlatformString.go:144-149 | two platform strings without `-` in their parts that serialize alike are equal |
| PlatformString.FillDefault | modules/bringauto_package/PlatformString.go:49-61 | a zero platform string becomes explicit with every part `unknown`; any other is kept |
| PlatformString.CheckPrerequisites | modules/bringauto_package/PlatformString.go:78-106 | an empty or unknown mode fails and explicit mode passes; auto and any-machine with arguments need every part set, each missing part named, and all parts empty panics |
| PlatformString.MissingPartsMessage | modules/bringauto_package/PlatformString.go:91-103 | never an ordinary error: panics exactly when all parts are empty, otherwise a message that is empty exactly when every part is set |
| PlatformString.StripNewline | modules/bringauto_package/PlatformString.go:165-171 | no line break in the result; it is empty exactly when no line starts with a character other than a line break; otherwise it is the stretch from the first such line start up to the next line break |
| PlatformString.StripNewlineFirstLine | modules/bringauto_package/PlatformString.go:165-171 | a line followed by a line break gives that line |
| PlatformString.StripNewlineSkipsEmptyLine | modules/bringauto_package/PlatformString.go:165-171 | an empty first line is skipped and the next line is the answer |
| PlatformString.NormalizeMachine | modules/bringauto_package/PlatformString.go:184-189 | the machine name is the stripped first line, character by character lower-cased, with every `_` replaced by `-` |
| PlatformString.DeterminePlatformString | modules/bringauto_package/PlatformString.go:111-140 | explicit mode panics; it is an error exactly when the container fails to start; it succeeds exactly when the container starts, both lsb_release queries and (in auto mode) `uname -m` answer and the mode is auto or any_machine; a remote command that fails once the container runs panics; otherwise the distribution and release are the lower-cased StripNewline of the lsb_release answers, and the machine is `any` or the normalised `uname -m` |
| PlatformString.RemoteCommand | modules/bringauto_package/PlatformString.go:151-163 | the command's output, or a panic when it fails |
| PlatformString.FillDynamic | modules/bringauto_package/PlatformString.go:63-76 | without arguments nothing changes; with them explicit mode panics and the other modes are determined remotely |
| PlatformString.DeterminedPasses | modules/bringauto_package/PlatformString.go:78-140 | a platform string determined remotely passes its checks unless a remote answer was empty |
| Process.Argv | modules/bringauto_process/Process.go:42-52 | setting both argument sources is an error; otherwise the executable path followed by the extra arguments, or by the generated ones, or alone |
| Process.Run | modules/bringauto_process/Process.go:38-66 | nothing runs when both argument sources are set; otherwise the program runs with that argument vector and its error is the result |
| SFTP.NormalizePath | modules/bringauto_ssh/SFTP.go:155-162 | no `//` is left, the characters other than `/` are kept in order, and the first character is kept |
| SFTP.NormalizeDoubled | modules/bringauto_ssh/SFTP.go:155-162 | `x//y` normalises like `x/y` wherever the pair stands; with NormalizeFixed this makes the result the path with each run of slashes collapsed to one |
| SFTP.NormalizeFixed | modules/bringauto_ssh/SFTP.go:155-162 | a path without `//` is left alone |
| SFTP.NormalizeIdempotent | modules/bringauto_ssh/SFTP.go:155-162 | normalising twice is normalising once |
| SFTP.ArchiveTar | modules/bringauto_ssh/SFTP.go:39 | the archive step built for the download passes its own checks |
| SFTP.CopyFile | modules/bringauto_ssh/SFTP.go:106-126 | succeeds exactly when the remote file exists, opens, the local file is created and the copy succeeds; a missing remote file has its own message; the download goes to the normalised local path |
| SFTP.Fetch | modules/bringauto_ssh/SFTP.go:67-103 | the client is closed on every way out; a missing or non-empty local directory stops before anything is fetched; success fetches, unpacks and then removes the archive |
| SFTP.DownloadDirectory | modules/bringauto_ssh/SFTP.go:36-104 | the remote tar runs first and its failure stops everything; then login, the client and the fetch, each failure wrapped with its own message |
| SFTP.DownloadSucceeds | modules/bringauto_ssh/SFTP.go:36-104 | the download succeeds exactly when every step succeeds and the local directory exists and is empty |
| SFTP.LocalDirCheckedFirst | modules/bringauto_ssh/SFTP.go:69-77 | a missing or non-empty local directory fails the download and nothing is fetched |
| SFTP.SuccessfulSteps | modules/bringauto_ssh/SFTP.go:36-104 | a full download archives remotely, logs in, opens the client, fetches, unpacks, removes the archive and closes the client, in that order |
| SFTP.ArchiveCommands | modules/bringauto_ssh/SFTP.go:39-43 | the remote command is the single tar line over the install directory |
| SFTP.MissingRemoteArchive | modules/bringauto_ssh/SFTP.go:81-84 | a missing remote archive is an error naming it |
| ShellEvaluator.Exports | modules/bringauto_ssh/ShellEvaluator.go:47-50 | one `export key="value"` line per variable, in visiting order, without validating keys |
| ShellEvaluator.CommandStream | modules/bringauto_ssh/ShellEvaluator.go:47-54 | the exports, then the commands, then `exit` |
| ShellEvaluator.ExportsPrecedeCommands | modules/bringauto_ssh/ShellEvaluator.go:47-54 | every variable is exported ahead of every command, and the commands keep their order |
| ShellEvaluator.WireAll | modules/bringauto_ssh/ShellEvaluator.go:56-61 | each line is written with a line ending, in order |
| ShellEvaluator.WireAllAppend | modules/bringauto_ssh/ShellEvaluator.go:56-61 | writing two lists is writing one after the other |
| ShellEvaluator.WireAllStep | modules/bringauto_ssh/ShellEvaluator.go:56-61 | one more line written is added at the end |
| ShellEvaluator.StoppedAt | modules/bringauto_ssh/ShellEvaluator.go:56-61 | the writes stop at the first failed one, which is the last written |
| ShellEvaluator.WroteAll | modules/bringauto_ssh/ShellEvaluator.go:56-61 | when every write succeeds every line is written |
| ShellEvaluator.WriteLines | modules/bringauto_ssh/ShellEvaluator.go:56-61 | writes the lines in order, stopping at the first failed write, whose error is returned; success means every line was written |
| ShellEvaluator.RunOverSSH | modules/bringauto_ssh/ShellEvaluator.go:26-67 | a login that never succeeds and a failed start return their errors with nothing written; otherwise the stream is written until the first failure and the error is the write's, then the wait's |
| SignalHandler.SignalHandlers.constructor | modules/bringauto_process/SignalHandler.go:24 | there are no handlers at first |
| SignalHandler.SignalHandlers.AddHandler | modules/bringauto_process/SignalHandler.go:43-52 | the handler is appended |
| SignalHandler.SignalHandlers.RemoveLastHandler | modules/bringauto_process/SignalHandler.go:54-61 | drops the last handler without running it; an empty stack is an error and is left as it is |
| SignalHandler.SignalHandlers.ExecuteAllHandlers | modules/bringauto_process/SignalHandler.go:63-70 | every handler runs once, the last registered first, and every failure is logged |
| SignalHandler.SignalHandlers.OnSignal | modules/bringauto_process/SignalHandler.go:27-39 | on the signal every handler runs, last first, then the program exits with status 1 |
| SignalHandler.ErrorLogStep | modules/bringauto_process/SignalHandler.go:65-68 | one more handler adds one log line exactly when it fails |
| SignalHandler.ErrorLogMeaning | modules/bringauto_process/SignalHandler.go:63-70 | nothing is logged exactly when every handler succeeds, and there is at most one line per handler |
| SignalHandler.AddThenRemove | modules/bringauto_process/SignalHandler.go:43-61 | adding a handler and calling its remover leaves the stack as it was |
| SSHSession.FillDefault | modules/bringauto_ssh/SSHSession.go:33-41 | the defaults are 127.0.0.1, port 1122, user root, password 1234 |
| SSHSession.FillDynamic | modules/bringauto_ssh/SSHSession.go:43-45 | changes nothing and never fails |
| SSHSession.CheckPrerequisites | modules/bringauto_ssh/SSHSession.go:47-49 | never fails |
| SSHSession.FirstSuccess | modules/bringauto_ssh/SSHSession.go:62-74 | the first successful attempt among the first n, if there is one |
| SSHSession.SSHSession.constructor | modules/bringauto_ssh/SSHSession.go:25-31 | a new session has neither client nor session |
| SSHSession.SSHSession.Login | modules/bringauto_ssh/SSHSession.go:81-150 | on success both handles are set; on failure nothing changes |
| SSHSession.SSHSession.LoginMultipleAttempts | modules/bringauto_ssh/SSHSession.go:59-76 | Login is tried until it succeeds, at most retries plus one times, sleeping after every failure but the last; if none succeeds the last error is wrapped |
| SSHSession.SSHSession.Logout | modules/bringauto_ssh/SSHSession.go:154-161 | the session is closed and cleared; the client stays |
| SSHSession.SSHSession.Start | modules/bringauto_ssh/SSHSession.go:188-194 | a session never opened dereferences nil; otherwise starting fails exactly when the command fails, with a wrapped message |
| SSHSession.SSHSession.Wait | modules/bringauto_ssh/SSHSession.go:199-208 | refused on an inactive session; otherwise fails exactly when the command fails, with a wrapped message |
| SSHSession.SSHSession.SetEnvironment | modules/bringauto_ssh/SSHSession.go:171-182 | refused on an inactive session; otherwise every variable is sent in visiting order until the first failure, which is returned |
| SSHSession.FirstSuccessAt | modules/bringauto_ssh/SSHSession.go:62-74 | an attempt that succeeds after failures only is the first success |
| SSHSession.LoginThenLogout | modules/bringauto_ssh/SSHSession.go:59-167 | the retry loop logs in exactly when some attempt succeeds, and a later Logout logs out, as IsLoggedIn reports |
| StartupScript.FillDefault | modules/bringauto_build/StartupScript.go:15-18 | the script path becomes `/environment.sh` |
| StartupScript.FillDynamic | modules/bringauto_build/StartupScript.go:20-22 | changes nothing and never fails |
| StartupScript.CheckPrerequisites | modules/bringauto_build/StartupScript.go:24-26 | never fails |
| StartupScript.ConstructCmdLine | modules/bringauto_build/StartupScript.go:28-31 | one line that sources the script only when it is a regular file, testing and sourcing the same path |
| StartupScript.CmdLineDeterminesPath | modules/bringauto_build/StartupScript.go:28-31 | the line determines the script path |
| Sysroot.ExistingFiles | modules/bringauto_sysroot/Sysroot.go:165-184 | only walked files that stat successfully, with the directory prefix trimmed; without a walk error all of them |
| Sysroot.ExistingFilesLength | modules/bringauto_sysroot/Sysroot.go:165-184 | one file per kept entry before the first walk error, and nothing after it |
| Sysroot.ExistingFilesAt | modules/bringauto_sysroot/Sysroot.go:165-184 | a kept entry before the first walk error sits after the kept entries preceding it, so the files come in walk order |
| Sysroot.Intersection | modules/bringauto_sysroot/Sysroot.go:80-86 | exactly the files to copy that the sysroot already has |
| Sysroot.IntersectionCount | modules/bringauto_sysroot/Sysroot.go:80-86 | each conflicting file as often as it is to be copied |
| Sysroot.IntersectionAppend | modules/bringauto_sysroot/Sysroot.go:80-86 | copying order is kept: the intersection of a concatenation is the concatenation of the intersections |
| Sysroot.IntersectionOne | modules/bringauto_sysroot/Sysroot.go:80-86 | one file is kept exactly when the sysroot has it |
| Sysroot.ReportedFiles | modules/bringauto_sysroot/Sysroot.go:96-106 | the first n conflicting files, or all of them when fewer, each shown under the sysroot directory and platform |
| Sysroot.IsDirectoryEmpty | modules/bringauto_sysroot/Sysroot.go:140-156 | true exactly when the directory cannot be opened or has no entries; an unreadable directory counts as not empty |
| Sysroot.Sysroot.constructor | modules/bringauto_sysroot/Sysroot.go:25-31 | a sysroot for the build type and platform, with no files, no directory and no built packages |
| Sysroot.Sysroot.CheckPrerequisites | modules/bringauto_sysroot/Sysroot.go:41-46 | refuses exactly a missing platform string |
| Sysroot.Sysroot.GetSysrootPath | modules/bringauto_sysroot/Sysroot.go:109-123 | `<cwd>/install_sysroot/<platform>[_debug]`; a missing or unserialisable platform string panics |
| Sysroot.Sysroot.CopyToSysroot | modules/bringauto_sysroot/Sysroot.go:49-68 | a file the sysroot already has is a conflict that copies nothing; otherwise a failed copy is returned; a successful copy adds the files and appends the package to the built list, and the write's error is the result |
| Sysroot.Sysroot.CreateSysrootDir | modules/bringauto_sysroot/Sysroot.go:127-136 | creates the directory only when it is missing; a failing mkdir panics |
| Sysroot.CopyTwiceConflicts | modules/bringauto_sysroot/Sysroot.go:74-92 | copying the same non-empty package twice fails the second time |
| Sysroot.CreateTwice | modules/bringauto_sysroot/Sysroot.go:127-136 | creating the directory again does nothing and succeeds |
| Tar.FillDefault | modules/bringauto_ssh/Tar.go:24-28 | the archive name and source directory become empty |
| Tar.FillDynamic | modules/bringauto_ssh/Tar.go:30-36 | the archive name and source directory are taken from the arguments |
| Tar.CheckPrerequisites | modules/bringauto_ssh/Tar.go:38-46 | passes exactly when both are set; a missing archive name is reported first |
| Tar.ConstructCmdLine | modules/bringauto_ssh/Tar.go:50-59 | one line `tar cvf <source>/<archive> -C <source> .` |
| Tar.InstallDirClean | modules/bringauto_ssh/Tar.go:53 | the install directory is a clean absolute path |
| Tar.InstallJoin | modules/bringauto_ssh/Tar.go:53 | a plain file name joined under the install directory is `/INSTALL/<name>` |
| Tar.InstallArchiveCmdLine | modules/bringauto_ssh/Tar.go:50-59 | archiving the install directory is the single line `tar cvf /INSTALL/<name> -C /INSTALL .` |
| Tar.InitializedIsValid | modules/bringauto_ssh/Tar.go:24-46 | initialising with both arguments set passes the checks |
| Uname.TrailingNonSpace | tools/uname/main.go:53 | the longest suffix without a space |
| Uname.ParseMachineOf | tools/uname/main.go:53-75 | a line `<anything> <machine> <last>` yields the machine |
| Uname.ParseMachineShape | tools/uname/main.go:53-75 | whatever is yielded sits between a space and a space-separated last word at the end of the line |
| Uname.ParseMachine | tools/uname/main.go:66-76 | a machine found is non-empty, has no space and leaves room for the separating spaces and the last word |
| Uname.TrailingNonSpaceOf | tools/uname/main.go:53 | the last word after a space is exactly that word |
| Uname.UnameData.constructor | tools/uname/main.go:39-41 | a new record has no machine |
| Uname.UnameData.ReadFromFile | tools/uname/main.go:43-76 | only the first line is read; an unopenable or empty file and a first line that does not match are fatal and change nothing; otherwise the machine is the matched word |
| Uname.Output | tools/uname/main.go:97-99 | with `-m` the machine and a newline, otherwise nothing |
| PackageMode.PackageKeyInjective | bap-builder/PackageMode.go:36-37 | the duplicate key is the package name together with the build type, and fixes both |
| PackageMode.DedupedKeys | bap-builder/PackageMode.go:32-45 | removing duplicates loses no key |
| PackageMode.DedupedUnique | bap-builder/PackageMode.go:32-45 | removing duplicates keeps no key twice |
| PackageMode.DedupedPicks | bap-builder/PackageMode.go:32-45 | exactly the first configuration of every key is kept, in input order |
| PackageMode.RemoveDuplicates | bap-builder/PackageMode.go:32-45 | the loop with its set of seen keys computes the deduplicated list |
| PackageMode.DepsOfMeaning | bap-builder/PackageMode.go:146-153 | the dependencies of a group are every `DependsOn` entry of each of its configurations |
| PackageMode.DependsMapNodes | bap-builder/PackageMode.go:132-157 | the graph has one node per package name that has a group |
| PackageMode.DependsMapEdges | bap-builder/PackageMode.go:132-157 | a node's edges are the `DependsOn` entries of every configuration under its name, debug and release alike |
| PackageMode.AllDependenciesMeaning | bap-builder/PackageMode.go:132-157 | the set of all dependencies is every `DependsOn` entry found |
| PackageMode.CreateDependsMap | bap-builder/PackageMode.go:132-157 | panics exactly when some group is empty; otherwise returns the graph and the dependency set described above |
| PackageMode.LeadsBackBySuccessor | bap-builder/PackageMode.go:70-87 | the depth-first search from a package leads back exactly when some successor's does with the package on the stack |
| PackageMode.CycleDetector.constructor | bap-builder/PackageMode.go:50-52 | a detector over the graph with nothing visited |
| PackageMode.CycleDetector.DetectCycle | bap-builder/PackageMode.go:70-87 | reports a cycle exactly when some walk from the package gets back onto the stack; a clean return leaves the stack as it was; a reported walk is a path of the graph, and its text joins it with ` -> ` |
| PackageMode.CycleDetector.VisitDependencies | bap-builder/PackageMode.go:72-85 | the dependency loop of the search finds a cycle exactly when one successor's search does |
| PackageMode.CycleDetector.ClearStack | bap-builder/PackageMode.go:59-61 | every visited package is marked off the stack and none is forgotten |
| PackageMode.CycleOfWalk | bap-builder/PackageMode.go:70-87 | a walk that revisits one of its packages proves the graph cyclic |
| PackageMode.CheckForCircularDependency | bap-builder/PackageMode.go:50-64 | fails exactly when the graph has a cycle, and the message spells a walk that closes a cycle |
| PackageMode.CycleReport | bap-builder/PackageMode.go:53-57 | the message built from a root and its reported walk describes a cycle |
| PackageMode.CycleErrorIsCycle | bap-builder/PackageMode.go:56 | a reported cycle is a cycle of the graph |
| PackageMode.NoRootLeadsBack | bap-builder/PackageMode.go:53-63 | when no search leads back the graph is acyclic |
| PackageMode.CycleLeadsBack | bap-builder/PackageMode.go:53-63 | a search from a package on a cycle leads back |
| PackageMode.LeadsBackCycle | bap-builder/PackageMode.go:70-87 | with an empty stack, leading back means reaching a cycle |
| PackageMode.PreOrderedAppend | bap-builder/PackageMode.go:159-173 | appending one pre-ordered list to another keeps the result pre-ordered |
| PackageMode.SortDependencies | bap-builder/PackageMode.go:159-173 | the list starts at the root, lists only packages the root reaches, and lists every package before everything it reaches |
| PackageMode.SortRootClosed | bap-builder/PackageMode.go:159-173 | listing each dependency's own list after the root puts everything the root reaches after it |
| PackageMode.ReverseOrdered | bap-builder/PackageMode.go:117-121 | reversing a pre-ordered list puts every package after what it reaches |
| PackageMode.RootAbove | bap-builder/PackageMode.go:101-110 | in an acyclic graph every node is a root or reached from one |
| PackageMode.DependencyHasParent | bap-builder/PackageMode.go:132-157 | every collected dependency is an edge of the graph |
| PackageMode.RootsCover | bap-builder/PackageMode.go:101-115 | the roots' lists together cover every node of an acyclic graph |
| PackageMode.Roots | bap-builder/PackageMode.go:101-110 | the roots are exactly the nodes no package depends on, each once |
| PackageMode.SortRoots | bap-builder/PackageMode.go:112-115 | the roots' lists one after another are pre-ordered and contain every root |
| PackageMode.ReverseNames | bap-builder/PackageMode.go:117-121 | a new slice holding the names in reverse order |
| PackageMode.ExpandConfigs | bap-builder/PackageMode.go:123-126 | the configurations of each name in turn, in the order of the names |
| PackageMode.ReversedIsBuildOrder | bap-builder/PackageMode.go:112-121 | the reversed list names every node after all it depends on |
| PackageMode.TopologicalSort | bap-builder/PackageMode.go:89-130 | panics exactly on an empty group; fails exactly when the graph has a cycle, naming one; otherwise a build order of the graph, expanded to configurations and deduplicated |
| PackageMode.DependencyFirst | bap-builder/PackageMode.go:89-130 | a kept configuration whose package depends, directly or not, on another's comes after it |
| PackageMode.DirectDependencyFirst | bap-builder/PackageMode.go:89-130 | a direct `DependsOn` orders the kept configurations likewise |
| PackageMode.KeptFromMap | bap-builder/PackageMode.go:123-129 | every kept configuration comes from the map |
| PackageMode.ExpandedKeys | bap-builder/PackageMode.go:123-126 | the expanded list has exactly the keys of the map |
| PackageMode.KeptOnce | bap-builder/PackageMode.go:89-130 | the sort keeps only configurations of the map, every key of the map, and each key once |
| PackageMode.FilledMeaning | bap-builder/PackageMode.go:415-431 | a name has a list exactly when it had one or some configuration loaded under it, and the list is the old one followed by those configurations |
| PackageMode.AddConfigsToDefsMap | bap-builder/PackageMode.go:415-431 | a configuration that does not load is skipped; the others are appended under their package name |
| PackageMode.AddConfigsWellKeyed | bap-builder/PackageMode.go:415-431 | every list of the filled map holds configurations of its own name only |
| PackageMode.StepError | bap-builder/PackageMode.go:461-478 | a build step passes exactly when its run and both copies pass; a failed run is its error |
| PackageMode.Stopped | bap-builder/PackageMode.go:450-487 | the position of the first failing step, every step before it passing |
| PackageMode.BuildAndCopyPackage | bap-builder/PackageMode.go:435-488 | a mode other than Git LFS fails before any run with nothing registered; otherwise runs up to and including the first failing step, returns its error, and leaves a handler behind only after a failed run |
| PackageMode.LeftBehindMeaning | bap-builder/PackageMode.go:461-486 | at most one handler is left behind, exactly when a run failed; the package succeeds exactly when every step does |
| PackageMode.ConfigsStopped | bap-builder/PackageMode.go:288-300 | the position of the first considered configuration that fails |
| PackageMode.BuildConfigs | bap-builder/PackageMode.go:288-300 | the build loop returns the first error, prefixed with the package name, and the handlers left behind by the configurations up to it |
| PackageMode.ConfigsOutcomeMeaning | bap-builder/PackageMode.go:288-300 | the build loop succeeds exactly when every configuration it builds succeeds |
| PackageMode.InvalidModeFails | bap-builder/PackageMode.go:441-443 | in a mode other than Git LFS the loop succeeds only when it has nothing to build, and leaves no handler behind |
| PackageMode.BuildPackage | bap-builder/PackageMode.go:228-258 | the first failing precheck is returned with nothing registered; otherwise the build outcome is returned, the remover runs, and the repository commits exactly on success |
| PackageMode.RemoverDropsLast | bap-builder/PackageMode.go:245-256 | the remover drops RestoreAllChanges unless a failed run left a CleanUp on top, which it drops instead |

## Left out

- Process, git, Docker and SSH execution: `exec.Cmd`, `ssh.Dial`, the PTY, the pipe goroutines and the sftp client are foreign libraries. Their outcomes and outputs are inputs of the model.
- Concurrency: the signal goroutine, the handler mutex and the `io.Copy` goroutines are left out. The handler stack is modelled sequentially.
- Timing: `time.Sleep` between SSH login attempts is not modelled.
- Archiving and copying: zip and tar contents, `archiver` and `otiai10/copy` are libraries. Copying is modelled as adding a file set.
- File system walking: directory walks and regexp listings are represented by the in-memory sets and maps they produce.
- JSON: LoadJSONConfig, SaveToJSONConfig and BuiltPackages marshalling are libraries. Only their success or failure and the decoded value are modelled.
- Reused JSON targets: unmarshalling into one reused struct in a loop merges fields, and that is not modelled. Every load yields a fresh configuration.
- Deep merge: the `copier.CopyWithOption` merge in GetBuildStructure is a library. The model keeps the built structure and the default Build's success.
- Reflection: the field-by-field copy of GetArgs and `IsEmpty` via `DeepEqual` are left out. "Is the zero value" is equality with the zero value.
- Logging: all of modules/bringauto_log, including messages such as "Nothing to build", is writer I/O.
- Mode drivers: bap-builder/SysrootMode.go, bap-builder/DockerMode.go, bap-builder/main.go, the test helpers and the Repository interface only sequence the modelled pieces.
- Argument parsing: the argparse library is left out. ParseArgs receives the parser's result.
- TopologicalSort returns an empty slice alongside its error, and that slice is not modelled. The model returns `Err` only.
- TopologicalSort's rootList is computed and never used, so it is not modelled.
- Sysroot initialisation error: buildAndCopyPackage overwrites the error of the sysroot's Initialize before checking it, so the model does not consult it.
- The bodies of prepareConfigs, prepareConfigsNoBuildDeps and prepareConfigsBuildDepsOrBuildDepsOn are file loading. BuildPackage receives their result as the `prepared` input.
- determinePlatformString, checkSysrootDirs and isPackageWithDepsInSysroot run processes or read the disk. They are outcome inputs.
- SignalHandlerAddHandler is called but not defined in the files modelled. It is modelled as SignalHandler.AddHandler plus a remover that drops the last handler.
- DockerExecutablePathConst is not defined in the files modelled. The Docker command lines take the executable as a `dockerPath` parameter.
- Two-argument GetBuildStructure: PackageMode.go passes two arguments to the one-parameter function in Config.go. The model uses Config.go's own image filter.
- GetFullPackageName, GetShortPackageName, the exported CreatePackagePath that SysrootMode.go calls, IsPackageInSysroot and ZipExt are not defined in the files modelled. They are uninterpreted inputs. The unexported createPackagePath of GitLFSRepository.go is modelled as GitLFSRepository.CreatePackagePath.
- Map iteration order: no specific order of CMake defines, environment exports, Docker flags or graph siblings is promised.
- BuilderContextManager.GetPackageWithDepsJsonDefPaths: requires that no dependency cycle is reachable from the package's definitions, because the Go recursion in getAllDepsJsonPaths has no visited set and does not terminate on such a cycle.
- BuilderContextManager.LenientDeps: requires that no cycle is reachable from the definition, for the same reason.
- PlatformString.NormalizeMachine: lower-cases ASCII letters only, where Go's strings.ToLower maps every Unicode letter.
- PlatformString.DeterminePlatformString: the distribution and release are lower-cased for ASCII letters only, as in NormalizeMachine.
- Build.Build.RunBuild: a Build with a nil member panics at its start in the model; Go would dereference the nil member where it is first used, for a nil SSHCredentials only at Build.go:145 after the container runs. FillDefault never leaves a member nil.
- Integer widths: no value in the core reaches Go's integer limits, so integers are unbounded.

## Findings

| source | as written | input that shows it | evidently intended | confidence | as-written member | corrected member |
|---|---|---|---|---|---|---|
| modules/bringauto_docker/DockerImage.go:23 | the image-line pattern is compiled with POSIX syntax, which refuses `\s` and `(?P<`; the error is only logged and the nil pattern is then dereferenced | any successful `docker ls` output | compile the pattern with the default syntax and scan the lines for the image name | not executed | DockerImage.AsWrittenPanics | DockerImage.ImageExists |
| tools/lsb_release/main.go:101 | validation counts matching lines, not distinct fields | the lines `Release:\t11` and `Release:\t12` pass; the lines `Distributor ID:\tDebian`, `Release:\t11`, `Release:\t11` fail | fail exactly when the distributor id or the release was not found | not executed | LsbRelease.CountedValidationMisses | LsbRelease.ValidationMeansFound |
