/**
 * A Docker container for a build: its image, port and volume mappings,
 * and the id of the running container.  DockerRun, DockerStop, DockerRm
 * and DockerImage are Go conversions of the same struct, so their
 * methods work on the same fields and are members of one class here.
 */
module Docker {
  import opened Wrappers
  import Strings
  import Collections
  import Process

  const DefaultImageName := "debian11"

  /** `flag value` for every value, in order. */
  function FlagArgs(flag: string, values: seq<string>): (r: seq<string>)
    ensures |r| == 2 * |values|
  {
    if values == [] then [] else [flag, values[0]] + FlagArgs(flag, values[1..])
  }

  /** The i-th pair of arguments is the flag and the i-th value. */
  lemma {:induction false} FlagArgsAt(flag: string, values: seq<string>, i: nat)
    requires i < |values|
    ensures FlagArgs(flag, values)[2 * i] == flag && FlagArgs(flag, values)[2 * i + 1] == values[i]
  {
    if i > 0 {
      FlagArgsAt(flag, values[1..], i - 1);
      assert values[1..][i - 1] == values[i];
      assert 2 * i == 2 + 2 * (i - 1);
    }
  }

  /** One `host:container` port mapping, written in decimal. */
  function PortMapping(host: int, container: int): string
  {
    Strings.IntToString(host) + ":" + Strings.IntToString(container)
  }

  /** The port mappings, in the order the map is visited. */
  function PortMappings(order: seq<int>, ports: map<int, int>): (r: seq<string>)
    requires forall i :: 0 <= i < |order| ==> order[i] in ports
    ensures |r| == |order|
    ensures forall i :: 0 <= i < |order| ==> r[i] == PortMapping(order[i], ports[order[i]])
  {
    if order == [] then []
    else
      assert forall i :: 1 <= i < |order| ==> order[1..][i - 1] == order[i];
      [PortMapping(order[0], ports[order[0]])] + PortMappings(order[1..], ports)
  }

  /** The volume mappings `host:container`, in the order the map is visited. */
  function VolumeMappings(order: seq<string>, volumes: map<string, string>): (r: seq<string>)
    requires forall i :: 0 <= i < |order| ==> order[i] in volumes
    ensures |r| == |order|
    ensures forall i :: 0 <= i < |order| ==> r[i] == order[i] + ":" + volumes[order[i]]
  {
    if order == [] then []
    else
      assert forall i :: 1 <= i < |order| ==> order[1..][i - 1] == order[i];
      [order[0] + ":" + volumes[order[0]]] + VolumeMappings(order[1..], volumes)
  }

  /** `-p host:container` for every port pair, in the order the map is visited. */
  function PortArgs(order: seq<int>, ports: map<int, int>): (r: seq<string>)
    requires forall i :: 0 <= i < |order| ==> order[i] in ports
    ensures |r| == 2 * |order|
  {
    FlagArgs("-p", PortMappings(order, ports))
  }

  /** The i-th pair of arguments maps the i-th port visited. */
  lemma PortArgsAt(order: seq<int>, ports: map<int, int>, i: nat)
    requires forall i :: 0 <= i < |order| ==> order[i] in ports
    requires i < |order|
    ensures PortArgs(order, ports)[2 * i] == "-p"
    ensures PortArgs(order, ports)[2 * i + 1] == PortMapping(order[i], ports[order[i]])
  {
    FlagArgsAt("-p", PortMappings(order, ports), i);
  }

  /** `-v host:container` for every volume, in the order the map is visited. */
  function VolumeArgs(order: seq<string>, volumes: map<string, string>): (r: seq<string>)
    requires forall i :: 0 <= i < |order| ==> order[i] in volumes
    ensures |r| == 2 * |order|
  {
    FlagArgs("-v", VolumeMappings(order, volumes))
  }

  /** The i-th pair of arguments mounts the i-th volume visited. */
  lemma VolumeArgsAt(order: seq<string>, volumes: map<string, string>, i: nat)
    requires forall i :: 0 <= i < |order| ==> order[i] in volumes
    requires i < |order|
    ensures VolumeArgs(order, volumes)[2 * i] == "-v"
    ensures VolumeArgs(order, volumes)[2 * i + 1] == order[i] + ":" + volumes[order[i]]
  {
    FlagArgsAt("-v", VolumeMappings(order, volumes), i);
  }

  /** The argument list of `docker run` from its parts. */
  function RunArgs(daemon: bool, portArgs: seq<string>, volumeArgs: seq<string>, image: string): (r: seq<string>)
    ensures |r| == 2 + (if daemon then 1 else 0) + |portArgs| + |volumeArgs|
    ensures r[0] == "run" && r[|r| - 1] == image
    ensures daemon ==> r[1] == "-d"
    ensures var o := if daemon then 2 else 1;
      r[o..o + |portArgs|] == portArgs && r[o + |portArgs|..|r| - 1] == volumeArgs
  {
    var head := if daemon then ["run", "-d"] else ["run"];
    var r := head + portArgs + volumeArgs + [image];
    assert r[|head|..|head| + |portArgs|] == portArgs;
    assert r[|head| + |portArgs|..|r| - 1] == volumeArgs;
    r
  }

  /**
   * The container id DockerRun.Run takes from docker's output: FindString
   * of `^([0-9a-zA-Z]+)` compiled with CompilePOSIX, so the first
   * alphanumeric run that begins a line, up to the first other character.
   */
  function ContainerIdOf(stdout: string): (r: string)
    ensures forall k :: 0 <= k < |r| ==> Strings.IsAlnum(r[k])
    ensures r == "" <==> forall k :: 0 <= k < |stdout| ==> !Strings.RunStartsAt(stdout, k, Strings.IsAlnum)
    ensures r != "" ==>
      var i := Strings.FirstRunStart(stdout, 0, Strings.IsAlnum);
      i + |r| <= |stdout| && r == stdout[i..i + |r|] && (i + |r| < |stdout| ==> !Strings.IsAlnum(stdout[i + |r|]))
  {
    Strings.FirstLineRun(stdout, Strings.IsAlnum)
  }

  /** docker run prints the id and a newline: the id is read back whole. */
  lemma ContainerIdOfLine(id: string, rest: string)
    requires id != "" && forall k :: 0 <= k < |id| ==> Strings.IsAlnum(id[k])
    requires rest == "" || !Strings.IsAlnum(rest[0])
    ensures ContainerIdOf(id + rest) == id
  {
    Strings.FirstLineRunFirstLine(id, rest, Strings.IsAlnum);
  }

  /** An id on the second line is still found, because `^` matches after a newline. */
  lemma ContainerIdAfterEmptyLine(id: string, rest: string)
    requires id != "" && forall k :: 0 <= k < |id| ==> Strings.IsAlnum(id[k])
    requires rest == "" || !Strings.IsAlnum(rest[0])
    ensures ContainerIdOf("\n" + id + rest) == id
  {
    Strings.FirstLineRunAfterNewline(id, rest, Strings.IsAlnum);
  }

  class Docker {
    var imageName: string
    /** Go maps, which may be nil (None). */
    var ports: Option<map<int, int>>
    var volumes: Option<map<string, string>>
    var runAsDaemon: bool
    var containerId: string

    /** The zero value of the struct. */
    constructor ()
      ensures imageName == "" && ports.None? && volumes.None? && !runAsDaemon && containerId == ""
    {
      imageName := "";
      ports := None;
      volumes := None;
      runAsDaemon := false;
      containerId := "";
    }

    function Ports(): map<int, int>
      reads this
    {
      if ports.Some? then ports.value else map[]
    }

    function Volumes(): map<string, string>
      reads this
    {
      if volumes.Some? then volumes.value else map[]
    }

    /** FillDefault: image debian11, a daemon, port 1122 mapped to 22, no volumes, no container. */
    method FillDefault()
      modifies this
      ensures imageName == DefaultImageName && runAsDaemon
      ensures ports == Some(map[1122 := 22]) && volumes == Some(map[])
      ensures containerId == ""
    {
      imageName := DefaultImageName;
      ports := Some(map[1122 := 22]);
      volumes := Some(map[]);
      runAsDaemon := true;
      containerId := "";
    }

    /**
     * SetVolume maps a host directory into the container.  A host
     * directory that is already mapped panics, and so does a nil map.
     */
    method SetVolume(hostDirectory: string, containerDirectory: string) returns (err: Outcome)
      modifies this
      ensures err.Pass? <==> old(volumes).Some? && hostDirectory !in old(Volumes())
      ensures !err.Fail?
      ensures err.Pass? ==> volumes == Some(old(Volumes())[hostDirectory := containerDirectory])
      ensures !err.Pass? ==> volumes == old(volumes)
      ensures imageName == old(imageName) && ports == old(ports) && runAsDaemon == old(runAsDaemon) && containerId == old(containerId)
    {
      if hostDirectory in Volumes() {
        err := Abort("volume mapping is already set: '" + hostDirectory + "' --> '" + containerDirectory + "'");
      } else if volumes.None? {
        err := Abort("assignment to entry in nil map");
      } else {
        volumes := Some(volumes.value[hostDirectory := containerDirectory]);
        err := Pass;
      }
    }

    /**
     * CheckPrerequisites: `docker images` must run, and every host
     * directory of a volume must exist (`existing` are the directories
     * that do); the first missing one in map order is reported.
     */
    function CheckPrerequisites(imagesRun: Outcome, existing: set<string>, order: seq<string>): (r: Outcome)
      reads this
      requires Collections.IsEnumeration(order, Volumes().Keys)
      ensures r.Pass? <==> imagesRun.Pass? && forall h :: h in Volumes() ==> h in existing
      ensures !imagesRun.Pass? ==> r == imagesRun
    {
      if !imagesRun.Pass? then imagesRun
      else MissingVolume(order, existing)
    }

    /** DockerRun.GenerateCmdLine for the order in which the maps are visited. */
    function RunCmdLine(portOrder: seq<int>, volumeOrder: seq<string>): (r: seq<string>)
      reads this
      requires Collections.IsEnumeration(portOrder, Ports().Keys)
      requires Collections.IsEnumeration(volumeOrder, Volumes().Keys)
      ensures |r| == 2 + (if runAsDaemon then 1 else 0) + 2 * |portOrder| + 2 * |volumeOrder|
      ensures r[0] == "run" && r[|r| - 1] == imageName
      ensures runAsDaemon ==> r[1] == "-d"
      ensures var o := if runAsDaemon then 2 else 1;
        r[o..o + 2 * |portOrder|] == PortArgs(portOrder, Ports()) &&
        r[o + 2 * |portOrder|..|r| - 1] == VolumeArgs(volumeOrder, Volumes())
    {
      RunArgs(runAsDaemon, PortArgs(portOrder, Ports()), VolumeArgs(volumeOrder, Volumes()), imageName)
    }

    /**
     * DockerRun.Run starts the container.  On success the container id
     * is the one read from what docker printed; on failure nothing changes.
     */
    method Run(dockerPath: string, portOrder: seq<int>, volumeOrder: seq<string>, exec: Outcome, stdout: string)
      returns (err: Outcome, argv: seq<string>)
      modifies this
      requires Collections.IsEnumeration(portOrder, Ports().Keys)
      requires Collections.IsEnumeration(volumeOrder, Volumes().Keys)
      ensures argv == [dockerPath] + old(RunCmdLine(portOrder, volumeOrder))
      ensures err.Pass? <==> exec.Pass?
      ensures !exec.Pass? ==> err == Fail("dockerRun run error - " + exec.msg)
      ensures err.Pass? ==> containerId == ContainerIdOf(stdout)
      ensures !err.Pass? ==> containerId == old(containerId)
      ensures imageName == old(imageName) && ports == old(ports) && volumes == old(volumes) && runAsDaemon == old(runAsDaemon)
    {
      var p := Process.Process(dockerPath, Process.ProcessArgs(Some(Process.Generated(RunCmdLine(portOrder, volumeOrder), Pass)), None));
      var res := Process.Run(p, exec);
      argv := res.started.value;
      if !res.err.Pass? {
        err := Fail("dockerRun run error - " + res.err.msg);
      } else {
        containerId := ContainerIdOf(stdout);
        err := Pass;
      }
    }

    /** DockerStop.GenerateCmdLine; it never fails, even without a container id. */
    function StopCmdLine(): (r: seq<string>)
      reads this
      ensures r == ["stop", containerId]
    {
      ["stop", containerId]
    }

    /** DockerStop.Stop runs `docker stop <id>` without checking the id; it fails iff the process fails. */
    function Stop(dockerPath: string, exec: Outcome): (r: Process.RunResult)
      reads this
      ensures r.started == Some([dockerPath] + StopCmdLine())
      ensures r.err.Pass? <==> exec.Pass?
    {
      var p := Process.Process(dockerPath, Process.ProcessArgs(Some(Process.Generated(StopCmdLine(), Pass)), None));
      var res := Process.Run(p, exec);
      if res.err.Pass? then res else Process.RunResult(Fail("DockerRun stop error - " + res.err.msg), res.started)
    }

    /** DockerRm.GenerateCmdLine; it never fails. */
    function RmCmdLine(): (r: seq<string>)
      reads this
      ensures r == ["rm", containerId]
    {
      ["rm", containerId]
    }

    /** DockerRm.RemoveContainer: without a container id it fails before running anything. */
    function RemoveContainer(dockerPath: string, exec: Outcome): (r: Process.RunResult)
      reads this
      ensures containerId == "" ==> r.started.None? && r.err.Fail?
      ensures containerId != "" ==> r.started == Some([dockerPath] + RmCmdLine()) && (r.err.Pass? <==> exec.Pass?)
    {
      if containerId == "" then
        Process.RunResult(Fail("cannot delete unknown container. No container Id provided! Container not started"), None)
      else
        var p := Process.Process(dockerPath, Process.ProcessArgs(Some(Process.Generated(RmCmdLine(), Pass)), None));
        var res := Process.Run(p, exec);
        if res.err.Pass? then res else Process.RunResult(Fail("DockerRun rm error " + res.err.msg), res.started)
    }
  }

  /** The first host directory in `order` that does not exist is the error. */
  function MissingVolume(order: seq<string>, existing: set<string>): (r: Outcome)
    ensures r.Pass? <==> forall i :: 0 <= i < |order| ==> order[i] in existing
    ensures r.Fail? <==> !r.Pass?
  {
    if order == [] then Pass
    else if order[0] !in existing then Fail("connot mount non existent directory as volume: '" + order[0] + "'")
    else
      assert forall i :: 1 <= i < |order| ==> order[1..][i - 1] == order[i];
      MissingVolume(order[1..], existing)
  }

  /** The `docker run` arguments hold a pair for every port and every volume. */
  lemma RunCmdLineLength(d: Docker, portOrder: seq<int>, volumeOrder: seq<string>)
    requires Collections.IsEnumeration(portOrder, d.Ports().Keys)
    requires Collections.IsEnumeration(volumeOrder, d.Volumes().Keys)
    ensures |d.RunCmdLine(portOrder, volumeOrder)| == 2 + (if d.runAsDaemon then 1 else 0) + 2 * |d.Ports()| + 2 * |d.Volumes()|
  {
    var ports := d.Ports();
    var volumes := d.Volumes();
    Collections.EnumerationSize(portOrder, ports.Keys);
    Collections.EnumerationSize(volumeOrder, volumes.Keys);
    assert |ports| == |ports.Keys| && |volumes| == |volumes.Keys|;
  }

  /** A default, never-run container stops and removes with an empty id; only removing refuses it. */
  method DefaultContainerCommands(dockerPath: string) returns (stop: seq<string>, rm: seq<string>, rmRun: Process.RunResult)
    ensures stop == ["stop", ""] && rm == ["rm", ""]
    ensures rmRun.started.None? && rmRun.err.Fail?
  {
    var d := new Docker();
    d.FillDefault();
    stop := d.StopCmdLine();
    rm := d.RmCmdLine();
    rmRun := d.RemoveContainer(dockerPath, Pass);
  }
}
