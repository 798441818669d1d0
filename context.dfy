/**
 * A packager context: a directory with a `package` subdirectory holding
 * one directory of JSON build configurations per package.  The model keeps
 * the context in memory: which package directories can be listed and the
 * JSON paths found in each, and which of those files load as a
 * configuration.
 */
module Context {
  import opened Wrappers
  import Collections
  import CFG = Config
  import PS = PlatformString

  /**
   * `valid`: the context directory and its `docker` and `package`
   * subdirectories exist.  `packages`: for each package directory that
   * can be listed, the `.json` paths in it, in listing order.  `configs`:
   * the JSON paths that load, with what they load to.
   */
  datatype Context = Context(valid: bool, packages: map<string, seq<string>>, configs: map<string, CFG.Config>)

  const InvalidContextMessage := "context path does not exist"
  const NoPackageMessage := "package does not exist, please check the name"

  /** GetPackageJsonDefPaths: the definitions of one package; an unknown package is an error. */
  function GetPackageJsonDefPaths(ctx: Context, packageName: string): (r: Result<seq<string>>)
    ensures r.Ok? <==> ctx.valid && packageName in ctx.packages
    ensures r.Ok? ==> r.value == ctx.packages[packageName]
    ensures !r.Ok? ==> r.Err?
  {
    if !ctx.valid then Err(InvalidContextMessage)
    else if packageName !in ctx.packages then Err(NoPackageMessage)
    else Ok(ctx.packages[packageName])
  }

  /** LoadJSONConfig: reading and decoding one configuration file. */
  function LoadJSONConfig(ctx: Context, path: string): (r: Result<CFG.Config>)
    ensures r.Ok? <==> path in ctx.configs
    ensures r.Ok? ==> r.value == ctx.configs[path]
    ensures !r.Ok? ==> r.Err?
  {
    if path in ctx.configs then Ok(ctx.configs[path]) else Err("couldn't load JSON config from " + path)
  }

  /** The configurations that load among `paths`, in order, with the platform string replaced when one is given. */
  function LoadedAt(ctx: Context, paths: seq<string>, platform: Option<PS.PlatformString>): (r: seq<CFG.Config>)
    ensures |r| <= |paths|
  {
    if paths == [] then []
    else
      var rest := LoadedAt(ctx, paths[1..], platform);
      if paths[0] !in ctx.configs then rest
      else [WithPlatform(ctx.configs[paths[0]], platform)] + rest
  }

  function WithPlatform(c: CFG.Config, platform: Option<PS.PlatformString>): (r: CFG.Config)
    ensures platform.None? ==> r == c
    ensures platform.Some? ==> r.package.platformString == platform.value && r.package.name == c.package.name
    ensures r.dependsOn == c.dependsOn && r.package.isDebug == c.package.isDebug
  {
    if platform.Some? then c.(package := c.package.(platformString := platform.value)) else c
  }

  /** Every configuration of the context, package directory by package directory in `order`. */
  function AllConfigs(ctx: Context, order: seq<string>, platform: Option<PS.PlatformString>): seq<CFG.Config>
    requires forall i :: 0 <= i < |order| ==> order[i] in ctx.packages
  {
    if order == [] then [] else LoadedAt(ctx, ctx.packages[order[0]], platform) + AllConfigs(ctx, order[1..], platform)
  }

  /** A configuration loads from one of the listed paths. */
  ghost predicate IsPackageConfig(ctx: Context, c: CFG.Config)
  {
    exists name, i :: name in ctx.packages && 0 <= i < |ctx.packages[name]| && ctx.packages[name][i] in ctx.configs &&
      ctx.configs[ctx.packages[name][i]] == c
  }

  lemma {:induction false} LoadedAtMeaning(ctx: Context, paths: seq<string>, c: CFG.Config)
    ensures c in LoadedAt(ctx, paths, None) <==> exists i :: 0 <= i < |paths| && paths[i] in ctx.configs && ctx.configs[paths[i]] == c
  {
    if paths != [] {
      LoadedAtMeaning(ctx, paths[1..], c);
      if c in LoadedAt(ctx, paths[1..], None) {
        var i :| 0 <= i < |paths[1..]| && paths[1..][i] in ctx.configs && ctx.configs[paths[1..][i]] == c;
        assert paths[i + 1] == paths[1..][i];
      }
      forall i | 0 < i < |paths| && paths[i] in ctx.configs && ctx.configs[paths[i]] == c
        ensures c in LoadedAt(ctx, paths[1..], None)
      {
        assert paths[1..][i - 1] == paths[i];
      }
    }
  }

  /** Without a platform string, the configurations collected are exactly those of the context, whatever the order of the directories. */
  lemma {:induction false} AllConfigsMeaning(ctx: Context, order: seq<string>, c: CFG.Config)
    requires Collections.IsEnumeration(order, ctx.packages.Keys)
    ensures c in AllConfigs(ctx, order, None) <==> IsPackageConfig(ctx, c)
  {
    AllConfigsIn(ctx, order, c);
    if IsPackageConfig(ctx, c) {
      var name, i :| name in ctx.packages && 0 <= i < |ctx.packages[name]| && ctx.packages[name][i] in ctx.configs &&
        ctx.configs[ctx.packages[name][i]] == c;
      var k :| 0 <= k < |order| && order[k] == name;
      LoadedAtMeaning(ctx, ctx.packages[name], c);
      AllConfigsHas(ctx, order, k, c);
    }
  }

  lemma {:induction false} AllConfigsIn(ctx: Context, order: seq<string>, c: CFG.Config)
    requires forall i :: 0 <= i < |order| ==> order[i] in ctx.packages
    ensures c in AllConfigs(ctx, order, None) ==> IsPackageConfig(ctx, c)
  {
    if order != [] {
      AllConfigsIn(ctx, order[1..], c);
      LoadedAtMeaning(ctx, ctx.packages[order[0]], c);
    }
  }

  lemma {:induction false} AllConfigsHas(ctx: Context, order: seq<string>, k: nat, c: CFG.Config)
    requires forall i :: 0 <= i < |order| ==> order[i] in ctx.packages
    requires k < |order| && c in LoadedAt(ctx, ctx.packages[order[k]], None)
    ensures c in AllConfigs(ctx, order, None)
  {
    if k > 0 {
      AllConfigsHas(ctx, order[1..], k - 1, c);
    }
  }

  /**
   * GetAllPackagesConfigs: every configuration that loads, directory by
   * directory in the order the map of package directories is visited;
   * a file that does not load is skipped with a warning.
   */
  method GetAllPackagesConfigs(ctx: Context, platform: Option<PS.PlatformString>) returns (r: Result<seq<CFG.Config>>, ghost order: seq<string>)
    ensures r.Ok? <==> ctx.valid
    ensures !r.Ok? ==> r.Err?
    ensures r.Ok? ==> Collections.IsEnumeration(order, ctx.packages.Keys) && r.value == AllConfigs(ctx, order, platform)
  {
    if !ctx.valid {
      return Err(InvalidContextMessage), [];
    }
    var names := Collections.Enumerate(ctx.packages.Keys);
    var configs: seq<CFG.Config> := [];
    var k := 0;
    while k < |names|
      invariant 0 <= k <= |names|
      invariant configs + AllConfigs(ctx, names[k..], platform) == AllConfigs(ctx, names, platform)
    {
      var loaded := LoadDirectory(ctx, ctx.packages[names[k]], platform);
      assert names[k..][1..] == names[k + 1..];
      configs := configs + loaded;
      k := k + 1;
    }
    assert names[k..] == [];
    return Ok(configs), names;
  }

  /** The inner loop of GetAllPackagesConfigs over one directory's files. */
  method LoadDirectory(ctx: Context, paths: seq<string>, platform: Option<PS.PlatformString>) returns (loaded: seq<CFG.Config>)
    ensures loaded == LoadedAt(ctx, paths, platform)
  {
    loaded := [];
    var i := 0;
    while i < |paths|
      invariant 0 <= i <= |paths|
      invariant loaded + LoadedAt(ctx, paths[i..], platform) == LoadedAt(ctx, paths, platform)
    {
      assert paths[i..][1..] == paths[i + 1..];
      var c := LoadJSONConfig(ctx, paths[i]);
      if c.Ok? {
        loaded := loaded + [WithPlatform(c.value, platform)];
      }
      i := i + 1;
    }
    assert paths[i..] == [];
  }
}
