/**
 * The validation and path expansion done by the `JeefoBundler` constructor
 * (src/index.js): include directories and package roots get the `~/` shorthand
 * expanded and are resolved against the working directory; every include directory
 * must exist as a directory. Field types are enforced by Dafny's types.
 */
module Config {
  import opened Wrappers
  import opened Paths
  import opened FileSystem
  import opened Resolver

  datatype BundlerConfig = BundlerConfig(
    name: string,
    cacheDir: Path,
    outputDir: Path,
    includeDirs: Option<seq<Path>>,
    nodeModules: Option<seq<PackageRoot>>)

  /** What the constructor reads from the process: `$HOME`, the working directory, the platform. */
  datatype Env = Env(home: Path, cwd: Path, win32: bool)

  /** The constructor's rejection ``'${dir}' is not a directory``. */
  datatype ConfigError = NotADirectory(dir: Path) {
    function Message(): string {
      "'" + dir + "' is not a directory"
    }
  }

  /** The fields the constructor assigns. */
  datatype Settings = Settings(
    name: string,
    cacheDir: Path,
    dbPath: Path,
    outputDir: Path,
    nodeModules: seq<PackageRoot>,
    includeDirectories: seq<Path>,
    win32: bool)

  const DbFileName: string := "db.json"

  /** `~/` expansion followed by `path.resolve`. */
  function ExpandDir(dir: Path, env: Env): Path {
    ResolveAgainst(env.cwd, ExpandHome(dir, env.home))
  }

  /** The include directories after expansion, or the first one that is not a directory. */
  function IncludeDirs(dirs: seq<Path>, env: Env, fs: FS): Result<seq<Path>, ConfigError> {
    if dirs == [] then Success([])
    else
      var dir := ExpandDir(dirs[0], env);
      if !IsDirectory(fs, dir) then Failure(NotADirectory(dir))
      else match IncludeDirs(dirs[1..], env, fs)
        case Failure(e) => Failure(e)
        case Success(rest) => Success([dir] + rest)
  }

  /** The constructor body: validate and expand, or reject. */
  method Configure(config: BundlerConfig, env: Env, fs: FS) returns (r: Result<Settings, ConfigError>)
    ensures r.Failure? <==> IncludeDirs(config.includeDirs.GetOr([]), env, fs).Failure?
    ensures r.Failure? ==> r.error == IncludeDirs(config.includeDirs.GetOr([]), env, fs).error
    ensures r.Success? ==>
      var cacheDir := ResolveAgainst(env.cwd, config.cacheDir);
      var nodeModules := config.nodeModules.GetOr([]);
      && r.value.name == config.name
      && r.value.cacheDir == cacheDir
      && r.value.dbPath == cacheDir + "/" + DbFileName
      && r.value.outputDir == ExpandDir(config.outputDir, env)
      && r.value.includeDirectories == IncludeDirs(config.includeDirs.GetOr([]), env, fs).value
      && |r.value.nodeModules| == |nodeModules|
      && (forall i :: 0 <= i < |nodeModules| ==>
            r.value.nodeModules[i] == PackageRoot(ExpandDir(nodeModules[i].rootDir, env), nodeModules[i].packages))
      && r.value.win32 == env.win32
  {
    var includeDirs: seq<Path> := [];
    var dirs := config.includeDirs.GetOr([]);
    assert dirs[0..] == dirs;
    PrependEmpty(IncludeDirs(dirs, env, fs));
    for i := 0 to |dirs|
      invariant IncludeDirs(dirs, env, fs) == Prepend(includeDirs, IncludeDirs(dirs[i..], env, fs))
    {
      assert dirs[i..][0] == dirs[i] && dirs[i..][1..] == dirs[i + 1..];
      var dir := ExpandDir(dirs[i], env);
      if !IsDirectory(fs, dir) {
        return Failure(NotADirectory(dir));
      }
      PrependTwice(includeDirs, [dir], IncludeDirs(dirs[i + 1..], env, fs));
      includeDirs := includeDirs + [dir];
    }
    assert dirs[|dirs|..] == [];
    var roots := config.nodeModules.GetOr([]);
    var nodeModules: seq<PackageRoot> := [];
    for i := 0 to |roots|
      invariant |nodeModules| == i
      invariant forall j :: 0 <= j < i ==>
                  nodeModules[j] == PackageRoot(ExpandDir(roots[j].rootDir, env), roots[j].packages)
    {
      nodeModules := nodeModules + [PackageRoot(ExpandDir(roots[i].rootDir, env), roots[i].packages)];
    }
    var cacheDir := ResolveAgainst(env.cwd, config.cacheDir);
    return Success(Settings(config.name, cacheDir, cacheDir + "/" + DbFileName,
                            ExpandDir(config.outputDir, env), nodeModules, includeDirs, env.win32));
  }

  /** Accepted include directories are all directories; a rejection names the first one that is not. */
  lemma {:induction false} IncludeDirsChecked(dirs: seq<Path>, env: Env, fs: FS)
    ensures IncludeDirs(dirs, env, fs).Success? ==>
            var r := IncludeDirs(dirs, env, fs).value;
            |r| == |dirs| && forall i :: 0 <= i < |dirs| ==> r[i] == ExpandDir(dirs[i], env) && IsDirectory(fs, r[i])
    ensures IncludeDirs(dirs, env, fs).Failure? ==>
            exists i :: 0 <= i < |dirs| && IncludeDirs(dirs, env, fs).error == NotADirectory(ExpandDir(dirs[i], env)) &&
                        !IsDirectory(fs, ExpandDir(dirs[i], env)) &&
                        forall j :: 0 <= j < i ==> IsDirectory(fs, ExpandDir(dirs[j], env))
  {
    if dirs != [] {
      IncludeDirsChecked(dirs[1..], env, fs);
      var dir := ExpandDir(dirs[0], env);
      if IsDirectory(fs, dir) && IncludeDirs(dirs[1..], env, fs).Failure? {
        var i :| 0 <= i < |dirs[1..]| && IncludeDirs(dirs[1..], env, fs).error == NotADirectory(ExpandDir(dirs[1..][i], env)) &&
                 !IsDirectory(fs, ExpandDir(dirs[1..][i], env)) &&
                 forall j :: 0 <= j < i ==> IsDirectory(fs, ExpandDir(dirs[1..][j], env));
        assert dirs[i + 1] == dirs[1..][i];
        forall j | 0 <= j < i + 1 ensures IsDirectory(fs, ExpandDir(dirs[j], env)) {
          if j > 0 { assert dirs[j] == dirs[1..][j - 1]; }
        }
      }
    }
  }

  /** `~/x` for an include dir, package root or output dir lands under `$HOME`, whatever the cwd. */
  lemma HomeShorthand(x: Path, env: Env)
    requires StartsWith(env.home, "/")
    ensures ExpandDir("~/" + x, env) == env.home + "/" + x
  {
    assert ("~/" + x)[..2] == "~/" && ("~/" + x)[2..] == x;
    assert (env.home + "/" + x)[..1] == env.home[..1];
  }

  /** The cache dir gets no `~/` expansion: `~/x` is taken relative to the working directory. */
  lemma CacheDirNotExpanded(x: Path, env: Env)
    ensures ResolveAgainst(env.cwd, "~/" + x) == env.cwd + "/~/" + x
  {
    assert ("~/" + x)[..1] == "~";
  }
}
