/**
 * Module resolution (src/module.js): a specifier is looked up under each resolution
 * root in order, trying the path itself and then the fixed suffix list; the first
 * existing regular file wins, and its path relative to the winning root becomes the
 * module's cache key.
 */
module Resolver {
  import opened Wrappers
  import opened Paths
  import opened FileSystem

  /** The fallback suffixes, in priority order. */
  const Suffixes: seq<string> := [".js", ".json", "/index.js", "/index.json"]

  const NodeModulesPrefix: string := "node_modules/"

  const NotFoundCode: string := "ENOINT"

  /** The error `throw_not_found` raises for the path it was given. */
  function NotFoundError(filepath: Path): Error {
    NotFound(NotFoundCode, "Not found: '" + filepath + "'")
  }

  lemma NotFoundCarriesPath(filepath: Path)
    ensures NotFoundError(filepath).code == "ENOINT"
    ensures var m := NotFoundError(filepath).message;
            |m| == |filepath| + 13 && m[12..12 + |filepath|] == filepath
  {
    var m := NotFoundError(filepath).message;
    assert m == "Not found: '" + filepath + "'";
    assert m[12..12 + |filepath|] == filepath;
  }

  /** A root dir together with the package-name prefixes it may serve. */
  datatype PackageRoot = PackageRoot(rootDir: Path, packages: seq<string>)

  /** What resolution found: the winning root and the winning file under it. */
  datatype Hit = Hit(root: Path, file: Path)

  /** The paths tried under one root: the resolved path, then each suffix appended to it. */
  function Candidates(absolute: Path): (c: seq<Path>)
    ensures |c| == |Suffixes| + 1 && c[0] == absolute
    ensures forall k :: 0 <= k < |Suffixes| ==> c[k + 1] == absolute + Suffixes[k]
  {
    [absolute] + seq(|Suffixes|, k requires 0 <= k < |Suffixes| => absolute + Suffixes[k])
  }

  /** Index of the first candidate at or after `from` that is a regular file. */
  function FirstFileFrom(fs: FS, cands: seq<Path>, from: nat): (r: Option<nat>)
    requires from <= |cands|
    ensures r.Some? ==> from <= r.value < |cands| && IsFile(fs, cands[r.value]) &&
                        forall j :: from <= j < r.value ==> !IsFile(fs, cands[j])
    ensures r.None? ==> forall j :: from <= j < |cands| ==> !IsFile(fs, cands[j])
    decreases |cands| - from
  {
    if from == |cands| then None
    else if IsFile(fs, cands[from]) then Some(from)
    else FirstFileFrom(fs, cands, from + 1)
  }

  /** The file one root yields for `filepath`, if any. */
  function RootHit(fs: FS, root: Path, filepath: Path): Option<Path> {
    var cands := Candidates(ResolveAgainst(root, filepath));
    match FirstFileFrom(fs, cands, 0)
    case None => None
    case Some(i) => Some(cands[i])
  }

  /** The first root, in list order, that yields a file; later roots are never consulted. */
  function SearchRoots(fs: FS, roots: seq<Path>, filepath: Path): Option<Hit> {
    if roots == [] then None
    else match RootHit(fs, roots[0], filepath)
      case Some(file) => Some(Hit(roots[0], file))
      case None => SearchRoots(fs, roots[1..], filepath)
  }

  /** `from_node_module`'s two paths: the `node_modules/`-prefixed lookup path and the package path. */
  function LookupPaths(spec: string): (r: (Path, string))
    ensures StartsWith(r.0, NodeModulesPrefix) && r.1 == r.0[|NodeModulesPrefix|..]
    ensures StartsWith(spec, NodeModulesPrefix) ==> r.0 == spec
    ensures !StartsWith(spec, NodeModulesPrefix) ==> r.1 == spec
  {
    if StartsWith(spec, NodeModulesPrefix) then (spec, spec[|NodeModulesPrefix|..])
    else (NodeModulesPrefix + spec, spec)
  }

  /** `packages.find(p => pkg_path.startsWith(p))`. */
  function FindPackage(packages: seq<string>, pkgPath: string): (r: Option<string>)
    ensures r.Some? ==> r.value in packages && StartsWith(pkgPath, r.value)
    ensures r.Some? ==> exists i :: 0 <= i < |packages| && packages[i] == r.value &&
                                    forall j :: 0 <= j < i ==> !StartsWith(pkgPath, packages[j])
    ensures r.None? ==> forall p :: p in packages ==> !StartsWith(pkgPath, p)
  {
    if packages == [] then None
    else if StartsWith(pkgPath, packages[0]) then Some(packages[0])
    else
      var r := FindPackage(packages[1..], pkgPath);
      if r.Some? then
        var i :| 0 <= i < |packages[1..]| && packages[1..][i] == r.value &&
                 forall j :: 0 <= j < i ==> !StartsWith(pkgPath, packages[1..][j]);
        assert packages[i + 1] == r.value;
        assert forall j :: 1 <= j < i + 1 ==> packages[j] == packages[1..][j - 1];
        r
      else r
  }

  /** The root is consulted when `find` returns a truthy string (so not the empty string). */
  predicate Eligible(root: PackageRoot, pkgPath: string) {
    match FindPackage(root.packages, pkgPath)
    case None => false
    case Some(p) => p != ""
  }

  /** The root dirs of the eligible package roots, in order. */
  function EligibleRoots(nodeModules: seq<PackageRoot>, pkgPath: string): seq<Path> {
    if nodeModules == [] then []
    else if Eligible(nodeModules[0], pkgPath)
    then [nodeModules[0].rootDir] + EligibleRoots(nodeModules[1..], pkgPath)
    else EligibleRoots(nodeModules[1..], pkgPath)
  }

  /** `from_remote_filepath` as a value. */
  function LocateRemote(fs: FS, includeDirectories: seq<Path>, filepath: Path): Result<Hit, Error> {
    match SearchRoots(fs, includeDirectories, filepath)
    case Some(h) => Success(h)
    case None => Failure(NotFoundError(filepath))
  }

  /** `from_node_module` as a value; the error names the prefixed lookup path. */
  function LocateNodeModule(fs: FS, nodeModules: seq<PackageRoot>, spec: string): Result<Hit, Error> {
    var (filepath, pkgPath) := LookupPaths(spec);
    match SearchRoots(fs, EligibleRoots(nodeModules, pkgPath), filepath)
    case Some(h) => Success(h)
    case None => Failure(NotFoundError(filepath))
  }

  /** `this.path` as the constructor computes it. */
  datatype ModulePath = ModulePath(
    rootDirectory: Path,
    localFilepath: Path,
    localDirectory: Path,
    remoteFilepath: Path,
    remoteDirectory: Path)

  function MakeModulePath(absoluteFilepath: Path, rootDirectory: Path, win32: bool): ModulePath {
    var relative := NormalizeSeparators(Relative(rootDirectory, absoluteFilepath), win32);
    ModulePath(rootDirectory, absoluteFilepath, Dirname(absoluteFilepath), relative, Dirname(relative))
  }

  /** `JeefoBundlerModule`: its path is fixed at construction; stat and content are loaded later. */
  class BundlerModule {
    const path: ModulePath
    var dependencies: seq<string>
    var mtime: Option<int>
    var content: Option<string>

    constructor (absoluteFilepath: Path, rootDirectory: Path, win32: bool)
      ensures path == MakeModulePath(absoluteFilepath, rootDirectory, win32)
      ensures dependencies == [] && mtime == None && content == None
    {
      path := MakeModulePath(absoluteFilepath, rootDirectory, win32);
      dependencies := [];
      mtime := None;
      content := None;
    }

    /** `load_stat`: a failing stat leaves the module as it was. */
    method LoadStat(fs: FS) returns (err: Option<Error>)
      modifies this`mtime
      ensures match Stat(fs, path.localFilepath)
              case Success(t) => err == None && mtime == Some(t)
              case Failure(e) => err == Some(e) && mtime == old(mtime)
    {
      match Stat(fs, path.localFilepath)
      case Success(t) =>
        mtime := Some(t);
        err := None;
      case Failure(e) =>
        err := Some(e);
    }

    /** `load_content`. */
    method LoadContent(fs: FS) returns (err: Option<Error>)
      modifies this`content
      ensures match ReadText(fs, path.localFilepath)
              case Success(t) => err == None && content == Some(t)
              case Failure(e) => err == Some(e) && content == old(content)
    {
      match ReadText(fs, path.localFilepath)
      case Success(t) =>
        content := Some(t);
        err := None;
      case Failure(e) =>
        err := Some(e);
    }
  }

  /** A module as the constructor leaves it. */
  ghost predicate Unloaded(m: BundlerModule, p: ModulePath)
    reads m
  {
    m.path == p && m.dependencies == [] && m.mtime == None && m.content == None
  }

  /** The body shared by both searches: the resolved path first, then each suffix in order. */
  method TryRoot(rootDir: Path, filepath: Path, fs: FS) returns (file: Option<Path>)
    ensures file == RootHit(fs, rootDir, filepath)
  {
    var absoluteFilepath := ResolveAgainst(rootDir, filepath);
    var cands := Candidates(absoluteFilepath);
    if IsFile(fs, absoluteFilepath) {
      assert FirstFileFrom(fs, cands, 0) == Some(0);
      return Some(absoluteFilepath);
    }
    for k := 0 to |Suffixes|
      invariant forall j :: 0 <= j <= k ==> !IsFile(fs, cands[j])
    {
      var extendedFilepath := absoluteFilepath + Suffixes[k];
      if IsFile(fs, extendedFilepath) {
        assert FirstFileFrom(fs, cands, 0) == Some(k + 1);
        return Some(extendedFilepath);
      }
    }
    assert FirstFileFrom(fs, cands, 0) == None;
    return None;
  }

  /** `from_remote_filepath`: include directories in order; the first root with a hit wins. */
  method FromRemoteFilepath(filepath: Path, includeDirectories: seq<Path>, fs: FS, win32: bool)
    returns (r: Result<BundlerModule, Error>)
    ensures match LocateRemote(fs, includeDirectories, filepath)
            case Success(h) => r.Success? && fresh(r.value) &&
                               Unloaded(r.value, MakeModulePath(h.file, h.root, win32))
            case Failure(e) => r == Failure(e)
  {
    for i := 0 to |includeDirectories|
      invariant SearchRoots(fs, includeDirectories, filepath) ==
                SearchRoots(fs, includeDirectories[i..], filepath)
    {
      var rootDir := includeDirectories[i];
      assert includeDirectories[i..][0] == rootDir;
      assert includeDirectories[i..][1..] == includeDirectories[i + 1..];
      var file := TryRoot(rootDir, filepath, fs);
      if file.Some? {
        var m := new BundlerModule(file.value, rootDir, win32);
        return Success(m);
      }
    }
    return Failure(NotFoundError(filepath));
  }

  /** `from_node_module`: eligible package roots in order, each tried like an include directory. */
  method FromNodeModule(spec: string, nodeModules: seq<PackageRoot>, fs: FS, win32: bool)
    returns (r: Result<BundlerModule, Error>)
    ensures match LocateNodeModule(fs, nodeModules, spec)
            case Success(h) => r.Success? && fresh(r.value) &&
                               Unloaded(r.value, MakeModulePath(h.file, h.root, win32))
            case Failure(e) => r == Failure(e)
  {
    var filepath := spec;
    var pkgPath := spec;
    if StartsWith(spec, NodeModulesPrefix) {
      pkgPath := spec[|NodeModulesPrefix|..];
    } else {
      filepath := NodeModulesPrefix + spec;
    }
    assert (filepath, pkgPath) == LookupPaths(spec);
    for i := 0 to |nodeModules|
      invariant SearchRoots(fs, EligibleRoots(nodeModules, pkgPath), filepath) ==
                SearchRoots(fs, EligibleRoots(nodeModules[i..], pkgPath), filepath)
    {
      var root := nodeModules[i];
      assert nodeModules[i..][0] == root;
      assert nodeModules[i..][1..] == nodeModules[i + 1..];
      if !Eligible(root, pkgPath) {
        continue;
      }
      var rest := EligibleRoots(nodeModules[i + 1..], pkgPath);
      assert EligibleRoots(nodeModules[i..], pkgPath) == [root.rootDir] + rest;
      assert ([root.rootDir] + rest)[1..] == rest;
      var file := TryRoot(root.rootDir, filepath, fs);
      if file.Some? {
        var m := new BundlerModule(file.value, root.rootDir, win32);
        return Success(m);
      }
    }
    return Failure(NotFoundError(filepath));
  }
}
