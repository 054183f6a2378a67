/** What the search order of src/module.js guarantees, stated over the resolver's functions. */
module ResolverProperties {
  import opened Wrappers
  import opened Paths
  import opened FileSystem
  import opened Resolver

  /** No root yields a file exactly when the search comes back empty. */
  lemma {:induction false} SearchRootsNone(fs: FS, roots: seq<Path>, filepath: Path)
    ensures SearchRoots(fs, roots, filepath).None? <==>
            forall i :: 0 <= i < |roots| ==> RootHit(fs, roots[i], filepath).None?
  {
    if roots != [] {
      SearchRootsNone(fs, roots[1..], filepath);
      assert forall i :: 0 < i < |roots| ==> roots[i] == roots[1..][i - 1];
    }
  }

  /** The winning root is the first one with a hit; every earlier root had none. */
  lemma {:induction false} SearchRootsFirstHit(fs: FS, roots: seq<Path>, filepath: Path) returns (i: nat)
    requires SearchRoots(fs, roots, filepath).Some?
    ensures i < |roots| && roots[i] == SearchRoots(fs, roots, filepath).value.root
    ensures RootHit(fs, roots[i], filepath) == Some(SearchRoots(fs, roots, filepath).value.file)
    ensures forall j :: 0 <= j < i ==> RootHit(fs, roots[j], filepath).None?
  {
    if RootHit(fs, roots[0], filepath).None? {
      var tail := roots[1..];
      var k := SearchRootsFirstHit(fs, tail, filepath);
      i := k + 1;
      assert roots[i] == tail[k];
      forall j | 0 <= j < i ensures RootHit(fs, roots[j], filepath).None? {
        if j > 0 { assert roots[j] == tail[j - 1]; }
      }
    } else {
      i := 0;
    }
  }

  /** Once root `i` yields a file, the roots after it never influence the outcome. */
  lemma {:induction false} LaterRootsIgnored(fs: FS, roots: seq<Path>, filepath: Path, i: nat)
    requires i < |roots| && RootHit(fs, roots[i], filepath).Some?
    requires forall j :: 0 <= j < i ==> RootHit(fs, roots[j], filepath).None?
    ensures SearchRoots(fs, roots, filepath) == Some(Hit(roots[i], RootHit(fs, roots[i], filepath).value))
    ensures SearchRoots(fs, roots, filepath) == SearchRoots(fs, roots[..i + 1], filepath)
  {
    if i > 0 {
      assert roots[1..][..i] == roots[..i + 1][1..];
      LaterRootsIgnored(fs, roots[1..], filepath, i - 1);
    } else {
      assert roots[..1][0] == roots[0];
    }
  }

  /** Within one root: the path itself beats every suffix, and `.js` beats `.json`. */
  lemma SuffixPriority(fs: FS, root: Path, filepath: Path)
    requires var abs := ResolveAgainst(root, filepath);
             !IsFile(fs, abs) && IsFile(fs, abs + ".js")
    ensures RootHit(fs, root, filepath) == Some(ResolveAgainst(root, filepath) + ".js")
  {
    var cands := Candidates(ResolveAgainst(root, filepath));
    assert cands[1] == ResolveAgainst(root, filepath) + Suffixes[0];
    assert FirstFileFrom(fs, cands, 0) == Some(1);
  }

  /** A root's hit is an existing file: the resolved path, or it with the first suffix that exists. */
  lemma RootHitIsFirstCandidate(fs: FS, root: Path, filepath: Path)
    requires RootHit(fs, root, filepath).Some?
    ensures var abs := ResolveAgainst(root, filepath);
            var f := RootHit(fs, root, filepath).value;
            IsFile(fs, f) &&
            (f == abs ||
             (!IsFile(fs, abs) &&
              exists k :: 0 <= k < |Suffixes| && f == abs + Suffixes[k] &&
                          forall k' :: 0 <= k' < k ==> !IsFile(fs, abs + Suffixes[k'])))
  {
    var abs := ResolveAgainst(root, filepath);
    var cands := Candidates(abs);
    var i := FirstFileFrom(fs, cands, 0).value;
    if i > 0 {
      var k := i - 1;
      assert !IsFile(fs, cands[0]);
      forall k' | 0 <= k' < k ensures !IsFile(fs, abs + Suffixes[k']) {
        assert cands[k' + 1] == abs + Suffixes[k'];
      }
      assert cands[i] == abs + Suffixes[k];
    }
  }

  /** Every resolved include-directory module is an existing candidate under its own root. */
  lemma LocateRemoteSound(fs: FS, includeDirectories: seq<Path>, filepath: Path)
    requires LocateRemote(fs, includeDirectories, filepath).Success?
    ensures var h := LocateRemote(fs, includeDirectories, filepath).value;
            h.root in includeDirectories && IsFile(fs, h.file) &&
            h.file in Candidates(ResolveAgainst(h.root, filepath))
  {
    var i := SearchRootsFirstHit(fs, includeDirectories, filepath);
    var h := LocateRemote(fs, includeDirectories, filepath).value;
    var cands := Candidates(ResolveAgainst(h.root, filepath));
    assert cands[FirstFileFrom(fs, cands, 0).value] == h.file;
  }

  /** With no root, or no root holding a candidate, resolution fails naming the path looked up. */
  lemma LocateRemoteNotFound(fs: FS, includeDirectories: seq<Path>, filepath: Path)
    requires forall i :: 0 <= i < |includeDirectories| ==>
               RootHit(fs, includeDirectories[i], filepath).None?
    ensures LocateRemote(fs, includeDirectories, filepath) == Failure(NotFoundError(filepath))
  {
    SearchRootsNone(fs, includeDirectories, filepath);
  }

  /** A bare specifier's failure names `node_modules/<spec>`, not the specifier itself. */
  lemma BareNotFoundNamesPrefixedPath(fs: FS, nodeModules: seq<PackageRoot>, spec: string)
    requires !StartsWith(spec, NodeModulesPrefix)
    requires forall p :: p in nodeModules ==> !Eligible(p, spec)
    ensures LocateNodeModule(fs, nodeModules, spec) == Failure(NotFoundError(NodeModulesPrefix + spec))
  {
    NoEligibleRoots(nodeModules, spec);
  }

  lemma {:induction false} NoEligibleRoots(nodeModules: seq<PackageRoot>, pkgPath: string)
    requires forall p :: p in nodeModules ==> !Eligible(p, pkgPath)
    ensures EligibleRoots(nodeModules, pkgPath) == []
  {
    if nodeModules != [] {
      assert nodeModules[0] in nodeModules;
      NoEligibleRoots(nodeModules[1..], pkgPath);
    }
  }

  /** The package roots consulted are exactly the root dirs of the eligible ones. */
  lemma {:induction false} EligibleRootsMembers(nodeModules: seq<PackageRoot>, pkgPath: string, x: Path)
    ensures x in EligibleRoots(nodeModules, pkgPath) <==>
            exists i :: 0 <= i < |nodeModules| && Eligible(nodeModules[i], pkgPath) && nodeModules[i].rootDir == x
  {
    if nodeModules != [] {
      var head := nodeModules[0];
      var tail := nodeModules[1..];
      EligibleRootsMembers(tail, pkgPath, x);
      if Eligible(head, pkgPath) && head.rootDir == x {
        assert x in EligibleRoots(nodeModules, pkgPath);
      } else {
        assert x in EligibleRoots(nodeModules, pkgPath) <==> x in EligibleRoots(tail, pkgPath);
        assert forall i :: 0 <= i < |tail| ==> tail[i] == nodeModules[i + 1];
        if x in EligibleRoots(tail, pkgPath) {
          var i :| 0 <= i < |tail| && Eligible(tail[i], pkgPath) && tail[i].rootDir == x;
          assert nodeModules[i + 1] == tail[i];
        }
      }
    }
  }

  /** Filtering keeps configuration order: the eligible roots of a prefix come before those of the rest. */
  lemma {:induction false} EligibleRootsAppend(a: seq<PackageRoot>, b: seq<PackageRoot>, pkgPath: string)
    ensures EligibleRoots(a + b, pkgPath) == EligibleRoots(a, pkgPath) + EligibleRoots(b, pkgPath)
  {
    if a != [] {
      assert (a + b)[0] == a[0];
      assert (a + b)[1..] == a[1..] + b;
      EligibleRootsAppend(a[1..], b, pkgPath);
    } else {
      assert a + b == b;
    }
  }

  /** A root is consulted only if an allow-listed prefix matches; without `""` in the list, exactly then. */
  lemma EligibleIffAllowListed(root: PackageRoot, pkgPath: string)
    ensures Eligible(root, pkgPath) ==> exists p :: p in root.packages && StartsWith(pkgPath, p)
    ensures "" !in root.packages ==>
            (Eligible(root, pkgPath) <==> exists p :: p in root.packages && StartsWith(pkgPath, p))
  {
    match FindPackage(root.packages, pkgPath)
    case None =>
    case Some(p) =>
  }

  /**
   * The root is consulted exactly when the first allow-listed prefix that matches is
   * non-empty: `["", "@jeefo"]` skips it, `["@jeefo", ""]` admits it.
   */
  lemma EligibleIffFirstMatchNonEmpty(root: PackageRoot, pkgPath: string)
    ensures Eligible(root, pkgPath) <==>
            exists i :: 0 <= i < |root.packages| && StartsWith(pkgPath, root.packages[i]) && root.packages[i] != "" &&
                        forall j :: 0 <= j < i ==> !StartsWith(pkgPath, root.packages[j])
  {
    var ps := root.packages;
    var r := FindPackage(ps, pkgPath);
    if r.Some? {
      var i :| 0 <= i < |ps| && ps[i] == r.value && forall j :: 0 <= j < i ==> !StartsWith(pkgPath, ps[j]);
    } else {
      assert forall i :: 0 <= i < |ps| ==> ps[i] in ps;
    }
  }

  /** The first matching entry decides: an empty one in front skips the root, one behind a real match does not. */
  lemma FirstMatchDecidesExample(rootDir: Path)
    ensures !Eligible(PackageRoot(rootDir, ["", "@jeefo"]), "@jeefo/x")
    ensures Eligible(PackageRoot(rootDir, ["@jeefo", ""]), "@jeefo/x")
  {
    assert FindPackage(["", "@jeefo"], "@jeefo/x") == Some("");
    assert StartsWith("@jeefo/x", "@jeefo");
    assert FindPackage(["@jeefo", ""], "@jeefo/x") == Some("@jeefo");
  }

  /** `find` returning the empty string is falsy: an allow-list of just `""` admits nothing. */
  lemma EmptyAllowListEntrySkipsRoot(rootDir: Path, pkgPath: string)
    ensures StartsWith(pkgPath, "")
    ensures !Eligible(PackageRoot(rootDir, [""]), pkgPath)
  {
    assert FindPackage([""], pkgPath) == Some("");
  }

  /** The cache key of a hit is the specifier as written plus the suffix that matched. */
  lemma RemoteKeyOfCandidate(root: Path, filepath: Path, suffix: string, win32: bool)
    requires filepath != "" && !StartsWith(filepath, "/")
    requires '\\' !in filepath + suffix
    ensures MakeModulePath(ResolveAgainst(root, filepath) + suffix, root, win32).remoteFilepath == filepath + suffix
  {
    var abs := ResolveAgainst(root, filepath);
    assert abs == Join(root, filepath);
    assert abs + suffix == Join(root, filepath + suffix);
    RelativeOfJoin(root, filepath + suffix);
    NormalizeWithoutBackslash(filepath + suffix, win32);
  }

  /** On win32 no cache key keeps a backslash; elsewhere the relative path is kept as is. */
  lemma RemoteKeyIsPortable(absoluteFilepath: Path, root: Path, win32: bool)
    ensures win32 ==> '\\' !in MakeModulePath(absoluteFilepath, root, win32).remoteFilepath
    ensures !win32 ==> MakeModulePath(absoluteFilepath, root, win32).remoteFilepath == Relative(root, absoluteFilepath)
    ensures var p := MakeModulePath(absoluteFilepath, root, win32);
            p.rootDirectory == root && p.localFilepath == absoluteFilepath &&
            p.remoteDirectory == Dirname(p.remoteFilepath)
  {
  }
}
