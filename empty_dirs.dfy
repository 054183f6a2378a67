/**
 * `remove_empty_dirs` (src/index.js): a post-order walk that removes a directory once
 * all of its subdirectories have been processed and it has no entries left. Its
 * effect has a closed form: exactly the directories at or below the start that have
 * no regular file anywhere below them disappear; files and everything else stay.
 */
module EmptyDirs {
  import opened Paths
  import opened FileSystem

  /** `p` lies strictly inside directory `d`. */
  predicate Under(p: Path, d: Path) {
    |p| > |d| + 1 && p[..|d| + 1] == d + "/"
  }

  /** `p` is a direct entry of `d`: what `readdir(d)` lists, joined onto `d`. */
  predicate IsChild(p: Path, d: Path) {
    Under(p, d) && forall k :: |d| + 1 <= k < |p| ==> p[k] != '/'
  }

  function Entries(fs: FS): set<Path> {
    fs.files.Keys + fs.dirs
  }

  /**
   * A filesystem whose paths are canonical (no `//`, no trailing `/`), whose files are
   * not directories, and in which every entry's ancestors are directories.
   */
  ghost predicate WellFormed(fs: FS) {
    && fs.files.Keys !! fs.dirs
    && (forall p, i :: p in Entries(fs) && 0 <= i < |p| && p[i] == '/' ==> i + 1 < |p| && p[i + 1] != '/')
    && (forall p, i :: p in Entries(fs) && 0 < i < |p| && p[i] == '/' ==> p[..i] in fs.dirs)
  }

  /** `readdir(d)`. */
  function Children(fs: FS, d: Path): set<Path> {
    set p | p in Entries(fs) && IsChild(p, d)
  }

  predicate NoFileBelow(files: map<Path, File>, x: Path) {
    forall p :: p in files ==> !Under(p, x)
  }

  ghost function Subtree(fs: FS, d: Path): set<Path> {
    set x | x in fs.dirs && (x == d || Under(x, d))
  }

  /** The directories the walk from `d` removes. */
  ghost function Removed(fs: FS, d: Path): set<Path> {
    set x | x in fs.dirs && (x == d || Under(x, d)) && NoFileBelow(fs.files, x)
  }

  ghost function Pruned(fs: FS, d: Path): FS {
    FS(fs.files, fs.dirs - Removed(fs, d))
  }

  /** Some directory of `done` contains `x` (or is `x`), and no file lies below `x`. */
  ghost predicate RemovedUnder(fs: FS, done: set<Path>, x: Path) {
    NoFileBelow(fs.files, x) && exists c :: c in done && (x == c || Under(x, c))
  }

  lemma UnderTransitive(y: Path, x: Path, c: Path)
    requires Under(y, x) && Under(x, c)
    ensures Under(y, c)
  {
    assert y[..|c| + 1] == y[..|x| + 1][..|c| + 1];
    assert x + "/" == y[..|x| + 1];
    assert (x + "/")[..|c| + 1] == x[..|c| + 1];
  }

  /** Two entries of the same directory are never nested in one another. */
  lemma SiblingsNotNested(c: Path, c': Path, d: Path)
    requires IsChild(c, d) && IsChild(c', d)
    ensures !Under(c, c')
  {
    if |c| > |c'| + 1 {
      assert c[|c'|] != '/';
      assert c[..|c'| + 1][|c'|] == c[|c'|];
      assert (c' + "/")[|c'|] == '/';
    }
  }

  function FirstSlashFrom(p: Path, i: nat): (k: nat)
    requires i <= |p|
    ensures i <= k <= |p| && (k < |p| ==> p[k] == '/')
    ensures forall j :: i <= j < k ==> p[j] != '/'
    decreases |p| - i
  {
    if i == |p| || p[i] == '/' then i else FirstSlashFrom(p, i + 1)
  }

  /** The entry of `d` through which `p` lies below `d`. */
  function Top(p: Path, d: Path): Path
    requires Under(p, d)
  {
    p[..FirstSlashFrom(p, |d| + 1)]
  }

  lemma TopFacts(fs: FS, p: Path, d: Path)
    requires WellFormed(fs) && p in Entries(fs) && Under(p, d)
    ensures IsChild(Top(p, d), d)
    ensures Top(p, d) == p || (Under(p, Top(p, d)) && Top(p, d) in fs.dirs)
  {
    var k := FirstSlashFrom(p, |d| + 1);
    assert p[|d|] == (d + "/")[|d|];
    assert p[|d| + 1] != '/';
    var c := p[..k];
    assert c[..|d| + 1] == p[..|d| + 1];
    if k < |p| {
      assert p[..k + 1] == c + "/";
    }
  }

  /** An entry of a directory is a regular file or lies in its own subtree alone. */
  lemma FileChildRemovesNothing(fs: FS, c: Path, x: Path)
    requires WellFormed(fs) && c in fs.files && |c| > 0 && x in fs.dirs
    ensures x != c && !Under(x, c)
  {
    if |x| > |c| + 1 && x[|c|] == '/' {
      assert x[..|c|] in fs.dirs;
      assert x[..|c| + 1][..|c|] == x[..|c|];
      assert (c + "/")[..|c|] == c;
    }
  }

  /** `remove_empty_dirs(dirname)` over an abstract filesystem; `readdir` order is left open. */
  method RemoveEmptyDirs(fs: FS, dirname: Path) returns (r: FS)
    requires WellFormed(fs) && dirname in fs.dirs
    ensures r == Pruned(fs, dirname)
    ensures WellFormed(r)
    decreases |Subtree(fs, dirname)|
  {
    var children := Children(fs, dirname);
    var pending := children;
    ghost var done: set<Path> := {};
    r := fs;
    while pending != {}
      invariant pending <= children && done == children - pending
      invariant Tracks(fs, r, done) && WellFormed(r)
      decreases |pending|
    {
      var c :| c in pending;
      pending := pending - {c};
      if c in r.dirs {
        SubtreeShrinks(fs, r, c, dirname);
        var before := r;
        r := RemoveEmptyDirs(r, c);
        StepDir(fs, before, r, done, c);
      } else {
        StepSkip(fs, r, done, c, dirname);
      }
      done := done + {c};
    }
    assert done == children;
    ghost var walked := r;
    if Children(r, dirname) == {} {
      r := FS(r.files, r.dirs - {dirname});
    }
    Finish(fs, walked, r, dirname);
  }

  /**
   * The walk is post-order: no directory it leaves at or below the start is empty,
   * not even one whose only entries were empty directories.
   */
  lemma PrunedLeavesNoEmptyDir(fs: FS, d: Path, x: Path)
    requires WellFormed(fs) && x in Pruned(fs, d).dirs && (x == d || Under(x, d))
    ensures Children(Pruned(fs, d), x) != {}
  {
    var f :| f in fs.files && Under(f, x);
    TopFacts(fs, f, x);
    var c := Top(f, x);
    if c != f {
      if x != d { UnderTransitive(c, x, d); }
      assert !NoFileBelow(fs.files, c);
    }
    assert c in Children(Pruned(fs, d), x);
  }

  /** Files are never touched, and a directory with a file somewhere below it is kept. */
  lemma PrunedKeepsFilesAndTheirDirs(fs: FS, d: Path, x: Path)
    requires x in fs.dirs && !NoFileBelow(fs.files, x)
    ensures Pruned(fs, d).files == fs.files
    ensures x in Pruned(fs, d).dirs
  {
  }

  /** `unlink` of a regular file keeps the filesystem well formed. */
  lemma UnlinkKeepsWellFormed(fs: FS, p: Path)
    requires WellFormed(fs) && p in fs.files
    ensures WellFormed(FS(fs.files - {p}, fs.dirs))
  {
    assert Entries(FS(fs.files - {p}, fs.dirs)) <= Entries(fs);
  }

  /** Every proper ancestor of a file in a well-formed filesystem is a directory. */
  lemma ParentIsDirectory(fs: FS, p: Path, d: Path)
    requires WellFormed(fs) && p in fs.files && d != "" && Under(p, d)
    ensures d in fs.dirs
  {
    assert p[|d|] == (d + "/")[|d|];
    assert p[..|d|] == (d + "/")[..|d|] == d;
  }

  /** `r` is `fs` with the directories removed so far under the entries in `done`. */
  ghost predicate Tracks(fs: FS, r: FS, done: set<Path>) {
    && r.files == fs.files && r.dirs <= fs.dirs
    && forall x :: x in r.dirs <==> x in fs.dirs && !RemovedUnder(fs, done, x)
  }

  /** The last step: `rmdir(d)` exactly when `readdir(d)` comes back empty. */
  lemma Finish(fs: FS, walked: FS, r: FS, d: Path)
    requires WellFormed(fs) && WellFormed(walked) && d in fs.dirs
    requires Tracks(fs, walked, Children(fs, d))
    requires r == if Children(walked, d) == {} then FS(walked.files, walked.dirs - {d}) else walked
    ensures r == Pruned(fs, d) && WellFormed(r)
  {
    DoneCoversSubtree(fs, walked, d);
    EmptyMeansNoFile(fs, walked, d);
    if Children(walked, d) == {} {
      RmdirKeepsWellFormed(walked, d);
    }
    forall x | x in fs.dirs && x != d && !Under(x, d) ensures !RemovedUnder(fs, Children(fs, d), x) {
      if c :| c in Children(fs, d) && (x == c || Under(x, c)) {
        if x != c { UnderTransitive(x, c, d); }
      }
    }
    assert forall x :: x in r.dirs <==> x in fs.dirs - Removed(fs, d);
  }

  lemma {:induction false} SubsetCard(a: set<Path>, b: set<Path>)
    requires a <= b
    ensures |a| <= |b|
    decreases b
  {
    if a != {} {
      var y :| y in a;
      SubsetCard(a - {y}, b - {y});
    }
  }

  lemma ProperSubsetCard(a: set<Path>, b: set<Path>, y: Path)
    requires a <= b && y in b && y !in a
    ensures |a| < |b|
  {
    SubsetCard(a, b - {y});
  }

  lemma SubtreeShrinks(fs: FS, r: FS, c: Path, d: Path)
    requires IsChild(c, d) && d in fs.dirs && r.dirs <= fs.dirs
    ensures |Subtree(r, c)| < |Subtree(fs, d)|
  {
    forall x | x in Subtree(r, c) ensures x in Subtree(fs, d) && x != d {
      if x != c { UnderTransitive(x, c, d); }
    }
    assert d in Subtree(fs, d);
    ProperSubsetCard(Subtree(r, c), Subtree(fs, d), d);
  }

  lemma StepDir(fs: FS, before: FS, after: FS, done: set<Path>, c: Path)
    requires Tracks(fs, before, done) && after == Pruned(before, c)
    ensures Tracks(fs, after, done + {c})
  {
    forall x | x in fs.dirs
      ensures x in after.dirs <==> !RemovedUnder(fs, done + {c}, x)
    {
      if RemovedUnder(fs, done + {c}, x) && !RemovedUnder(fs, done, x) {
        assert x == c || Under(x, c);
      }
    }
  }

  lemma StepSkip(fs: FS, r: FS, done: set<Path>, c: Path, d: Path)
    requires WellFormed(fs) && c in Children(fs, d) && c !in r.dirs
    requires Tracks(fs, r, done)
    requires forall c' :: c' in done ==> IsChild(c', d) && c' != c
    ensures Tracks(fs, r, done + {c})
  {
    if c in fs.dirs {
      var c' :| c' in done && (c == c' || Under(c, c'));
      SiblingsNotNested(c, c', d);
    }
    forall x | x in fs.dirs && RemovedUnder(fs, done + {c}, x) ensures RemovedUnder(fs, done, x) {
      FileChildRemovesNothing(fs, c, x);
    }
  }

  /** Below `d`, the loop over its entries has removed exactly the directories with no file below. */
  lemma DoneCoversSubtree(fs: FS, r: FS, d: Path)
    requires WellFormed(fs)
    requires Tracks(fs, r, Children(fs, d))
    ensures forall x :: x in fs.dirs && Under(x, d) ==>
              (RemovedUnder(fs, Children(fs, d), x) <==> NoFileBelow(fs.files, x))
    ensures !RemovedUnder(fs, Children(fs, d), d)
  {
    forall x | x in fs.dirs && Under(x, d) && NoFileBelow(fs.files, x)
      ensures RemovedUnder(fs, Children(fs, d), x)
    {
      TopFacts(fs, x, d);
      assert Top(x, d) in Children(fs, d);
    }
    if RemovedUnder(fs, Children(fs, d), d) {
      var c :| c in Children(fs, d) && (d == c || Under(d, c));
    }
  }

  /** After the loop, `readdir(d)` is empty exactly when no file lies below `d`. */
  lemma EmptyMeansNoFile(fs: FS, r: FS, d: Path)
    requires WellFormed(fs)
    requires Tracks(fs, r, Children(fs, d))
    ensures Children(r, d) == {} <==> NoFileBelow(fs.files, d)
  {
    if NoFileBelow(fs.files, d) {
      forall p | p in Entries(r) && IsChild(p, d) ensures false {
        if p in r.dirs {
          forall q | q in fs.files ensures !Under(q, p) {
            if Under(q, p) { UnderTransitive(q, p, d); }
          }
          assert p in Children(fs, d);
          assert RemovedUnder(fs, Children(fs, d), p);
        }
      }
    } else {
      var f :| f in fs.files && Under(f, d);
      TopFacts(fs, f, d);
      var c := Top(f, d);
      if c != f {
        assert c in Children(fs, d);
        assert !NoFileBelow(fs.files, c);
        assert c in r.dirs;
      }
      assert c in Children(r, d);
    }
  }

  /** `rmdir(d)` on a directory with no entries keeps every entry's ancestors present. */
  lemma RmdirKeepsWellFormed(r: FS, d: Path)
    requires WellFormed(r) && Children(r, d) == {}
    ensures WellFormed(FS(r.files, r.dirs - {d}))
  {
    var r' := FS(r.files, r.dirs - {d});
    forall p, i | p in Entries(r') && 0 < i < |p| && p[i] == '/' ensures p[..i] in r'.dirs {
      if p[..i] == d {
        assert p[..|d| + 1] == d + "/";
        TopFacts(r, p, d);
      }
    }
  }
}
