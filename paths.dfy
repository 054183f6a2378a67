/**
 * Path strings and the small pieces of Node's `path` module the bundler relies on:
 * joining, resolving against a base, making a path relative to a root, taking the
 * directory part, `\` to `/` normalisation on win32 and the `~/` home shorthand.
 * Segment normalisation (`.` and `..`) is not modelled: a path is the string it is.
 */
module Paths {
  import opened Wrappers

  type Path = string

  predicate StartsWith(s: string, prefix: string) {
    |prefix| <= |s| && s[..|prefix|] == prefix
  }

  predicate EndsWith(s: string, suffix: string) {
    |suffix| <= |s| && s[|s| - |suffix|..] == suffix
  }

  /** `path.join(a, b)` for a relative `b`. */
  function Join(a: Path, b: Path): Path {
    a + "/" + b
  }

  /** `path.resolve(base, p)`: an absolute `p` wins, an empty `p` is the base itself. */
  function ResolveAgainst(base: Path, p: Path): (r: Path)
    ensures StartsWith(p, "/") ==> r == p
    ensures !StartsWith(p, "/") && p != "" ==> StartsWith(r, base + "/") && r[|base| + 1..] == p
  {
    if StartsWith(p, "/") then p
    else if p == "" then base
    else Join(base, p)
  }

  /** `path.relative(root, p)` for a `p` inside `root`: the part after `root + "/"`. */
  function Relative(root: Path, p: Path): Path {
    if p == root then ""
    else if StartsWith(p, root + "/") then p[|root| + 1..]
    else p
  }

  lemma RelativeOfJoin(root: Path, rest: Path)
    requires rest != ""
    ensures Relative(root, Join(root, rest)) == rest
  {
    var p := Join(root, rest);
    assert p[..|root| + 1] == root + "/";
    assert p[|root| + 1..] == rest;
  }

  /** Distinct entries of one directory have distinct joined paths. */
  lemma JoinInjective(a: Path, b: Path, c: Path)
    requires Join(a, b) == Join(a, c)
    ensures b == c
  {
    assert b == Join(a, b)[|a| + 1..];
    assert c == Join(a, c)[|a| + 1..];
  }

  /** Every `\` replaced by `/`, as `relative_path.replace(/\\/g, '/')` does. */
  function ReplaceBackslashes(s: string): (r: string)
    ensures |r| == |s|
    ensures forall i :: 0 <= i < |s| ==> r[i] == (if s[i] == '\\' then '/' else s[i])
    ensures '\\' !in r
  {
    if s == [] then []
    else [if s[0] == '\\' then '/' else s[0]] + ReplaceBackslashes(s[1..])
  }

  /** The separator normalisation applied to a cache key, only on win32. */
  function NormalizeSeparators(s: string, win32: bool): string {
    if win32 then ReplaceBackslashes(s) else s
  }

  lemma NormalizeWithoutBackslash(s: string, win32: bool)
    requires '\\' !in s
    ensures NormalizeSeparators(s, win32) == s
  {
    if win32 {
      var r := ReplaceBackslashes(s);
      assert forall i :: 0 <= i < |s| ==> r[i] == s[i] by {
        forall i | 0 <= i < |s| ensures r[i] == s[i] {
          assert s[i] in s;
        }
      }
    }
  }

  /** Index of the last `/`, if there is one. */
  function LastSlash(s: string): (r: Option<nat>)
    ensures r.Some? ==> r.value < |s| && s[r.value] == '/' &&
                        forall j :: r.value < j < |s| ==> s[j] != '/'
    ensures r.None? ==> forall j :: 0 <= j < |s| ==> s[j] != '/'
  {
    if s == [] then None
    else if s[|s| - 1] == '/' then Some(|s| - 1)
    else LastSlash(s[..|s| - 1])
  }

  /** `path.dirname(p)`: everything before the last `/`; `.` without one, `/` for a top-level entry. */
  function Dirname(p: Path): Path {
    match LastSlash(p)
    case None => "."
    case Some(i) => if i == 0 then "/" else p[..i]
  }

  /** The parent of a relative key joined under a directory: the directory, or the key's own parent under it. */
  lemma DirnameOfJoin(a: Path, b: Path)
    requires a != "" && !StartsWith(b, "/")
    ensures '/' !in b ==> Dirname(Join(a, b)) == a
    ensures '/' in b ==> Dirname(Join(a, b)) == Join(a, Dirname(b))
  {
    var p := Join(a, b);
    assert p[|a|] == '/';
    forall j | |a| < j < |p| ensures p[j] == b[j - |a| - 1] {
    }
    if LastSlash(b).None? {
      var i :| LastSlash(p) == Some(i) by {
        assert LastSlash(p).Some?;
      }
      assert i == |a|;
      assert p[..i] == a;
    } else {
      var k := LastSlash(b).value;
      assert k != 0;
      assert p[|a| + 1 + k] == '/';
      var i :| LastSlash(p) == Some(i) by {
        assert LastSlash(p).Some?;
      }
      assert i == |a| + 1 + k;
      assert b[..k] == Dirname(b);
      assert p[..i] == a + "/" + b[..k];
    }
  }

  /** The `~/` shorthand: `~/x` becomes `<home>/x`; anything else is left alone. */
  function ExpandHome(p: Path, home: Path): Path {
    if StartsWith(p, "~/") then home + "/" + p[2..] else p
  }
}
