/**
 * Filesystem paths as sequences of components.  An absolute path lists its
 * components from the filesystem root; a relative path lists them from some
 * base directory, and the empty sequence is `.`.  Paths are taken to be
 * already resolved (no `.`, `..` or empty components, no symbolic links), so
 * `Path.resolve` is the identity on them.
 */
module Paths {

  type Path = seq<string>

  const Up: string := ".."

  /** A component of a resolved path. */
  predicate IsComponent(c: string) {
    c != [] && c != "." && c != Up && '/' !in c
  }

  predicate IsResolved(p: Path) {
    forall i :: 0 <= i < |p| ==> IsComponent(p[i])
  }

  /** `Path.parent`; the parent of `.` (or of the filesystem root) is itself. */
  function Parent(p: Path): (r: Path)
    ensures p != [] ==> |r| == |p| - 1 && p == r + [p[|p| - 1]]
    ensures p == [] ==> r == []
  {
    if p == [] then [] else p[..|p| - 1]
  }

  /** `p.is_relative_to(root)`: `root` is `p` or one of its ancestors. */
  predicate IsUnder(p: Path, root: Path) {
    |root| <= |p| && p[..|root|] == root
  }

  /** `p.relative_to(root)`. */
  function RelativeTo(p: Path, root: Path): (r: Path)
    requires IsUnder(p, root)
    ensures root + r == p
  {
    p[|root|..]
  }

  /** The length of the longest common prefix of `a` and `b`. */
  function CommonPrefix(a: Path, b: Path): (n: nat)
    ensures n <= |a| && n <= |b|
    ensures a[..n] == b[..n]
    ensures n < |a| && n < |b| ==> a[n] != b[n]
    decreases |a|
  {
    if a == [] || b == [] || a[0] != b[0] then 0
    else
      var m := CommonPrefix(a[1..], b[1..]);
      assert a[..m + 1] == [a[0]] + a[1..][..m];
      assert b[..m + 1] == [b[0]] + b[1..][..m];
      m + 1
  }

  /** `n` copies of `..`. */
  function Ups(n: nat): (r: Path)
    ensures |r| == n && forall i :: 0 <= i < n ==> r[i] == Up
  {
    if n == 0 then [] else [Up] + Ups(n - 1)
  }

  /**
   * `os.path.relpath(target, start)` for two absolute paths: climb from
   * `start` to the common ancestor, then descend to `target`.
   */
  function RelPath(target: Path, start: Path): (r: Path)
    ensures IsUnder(target, start) ==> r == target[|start|..]
    ensures IsUnder(start, target) ==> r == Ups(|start| - |target|)
  {
    var n := CommonPrefix(target, start);
    assert IsUnder(target, start) ==> n == |start|;
    assert IsUnder(start, target) ==> n == |target| && target[n..] == [];
    Ups(|start| - n) + target[n..]
  }

  /**
   * Walks a relative path from `base`: `..` goes to the parent, any other
   * component descends.  This is how the consumer of a relative reference
   * finds what it names.
   */
  function Walk(base: Path, rel: Path): Path
    decreases |rel|
  {
    if rel == [] then base
    else if rel[0] == Up then Walk(Parent(base), rel[1..])
    else Walk(base + [rel[0]], rel[1..])
  }

  lemma {:induction false} WalkUps(base: Path, n: nat, rest: Path)
    requires n <= |base|
    ensures Walk(base, Ups(n) + rest) == Walk(base[..|base| - n], rest)
    decreases n
  {
    if n > 0 {
      var u := Ups(n - 1);
      assert Ups(n) + rest == [Up] + (u + rest);
      assert ([Up] + (u + rest))[1..] == u + rest;
      WalkUps(Parent(base), n - 1, rest);
      assert Parent(base)[..|Parent(base)| - (n - 1)] == base[..|base| - n];
    } else {
      assert Ups(0) + rest == rest;
      assert base[..|base|] == base;
    }
  }

  lemma {:induction false} WalkDown(base: Path, rest: Path)
    requires IsResolved(rest)
    ensures Walk(base, rest) == base + rest
    decreases |rest|
  {
    if rest != [] {
      WalkDown(base + [rest[0]], rest[1..]);
      assert base + [rest[0]] + rest[1..] == base + rest;
    }
  }

  /**
   * The relative path `os.path.relpath` produces leads from `start` back to
   * `target`: a reference written relative to one project's directory names
   * the other project's directory.
   */
  lemma RelPathReaches(target: Path, start: Path)
    requires IsResolved(target)
    ensures Walk(start, RelPath(target, start)) == target
  {
    ClimbThenDescend(target, start, CommonPrefix(target, start));
  }

  /** Climbing from `start` to a common ancestor and descending along `target` arrives at `target`. */
  lemma ClimbThenDescend(target: Path, start: Path, n: nat)
    requires IsResolved(target)
    requires n <= |target| && n <= |start| && target[..n] == start[..n]
    ensures Walk(start, Ups(|start| - n) + target[n..]) == target
  {
    var rest := target[n..];
    WalkUps(start, |start| - n, rest);
    assert |start| - (|start| - n) == n;
    ResolvedSuffix(target, n);
    WalkDown(start[..n], rest);
    assert target[..n] + rest == target;
  }

  /** What follows a prefix of a resolved path is resolved. */
  lemma ResolvedSuffix(p: Path, n: nat)
    requires IsResolved(p) && n <= |p|
    ensures IsResolved(p[n..])
  {
    forall i | 0 <= i < |p| - n
      ensures IsComponent(p[n..][i])
    {
      assert p[n..][i] == p[n + i];
    }
  }

  /** A path below `root`, taken relative to `root`, is its own relative path. */
  lemma RelPathFromAncestor(root: Path, rel: Path)
    requires IsResolved(rel)
    ensures RelPath(root + rel, root) == rel
  {
    var n := CommonPrefix(root + rel, root);
    assert (root + rel)[..|root|] == root;
    assert n == |root|;
    assert (root + rel)[|root|..] == rel;
  }

  /** `"/".join(parts)`. */
  function Join(p: Path): string {
    if p == [] then ""
    else if |p| == 1 then p[0]
    else p[0] + "/" + Join(p[1..])
  }

  /** `str(path)` for a relative path: `.` for the empty path. */
  function Render(p: Path): string {
    if p == [] then "." else Join(p)
  }
}
