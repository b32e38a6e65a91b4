/**
 * Deriving the root's `tool.uv.workspace.members` patterns from the member
 * directories: the collapse loop of `_sync_member_paths`, the text of each
 * pattern, and the order `sync_member_paths` sorts them in.
 */
module MemberPaths {
  import opened Wrappers
  import opened Paths
  import opened Sequences

  /** The paths of `rels` whose parent is `parent`: one group of `by_parent`. */
  function Children(rels: set<Path>, parent: Path): (c: set<Path>)
    ensures c <= rels
  {
    set p | p in rels && Parent(p) == parent
  }

  /** No group other than the root's holds two or more paths: the loop has nothing left to do. */
  ghost predicate IsCollapsed(rels: set<Path>) {
    forall q :: q != [] ==> |Children(rels, q)| <= 1
  }

  /** The paths below `root`, taken relative to it, with `root` itself left out. */
  function RelativeMembers(root: Path, paths: set<Path>): (rels: set<Path>)
    ensures [] !in rels
  {
    set p | p in paths && p != root && IsUnder(p, root) :: p[|root|..]
  }

  /** The step that replaces a group of children by their common parent. */
  function CollapseInto(rels: set<Path>, parent: Path): set<Path> {
    rels - Children(rels, parent) + {parent}
  }

  /**
   * A collapse step puts the parent in, leaves none of its children
   * behind, keeps every path outside the group and adds nothing else.
   */
  lemma CollapseIntoStep(rels: set<Path>, parent: Path)
    requires parent != []
    ensures var r := CollapseInto(rels, parent);
      && parent in r && r <= rels + {parent}
      && Children(r, parent) == {}
      && forall p :: p in rels && Parent(p) != parent ==> p in r
  {
    var r := CollapseInto(rels, parent);
    assert |Parent(parent)| < |parent|;
  }

  /** `by_parent`: every path of `rels` filed under its parent. */
  method GroupByParent(rels: set<Path>) returns (byParent: map<Path, set<Path>>)
    ensures byParent.Keys == set p | p in rels :: Parent(p)
    ensures forall q :: q in byParent ==> byParent[q] == Children(rels, q)
  {
    byParent := map[];
    var todo := rels;
    ghost var done: set<Path> := {};
    while todo != {}
      invariant todo <= rels && done == rels - todo
      invariant Filed(byParent, done)
      decreases todo
    {
      var p :| p in todo;
      var q := Parent(p);
      var group := if q in byParent then byParent[q] else {};
      FiledStep(byParent, done, p);
      byParent := byParent[q := group + {p}];
      todo := todo - {p};
      done := done + {p};
    }
    assert done == rels;
  }

  /** `byParent` files every path of `done` under its parent, and nothing else. */
  ghost predicate Filed(byParent: map<Path, set<Path>>, done: set<Path>) {
    && byParent.Keys == (set p | p in done :: Parent(p))
    && forall q :: q in byParent ==> byParent[q] == Children(done, q)
  }

  /** Filing one more path under its parent keeps the map filed. */
  lemma FiledStep(byParent: map<Path, set<Path>>, done: set<Path>, p: Path)
    requires Filed(byParent, done)
    ensures var q := Parent(p);
      Filed(byParent[q := (if q in byParent then byParent[q] else {}) + {p}], done + {p})
  {
    var q := Parent(p);
    var m := byParent[q := (if q in byParent then byParent[q] else {}) + {p}];
    ParentsAdd(done, p);
    forall k | k in m ensures m[k] == Children(done + {p}, k) {
      ChildrenAdd(done, p, k);
    }
  }

  /** Filing `p` adds its parent to the parents of the filed paths. */
  lemma ParentsAdd(done: set<Path>, p: Path)
    ensures (set x | x in done + {p} :: Parent(x)) == (set x | x in done :: Parent(x)) + {Parent(p)}
  {
  }

  /** Filing `p` adds it to its parent's group and to no other. */
  lemma ChildrenAdd(done: set<Path>, p: Path, k: Path)
    ensures Children(done + {p}, k) == if Parent(p) == k then Children(done, k) + {p} else Children(done, k)
  {
  }

  /**
   * The "all siblings present" test in the loop always holds: rebuilding
   * each child of a group from the group's parent and the child's name gives
   * the group back.
   */
  lemma SiblingCheckHolds(rels: set<Path>, parent: Path)
    requires parent != []
    ensures SiblingsPresent(parent, Children(rels, parent))
  {
    var children := Children(rels, parent);
    var names := set c | c in children && c != [] :: c[|c| - 1];
    var expected := set n | n in names :: parent + [n];
    forall c | c in children ensures c in expected {
      assert c != [];
      assert c == Parent(c) + [c[|c| - 1]];
    }
    forall e | e in expected ensures e in children {
      var n :| n in names && e == parent + [n];
      var c :| c in children && c != [] && n == c[|c| - 1];
      assert c == Parent(c) + [c[|c| - 1]];
    }
  }

  /** The "all siblings present" test: rebuilding each child from `parent` and the child's last component gives the group back. */
  predicate SiblingsPresent(parent: Path, children: set<Path>) {
    var names := set c | c in children && c != [] :: c[|c| - 1];
    children == set n | n in names :: parent + [n]
  }

  /** A collapse step never brings back the root itself. */
  lemma CollapseLeavesRootOut(rels: set<Path>, parent: Path)
    requires [] !in rels && parent != []
    ensures [] !in CollapseInto(rels, parent)
  {
  }

  /** A collapse step removes at least two paths and adds one. */
  lemma CollapseShrinks(rels: set<Path>, parent: Path)
    requires |Children(rels, parent)| > 1
    ensures |CollapseInto(rels, parent)| < |rels|
  {
    var c := Children(rels, parent);
    assert |rels - c| == |rels| - |c|;
  }

  /**
   * One pass of the `for parent, children in by_parent.items()` loop: the
   * first group (in an order left open, as a Python dict built from a set
   * gives none) that is not directly under the root, passes the sibling test
   * and holds two or more paths; `None` when the pass finds none.
   */
  method FindCollapsibleGroup(rels: set<Path>) returns (found: Option<Path>)
    ensures found.Some? ==> found.value != [] && |Children(rels, found.value)| > 1
    ensures found.None? ==> IsCollapsed(rels)
  {
    var byParent := GroupByParent(rels);
    var todo := byParent.Keys;
    while todo != {}
      invariant todo <= byParent.Keys
      invariant forall q :: q in byParent.Keys - todo ==> q == [] || |byParent[q]| <= 1
      decreases todo
    {
      var parent :| parent in todo;
      todo := todo - {parent};
      if parent == [] {
        continue;
      }
      var children := byParent[parent];
      SiblingCheckHolds(rels, parent);
      if SiblingsPresent(parent, children) && |children| > 1 {
        return Some(parent);
      }
    }
    forall q | q != []
      ensures |Children(rels, q)| <= 1
    {
      if q !in byParent.Keys {
        assert Children(rels, q) == {};
      }
    }
    return None;
  }

  /**
   * `_sync_member_paths`: drops `root` itself, refuses a path outside
   * `root`, then repeatedly replaces a group of two or more siblings (never
   * the group directly under `root`) by their parent until no group
   * qualifies.
   */
  method CollapseMemberPaths(root: Path, paths: set<Path>) returns (r: Result<set<Path>, string>, ghost steps: seq<Path>)
    ensures r.Err? <==> exists p :: p in paths && p != root && !IsUnder(p, root)
    ensures r.Ok? ==> r.value == After(RelativeMembers(root, paths), steps) && ValidSteps(RelativeMembers(root, paths), steps)
    ensures r.Ok? ==> [] !in r.value
    ensures r.Ok? ==> IsCollapsed(r.value)
    ensures r.Ok? ==> |r.value| <= |RelativeMembers(root, paths)|
    ensures r.Ok? ==> Covers(r.value, RelativeMembers(root, paths))
    ensures r.Ok? ==> Within(r.value, RelativeMembers(root, paths))
    ensures r.Ok? ==> forall a :: a in r.value && a !in RelativeMembers(root, paths) ==> AboveTwo(a, RelativeMembers(root, paths))
  {
    if exists p :: p in paths && p != root && !IsUnder(p, root) {
      return Err("All paths must be under root"), [];
    }
    var rels;
    rels, steps := Collapse(RelativeMembers(root, paths));
    return Ok(rels), steps;
  }

  /**
   * The `while changed` loop of `_sync_member_paths` as written, on paths
   * already taken relative to the root: it stops only when no group
   * qualifies, so it also collapses groups it has produced itself (see
   * `CollapseNestedLosesMembers`).
   */
  method Collapse(rels0: set<Path>) returns (rels: set<Path>, ghost steps: seq<Path>)
    requires [] !in rels0
    ensures rels == After(rels0, steps) && ValidSteps(rels0, steps)
    ensures [] !in rels
    ensures IsCollapsed(rels)
    ensures |rels| <= |rels0|
    ensures Covers(rels, rels0) && Within(rels, rels0)
    ensures forall a :: a in rels && a !in rels0 ==> AboveTwo(a, rels0)
  {
    rels, steps := rels0, [];
    CoversSelf(rels0);
    ghost var anc := map x | x in rels0 :: x;
    var changed := true;
    while changed
      invariant rels == After(rels0, steps) && ValidSteps(rels0, steps)
      invariant [] !in rels
      invariant |rels| <= |rels0|
      invariant CoveredVia(rels, rels0, anc) && Within(rels, rels0)
      invariant forall a :: a in rels && a !in rels0 ==> AboveTwo(a, rels0)
      invariant !changed ==> IsCollapsed(rels)
      decreases |rels| + (if changed then 1 else 0)
    {
      var found := FindCollapsibleGroup(rels);
      changed := found.Some?;
      if changed {
        var parent := found.value;
        CollapseShrinks(rels, parent);
        CollapseLeavesRootOut(rels, parent);
        anc := CollapseKeepsCover(rels0, rels, parent, anc);
        CollapseKeepsAboveTwo(rels0, rels, parent);
        CollapseStaysWithin(rels0, rels, parent);
        ValidStepsSnoc(rels0, steps, parent);
        rels := CollapseInto(rels, parent);
        steps := steps + [parent];
      }
    }
    CoveredViaCovers(rels, rels0, anc);
  }

  /** The paths left after collapsing the groups under `steps`, in order. */
  ghost function After(rels0: set<Path>, steps: seq<Path>): set<Path>
    decreases |steps|
  {
    if steps == [] then rels0 else CollapseInto(After(rels0, steps[..|steps| - 1]), steps[|steps| - 1])
  }

  /** Each step collapses a group of two or more siblings, not the root's, in the paths left by the steps before it. */
  ghost predicate ValidSteps(rels0: set<Path>, steps: seq<Path>) {
    forall i :: 0 <= i < |steps| ==> steps[i] != [] && |Children(After(rels0, steps[..i]), steps[i])| > 1
  }

  lemma ValidStepsSnoc(rels0: set<Path>, steps: seq<Path>, parent: Path)
    requires ValidSteps(rels0, steps)
    requires parent != [] && |Children(After(rels0, steps), parent)| > 1
    ensures ValidSteps(rels0, steps + [parent])
    ensures After(rels0, steps + [parent]) == CollapseInto(After(rels0, steps), parent)
  {
    var s := steps + [parent];
    assert s[..|s| - 1] == steps;
    forall i | 0 <= i < |s| ensures s[i] != [] && |Children(After(rels0, s[..i]), s[i])| > 1 {
      if i < |steps| {
        assert s[..i] == steps[..i];
      }
    }
  }

  /** `a` lies above two distinct paths of `xs`. */
  predicate AboveTwo(a: Path, xs: set<Path>) {
    exists x, y :: x in xs && y in xs && x != y && IsPrefix(a, x) && IsPrefix(a, y)
  }

  /** Every path of `xs` equals or lies below some path of `rels`. */
  predicate Covers(rels: set<Path>, xs: set<Path>) {
    forall x :: x in xs ==> exists a :: a in rels && IsPrefix(a, x)
  }

  /** `a` equals or is an ancestor of some path of `xs`. */
  predicate HasDescendant(xs: set<Path>, a: Path) {
    exists x :: x in xs && IsPrefix(a, x)
  }

  /**
   * Every path of `rels` equals or is an ancestor of some path of `xs`.  The
   * trigger keeps this from feeding `Covers` (and `Covers` from feeding it)
   * without end.
   */
  predicate Within(rels: set<Path>, xs: set<Path>) {
    forall a {:trigger HasDescendant(xs, a)} :: a in rels ==> HasDescendant(xs, a)
  }

  lemma CoversSelf(xs: set<Path>)
    ensures CoveredVia(xs, xs, map x | x in xs :: x) && Within(xs, xs)
  {
    forall x | x in xs ensures IsPrefix(x, x) {
      assert x[..|x|] == x;
    }
  }

  lemma PrefixTransitive(a: Path, b: Path, c: Path)
    requires IsPrefix(a, b) && IsPrefix(b, c)
    ensures IsPrefix(a, c)
  {
    assert c[..|a|] == c[..|b|][..|a|];
  }

  /** `anc` maps every path of `xs` to a path of `rels` at or above it. */
  ghost predicate CoveredVia(rels: set<Path>, xs: set<Path>, anc: map<Path, Path>) {
    forall x :: x in xs ==> x in anc && anc[x] in rels && IsPrefix(anc[x], x)
  }

  lemma CoveredViaCovers(rels: set<Path>, xs: set<Path>, anc: map<Path, Path>)
    requires CoveredVia(rels, xs, anc)
    ensures Covers(rels, xs)
  {
    forall x | x in xs ensures exists a :: a in rels && IsPrefix(a, x) {
      assert anc[x] in rels && IsPrefix(anc[x], x);
    }
  }

  /** A collapse step keeps every original member below some remaining path. */
  lemma CollapseKeepsCover(rels0: set<Path>, rels: set<Path>, parent: Path, anc: map<Path, Path>)
    returns (anc': map<Path, Path>)
    requires CoveredVia(rels, rels0, anc)
    ensures CoveredVia(CollapseInto(rels, parent), rels0, anc')
  {
    var c := Children(rels, parent);
    anc' := map x | x in rels0 :: if anc[x] in c then parent else anc[x];
    forall x | x in rels0 ensures IsPrefix(anc'[x], x) {
      if anc[x] in c {
        assert IsPrefix(parent, anc[x]);
        PrefixTransitive(parent, anc[x], x);
      }
    }
  }

  /** A collapse step only introduces ancestors of original members. */
  lemma CollapseStaysWithin(rels0: set<Path>, rels: set<Path>, parent: Path)
    requires |Children(rels, parent)| > 1
    requires Within(rels, rels0)
    ensures Within(CollapseInto(rels, parent), rels0)
  {
    GroupParentWithin(rels0, rels, parent);
    forall a | a in CollapseInto(rels, parent) ensures HasDescendant(rels0, a) {
      if a != parent {
        assert a in rels;
      }
    }
  }

  /**
   * A collapse step only introduces a parent with two distinct members
   * below it: the members below two of its children.
   */
  lemma CollapseKeepsAboveTwo(rels0: set<Path>, rels: set<Path>, parent: Path)
    requires parent != [] && |Children(rels, parent)| > 1
    requires Within(rels, rels0)
    requires forall a :: a in rels && a !in rels0 ==> AboveTwo(a, rels0)
    ensures forall a :: a in CollapseInto(rels, parent) && a !in rels0 ==> AboveTwo(a, rels0)
  {
    var c := Children(rels, parent);
    var c1 :| c1 in c;
    assert c - {c1} != {} by { assert |c - {c1}| == |c| - 1; }
    var c2 :| c2 in c - {c1};
    assert HasDescendant(rels0, c1) && HasDescendant(rels0, c2);
    var x :| x in rels0 && IsPrefix(c1, x);
    var y :| y in rels0 && IsPrefix(c2, y);
    assert IsPrefix(parent, c1) && IsPrefix(parent, c2);
    PrefixTransitive(parent, c1, x);
    PrefixTransitive(parent, c2, y);
    assert |c1| == |parent| + 1 == |c2|;
    assert x[..|c1|] == c1 && y[..|c2|] == c2 && c1 != c2;
    assert x != y;
    assert AboveTwo(parent, rels0);
  }

  /** The parent of a non-empty group lies above the original member below one of its children. */
  lemma GroupParentWithin(rels0: set<Path>, rels: set<Path>, parent: Path)
    requires |Children(rels, parent)| > 1
    requires Within(rels, rels0)
    ensures HasDescendant(rels0, parent)
  {
    var c := Children(rels, parent);
    assert c != {};
    var some :| some in c;
    assert HasDescendant(rels0, some);
    var x0 :| x0 in rels0 && IsPrefix(some, x0);
    assert IsPrefix(parent, some);
    PrefixTransitive(parent, some, x0);
  }

  /**
   * The loop's result depends on the order in which groups are visited:
   * from the same members, one order ends with `x` alone and the other with
   * both `x` and `x/a`.
   */
  lemma CollapseOrderMatters()
    ensures var rels := {["x", "a", "1"], ["x", "a", "2"], ["x", "b"], ["x", "c"]};
      && IsCollapsed(CollapseInto(CollapseInto(rels, ["x", "a"]), ["x"]))
      && IsCollapsed(CollapseInto(CollapseInto(rels, ["x"]), ["x", "a"]))
      && CollapseInto(CollapseInto(rels, ["x", "a"]), ["x"]) != CollapseInto(CollapseInto(rels, ["x"]), ["x", "a"])
  {
    InnerGroupFirst();
    OuterGroupFirst();
    var xa, x := ["x", "a"], ["x"];
    assert Children({x}, []) == {x};
    assert Parent(x) == [] && Parent(xa) == x;
    forall q | q != [] ensures |Children({x}, q)| <= 1 {
      assert Children({x}, q) == {};
    }
    forall q | q != [] ensures |Children({x, xa}, q)| <= 1 {
      if q == x {
        assert Children({x, xa}, q) == {xa};
      } else {
        assert Children({x, xa}, q) == {};
      }
    }
    assert xa in {x, xa} && xa !in {x};
  }

  /** Collapsing `x/a` first, then `x`, leaves `x` alone. */
  lemma InnerGroupFirst()
    ensures CollapseInto(CollapseInto({["x", "a", "1"], ["x", "a", "2"], ["x", "b"], ["x", "c"]}, ["x", "a"]), ["x"]) == {["x"]}
  {
    var rels := {["x", "a", "1"], ["x", "a", "2"], ["x", "b"], ["x", "c"]};
    var xa, x := ["x", "a"], ["x"];
    assert Children(rels, xa) == {["x", "a", "1"], ["x", "a", "2"]};
    var one := CollapseInto(rels, xa);
    assert one == {xa, ["x", "b"], ["x", "c"]};
    assert Children(one, x) == one;
  }

  /** Collapsing `x` first, then `x/a`, leaves both `x` and `x/a`. */
  lemma OuterGroupFirst()
    ensures CollapseInto(CollapseInto({["x", "a", "1"], ["x", "a", "2"], ["x", "b"], ["x", "c"]}, ["x"]), ["x", "a"]) == {["x"], ["x", "a"]}
  {
    var rels := {["x", "a", "1"], ["x", "a", "2"], ["x", "b"], ["x", "c"]};
    var xa, x := ["x", "a"], ["x"];
    assert Children(rels, x) == {["x", "b"], ["x", "c"]};
    var other := CollapseInto(rels, x);
    assert other == {["x", "a", "1"], ["x", "a", "2"], x};
    assert Children(other, xa) == {["x", "a", "1"], ["x", "a", "2"]};
  }

  // Every member is a path of `r` or lies directly below one: what an exact
  // pattern `dir` and a wildcard pattern `dir/*` can reach.
  predicate ReachedOneLevel(r: set<Path>, members: set<Path>) {
    forall m :: m in members ==> m in r || Parent(m) in r
  }

  /** A group of two or more siblings under a parent other than the root. */
  predicate InCollapsibleGroup(rels: set<Path>, p: Path) {
    Parent(p) != [] && |Children(rels, Parent(p))| > 1
  }

  /**
   * The collapse as its comment ("all siblings under parent are present")
   * describes it: a single pass over the groups of the original members, each
   * group of two or more siblings under a parent other than the root
   * becoming that parent, and nothing produced by this replacement grouped
   * again.
   */
  function CollapseOneLevel(rels: set<Path>): (r: set<Path>)
    requires [] !in rels
    ensures [] !in r
    ensures ReachedOneLevel(r, rels)
    ensures forall a :: a in r ==> a in rels || |Children(rels, a)| > 1
  {
    var kept := set p | p in rels && !InCollapsibleGroup(rels, p);
    var parents := set p | p in rels && InCollapsibleGroup(rels, p) :: Parent(p);
    assert forall a :: a in parents ==> |Children(rels, a)| > 1;
    kept + parents
  }

  /** The one-level collapse reaches every member, and each of its paths lies at or above a member. */
  lemma OneLevelBounds(rels: set<Path>)
    requires [] !in rels
    ensures Covers(CollapseOneLevel(rels), rels) && Within(CollapseOneLevel(rels), rels)
  {
    var r := CollapseOneLevel(rels);
    forall x | x in rels ensures exists a :: a in r && IsPrefix(a, x) {
      if x in r {
        assert IsPrefix(x, x) by { assert x[..|x|] == x; }
      } else {
        assert Parent(x) in r;
        assert IsPrefix(Parent(x), x);
      }
    }
    forall a | a in r ensures HasDescendant(rels, a) {
      if a in rels {
        assert IsPrefix(a, a) by { assert a[..|a|] == a; }
      } else {
        var c := Children(rels, a);
        assert c != {};
        var x :| x in c;
        assert IsPrefix(a, x);
      }
    }
  }

  /**
   * The loop of `_sync_member_paths` collapses a group it has itself
   * produced: from the member directories `x/a/1`, `x/a/2` and `x/b` the only
   * run merges `x/a/1` and `x/a/2` into `x/a`, then `x/a` and `x/b` into `x`,
   * and stops at `{x}`.  Neither the exact nor the wildcard pattern for `x`
   * reaches `x/a/1` or `x/a/2`, whereas the one-level collapse keeps both
   * reachable.  `NestedRunsEndAtX` shows that this is the only run `Collapse`
   * can take.
   */
  lemma CollapseNestedLosesMembers()
    ensures var rels := {["x", "a", "1"], ["x", "a", "2"], ["x", "b"]};
      && (forall q :: q != [] && |Children(rels, q)| > 1 ==> q == ["x", "a"])
      && CollapseInto(rels, ["x", "a"]) == {["x", "a"], ["x", "b"]}
      && (forall q :: q != [] && |Children({["x", "a"], ["x", "b"]}, q)| > 1 ==> q == ["x"])
      && CollapseInto({["x", "a"], ["x", "b"]}, ["x"]) == {["x"]}
      && IsCollapsed({["x"]})
      && !ReachedOneLevel({["x"]}, rels)
      && ReachedOneLevel(CollapseOneLevel(rels), rels)
  {
    NestedFirstStep();
    NestedSecondStep();
    forall q | q != [] ensures |Children({["x"]}, q)| <= 1 {
      SubsetSize(Children({["x"]}, q), {["x"]});
    }
    assert Parent(["x", "a", "1"]) == ["x", "a"];
  }

  /**
   * Every run of the loop on `x/a/1`, `x/a/2`, `x/b` ends at `{x}`: whatever
   * sequence of qualifying groups it collapses until none is left, the
   * result reaches neither `x/a/1` nor `x/a/2`.
   */
  lemma NestedRunsEndAtX(steps: seq<Path>)
    requires ValidSteps({["x", "a", "1"], ["x", "a", "2"], ["x", "b"]}, steps)
    requires IsCollapsed(After({["x", "a", "1"], ["x", "a", "2"], ["x", "b"]}, steps))
    ensures steps == [["x", "a"], ["x"]]
    ensures After({["x", "a", "1"], ["x", "a", "2"], ["x", "b"]}, steps) == {["x"]}
    ensures !ReachedOneLevel(After({["x", "a", "1"], ["x", "a", "2"], ["x", "b"]}, steps), {["x", "a", "1"], ["x", "a", "2"], ["x", "b"]})
  {
    var rels := {["x", "a", "1"], ["x", "a", "2"], ["x", "b"]};
    var two := {["x", "a"], ["x", "b"]};
    NestedFirstStep();
    NestedSecondStep();
    OnlyXCollapsed();
    TwoForcedSteps(rels, steps, ["x", "a"], two, ["x"], {["x"]});
    assert Parent(["x", "a", "1"]) == ["x", "a"];
  }

  /**
   * A run that ends collapsed, from paths whose only qualifying group is
   * `g1`, then `g2`, after which nothing qualifies, takes exactly those
   * two steps.
   */
  lemma TwoForcedSteps(rels0: set<Path>, steps: seq<Path>, g1: Path, mid: set<Path>, g2: Path, last: set<Path>)
    requires ValidSteps(rels0, steps) && IsCollapsed(After(rels0, steps))
    requires g1 != [] && |Children(rels0, g1)| > 1
    requires forall q :: q != [] && |Children(rels0, q)| > 1 ==> q == g1
    requires CollapseInto(rels0, g1) == mid
    requires g2 != [] && |Children(mid, g2)| > 1
    requires forall q :: q != [] && |Children(mid, q)| > 1 ==> q == g2
    requires CollapseInto(mid, g2) == last
    requires IsCollapsed(last)
    ensures steps == [g1, g2] && After(rels0, steps) == last
  {
    assert steps[..0] == [];
    ForcedStep(rels0, steps, 0, rels0, g1, mid);
    ForcedStep(rels0, steps, 1, mid, g2, last);
    RunStops(rels0, steps, 2);
    assert steps[..2] == steps;
  }

  /** `{x}` has nothing left to collapse. */
  lemma OnlyXCollapsed()
    ensures IsCollapsed({["x"]})
  {
    forall q | q != [] ensures |Children({["x"]}, q)| <= 1 {
      SubsetSize(Children({["x"]}, q), {["x"]});
    }
  }

  /**
   * When the paths left after `i` steps of a run that ends collapsed hold
   * exactly one qualifying group `g`, step `i` collapses `g`.
   */
  lemma ForcedStep(rels0: set<Path>, steps: seq<Path>, i: nat, cur: set<Path>, g: Path, next: set<Path>)
    requires ValidSteps(rels0, steps) && IsCollapsed(After(rels0, steps)) && i <= |steps|
    requires After(rels0, steps[..i]) == cur
    requires g != [] && |Children(cur, g)| > 1
    requires forall q :: q != [] && |Children(cur, q)| > 1 ==> q == g
    requires CollapseInto(cur, g) == next
    ensures i < |steps| && steps[i] == g && After(rels0, steps[..i + 1]) == next
  {
    assert !IsCollapsed(cur);
    RunContinues(rels0, steps, i);
    StepAt(rels0, steps, i);
  }

  /**
   * From `a/b/c/1` and `a/b/c/2` every run of the loop collapses `a/b/c`
   * once and stops: the group `a/b` then holds a single path, so the result
   * is `{a/b/c}` and never `{a}`.
   */
  lemma DeepPairRunsEndAtParent(steps: seq<Path>)
    requires ValidSteps({["a", "b", "c", "1"], ["a", "b", "c", "2"]}, steps)
    requires IsCollapsed(After({["a", "b", "c", "1"], ["a", "b", "c", "2"]}, steps))
    ensures steps == [["a", "b", "c"]]
    ensures After({["a", "b", "c", "1"], ["a", "b", "c", "2"]}, steps) == {["a", "b", "c"]}
  {
    var rels := {["a", "b", "c", "1"], ["a", "b", "c", "2"]};
    var abc := ["a", "b", "c"];
    assert Parent(["a", "b", "c", "1"]) == abc && Parent(["a", "b", "c", "2"]) == abc;
    assert Children(rels, abc) == rels;
    forall q | q != [] && q != abc ensures |Children(rels, q)| <= 1 {
      assert Children(rels, q) == {};
    }
    assert CollapseInto(rels, abc) == {abc};
    forall q | q != [] ensures |Children({abc}, q)| <= 1 {
      SubsetSize(Children({abc}, q), {abc});
    }
    assert steps[..0] == [];
    ForcedStep(rels, steps, 0, rels, abc, {abc});
    RunStops(rels, steps, 1);
    assert steps[..1] == steps;
  }

  /** Step `i` of a valid run collapses a group of two or more siblings of the paths left after `i` steps. */
  lemma StepAt(rels0: set<Path>, steps: seq<Path>, i: nat)
    requires ValidSteps(rels0, steps) && i < |steps|
    ensures steps[i] != [] && |Children(After(rels0, steps[..i]), steps[i])| > 1
    ensures After(rels0, steps[..i + 1]) == CollapseInto(After(rels0, steps[..i]), steps[i])
  {
    assert steps[..i + 1][..i] == steps[..i];
  }

  /** A run that ends with nothing left to collapse goes past every point at which something was. */
  lemma RunContinues(rels0: set<Path>, steps: seq<Path>, k: nat)
    requires k <= |steps| && IsCollapsed(After(rels0, steps))
    requires !IsCollapsed(After(rels0, steps[..k]))
    ensures k < |steps|
  {
    assert steps[..|steps|] == steps;
  }

  /** A valid run takes no step once nothing is left to collapse. */
  lemma RunStops(rels0: set<Path>, steps: seq<Path>, k: nat)
    requires ValidSteps(rels0, steps) && k <= |steps|
    requires IsCollapsed(After(rels0, steps[..k]))
    ensures k == |steps|
  {
  }

  /** In `{x/a/1, x/a/2, x/b}` only `x/a` has two children, and collapsing it gives `{x/a, x/b}`. */
  lemma NestedFirstStep()
    ensures var rels := {["x", "a", "1"], ["x", "a", "2"], ["x", "b"]};
      && |Children(rels, ["x", "a"])| == 2
      && (forall q :: q != [] && |Children(rels, q)| > 1 ==> q == ["x", "a"])
      && CollapseInto(rels, ["x", "a"]) == {["x", "a"], ["x", "b"]}
  {
    var a1, a2, b := ["x", "a", "1"], ["x", "a", "2"], ["x", "b"];
    var xa := ["x", "a"];
    var rels := {a1, a2, b};
    assert Parent(a1) == xa && Parent(a2) == xa && Parent(b) == ["x"];
    forall q | q != [] && q != xa ensures |Children(rels, q)| <= 1 {
      assert Children(rels, q) <= {b};
      SubsetSize(Children(rels, q), {b});
    }
    assert Children(rels, xa) == {a1, a2};
  }

  /** In `{x/a, x/b}` only `x` has two children, and collapsing it gives `{x}`. */
  lemma NestedSecondStep()
    ensures var rels := {["x", "a"], ["x", "b"]};
      && |Children(rels, ["x"])| == 2
      && (forall q :: q != [] && |Children(rels, q)| > 1 ==> q == ["x"])
      && CollapseInto(rels, ["x"]) == {["x"]}
  {
    var xa, b, x := ["x", "a"], ["x", "b"], ["x"];
    var rels := {xa, b};
    assert Parent(xa) == x && Parent(b) == x;
    forall q | q != [] && q != x ensures |Children(rels, q)| <= 1 {
      assert Children(rels, q) == {};
    }
    assert Children(rels, x) == {xa, b};
  }

  lemma SubsetSize<T>(a: set<T>, b: set<T>)
    requires a <= b
    ensures |a| <= |b|
  {
    assert b == a + (b - a);
  }

  /** `s.endswith("*")`. */
  predicate IsWildcard(s: string) {
    |s| > 0 && s[|s| - 1] == '*'
  }

  /** Python's `<=` on strings: code point by code point, a proper prefix first. */
  predicate TextLeq(a: string, b: string)
    decreases |a|
  {
    a == [] || (b != [] && (a[0] < b[0] || (a[0] == b[0] && TextLeq(a[1..], b[1..]))))
  }

  /** The order of the sort key `(not s.endswith("*"), s)`: wildcard patterns first, then by text. */
  predicate PatternLeq(a: string, b: string) {
    (IsWildcard(a) && !IsWildcard(b)) || (IsWildcard(a) == IsWildcard(b) && TextLeq(a, b))
  }

  lemma {:induction false} TextLeqTotal(a: string, b: string)
    ensures TextLeq(a, b) || TextLeq(b, a)
    decreases |a|
  {
    if a != [] && b != [] && a[0] == b[0] {
      TextLeqTotal(a[1..], b[1..]);
    }
  }

  lemma {:induction false} TextLeqTransitive(a: string, b: string, c: string)
    requires TextLeq(a, b) && TextLeq(b, c)
    ensures TextLeq(a, c)
    decreases |a|
  {
    if a != [] && b != [] && c != [] && a[0] == b[0] && b[0] == c[0] {
      TextLeqTransitive(a[1..], b[1..], c[1..]);
    }
  }

  lemma {:induction false} TextLeqAntisymmetric(a: string, b: string)
    requires TextLeq(a, b) && TextLeq(b, a)
    ensures a == b
    decreases |a|
  {
    if a != [] {
      TextLeqAntisymmetric(a[1..], b[1..]);
      assert a == [a[0]] + a[1..] && b == [b[0]] + b[1..];
    }
  }

  lemma PatternLeqTotal(a: string, b: string)
    ensures PatternLeq(a, b) || PatternLeq(b, a)
  {
    TextLeqTotal(a, b);
  }

  lemma PatternLeqTransitive(a: string, b: string, c: string)
    requires PatternLeq(a, b) && PatternLeq(b, c)
    ensures PatternLeq(a, c)
  {
    if IsWildcard(a) == IsWildcard(b) == IsWildcard(c) {
      TextLeqTransitive(a, b, c);
    }
  }

  lemma PatternLeqAntisymmetric(a: string, b: string)
    requires PatternLeq(a, b) && PatternLeq(b, a)
    ensures a == b
  {
    TextLeqAntisymmetric(a, b);
  }

  predicate Sorted(s: seq<string>) {
    forall i, j :: 0 <= i < j < |s| ==> PatternLeq(s[i], s[j])
  }

  /** Inserts `x` into the sorted `s` before the first pattern it does not follow. */
  function Insert(x: string, s: seq<string>): (r: seq<string>)
    requires Sorted(s)
    ensures Sorted(r) && multiset(r) == multiset(s) + multiset{x}
  {
    if s == [] then [x]
    else if PatternLeq(x, s[0]) then
      InsertFront(x, s);
      [x] + s
    else
      var rest := Insert(x, s[1..]);
      InsertBehind(x, s, rest);
      assert s == [s[0]] + s[1..];
      [s[0]] + rest
  }

  lemma InsertFront(x: string, s: seq<string>)
    requires Sorted(s) && s != [] && PatternLeq(x, s[0])
    ensures Sorted([x] + s)
  {
    forall j | 0 < j < |s| ensures PatternLeq(x, s[j]) {
      PatternLeqTransitive(x, s[0], s[j]);
    }
  }

  lemma InsertBehind(x: string, s: seq<string>, rest: seq<string>)
    requires Sorted(s) && s != [] && !PatternLeq(x, s[0])
    requires Sorted(rest) && multiset(rest) == multiset(s[1..]) + multiset{x}
    ensures Sorted([s[0]] + rest)
  {
    PatternLeqTotal(x, s[0]);
    forall k | 0 <= k < |rest| ensures PatternLeq(s[0], rest[k]) {
      assert rest[k] in multiset(rest);
      if rest[k] != x {
        assert rest[k] in multiset(s[1..]);
        var j :| 0 <= j < |s[1..]| && s[1..][j] == rest[k];
        assert s[j + 1] == rest[k];
      }
    }
  }

  /** `members.sort(key=lambda s: (not s.endswith("*"), s))`. */
  function SortPatterns(xs: seq<string>): (r: seq<string>)
    ensures Sorted(r) && multiset(r) == multiset(xs)
  {
    if xs == [] then []
    else
      assert xs == [xs[0]] + xs[1..];
      Insert(xs[0], SortPatterns(xs[1..]))
  }

  /**
   * The order is total and strict on distinct patterns, so the sorted list
   * is determined by the patterns alone: the order in which they were
   * produced from the set of directories does not show in the manifest.
   */
  lemma {:induction false} SortedUnique(a: seq<string>, b: seq<string>)
    requires Sorted(a) && Sorted(b) && multiset(a) == multiset(b)
    ensures a == b
    decreases |a|
  {
    if a != [] {
      assert |b| == |a| by { assert |multiset(a)| == |multiset(b)|; }
      SortedSameHead(a, b);
      SortedTail(a);
      SortedTail(b);
      SortedUnique(a[1..], b[1..]);
      assert a == [a[0]] + a[1..] && b == [b[0]] + b[1..];
    }
  }

  /** The tail of a sorted list is sorted and holds the other entries. */
  lemma SortedTail(s: seq<string>)
    requires Sorted(s) && s != []
    ensures Sorted(s[1..]) && multiset(s[1..]) == multiset(s) - multiset{s[0]}
  {
    assert s == [s[0]] + s[1..];
    forall i, j | 0 <= i < j < |s[1..]| ensures PatternLeq(s[1..][i], s[1..][j]) {
      assert s[1..][i] == s[i + 1] && s[1..][j] == s[j + 1];
    }
  }

  /** Two sorted orders of the same entries start with the same entry. */
  lemma SortedSameHead(a: seq<string>, b: seq<string>)
    requires Sorted(a) && Sorted(b) && multiset(a) == multiset(b) && a != [] && b != []
    ensures a[0] == b[0]
  {
    assert a[0] in multiset(b);
    assert b[0] in multiset(a);
    if a[0] != b[0] {
      var i :| 0 <= i < |b| && b[i] == a[0];
      var j :| 0 <= j < |a| && a[j] == b[0];
      assert PatternLeq(b[0], b[i]) && PatternLeq(a[0], a[j]);
      PatternLeqAntisymmetric(a[0], b[0]);
    }
  }
}
