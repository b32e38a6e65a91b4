/**
 * Generic list operations: the prefix order, and what the two dependency
 * rewrites are built from: an entry-by-entry map, a map that keeps only accepted results, and the
 * in-place replacement of one entry.
 */
module Sequences {
  /** `a` is `x` or a leading part of it: a path and one of its ancestors, or a key path and one enclosing it. */
  predicate IsPrefix<T(==)>(a: seq<T>, x: seq<T>) {
    |a| <= |x| && x[..|a|] == a
  }

  /** Below a shared first entry, the prefix order is that of the remainders. */
  lemma PrefixTail<T>(a: seq<T>, x: seq<T>)
    requires |a| > 0 && |x| > 0 && a[0] == x[0]
    ensures IsPrefix(a, x) <==> IsPrefix(a[1..], x[1..])
  {
    if IsPrefix(a[1..], x[1..]) {
      assert x[..|a|] == [x[0]] + x[1..][..|a| - 1];
      assert a == [a[0]] + a[1..];
    }
  }

  /** `[f(x) for x in xs]`, built from the front of the list. */
  function Mapped<T, U>(xs: seq<T>, f: T -> U): (r: seq<U>)
    ensures |r| == |xs|
    decreases |xs|
  {
    if xs == [] then [] else Mapped(xs[..|xs| - 1], f) + [f(xs[|xs| - 1])]
  }

  /** Each entry of the map is `f` of the entry at the same place. */
  lemma {:induction false} MappedElements<T, U>(xs: seq<T>, f: T -> U)
    ensures forall i :: 0 <= i < |xs| ==> Mapped(xs, f)[i] == f(xs[i])
    decreases |xs|
  {
    if xs != [] {
      var front := xs[..|xs| - 1];
      MappedElements(front, f);
      forall i | 0 <= i < |xs| - 1
        ensures xs[i] == front[i]
      {
      }
    }
  }

  /** Mapping one more entry. */
  lemma MappedStep<T, U>(xs: seq<T>, i: nat, f: T -> U)
    requires i < |xs|
    ensures Mapped(xs[..i + 1], f) == Mapped(xs[..i], f) + [f(xs[i])]
  {
    assert xs[..i + 1][..i] == xs[..i];
  }

  /** `[f(x) for x in xs if keep(f(x))]`, built from the front of the list. */
  function FilterMap<T, U>(xs: seq<T>, f: T -> U, keep: U -> bool): seq<U>
    decreases |xs|
  {
    if xs == [] then []
    else
      var front := FilterMap(xs[..|xs| - 1], f, keep);
      if keep(f(xs[|xs| - 1])) then front + [f(xs[|xs| - 1])] else front
  }

  /** What `FilterMap` keeps: every accepted result, and only accepted results of entries. */
  lemma {:induction false} FilterMapMembers<T, U>(xs: seq<T>, f: T -> U, keep: U -> bool)
    ensures forall i :: 0 <= i < |xs| && keep(f(xs[i])) ==> f(xs[i]) in FilterMap(xs, f, keep)
    ensures forall n :: n in FilterMap(xs, f, keep) ==> keep(n) && exists i :: 0 <= i < |xs| && n == f(xs[i])
    decreases |xs|
  {
    if xs != [] {
      var front := xs[..|xs| - 1];
      FilterMapMembers(front, f, keep);
      forall i | 0 <= i < |xs| - 1
        ensures xs[i] == front[i]
      {
      }
    }
  }

  /** Filtering one more entry. */
  lemma FilterMapStep<T, U>(xs: seq<T>, i: nat, f: T -> U, keep: U -> bool)
    requires i < |xs|
    ensures FilterMap(xs[..i + 1], f, keep) == FilterMap(xs[..i], f, keep) + (if keep(f(xs[i])) then [f(xs[i])] else [])
  {
    assert xs[..i + 1][..i] == xs[..i];
  }

  /** A sequence that differs from `front + rest` only at the first element of `rest`. */
  lemma ReplaceAt<T>(front: seq<T>, rest: seq<T>, s: seq<T>)
    requires |rest| > 0 && |s| == |front| + |rest|
    requires forall i :: 0 <= i < |s| && i != |front| ==> s[i] == (front + rest)[i]
    ensures s == front + [s[|front|]] + rest[1..]
  {
  }
}
