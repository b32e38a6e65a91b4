/**
 * A parsed pyproject manifest: nested tables, arrays and scalars, as the
 * manifest library hands them to the sync code.  A whole document is a
 * top-level table, `Doc`.
 */
module Toml {
  import opened Wrappers
  import opened Sequences

  datatype Value =
    | Str(s: string)
    | Bool(b: bool)
    | Int(i: int)
    | Arr(items: seq<Value>)
    | Table(fields: map<string, Value>)

  type Doc = map<string, Value>

  /** Python truthiness: empty strings, arrays and tables, zero and false are falsy. */
  predicate Truthy(v: Value) {
    match v
    case Str(s) => s != []
    case Bool(b) => b
    case Int(i) => i != 0
    case Arr(xs) => xs != []
    case Table(m) => m != map[]
  }

  /** `t.get(key, {})` where the caller goes on to use the result as a table. */
  function TableAt(t: Doc, key: string): Doc {
    if key in t && t[key].Table? then t[key].fields else map[]
  }

  /** True when `key` is absent from `t` or holds a table: the shape `t.get(key, {}).get(...)` needs. */
  predicate TableOrAbsent(t: Doc, key: string) {
    key !in t || t[key].Table?
  }

  /** The value at a dotted key path, if every step exists and every step but the last is a table. */
  function Lookup(t: Doc, path: seq<string>): Option<Value>
    requires |path| > 0
    decreases |path|
  {
    if path[0] !in t then None
    else if |path| == 1 then Some(t[path[0]])
    else if t[path[0]].Table? then Lookup(t[path[0]].fields, path[1..])
    else None
  }

  /**
   * `table(path..., create=True)` followed by an assignment: walks `path`,
   * creating every missing intermediate table, and stores `v` at its end.
   */
  function SetAt(t: Doc, path: seq<string>, v: Value): (r: Doc)
    requires |path| > 0
    ensures Lookup(r, path) == Some(v)
    ensures r.Keys == t.Keys + {path[0]}
    ensures forall k :: k in t && k != path[0] ==> r[k] == t[k]
    decreases |path|
  {
    if |path| == 1 then t[path[0] := v]
    else t[path[0] := Table(SetAt(TableAt(t, path[0]), path[1..], v))]
  }

  /**
   * The table at `path` after `prune()`: an empty table at the end of the
   * path is removed, and so is every enclosing table that this leaves empty.
   * A table that still holds keys is never removed.
   */
  function Prune(t: Doc, path: seq<string>): (r: Doc)
    requires |path| > 0
    ensures r.Keys <= t.Keys
    ensures forall k :: k in t && k != path[0] ==> k in r && r[k] == t[k]
    ensures Lookup(t, path) == Some(Table(map[])) ==> Lookup(r, path) == None
    ensures (Lookup(t, path).Some? && Lookup(t, path).value.Table? && Lookup(t, path).value.fields != map[]) ==> r == t
    decreases |path|
  {
    var k := path[0];
    if k !in t || !t[k].Table? then t
    else
      var inner := if |path| == 1 then t[k].fields else Prune(t[k].fields, path[1..]);
      if inner == map[] then t - {k} else t[k := Table(inner)]
  }

  /**
   * `mergedeep.merge(dst, src)` with its default REPLACE strategy: a table
   * meeting a table is merged key by key; anything else in `src` replaces
   * what `dst` holds; keys only in `dst` stay.
   */
  function Merge(dst: Value, src: Value): (r: Value)
    ensures !(dst.Table? && src.Table?) ==> r == src
    ensures dst.Table? && src.Table? ==> r.Table? && r.fields.Keys == dst.fields.Keys + src.fields.Keys
    decreases src
  {
    if dst.Table? && src.Table? then
      Table(map k | k in dst.fields.Keys + src.fields.Keys ::
        if k !in src.fields then dst.fields[k]
        else if k in dst.fields then Merge(dst.fields[k], src.fields[k])
        else src.fields[k])
    else src
  }

  /** Merging a whole document into a document. */
  function MergeDoc(dst: Doc, src: Doc): (r: Doc)
    ensures r.Keys == dst.Keys + src.Keys
    ensures forall k :: k in dst && k !in src ==> r[k] == dst[k]
    ensures forall k :: k in src && !(k in dst && dst[k].Table? && src[k].Table?) ==> r[k] == src[k]
  {
    Merge(Table(dst), Table(src)).fields
  }

  /** A value never gets smaller than what it was merged with: every key path of `src` ends up in the result. */
  lemma {:induction false} MergeKeepsSource(dst: Value, src: Value, path: seq<string>)
    requires src.Table? && |path| > 0 && Lookup(src.fields, path).Some?
    requires !Lookup(src.fields, path).value.Table?
    ensures Merge(dst, src).Table?
    ensures Lookup(Merge(dst, src).fields, path) == Lookup(src.fields, path)
    decreases src
  {
    var r := Merge(dst, src);
    var k := path[0];
    if dst.Table? {
      if |path| > 1 && k in dst.fields {
        MergeKeepsSource(dst.fields[k], src.fields[k], path[1..]);
      }
    }
  }

  /** Merging the same source a second time changes nothing: the merge is idempotent. */
  lemma {:induction false} MergeIdempotent(dst: Value, src: Value)
    ensures Merge(Merge(dst, src), src) == Merge(dst, src)
    decreases src
  {
    var once := Merge(dst, src);
    if dst.Table? && src.Table? {
      var twice := Merge(once, src);
      forall k | k in once.fields
        ensures twice.fields[k] == once.fields[k]
      {
        if k in src.fields {
          if k in dst.fields {
            MergeIdempotent(dst.fields[k], src.fields[k]);
          } else {
            MergeSelf(src.fields[k]);
          }
        }
      }
      assert twice.fields == once.fields;
    } else {
      MergeSelf(src);
    }
  }

  /** Merging a value into itself gives that value back. */
  lemma {:induction false} MergeSelf(v: Value)
    ensures Merge(v, v) == v
    decreases v
  {
    if v.Table? {
      var r := Merge(v, v);
      forall k | k in v.fields
        ensures r.fields[k] == v.fields[k]
      {
        MergeSelf(v.fields[k]);
      }
      assert r.fields == v.fields;
    }
  }

  /** A TOML array of strings. */
  function Strings(xs: seq<string>): (v: Value)
    ensures v.Arr? && |v.items| == |xs|
    ensures forall i :: 0 <= i < |xs| ==> v.items[i] == Str(xs[i])
  {
    Arr(seq(|xs|, i requires 0 <= i < |xs| => Str(xs[i])))
  }

  /** True when `v` is an array holding only strings. */
  predicate IsStrings(v: Value) {
    v.Arr? && forall i :: 0 <= i < |v.items| ==> v.items[i].Str?
  }

  /** The strings of an array of strings; `Strings` undoes it. */
  function Texts(v: Value): (xs: seq<string>)
    requires IsStrings(v)
    ensures Strings(xs) == v
  {
    var xs := seq(|v.items|, i requires 0 <= i < |v.items| => v.items[i].s);
    assert Strings(xs).items == v.items;
    xs
  }

  /** The entry `k` of a table value, if `v` is a table holding `k`. */
  function EntryOf(v: Option<Value>, k: string): Option<Value> {
    if v.Some? && v.value.Table? && k in v.value.fields then Some(v.value.fields[k]) else None
  }

  /** Looking one key further down a path is looking up the key in the table the path leads to. */
  lemma {:induction false} LookupBelow(t: Doc, path: seq<string>, k: string)
    requires |path| > 0
    ensures Lookup(t, path + [k]) == EntryOf(Lookup(t, path), k)
    decreases |path|
  {
    var ext := path + [k];
    assert ext[0] == path[0];
    if path[0] in t && t[path[0]].Table? {
      if |path| == 1 {
        assert ext[1..] == [k];
      } else {
        assert ext[1..] == path[1..] + [k];
        LookupBelow(t[path[0]].fields, path[1..], k);
      }
    }
  }

  /** Every step of `path` that `t` holds, except possibly the last, holds a table. */
  predicate TablesAlong(t: Doc, path: seq<string>)
    requires |path| > 0
    decreases |path|
  {
    path[0] in t && |path| > 1 ==> t[path[0]].Table? && TablesAlong(t[path[0]].fields, path[1..])
  }

  /**
   * A merge leaves alone every key path that the source does not reach:
   * looking it up after the merge finds what the destination held.
   */
  lemma {:induction false} MergeLookupOutside(dst: Doc, src: Doc, path: seq<string>)
    requires |path| > 0 && Lookup(src, path).None? && TablesAlong(src, path)
    ensures Lookup(MergeDoc(dst, src), path) == Lookup(dst, path)
    decreases |path|
  {
    var k := path[0];
    var r := MergeDoc(dst, src);
    if k in src {
      assert |path| > 1;
      if k in dst && dst[k].Table? {
        assert r[k] == Merge(dst[k], src[k]);
        MergeLookupOutside(dst[k].fields, src[k].fields, path[1..]);
      }
    }
  }

  /** Two key paths that are apart: neither is `path` or encloses the other. */
  predicate Apart(q: seq<string>, path: seq<string>) {
    !IsPrefix(q, path) && !IsPrefix(path, q)
  }

  /** Two paths apart that start with the same key both go on past it, and stay apart without it. */
  lemma ApartTail(q: seq<string>, path: seq<string>)
    requires |q| > 0 && |path| > 0 && q[0] == path[0] && Apart(q, path)
    ensures |q| > 1 && |path| > 1 && Apart(q[1..], path[1..])
  {
    assert q[..1] == [q[0]] && path[..1] == [path[0]];
    if |q| > 1 && |path| > 1 {
      PrefixTail(q, path);
      PrefixTail(path, q);
    }
  }

  /** `SetAt` changes nothing at a key path apart from `path`, however deep. */
  lemma {:induction false} SetAtElsewhere(t: Doc, path: seq<string>, v: Value, q: seq<string>)
    requires |path| > 0 && |q| > 0 && Apart(q, path)
    ensures Lookup(SetAt(t, path, v), q) == Lookup(t, q)
    decreases |path|
  {
    if q[0] == path[0] {
      ApartTail(q, path);
      SetAtElsewhere(TableAt(t, path[0]), path[1..], v, q[1..]);
    }
  }

  /** `Prune` changes nothing at a key path apart from `path`, however deep. */
  lemma {:induction false} PruneElsewhere(t: Doc, path: seq<string>, q: seq<string>)
    requires |path| > 0 && |q| > 0 && Apart(q, path)
    ensures Lookup(Prune(t, path), q) == Lookup(t, q)
    decreases |path|
  {
    var k := path[0];
    if q[0] == k && k in t && t[k].Table? {
      ApartTail(q, path);
      PruneElsewhere(t[k].fields, path[1..], q[1..]);
    }
  }
}
