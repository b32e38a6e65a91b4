/**
 * Dependency strings in a manifest's `project.dependencies` list: either a
 * plain requirement (`requests>=2`, `pkg-a`) or an internal file reference
 * `name @ file://...`.  Both sync implementations recognise the second form
 * with the pattern `^\s*([\w\-\.\[\]]+)\s*@\s*file://` and write it back with
 * a `${PROJECT_ROOT}` placeholder that the build tool substitutes later.
 */
module DependencyNames {
  import opened Wrappers
  import opened Chars

  const FileScheme: string := "file://"
  const ProjectRootPrefix: string := " @ file://${PROJECT_ROOT}/"

  /** The class `[\w\-\.\[\]]`, with `\w` restricted to ASCII letters, digits and `_`. */
  predicate IsNameChar(c: char) {
    ('a' <= c <= 'z') || ('A' <= c <= 'Z') || ('0' <= c <= '9')
    || c == '_' || c == '-' || c == '.' || c == '[' || c == ']'
  }

  /** A string the capture group `([\w\-\.\[\]]+)` can match as a whole. */
  predicate IsName(s: string) {
    |s| > 0 && forall i :: 0 <= i < |s| ==> IsNameChar(s[i])
  }

  /** A string of the form `<spaces><name><spaces>@<spaces>file://<rest>`, cut into its parts. */
  datatype FileReference = FileReference(lead: string, name: string, beforeAt: string, afterAt: string, rest: string) {
    predicate Valid() {
      Blank(lead) && IsName(name) && Blank(beforeAt) && Blank(afterAt)
    }

    function Text(): string {
      lead + (name + (beforeAt + ("@" + (afterAt + (FileScheme + rest)))))
    }
  }

  /** `s` cut after its leading whitespace: what `\s*` consumes, and what follows. */
  function SplitSpaces(s: string): (p: (string, string))
    ensures s == p.0 + p.1 && Blank(p.0)
    ensures p.1 == [] || !IsWhitespace(p.1[0])
  {
    if s != [] && IsWhitespace(s[0]) then
      var q := SplitSpaces(s[1..]);
      assert s == [s[0]] + s[1..];
      ([s[0]] + q.0, q.1)
    else ([], s)
  }

  /** `s` cut after its longest prefix of name characters: what `[\w\-\.\[\]]+` consumes. */
  function SplitName(s: string): (p: (string, string))
    ensures s == p.0 + p.1
    ensures forall i :: 0 <= i < |p.0| ==> IsNameChar(p.0[i])
    ensures p.1 == [] || !IsNameChar(p.1[0])
  {
    if s != [] && IsNameChar(s[0]) then
      var q := SplitName(s[1..]);
      assert s == [s[0]] + s[1..];
      ([s[0]] + q.0, q.1)
    else ([], s)
  }

  /** The tail `\s*file://` of the pattern: the spaces it skips and what follows the scheme. */
  function MatchScheme(t: string): (r: Option<(string, string)>)
    ensures r.Some? ==> Blank(r.value.0) && t == r.value.0 + (FileScheme + r.value.1)
  {
    var (w, u) := SplitSpaces(t);
    if |u| >= |FileScheme| && u[..|FileScheme|] == FileScheme then
      assert u == FileScheme + u[|FileScheme|..];
      Some((w, u[|FileScheme|..]))
    else None
  }

  /** The tail `\s*@\s*file://` of the pattern. */
  function MatchAt(t: string): (r: Option<(string, string, string)>)
    ensures r.Some? ==> Blank(r.value.0) && Blank(r.value.1)
    ensures r.Some? ==> t == r.value.0 + ("@" + (r.value.1 + (FileScheme + r.value.2)))
  {
    var (w, u) := SplitSpaces(t);
    if u == [] || u[0] != '@' then None
    else
      match MatchScheme(u[1..])
      case None => None
      case Some((w3, rest)) =>
        assert u == "@" + u[1..];
        Some((w, w3, rest))
  }

  /**
   * `re.match(pattern, s)`, cut into the parts the pattern matched.  Neither
   * `\s` nor `@` is a name character, so the greedy match never backtracks
   * and this left-to-right scan finds the same capture.
   */
  function MatchFileReference(s: string): (r: Option<FileReference>)
    ensures r.Some? ==> r.value.Valid() && r.value.Text() == s
  {
    var (lead, t1) := SplitSpaces(s);
    var (name, t2) := SplitName(t1);
    if name == [] then None
    else
      match MatchAt(t2)
      case None => None
      case Some((w2, w3, rest)) => Some(FileReference(lead, name, w2, w3, rest))
  }

  /**
   * `_parse_dependency_name` (and `parse_dep_name` in the older command
   * set): the name captured from a file reference, otherwise the string
   * itself.
   */
  function ParseDependencyName(dep: string): (r: string)
    ensures r == dep || (IsName(r) && exists ref: FileReference :: ref.Valid() && ref.Text() == dep && ref.name == r)
  {
    match MatchFileReference(dep)
    case Some(ref) => ref.name
    case None => dep
  }

  lemma {:induction false} SplitBlank(w: string, t: string)
    requires Blank(w) && (t == [] || !IsWhitespace(t[0]))
    ensures SplitSpaces(w + t) == (w, t)
    decreases |w|
  {
    if w != [] {
      assert (w + t)[0] == w[0];
      assert (w + t)[1..] == w[1..] + t;
      SplitBlank(w[1..], t);
      assert w == [w[0]] + w[1..];
    } else {
      assert w + t == t;
    }
  }

  lemma {:induction false} SplitWholeName(name: string, t: string)
    requires forall i :: 0 <= i < |name| ==> IsNameChar(name[i])
    requires t == [] || !IsNameChar(t[0])
    ensures SplitName(name + t) == (name, t)
    decreases |name|
  {
    if name != [] {
      assert (name + t)[0] == name[0];
      assert (name + t)[1..] == name[1..] + t;
      SplitWholeName(name[1..], t);
      assert name == [name[0]] + name[1..];
    } else {
      assert name + t == t;
    }
  }

  /**
   * Every string of the file-reference form parses to the name in it: the
   * pattern accepts the whole form and its capture is exactly the name.
   */
  lemma ParseFileReference(ref: FileReference)
    requires ref.Valid()
    ensures ParseDependencyName(ref.Text()) == ref.name
  {
    var t2 := "@" + (ref.afterAt + (FileScheme + ref.rest));
    MatchAtReference(ref);
    assert (ref.beforeAt + t2)[0] == if ref.beforeAt == [] then '@' else ref.beforeAt[0];
    SplitWholeName(ref.name, ref.beforeAt + t2);
    SplitBlank(ref.lead, ref.name + (ref.beforeAt + t2));
  }

  /** The part after the name matches `\s*@\s*file://`, cut at the reference's own boundaries. */
  lemma MatchAtReference(ref: FileReference)
    requires ref.Valid()
    ensures MatchAt(ref.beforeAt + ("@" + (ref.afterAt + (FileScheme + ref.rest)))) == Some((ref.beforeAt, ref.afterAt, ref.rest))
  {
    var t3 := FileScheme + ref.rest;
    assert t3[..|FileScheme|] == FileScheme && t3[|FileScheme|..] == ref.rest;
    SplitBlank(ref.afterAt, t3);
    assert MatchScheme(ref.afterAt + t3) == Some((ref.afterAt, ref.rest));
    var u := "@" + (ref.afterAt + t3);
    assert u[0] == '@' && u[1..] == ref.afterAt + t3;
    SplitBlank(ref.beforeAt, u);
  }

  /** `_member_dependency`: `name @ file://${PROJECT_ROOT}/<relative path>`. */
  function MemberDependency(name: string, relPath: string): (r: string)
    ensures IsName(name) ==> ParseDependencyName(r) == name
  {
    var ref := FileReference("", name, " ", " ", "${PROJECT_ROOT}/" + relPath);
    var text := name + ProjectRootPrefix + relPath;
    if IsName(name) then MemberText(name, relPath); ParseFileReference(ref); text else text
  }

  /** The reference `_member_dependency` writes is a file reference, with single spaces around `@`. */
  lemma MemberText(name: string, relPath: string)
    ensures name + ProjectRootPrefix + relPath == FileReference("", name, " ", " ", "${PROJECT_ROOT}/" + relPath).Text()
  {
    var rest := "${PROJECT_ROOT}/" + relPath;
    var tail := " " + ("@" + (" " + (FileScheme + rest)));
    assert ProjectRootPrefix == " " + ("@" + (" " + (FileScheme + "${PROJECT_ROOT}/")));
    assert ProjectRootPrefix + relPath == tail;
  }
}
