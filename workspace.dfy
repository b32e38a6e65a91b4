/**
 * The workspace sync engine: a root manifest with its member manifests,
 * and the operations that bring the members in line with the root.  Every
 * operation edits the parsed documents in place; writing them back to disk
 * happens afterwards and is not part of this model.
 */
module Workspace {
  import opened Wrappers
  import opened Chars
  import opened Toml
  import opened Paths
  import opened DependencyNames
  import opened MemberPaths
  import opened Sequences

  const ManifestFileName: string := "pyproject.toml"

  /** `PyProject`: a manifest file and its parsed document. */
  class Manifest {
    const path: Path
    var data: Doc

    constructor (path: Path, data: Doc)
      ensures this.path == path && this.data == data
    {
      this.path := path;
      this.data := data;
    }

    /** `path.parent`: the project's directory. */
    function Dir(): Path {
      Parent(path)
    }
  }

  /**
   * `PyProjectTree`: the root manifest under the workspace's name, the
   * members by project name, and whether the members were narrowed to a
   * selection.  A narrowed tree shares its manifests with the full one.
   */
  class Tree {
    const name: string
    const root: Manifest
    const members: map<string, Manifest>
    const filtered: bool

    constructor (name: string, root: Manifest, members: map<string, Manifest>, filtered: bool)
      ensures this.name == name && this.root == root && this.members == members && this.filtered == filtered
    {
      this.name := name;
      this.root := root;
      this.members := members;
      this.filtered := filtered;
    }

    /** `projects()`: the root and every member. */
    function Projects(): set<Manifest> {
      {root} + members.Values
    }

    /** The root is not also a member, and no manifest is a member under two names. */
    predicate Valid() {
      root !in members.Values
      && forall a, b :: a in members && b in members && a != b ==> members[a] != members[b]
    }

    /** The project a dependency name refers to: the root under the workspace's name, else the member of that name. */
    function Resolve(dep: string): (r: Option<Manifest>)
      ensures r.Some? <==> dep == name || dep in members
      ensures r.Some? ==> r.value in Projects()
    {
      if dep == name then Some(root)
      else if dep in members then Some(members[dep])
      else None
    }

    /** The directories of the members, as `_sync_member_paths` receives them. */
    function MemberDirs(): set<Path> {
      set m | m in members.Values :: m.Dir()
    }
  }

  // ---------------------------------------------------------------------
  // Version

  /** `_version`'s scan of `git status --porcelain`: modified at the first line whose `strip()` is not empty. */
  method WorkTreeModified(statusLines: seq<string>) returns (modified: bool)
    ensures modified <==> exists i :: 0 <= i < |statusLines| && !Blank(statusLines[i])
  {
    modified := false;
    var i := 0;
    while i < |statusLines|
      invariant 0 <= i <= |statusLines|
      invariant forall j :: 0 <= j < i ==> Blank(statusLines[j])
    {
      if !Blank(statusLines[i]) {
        modified := true;
        break;
      }
      i := i + 1;
    }
  }

  /** The revision `_version` asks `git rev-parse` for: `HEAD` when the work tree is modified, `HEAD~1` when it is clean. */
  function RevisionArgument(modified: bool): (rev: string)
    ensures modified <==> rev == "HEAD"
    ensures !modified <==> rev == "HEAD~1"
  {
    if modified then "HEAD" else "HEAD~1"
  }

  const VersionPrefix: string := "0.0.1+g"

  /** `f"0.0.1+g{rev}"`: the short revision, recoverable from the version after the fixed prefix. */
  function VersionFromRevision(rev: string): (v: string)
    ensures |v| == |VersionPrefix| + |rev|
    ensures v[..|VersionPrefix|] == VersionPrefix && v[|VersionPrefix|..] == rev
  {
    VersionPrefix + rev
  }

  /** True when the document has a `project` table with `version` equal to `version`. */
  predicate HasVersion(doc: Doc, version: string) {
    Lookup(doc, ["project", "version"]) == Some(Str(version))
  }

  /** A document after `sync_version` has visited it with `version` as the target. */
  function StampVersion(doc: Doc, version: string): (r: Doc)
    requires TableOrAbsent(doc, "project")
    ensures "project" !in doc ==> r == doc
    ensures "project" in doc ==> HasVersion(r, version)
    ensures HasVersion(doc, version) ==> r == doc
    ensures r.Keys == doc.Keys
    ensures "project" in doc ==> r["project"].Table? && r["project"].fields.Keys == doc["project"].fields.Keys + {"version"}
  {
    if "project" !in doc then doc
    else if HasVersion(doc, version) then doc
    else SetAt(doc, ["project", "version"], Str(version))
  }

  /** Stamping touches only `project.version`: every other table, and every other key of `project`, is kept. */
  lemma StampVersionKeepsRest(doc: Doc, version: string)
    requires TableOrAbsent(doc, "project")
    ensures forall k :: k in doc && k != "project" ==> StampVersion(doc, version)[k] == doc[k]
    ensures "project" in doc ==> forall k :: k in doc["project"].fields && k != "version" ==>
      StampVersion(doc, version)["project"].fields[k] == doc["project"].fields[k]
  {
  }

  /** Stamping twice with the same version is stamping once. */
  lemma StampVersionIdempotent(doc: Doc, version: string)
    requires TableOrAbsent(doc, "project")
    ensures TableOrAbsent(StampVersion(doc, version), "project")
    ensures StampVersion(StampVersion(doc, version), version) == StampVersion(doc, version)
  {
  }

  /**
   * `sync_version`: every project with a `project` table gets the same
   * version, `version` when given, else `derived`, the result of
   * `_version()`.  The second result counts the calls of `_version()`: one
   * when no version is given and some project has a `project` table, none
   * otherwise.
   */
  method SyncVersion(projs: seq<Manifest>, version: Option<string>, derived: string) returns (queries: nat)
    requires forall p :: p in projs ==> TableOrAbsent(p.data, "project")
    modifies set p | p in projs
    ensures forall p :: p in projs ==> p.data == StampVersion(old(p.data), version.GetOr(derived))
    ensures queries == if version.None? && exists j :: 0 <= j < |projs| && "project" in old(projs[j].data) then 1 else 0
  {
    ghost var docs := DataOf(projs);
    ghost var v := version.GetOr(derived);
    ghost var done: set<Manifest> := {};
    var target := version;
    queries := 0;
    var i := 0;
    while i < |projs|
      invariant 0 <= i <= |projs|
      invariant forall j :: 0 <= j < i ==> projs[j] in done
      invariant forall p :: p in projs ==> p.data == if p in done then StampVersion(old(p.data), v) else old(p.data)
      invariant target == if version.None? && queries == 0 then None else Some(v)
      invariant queries == if version.None? && AnyProject(docs[..i]) then 1 else 0
    {
      var p := projs[i];
      AnyProjectSnoc(docs[..i], docs[i]);
      assert docs[..i + 1] == docs[..i] + [docs[i]];
      StampVersionIdempotent(docs[i], v);
      assert "project" in p.data <==> "project" in docs[i];
      if "project" in p.data {
        if target.None? {
          target := Some(derived);
          queries := queries + 1;
        }
        StampProject(p, target.value);
      }
      assert p.data == StampVersion(docs[i], v);
      forall q | q in projs
        ensures q.data == if q in done + {p} then StampVersion(old(q.data), v) else old(q.data)
      {
        if q == p {
          assert old(q.data) == docs[i];
        }
      }
      done := done + {p};
      i := i + 1;
    }
    assert docs[..i] == docs;
  }

  /** The documents of `projs`, in order. */
  ghost function DataOf(projs: seq<Manifest>): (r: seq<Doc>)
    reads set p | p in projs
    ensures |r| == |projs| && forall j :: 0 <= j < |projs| ==> r[j] == projs[j].data
  {
    if projs == [] then [] else DataOf(projs[..|projs| - 1]) + [projs[|projs| - 1].data]
  }

  /** Some document of `docs` has a `project` table. */
  predicate AnyProject(docs: seq<Doc>) {
    exists j :: 0 <= j < |docs| && "project" in docs[j]
  }

  lemma AnyProjectSnoc(docs: seq<Doc>, d: Doc)
    ensures AnyProject(docs + [d]) <==> AnyProject(docs) || "project" in d
  {
    if AnyProject(docs) {
      var j :| 0 <= j < |docs| && "project" in docs[j];
      assert (docs + [d])[j] == docs[j];
    }
    if "project" in d {
      assert (docs + [d])[|docs|] == d;
    }
  }

  /** The body of the loop in `sync_version` for a project with a `project` table. */
  method StampProject(p: Manifest, version: string)
    requires TableOrAbsent(p.data, "project")
    modifies p
    ensures p.data == StampVersion(old(p.data), version)
  {
    if "project" in p.data && !HasVersion(p.data, version) {
      p.data := SetAt(p.data, ["project", "version"], Str(version));
    }
  }

  // ---------------------------------------------------------------------
  // Build system and member tool settings

  /** The root declares a non-empty `build-system`. */
  predicate HasBuildSystem(doc: Doc) {
    "build-system" in doc && Truthy(doc["build-system"])
  }

  /** A member document after `sync_build_system`, given the root's document. */
  function PropagateBuildSystem(rootDoc: Doc, memberDoc: Doc): (r: Doc)
    ensures !HasBuildSystem(rootDoc) ==> r == memberDoc
    ensures HasBuildSystem(rootDoc) ==> "build-system" in r && r["build-system"] == rootDoc["build-system"]
    ensures HasBuildSystem(rootDoc) ==> r.Keys == memberDoc.Keys + {"build-system"}
    ensures forall k :: k in memberDoc && k != "build-system" ==> k in r && r[k] == memberDoc[k]
  {
    if HasBuildSystem(rootDoc) then memberDoc["build-system" := rootDoc["build-system"]] else memberDoc
  }

  /**
   * `sync_build_system`: a non-empty root `build-system` replaces every
   * member's; the root document stays as it was.
   */
  method SyncBuildSystem(tree: Tree)
    modifies tree.members.Values
    ensures tree.root.data == old(tree.root.data)
    ensures forall m :: m in tree.members.Values ==> m.data == PropagateBuildSystem(old(tree.root.data), old(m.data))
  {
    var key := "build-system";
    var data := if key in tree.root.data then tree.root.data[key] else Table(map[]);
    if Truthy(data) {
      var todo := tree.members.Values;
      while todo != {}
        invariant todo <= tree.members.Values
        invariant tree.root.data == old(tree.root.data)
        invariant forall m :: m in tree.members.Values ==>
          m.data == if m in todo then old(m.data) else PropagateBuildSystem(old(tree.root.data), old(m.data))
        decreases todo
      {
        var m :| m in todo;
        if m == tree.root {
          assert m.data[key := data] == m.data;
        }
        m.data := m.data[key := data];
        todo := todo - {m};
      }
    }
  }

  /** The shape `root.data.get("tool", {}).get("member-project", {})` needs. */
  predicate HasToolShape(doc: Doc) {
    TableOrAbsent(doc, "tool") && TableOrAbsent(TableAt(doc, "tool"), "member-project")
  }

  /** The root's `tool.member-project` table, or nothing. */
  function MemberProjectSettings(rootDoc: Doc): Doc
    requires HasToolShape(rootDoc)
  {
    TableAt(TableAt(rootDoc, "tool"), "member-project")
  }

  /** A member document after `sync_member_project_tool`: the settings merged in, when there are any. */
  function ApplyMemberProjectTool(settings: Doc, doc: Doc): (r: Doc)
    ensures settings == map[] ==> r == doc
    ensures r.Keys == doc.Keys + settings.Keys
    ensures forall k :: k in doc && k !in settings ==> r[k] == doc[k]
  {
    if settings == map[] then doc else MergeDoc(doc, settings)
  }

  /** Every setting that is not itself a table ends up in the member with the root's value. */
  lemma ApplyMemberProjectToolKeepsSettings(settings: Doc, doc: Doc, path: seq<string>)
    requires |path| > 0 && Lookup(settings, path).Some? && !Lookup(settings, path).value.Table?
    ensures Lookup(ApplyMemberProjectTool(settings, doc), path) == Lookup(settings, path)
  {
    MergeKeepsSource(Table(doc), Table(settings), path);
  }

  /** Applying the settings a second time changes nothing. */
  lemma ApplyMemberProjectToolIdempotent(settings: Doc, doc: Doc)
    ensures ApplyMemberProjectTool(settings, ApplyMemberProjectTool(settings, doc)) == ApplyMemberProjectTool(settings, doc)
  {
    if settings != map[] {
      MergeIdempotent(Table(doc), Table(settings));
    }
  }

  /** `sync_member_project_tool`: the root's `tool.member-project` table merged into every member. */
  method SyncMemberProjectTool(tree: Tree)
    requires tree.Valid() && HasToolShape(tree.root.data)
    modifies tree.members.Values
    ensures tree.root.data == old(tree.root.data)
    ensures forall m :: m in tree.members.Values ==>
      m.data == ApplyMemberProjectTool(MemberProjectSettings(old(tree.root.data)), old(m.data))
  {
    var settings := MemberProjectSettings(tree.root.data);
    if settings != map[] {
      var todo := tree.members.Values;
      while todo != {}
        invariant todo <= tree.members.Values
        invariant tree.root.data == old(tree.root.data)
        invariant forall m :: m in tree.members.Values ==>
          m.data == if m in todo then old(m.data) else ApplyMemberProjectTool(settings, old(m.data))
        decreases todo
      {
        var m :| m in todo;
        m.data := MergeDoc(m.data, settings);
        todo := todo - {m};
      }
    }
  }

  // ---------------------------------------------------------------------
  // Internal dependencies

  /** `project` is a table or absent, and `project.dependencies` a list of strings or absent. */
  predicate HasDependenciesShape(doc: Doc) {
    TableOrAbsent(doc, "project")
    && ("dependencies" in TableAt(doc, "project") ==> IsStrings(TableAt(doc, "project")["dependencies"]))
  }

  /** `tool`, `tool.uv` and `tool.uv.sources` are tables or absent, and every source entry is a table. */
  predicate HasSourcesShape(doc: Doc) {
    TableOrAbsent(doc, "tool")
    && TableOrAbsent(TableAt(doc, "tool"), "uv")
    && TableOrAbsent(TableAt(TableAt(doc, "tool"), "uv"), "sources")
    && forall k :: k in SourceEntries(doc) ==> SourceEntries(doc)[k].Table?
  }

  /** The entries of `tool.uv.sources`, or none. */
  function SourceEntries(doc: Doc): map<string, Value> {
    TableAt(TableAt(TableAt(doc, "tool"), "uv"), "sources")
  }

  /** `project.dependencies`, or no dependencies. */
  function DependencyList(doc: Doc): seq<string>
    requires HasDependenciesShape(doc)
  {
    var project := TableAt(doc, "project");
    if "dependencies" in project then Texts(project["dependencies"]) else []
  }

  /** `dependencies[idx]` after the rewrite in `_sync_member_project_dependencies`. */
  function RewrittenDependency(tree: Tree, dir: Path, dep: string): (r: string)
    ensures tree.Resolve(ParseDependencyName(dep)).None? ==> r == dep
    ensures tree.Resolve(ParseDependencyName(dep)).Some? ==>
      r == MemberDependency(ParseDependencyName(dep), Render(RelPath(tree.Resolve(ParseDependencyName(dep)).value.Dir(), dir)))
  {
    var name := ParseDependencyName(dep);
    match tree.Resolve(name)
    case None => dep
    case Some(target) => MemberDependency(name, Render(RelPath(target.Dir(), dir)))
  }

  /** The dependency list after the rewrite: same length and order, each entry rewritten on its own. */
  function RewrittenDependencies(tree: Tree, dir: Path, deps: seq<string>): (r: seq<string>)
    ensures |r| == |deps|
  {
    Mapped(deps, (dep: string) => RewrittenDependency(tree, dir, dep))
  }

  /** The rewrite works entry by entry: each entry of the result is the rewrite of the entry at the same place. */
  lemma RewrittenDependenciesElements(tree: Tree, dir: Path, deps: seq<string>)
    ensures forall i :: 0 <= i < |deps| ==> RewrittenDependencies(tree, dir, deps)[i] == RewrittenDependency(tree, dir, deps[i])
  {
    MappedElements(deps, (dep: string) => RewrittenDependency(tree, dir, dep));
  }

  /** `member_dependencies`: the parsed names that refer to the root or a member, in list order. */
  function InternalNames(tree: Tree, deps: seq<string>): seq<string> {
    FilterMap(deps, ParseDependencyName, (n: string) => tree.Resolve(n).Some?)
  }

  /**
   * The internal names are exactly the parsed names of the dependencies
   * that resolve to the root or a member.
   */
  lemma InternalNamesMembers(tree: Tree, deps: seq<string>)
    ensures forall i :: 0 <= i < |deps| && tree.Resolve(ParseDependencyName(deps[i])).Some? ==>
      ParseDependencyName(deps[i]) in InternalNames(tree, deps)
    ensures forall n :: n in InternalNames(tree, deps) ==>
      tree.Resolve(n).Some? && exists i :: 0 <= i < |deps| && n == ParseDependencyName(deps[i])
  {
    FilterMapMembers(deps, ParseDependencyName, (n: string) => tree.Resolve(n).Some?);
  }

  /** A `tool.uv.sources` entry that the sync manages: a table with `workspace = true`. */
  predicate IsWorkspaceSource(v: Value) {
    v.Table? && "workspace" in v.fields && v.fields["workspace"] == Bool(true)
  }

  const WorkspaceSource: Value := Table(map["workspace" := Bool(true)])

  /**
   * `tool.uv.sources` after reconciliation: managed entries of names that
   * are not internal dependencies are dropped, every internal dependency
   * gets exactly `{workspace = true}`, and every other entry stays.
   */
  function ReconciledSources(sources: map<string, Value>, internal: seq<string>): (r: map<string, Value>)
    ensures forall k :: k in r <==> k in internal || (k in sources && !IsWorkspaceSource(sources[k]))
    ensures forall k :: k in internal ==> r[k] == WorkspaceSource
    ensures forall k :: k in sources && k !in internal && !IsWorkspaceSource(sources[k]) ==> r[k] == sources[k]
  {
    KeptSources(sources, internal) + map k | k in internal :: WorkspaceSource
  }

  /** The entries the removal loop leaves: all but the managed ones of names that are not internal. */
  function KeptSources(sources: map<string, Value>, internal: seq<string>): map<string, Value> {
    map k | k in sources && !(IsWorkspaceSource(sources[k]) && k !in internal) :: sources[k]
  }

  /** Reconciling a second time changes nothing. */
  lemma ReconciledSourcesIdempotent(sources: map<string, Value>, internal: seq<string>)
    ensures ReconciledSources(ReconciledSources(sources, internal), internal) == ReconciledSources(sources, internal)
  {
    var once := ReconciledSources(sources, internal);
    var twice := ReconciledSources(once, internal);
    forall k | k in once ensures k in twice && twice[k] == once[k] {
      if k !in internal {
        assert !IsWorkspaceSource(once[k]);
      }
    }
  }

  /**
   * A project's document after `_sync_member_project_dependencies`: the
   * rewritten dependency list, then reconciled sources when the project has
   * a sources table or an internal dependency, with an emptied sources
   * table pruned away.
   */
  function SyncedDependencies(tree: Tree, dir: Path, doc: Doc): (r: Doc)
    requires HasDependenciesShape(doc) && HasSourcesShape(doc)
    ensures !HasSources(doc) && InternalNames(tree, DependencyList(doc)) == [] ==> r == doc
    ensures forall k :: k in doc && k != "project" && k != "tool" ==> k in r && r[k] == doc[k]
  {
    var deps := DependencyList(doc);
    var internal := InternalNames(tree, deps);
    var withDeps := if internal == [] then doc else SetAt(doc, ["project", "dependencies"], Strings(RewrittenDependencies(tree, dir, deps)));
    if !HasSources(doc) && internal == [] then withDeps
    else WithSources(withDeps, ReconciledSources(SourceEntries(doc), internal))
  }

  /** The path of the sources table. */
  const SourcesPath: seq<string> := ["tool", "uv", "sources"]

  /**
   * `sources` stored as the sources table, then `prune()`: an empty table
   * disappears, together with any enclosing table this leaves empty.
   */
  function WithSources(doc: Doc, sources: map<string, Value>): (r: Doc)
    ensures Lookup(r, SourcesPath) == if sources == map[] then None else Some(Table(sources))
    ensures forall k :: k in doc && k != "tool" ==> k in r && r[k] == doc[k]
  {
    Prune(SetAt(doc, SourcesPath, Table(sources)), SourcesPath)
  }

  /** Storing the sources table changes nothing at a key path apart from it, however deep. */
  lemma WithSourcesElsewhere(doc: Doc, sources: map<string, Value>, q: seq<string>)
    requires |q| > 0 && Apart(q, SourcesPath)
    ensures Lookup(WithSources(doc, sources), q) == Lookup(doc, q)
  {
    SetAtElsewhere(doc, SourcesPath, Table(sources), q);
    PruneElsewhere(SetAt(doc, SourcesPath, Table(sources)), SourcesPath, q);
  }

  /**
   * The sync changes nothing at a key path apart from the dependency list
   * and the sources table: `project.name`, `tool.uv.workspace` and the
   * like keep their values.
   */
  lemma SyncedDependenciesElsewhere(tree: Tree, dir: Path, doc: Doc, q: seq<string>)
    requires HasDependenciesShape(doc) && HasSourcesShape(doc)
    requires |q| > 0 && Apart(q, ["project", "dependencies"]) && Apart(q, SourcesPath)
    ensures Lookup(SyncedDependencies(tree, dir, doc), q) == Lookup(doc, q)
  {
    var deps := DependencyList(doc);
    var internal := InternalNames(tree, deps);
    var withDeps := if internal == [] then doc else SetAt(doc, ["project", "dependencies"], Strings(RewrittenDependencies(tree, dir, deps)));
    if internal != [] {
      SetAtElsewhere(doc, ["project", "dependencies"], Strings(RewrittenDependencies(tree, dir, deps)), q);
    }
    if HasSources(doc) || internal != [] {
      WithSourcesElsewhere(withDeps, ReconciledSources(SourceEntries(doc), internal), q);
    }
  }

  /** Under the sources shape, the sources table is found exactly when it exists, and it holds `SourceEntries`. */
  lemma SourcesLookup(doc: Doc)
    requires HasSourcesShape(doc)
    ensures HasSources(doc) ==> Lookup(doc, SourcesPath) == Some(Table(SourceEntries(doc)))
    ensures !HasSources(doc) ==> SourceEntries(doc) == map[]
  {
  }

  /**
   * The sources table after the sync: absent when there was none and no
   * dependency is internal, else the reconciled entries, pruned away when
   * nothing is left in them.
   */
  lemma SyncedSourcesTable(tree: Tree, dir: Path, doc: Doc)
    requires HasDependenciesShape(doc) && HasSourcesShape(doc)
    ensures var internal := InternalNames(tree, DependencyList(doc));
      var sources := ReconciledSources(SourceEntries(doc), internal);
      Lookup(SyncedDependencies(tree, dir, doc), SourcesPath) ==
        if (!HasSources(doc) && internal == []) || sources == map[] then None else Some(Table(sources))
  {
  }

  /**
   * The entry of every key in `tool.uv.sources` after the sync: an internal
   * dependency maps to `{workspace = true}`, a managed entry of any other
   * name is gone, and every other entry is what it was.
   */
  lemma SyncedSourceEntry(tree: Tree, dir: Path, doc: Doc, k: string)
    requires HasDependenciesShape(doc) && HasSourcesShape(doc)
    ensures var internal := InternalNames(tree, DependencyList(doc));
      var before := Lookup(doc, SourcesPath + [k]);
      var after := Lookup(SyncedDependencies(tree, dir, doc), SourcesPath + [k]);
      && (k in internal ==> after == Some(WorkspaceSource))
      && (k !in internal && before.Some? && IsWorkspaceSource(before.value) ==> after == None)
      && (k !in internal && !(before.Some? && IsWorkspaceSource(before.value)) ==> after == before)
  {
    SourcesLookup(doc);
    SyncedSourcesTable(tree, dir, doc);
    LookupBelow(doc, SourcesPath, k);
    LookupBelow(SyncedDependencies(tree, dir, doc), SourcesPath, k);
  }

  /** After the sync the dependency list is the rewritten one whenever some dependency is internal, and untouched otherwise. */
  lemma SyncedDependencyList(tree: Tree, dir: Path, doc: Doc)
    requires HasDependenciesShape(doc) && HasSourcesShape(doc)
    ensures var deps := DependencyList(doc);
      Lookup(SyncedDependencies(tree, dir, doc), ["project", "dependencies"]) ==
        if InternalNames(tree, deps) == [] then Lookup(doc, ["project", "dependencies"])
        else Some(Strings(RewrittenDependencies(tree, dir, deps)))
  {
    var deps := DependencyList(doc);
    var internal := InternalNames(tree, deps);
    var r := SyncedDependencies(tree, dir, doc);
    var withDeps := if internal == [] then doc else SetAt(doc, ["project", "dependencies"], Strings(RewrittenDependencies(tree, dir, deps)));
    if HasSources(doc) || internal != [] {
      assert "project" in r <==> "project" in withDeps;
      assert "project" in r ==> r["project"] == withDeps["project"];
    }
  }

  /** Every name the tree resolves matches the dependency-name pattern. */
  predicate HasPlainNames(tree: Tree) {
    IsName(tree.name) && forall n :: n in tree.members ==> IsName(n)
  }

  /** Rewriting a rewritten entry gives it back: its name still parses and resolves to the same project. */
  lemma RewrittenDependencyIdempotent(tree: Tree, dir: Path, dep: string)
    requires HasPlainNames(tree)
    ensures ParseDependencyName(RewrittenDependency(tree, dir, dep)) == ParseDependencyName(dep)
    ensures RewrittenDependency(tree, dir, RewrittenDependency(tree, dir, dep)) == RewrittenDependency(tree, dir, dep)
  {
  }

  /**
   * Running the dependency rewrite on its own output changes nothing, and
   * finds the same internal names.
   */
  lemma {:induction false} RewrittenDependenciesIdempotent(tree: Tree, dir: Path, deps: seq<string>)
    requires HasPlainNames(tree)
    ensures RewrittenDependencies(tree, dir, RewrittenDependencies(tree, dir, deps)) == RewrittenDependencies(tree, dir, deps)
    ensures InternalNames(tree, RewrittenDependencies(tree, dir, deps)) == InternalNames(tree, deps)
    decreases |deps|
  {
    if deps != [] {
      var front := deps[..|deps| - 1];
      var last := deps[|deps| - 1];
      var once := RewrittenDependencies(tree, dir, deps);
      RewrittenDependenciesIdempotent(tree, dir, front);
      RewrittenDependencyIdempotent(tree, dir, last);
      assert once == RewrittenDependencies(tree, dir, front) + [RewrittenDependency(tree, dir, last)];
      assert once[..|once| - 1] == RewrittenDependencies(tree, dir, front);
    }
  }

  /** `proj.table("tool", "uv", "sources", create=False)` finds a table. */
  predicate HasSources(doc: Doc) {
    Lookup(doc, ["tool", "uv", "sources"]).Some?
  }

  /**
   * `_sync_member_project_dependencies`: rewrites each dependency naming
   * the root or a member into a file reference relative to this project's
   * directory, then reconciles `tool.uv.sources`.
   */
  method SyncProjectDependencies(tree: Tree, proj: Manifest)
    requires HasDependenciesShape(proj.data) && HasSourcesShape(proj.data)
    modifies proj
    ensures proj.data == SyncedDependencies(tree, proj.Dir(), old(proj.data))
  {
    var before := proj.data;
    var deps, internal := RewriteDependencies(tree, proj.Dir(), DependencyList(before));
    var data := before;
    if internal != [] {
      data := SetAt(data, ["project", "dependencies"], Strings(deps));
    }
    if HasSources(before) || internal != [] {
      var sources := RemoveStaleSources(SourceEntries(before), internal);
      sources := MarkWorkspaceSources(sources, internal);
      assert sources == ReconciledSources(SourceEntries(before), internal);
      data := WithSources(data, sources);
    }
    proj.data := data;
  }

  /**
   * The loop over `enumerate(dependencies)`: rewrites in place every entry
   * whose parsed name is the root's or a member's, and collects those names.
   */
  method RewriteDependencies(tree: Tree, dir: Path, original: seq<string>) returns (deps: seq<string>, internal: seq<string>)
    ensures deps == RewrittenDependencies(tree, dir, original)
    ensures internal == InternalNames(tree, original)
  {
    deps := original;
    internal := [];
    var idx := 0;
    while idx < |deps|
      invariant 0 <= idx <= |deps| == |original|
      invariant deps == RewrittenDependencies(tree, dir, original[..idx]) + original[idx..]
      invariant internal == InternalNames(tree, original[..idx])
    {
      RewriteStep(tree, dir, original, idx);
      var rewritten, name := RewriteOne(tree, dir, deps[idx]);
      ReplaceAt(RewrittenDependencies(tree, dir, original[..idx]), original[idx..], deps[idx := rewritten]);
      deps := deps[idx := rewritten];
      if name.Some? {
        internal := internal + [name.value];
      }
      idx := idx + 1;
    }
    assert original[..idx] == original;
  }

  /** One entry of the loop: the rewritten entry, and its name when it is internal. */
  method RewriteOne(tree: Tree, dir: Path, dep: string) returns (r: string, name: Option<string>)
    ensures r == RewrittenDependency(tree, dir, dep)
    ensures name == if tree.Resolve(ParseDependencyName(dep)).Some? then Some(ParseDependencyName(dep)) else None
  {
    r := dep;
    name := None;
    var parsed := ParseDependencyName(dep);
    var target := tree.Resolve(parsed);
    if target.Some? {
      r := MemberDependency(parsed, Render(RelPath(target.value.Dir(), dir)));
      name := Some(parsed);
    }
  }

  /** Extending the list by one entry extends both results by that entry's share. */
  lemma RewriteStep(tree: Tree, dir: Path, original: seq<string>, idx: nat)
    requires idx < |original|
    ensures RewrittenDependencies(tree, dir, original[..idx + 1]) ==
      RewrittenDependencies(tree, dir, original[..idx]) + [RewrittenDependency(tree, dir, original[idx])]
    ensures InternalNames(tree, original[..idx + 1]) ==
      InternalNames(tree, original[..idx]) + (if tree.Resolve(ParseDependencyName(original[idx])).Some? then [ParseDependencyName(original[idx])] else [])
  {
    MappedStep(original, idx, (dep: string) => RewrittenDependency(tree, dir, dep));
    FilterMapStep(original, idx, ParseDependencyName, (n: string) => tree.Resolve(n).Some?);
  }

  /** The loop of `source_table.update({dep: {"workspace": True}})` over the internal dependencies. */
  method MarkWorkspaceSources(sources: map<string, Value>, internal: seq<string>) returns (r: map<string, Value>)
    ensures r == sources + map k | k in internal :: WorkspaceSource
  {
    r := sources;
    var j := 0;
    while j < |internal|
      invariant 0 <= j <= |internal|
      invariant r == sources + map k | k in internal[..j] :: WorkspaceSource
    {
      MarkOneMore(sources, internal[..j], internal[j]);
      assert internal[..j + 1] == internal[..j] + [internal[j]];
      r := r[internal[j] := WorkspaceSource];
      j := j + 1;
    }
    assert internal[..j] == internal;
  }

  /** Marking one more name extends the marked names by that name. */
  lemma MarkOneMore(sources: map<string, Value>, marked: seq<string>, name: string)
    ensures (sources + map k | k in marked :: WorkspaceSource)[name := WorkspaceSource]
      == sources + map k | k in marked + [name] :: WorkspaceSource
  {
    var before := map k | k in marked :: WorkspaceSource;
    var after := map k | k in marked + [name] :: WorkspaceSource;
    assert after == before[name := WorkspaceSource];
  }

  /** The removal loop over `list(source_table.keys())`. */
  method RemoveStaleSources(sources: map<string, Value>, internal: seq<string>) returns (r: map<string, Value>)
    ensures r == KeptSources(sources, internal)
  {
    r := sources;
    var keys := sources.Keys;
    while keys != {}
      invariant keys <= sources.Keys
      invariant r == map k | k in sources && (k in keys || !(IsWorkspaceSource(sources[k]) && k !in internal)) :: sources[k]
      decreases keys
    {
      var k :| k in keys;
      if IsWorkspaceSource(r[k]) && k !in internal {
        r := r - {k};
      }
      keys := keys - {k};
    }
  }

  /**
   * `sync_member_project_dependencies`: refuses a narrowed tree before
   * touching anything; otherwise syncs every selected project against the
   * full tree's names and directories.
   */
  method SyncMemberProjectDependencies(full: Tree, selected: Tree) returns (r: Outcome<string>)
    requires forall p :: p in selected.Projects() ==> HasDependenciesShape(p.data) && HasSourcesShape(p.data)
    modifies selected.Projects()
    ensures r.Fail? <==> full.filtered
    ensures r.Fail? ==> forall p :: p in selected.Projects() ==> p.data == old(p.data)
    ensures r.Pass? ==> forall p :: p in selected.Projects() ==> p.data == SyncedDependencies(full, p.Dir(), old(p.data))
  {
    if full.filtered {
      return Fail("Unfiltered workspace tree required for member project dependencies sync");
    }
    var todo := selected.Projects();
    while todo != {}
      invariant todo <= selected.Projects()
      invariant forall p :: p in selected.Projects() ==>
        p.data == if p in todo then old(p.data) else SyncedDependencies(full, p.Dir(), old(p.data))
      decreases todo
    {
      var p :| p in todo;
      SyncProjectDependencies(full, p);
      todo := todo - {p};
    }
    return Pass;
  }

  // ---------------------------------------------------------------------
  // Member paths

  /**
   * One entry of the members list: `os.path.relpath(dir, root_dir)` with
   * `dir` relative, hence taken from the working directory `cwd`, and a
   * wildcard suffix when `dir` holds no manifest.
   */
  function MemberPattern(cwd: Path, rootDir: Path, rel: Path, hasManifest: Path -> bool): (r: string)
    ensures hasManifest(cwd + rel + [ManifestFileName]) ==> r == Render(RelPath(cwd + rel, rootDir))
    ensures !hasManifest(cwd + rel + [ManifestFileName]) ==>
      IsWildcard(r) && |r| >= 2 && r[..|r| - 2] == Render(RelPath(cwd + rel, rootDir))
  {
    var exact := Render(RelPath(cwd + rel, rootDir));
    if hasManifest(cwd + rel + [ManifestFileName]) then exact
    else assert (exact + "/*")[..|exact|] == exact; exact + "/*"
  }

  /** Run from the root directory, an entry is the directory relative to the root. */
  lemma MemberPatternFromRoot(rootDir: Path, rel: Path, hasManifest: Path -> bool)
    requires IsResolved(rel) && rel != []
    ensures MemberPattern(rootDir, rootDir, rel, hasManifest) ==
      Join(rel) + (if hasManifest(rootDir + rel + [ManifestFileName]) then "" else "/*")
  {
    RelPathFromAncestor(rootDir, rel);
  }

  /** `tool`, `tool.uv` and `tool.uv.workspace` are tables or absent. */
  predicate HasWorkspaceShape(doc: Doc) {
    TableOrAbsent(doc, "tool")
    && TableOrAbsent(TableAt(doc, "tool"), "uv")
    && TableOrAbsent(TableAt(TableAt(doc, "tool"), "uv"), "workspace")
  }

  function WorkspaceTable(doc: Doc): map<string, Value> {
    TableAt(TableAt(TableAt(doc, "tool"), "uv"), "workspace")
  }

  /**
   * The root document after the members list is written: an existing list
   * is replaced, or removed when there are no patterns; a missing list is
   * added even when empty.  The `tool.uv.workspace` table always exists
   * afterwards.
   */
  function WithMemberPatterns(doc: Doc, patterns: seq<string>): (r: Doc)
    requires HasWorkspaceShape(doc)
    ensures Lookup(r, ["tool", "uv", "workspace"]).Some?
    ensures Lookup(r, ["tool", "uv", "workspace", "members"]) ==
      if patterns == [] && "members" in WorkspaceTable(doc) then None else Some(Strings(patterns))
    ensures forall k :: k in doc && k != "tool" ==> k in r && r[k] == doc[k]
  {
    var workspace := WorkspaceTable(doc);
    var updated :=
      if "members" in workspace then
        if patterns != [] then workspace["members" := Strings(patterns)] else workspace - {"members"}
      else workspace["members" := Strings(patterns)];
    var r := SetAt(doc, ["tool", "uv", "workspace"], Table(updated));
    LookupBelow(r, ["tool", "uv", "workspace"], "members");
    r
  }

  /** Every other key of the `tool.uv.workspace` table keeps its value. */
  lemma WithMemberPatternsKeepsWorkspace(doc: Doc, patterns: seq<string>, k: string)
    requires HasWorkspaceShape(doc)
    requires k in WorkspaceTable(doc) && k != "members"
    ensures Lookup(WithMemberPatterns(doc, patterns), ["tool", "uv", "workspace", k]) == Some(WorkspaceTable(doc)[k])
  {
    var r := WithMemberPatterns(doc, patterns);
    LookupBelow(r, ["tool", "uv", "workspace"], k);
    assert ["tool", "uv", "workspace"] + [k] == ["tool", "uv", "workspace", k];
  }

  /** Writing the members list changes nothing at a key path apart from `tool.uv.workspace`, however deep. */
  lemma WithMemberPatternsElsewhere(doc: Doc, patterns: seq<string>, q: seq<string>)
    requires HasWorkspaceShape(doc)
    requires |q| > 0 && Apart(q, ["tool", "uv", "workspace"])
    ensures Lookup(WithMemberPatterns(doc, patterns), q) == Lookup(doc, q)
  {
    var workspace := WorkspaceTable(doc);
    var updated :=
      if "members" in workspace then
        if patterns != [] then workspace["members" := Strings(patterns)] else workspace - {"members"}
      else workspace["members" := Strings(patterns)];
    SetAtElsewhere(doc, ["tool", "uv", "workspace"], Table(updated), q);
  }

  /**
   * `sync_member_paths`: refuses a narrowed tree or a member outside the
   * root before touching anything; otherwise collapses the
   * member directories (`CollapseMemberPaths`), turns each
   * remaining directory into a pattern, sorts the patterns and writes them
   * as the root's members list.
   */
  method SyncMemberPaths(tree: Tree, cwd: Path, hasManifest: Path -> bool)
    returns (r: Outcome<string>, dirs: set<Path>, patterns: seq<string>, ghost steps: seq<Path>)
    requires HasWorkspaceShape(tree.root.data)
    modifies tree.root
    ensures r.Fail? <==> (tree.filtered || exists d :: d in tree.MemberDirs() && d != tree.root.Dir() && !IsUnder(d, tree.root.Dir()))
    ensures r.Fail? ==> tree.root.data == old(tree.root.data)
    ensures r.Pass? ==> dirs == After(RelativeMembers(tree.root.Dir(), tree.MemberDirs()), steps)
    ensures r.Pass? ==> ValidSteps(RelativeMembers(tree.root.Dir(), tree.MemberDirs()), steps)
    ensures r.Pass? ==> [] !in dirs && IsCollapsed(dirs)
    ensures r.Pass? ==> |dirs| <= |RelativeMembers(tree.root.Dir(), tree.MemberDirs())|
    ensures r.Pass? ==> Covers(dirs, RelativeMembers(tree.root.Dir(), tree.MemberDirs()))
    ensures r.Pass? ==> Within(dirs, RelativeMembers(tree.root.Dir(), tree.MemberDirs()))
    ensures r.Pass? ==> forall a :: a in dirs && a !in RelativeMembers(tree.root.Dir(), tree.MemberDirs()) ==>
      AboveTwo(a, RelativeMembers(tree.root.Dir(), tree.MemberDirs()))
    ensures r.Pass? ==> Sorted(patterns) && |patterns| == |dirs|
    ensures r.Pass? ==> forall e :: e in patterns <==> exists d :: d in dirs && e == MemberPattern(cwd, tree.root.Dir(), d, hasManifest)
    ensures r.Pass? ==> tree.root.data == WithMemberPatterns(old(tree.root.data), patterns)
  {
    dirs, patterns, steps := {}, [], [];
    if tree.filtered {
      return Fail("Unfiltered workspace tree required for member path sync"), dirs, patterns, steps;
    }
    var rootDir := tree.root.Dir();
    var collapsed;
    collapsed, steps := CollapseMemberPaths(rootDir, tree.MemberDirs());
    if collapsed.Err? {
      return Fail(collapsed.error), dirs, patterns, steps;
    }
    dirs := collapsed.value;
    var unsorted := MemberPatterns(dirs, cwd, rootDir, hasManifest);
    patterns := SortPatterns(unsorted);
    SortKeepsEntries(unsorted, patterns);
    tree.root.data := WithMemberPatterns(tree.root.data, patterns);
    r := Pass;
  }

  /** The loop that turns each collapsed directory into its members-list entry. */
  method MemberPatterns(dirs: set<Path>, cwd: Path, rootDir: Path, hasManifest: Path -> bool) returns (patterns: seq<string>)
    ensures |patterns| == |dirs|
    ensures forall e :: e in patterns <==> exists d :: d in dirs && e == MemberPattern(cwd, rootDir, d, hasManifest)
  {
    patterns := [];
    var todo := dirs;
    while todo != {}
      invariant todo <= dirs
      invariant |patterns| + |todo| == |dirs|
      invariant forall e :: e in patterns <==> exists d :: d in dirs - todo && e == MemberPattern(cwd, rootDir, d, hasManifest)
      decreases todo
    {
      var d :| d in todo;
      var member := PatternOf(cwd, rootDir, d, hasManifest);
      assert dirs - (todo - {d}) == (dirs - todo) + {d};
      patterns := patterns + [member];
      todo := todo - {d};
    }
  }

  /** The body of that loop: the relative path, with the wildcard suffix when the directory holds no manifest. */
  method PatternOf(cwd: Path, rootDir: Path, d: Path, hasManifest: Path -> bool) returns (member: string)
    ensures member == MemberPattern(cwd, rootDir, d, hasManifest)
  {
    member := Render(RelPath(cwd + d, rootDir));
    var exact := hasManifest(cwd + d + [ManifestFileName]);
    if !exact {
      member := member + "/*";
    }
  }

  /** A permutation has the same length and the same entries. */
  lemma SortKeepsEntries(xs: seq<string>, ys: seq<string>)
    requires multiset(ys) == multiset(xs)
    ensures |ys| == |xs|
    ensures forall e :: e in ys <==> e in xs
  {
    assert |multiset(ys)| == |multiset(xs)|;
    forall e ensures e in ys <==> e in xs {
      assert e in ys <==> e in multiset(ys);
      assert e in xs <==> e in multiset(xs);
    }
  }
}
