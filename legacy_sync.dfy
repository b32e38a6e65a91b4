/**
 * The older command set: the same synchronisation ideas, applied project by
 * project through a selection of projects.  Every internal dependency is
 * written as `name @ file://${PROJECT_ROOT}/../name`, only member names count
 * as internal, and the manifest updates go through a deep merge.
 */
module LegacySync {
  import opened Wrappers
  import opened Toml
  import opened Paths
  import opened DependencyNames
  import opened Workspace
  import opened Sequences

  /** A project as the command set sees it: its directory, whether it is the scripts project, and its manifest. */
  class Project {
    const dir: Path
    const isScripts: bool
    var data: Doc

    constructor (dir: Path, isScripts: bool, data: Doc)
      ensures this.dir == dir && this.isScripts == isScripts && this.data == data
    {
      this.dir := dir;
      this.isScripts := isScripts;
      this.data := data;
    }
  }

  // ---------------------------------------------------------------------
  // Dependency rewriting

  const DependenciesPath: seq<string> := ["project", "dependencies"]

  /** The reference the older command set writes: the sibling directory named like the dependency. */
  function LegacyMemberDependency(dep: string): (r: string)
    ensures r == MemberDependency(dep, "../" + dep)
  {
    dep + " @ file://${PROJECT_ROOT}/../" + dep
  }

  /** One entry after the rewrite: entries naming a member become its reference, the rest stay. */
  function LegacyRewrittenDependency(names: seq<string>, dep: string): string {
    if ParseDependencyName(dep) in names then LegacyMemberDependency(ParseDependencyName(dep)) else dep
  }

  /** The dependency list after the rewrite, built from the front of the list. */
  function LegacyRewritten(names: seq<string>, deps: seq<string>): (r: seq<string>)
    ensures |r| == |deps|
  {
    Mapped(deps, (dep: string) => LegacyRewrittenDependency(names, dep))
  }

  /** The rewrite works entry by entry: each entry of the result is the rewrite of the entry at the same place. */
  lemma LegacyRewrittenElements(names: seq<string>, deps: seq<string>)
    ensures forall i :: 0 <= i < |deps| ==> LegacyRewritten(names, deps)[i] == LegacyRewrittenDependency(names, deps[i])
  {
    MappedElements(deps, (dep: string) => LegacyRewrittenDependency(names, dep));
  }

  /** `member_deps`: the parsed names of the entries that name a member, in list order. */
  function LegacyMemberDeps(names: seq<string>, deps: seq<string>): seq<string> {
    FilterMap(deps, ParseDependencyName, (n: string) => n in names)
  }

  /** The member dependencies are exactly the member names that some entry parses to. */
  lemma LegacyMemberDepsMembers(names: seq<string>, deps: seq<string>)
    ensures forall n :: n in LegacyMemberDeps(names, deps) <==> n in names && exists i :: 0 <= i < |deps| && n == ParseDependencyName(deps[i])
  {
    FilterMapMembers(deps, ParseDependencyName, (n: string) => n in names);
  }

  /** The entries that name a member are exactly the ones the rewrite changes into a member reference. */
  lemma LegacyRewrittenEntry(names: seq<string>, dep: string)
    requires forall n :: n in names ==> IsName(n)
    ensures ParseDependencyName(dep) in names ==>
      LegacyRewrittenDependency(names, dep) == LegacyMemberDependency(ParseDependencyName(dep))
    ensures ParseDependencyName(dep) !in names ==> LegacyRewrittenDependency(names, dep) == dep
    ensures ParseDependencyName(LegacyRewrittenDependency(names, dep)) == ParseDependencyName(dep)
  {
    var name := ParseDependencyName(dep);
    if name in names {
      assert LegacyRewrittenDependency(names, dep) == MemberDependency(name, "../" + name);
    }
  }

  /**
   * Running the rewrite on its own output changes nothing and finds the
   * same member dependencies, provided the member names match the
   * dependency-name pattern.
   */
  lemma {:induction false} LegacyRewrittenIdempotent(names: seq<string>, deps: seq<string>)
    requires forall n :: n in names ==> IsName(n)
    ensures LegacyRewritten(names, LegacyRewritten(names, deps)) == LegacyRewritten(names, deps)
    ensures LegacyMemberDeps(names, LegacyRewritten(names, deps)) == LegacyMemberDeps(names, deps)
    decreases |deps|
  {
    if deps != [] {
      var front := deps[..|deps| - 1];
      var last := deps[|deps| - 1];
      var once := LegacyRewritten(names, deps);
      LegacyRewrittenIdempotent(names, front);
      LegacyRewrittenEntry(names, last);
      LegacyRewrittenEntry(names, LegacyRewrittenDependency(names, last));
      assert once == LegacyRewritten(names, front) + [LegacyRewrittenDependency(names, last)];
      assert once[..|once| - 1] == LegacyRewritten(names, front);
    }
  }

  /**
   * The loop over `range(len(deps))`: every entry whose parsed name is a
   * member name becomes that member's reference, and the name is collected.
   */
  method RewriteLegacyDependencies(names: seq<string>, original: seq<string>) returns (deps: seq<string>, memberDeps: seq<string>)
    ensures deps == LegacyRewritten(names, original)
    ensures memberDeps == LegacyMemberDeps(names, original)
  {
    deps := original;
    memberDeps := [];
    var i := 0;
    while i < |deps|
      invariant 0 <= i <= |deps| == |original|
      invariant deps == LegacyRewritten(names, original[..i]) + original[i..]
      invariant memberDeps == LegacyMemberDeps(names, original[..i])
    {
      LegacyRewriteStep(names, original, i);
      var entry, name, isMember := LegacyRewriteOne(names, deps[i]);
      if isMember {
        ReplaceAt(LegacyRewritten(names, original[..i]), original[i..], deps[i := entry]);
        deps := deps[i := entry];
        memberDeps := memberDeps + [name];
      } else {
        assert deps[i] == original[i] == entry;
        ReplaceAt(LegacyRewritten(names, original[..i]), original[i..], deps);
      }
      i := i + 1;
    }
    assert original[..i] == original;
  }

  /** One pass of the loop body: the rewritten entry, and whether the entry names a member. */
  method LegacyRewriteOne(names: seq<string>, entry: string) returns (r: string, dep: string, isMember: bool)
    ensures dep == ParseDependencyName(entry)
    ensures isMember <==> dep in names
    ensures r == LegacyRewrittenDependency(names, entry)
  {
    dep := ParseDependencyName(entry);
    isMember := dep in names;
    r := if isMember then LegacyMemberDependency(dep) else entry;
  }

  /** Extending the list by one entry extends both results by that entry's share. */
  lemma LegacyRewriteStep(names: seq<string>, original: seq<string>, i: nat)
    requires i < |original|
    ensures LegacyRewritten(names, original[..i + 1]) == LegacyRewritten(names, original[..i]) + [LegacyRewrittenDependency(names, original[i])]
    ensures LegacyMemberDeps(names, original[..i + 1]) ==
      LegacyMemberDeps(names, original[..i]) + (if ParseDependencyName(original[i]) in names then [ParseDependencyName(original[i])] else [])
  {
    MappedStep(original, i, (dep: string) => LegacyRewrittenDependency(names, dep));
    FilterMapStep(original, i, ParseDependencyName, (n: string) => n in names);
  }

  // ---------------------------------------------------------------------
  // The dependency update of one manifest

  /** `doc.get("project.dependencies", [])`, or no dependencies. */
  function LegacyDependencies(doc: Doc): seq<string>
    requires Lookup(doc, DependenciesPath).Some? ==> IsStrings(Lookup(doc, DependenciesPath).value)
  {
    if Lookup(doc, DependenciesPath).Some? then Texts(Lookup(doc, DependenciesPath).value) else []
  }

  /**
   * The shapes the update relies on: the dependencies, when present, are a
   * list of strings, and every source entry the clean-up inspects is a table.
   */
  predicate LegacyShape(names: seq<string>, doc: Doc) {
    (Lookup(doc, DependenciesPath).Some? ==> IsStrings(Lookup(doc, DependenciesPath).value))
    && (Lookup(doc, SourcesPath).Some? && Lookup(doc, SourcesPath).value.Table? ==>
          forall k :: k in Lookup(doc, SourcesPath).value.fields && k !in LegacyMemberDeps(names, LegacyDependencies(doc)) ==>
            Lookup(doc, SourcesPath).value.fields[k].Table?)
  }

  /** `{"tool": {"uv": {"sources": {dep: {"workspace": True}, ...}}}}`, the document the update merges in. */
  function SourceMarkers(memberDeps: seq<string>): Doc {
    map["tool" := Table(map["uv" := Table(map["sources" := Table(map k | k in memberDeps :: WorkspaceSource)])])]
  }

  /**
   * A manifest after the `_set` of `member_project_dependencies`: the
   * rewritten list, stale managed sources deleted from a sources table, and
   * the markers of the member dependencies merged in.
   */
  function LegacySyncedDependencies(names: seq<string>, doc: Doc): (r: Doc)
    requires LegacyShape(names, doc)
    ensures (LegacyMemberDeps(names, LegacyDependencies(doc)) == [] &&
             !(Lookup(doc, SourcesPath).Some? && Lookup(doc, SourcesPath).value.Table?)) ==> r == doc
    ensures forall k :: k in doc && k != "project" && k != "tool" ==> k in r && r[k] == doc[k]
  {
    var memberDeps := LegacyMemberDeps(names, LegacyDependencies(doc));
    if memberDeps == [] then LegacyCleaned(names, doc) else MergeDoc(LegacyCleaned(names, doc), SourceMarkers(memberDeps))
  }

  /** The update before the markers are merged in: the rewritten list and the cleaned sources table. */
  function LegacyCleaned(names: seq<string>, doc: Doc): Doc
    requires LegacyShape(names, doc)
  {
    var deps := LegacyDependencies(doc);
    var memberDeps := LegacyMemberDeps(names, deps);
    var withDeps := if memberDeps == [] then doc else SetAt(doc, DependenciesPath, Strings(LegacyRewritten(names, deps)));
    if Lookup(doc, SourcesPath).Some? && Lookup(doc, SourcesPath).value.Table?
    then SetAt(withDeps, SourcesPath, Table(KeptSources(Lookup(doc, SourcesPath).value.fields, memberDeps)))
    else withDeps
  }

  /** Where the markers document leads: a marker for each member dependency, nothing for any other key. */
  lemma MarkersLookup(memberDeps: seq<string>, k: string)
    ensures k in memberDeps ==> Lookup(SourceMarkers(memberDeps), SourcesPath + [k, "workspace"]) == Some(Bool(true))
    ensures k !in memberDeps ==> Lookup(SourceMarkers(memberDeps), SourcesPath + [k]) == None
    ensures TablesAlong(SourceMarkers(memberDeps), SourcesPath + [k])
  {
    var m := SourceMarkers(memberDeps);
    var sources := map k | k in memberDeps :: WorkspaceSource;
    var uv := map["sources" := Table(sources)];
    var tool := map["uv" := Table(uv)];
    assert m == map["tool" := Table(tool)];
    var p := SourcesPath + [k];
    assert p == ["tool", "uv", "sources", k];
    assert p[1..] == ["uv", "sources", k] && p[2..] == ["sources", k] && p[3..] == [k];
    assert Lookup(m, p) == Lookup(tool, p[1..]) == Lookup(uv, p[2..]) == Lookup(sources, p[3..]);
    assert TablesAlong(m, p) by {
      assert TablesAlong(sources, p[3..]);
      assert TablesAlong(uv, p[2..]);
      assert TablesAlong(tool, p[1..]);
    }
    if k in memberDeps {
      var q := SourcesPath + [k, "workspace"];
      assert q == ["tool", "uv", "sources", k, "workspace"];
      assert q[1..] == ["uv", "sources", k, "workspace"] && q[2..] == ["sources", k, "workspace"];
      assert q[3..] == [k, "workspace"] && q[4..] == ["workspace"];
      assert Lookup(m, q) == Lookup(tool, q[1..]) == Lookup(uv, q[2..]) == Lookup(sources, q[3..]);
      assert Lookup(sources, q[3..]) == Lookup(WorkspaceSource.fields, q[4..]);
    }
  }

  /** Every member dependency ends up marked `workspace = true`. */
  lemma LegacyMarksMemberDeps(names: seq<string>, doc: Doc, k: string)
    requires LegacyShape(names, doc) && k in LegacyMemberDeps(names, LegacyDependencies(doc))
    ensures Lookup(LegacySyncedDependencies(names, doc), SourcesPath + [k, "workspace"]) == Some(Bool(true))
  {
    var markers := SourceMarkers(LegacyMemberDeps(names, LegacyDependencies(doc)));
    var path := SourcesPath + [k, "workspace"];
    MarkersLookup(LegacyMemberDeps(names, LegacyDependencies(doc)), k);
    MergeKeepsSource(Table(LegacyCleaned(names, doc)), Table(markers), path);
  }

  /**
   * The entry of every other key of `tool.uv.sources`: a managed entry is
   * gone and every other entry is what it was.
   */
  lemma LegacySourceEntry(names: seq<string>, doc: Doc, k: string)
    requires LegacyShape(names, doc) && k !in LegacyMemberDeps(names, LegacyDependencies(doc))
    ensures var before := Lookup(doc, SourcesPath + [k]);
      Lookup(LegacySyncedDependencies(names, doc), SourcesPath + [k]) ==
        if before.Some? && IsWorkspaceSource(before.value) then None else before
  {
    var memberDeps := LegacyMemberDeps(names, LegacyDependencies(doc));
    var cleaned := LegacyCleaned(names, doc);
    LegacyCleanedEntry(names, doc, k);
    if memberDeps != [] {
      var markers := SourceMarkers(memberDeps);
      MarkersLookup(memberDeps, k);
      MergeLookupOutside(cleaned, markers, SourcesPath + [k]);
    }
  }

  /** The clean-up step alone: a managed entry of a key that is not a member dependency is deleted. */
  lemma LegacyCleanedEntry(names: seq<string>, doc: Doc, k: string)
    requires LegacyShape(names, doc) && k !in LegacyMemberDeps(names, LegacyDependencies(doc))
    ensures var before := Lookup(doc, SourcesPath + [k]);
      Lookup(LegacyCleaned(names, doc), SourcesPath + [k]) ==
        if before.Some? && IsWorkspaceSource(before.value) then None else before
  {
    var deps := LegacyDependencies(doc);
    var memberDeps := LegacyMemberDeps(names, deps);
    var withDeps := if memberDeps == [] then doc else SetAt(doc, DependenciesPath, Strings(LegacyRewritten(names, deps)));
    LookupBelow(doc, SourcesPath, k);
    assert Lookup(withDeps, SourcesPath) == Lookup(doc, SourcesPath);
    LookupBelow(LegacyCleaned(names, doc), SourcesPath, k);
  }

  /** The dependency list after the update: rewritten when it names a member, untouched otherwise. */
  lemma LegacyDependencyList(names: seq<string>, doc: Doc)
    requires LegacyShape(names, doc)
    ensures var deps := LegacyDependencies(doc);
      Lookup(LegacySyncedDependencies(names, doc), DependenciesPath) ==
        if LegacyMemberDeps(names, deps) == [] then Lookup(doc, DependenciesPath)
        else Some(Strings(LegacyRewritten(names, deps)))
  {
    var deps := LegacyDependencies(doc);
    var memberDeps := LegacyMemberDeps(names, deps);
    var withDeps := if memberDeps == [] then doc else SetAt(doc, DependenciesPath, Strings(LegacyRewritten(names, deps)));
    var cleaned := LegacyCleaned(names, doc);
    assert "project" in cleaned <==> "project" in withDeps;
    assert "project" in cleaned ==> cleaned["project"] == withDeps["project"];
  }

  /** The `_set` of `member_project_dependencies` on one project. */
  method SetLegacyDependencies(names: seq<string>, p: Project)
    requires LegacyShape(names, p.data)
    modifies p
    ensures p.data == LegacySyncedDependencies(names, old(p.data))
  {
    var doc := p.data;
    var deps, memberDeps := RewriteLegacyDependencies(names, LegacyDependencies(doc));
    var data := doc;
    if memberDeps != [] {
      data := SetAt(data, DependenciesPath, Strings(deps));
    }
    var sources := Lookup(doc, SourcesPath);
    if sources.Some? && sources.value.Table? {
      var kept := RemoveStaleSources(sources.value.fields, memberDeps);
      data := SetAt(data, SourcesPath, Table(kept));
    }
    if memberDeps != [] {
      data := MergeDoc(data, SourceMarkers(memberDeps));
    }
    p.data := data;
  }

  // ---------------------------------------------------------------------
  // Build system and version

  /** The guard of `build_system`: the root's `build-system` data when it is truthy. */
  function BuildSystemData(rootDoc: Doc): (r: Option<Value>)
    ensures r.Some? <==> HasBuildSystem(rootDoc)
    ensures r.Some? ==> r.value == rootDoc["build-system"]
  {
    if HasBuildSystem(rootDoc) then Some(rootDoc["build-system"]) else None
  }

  /** The `_set` of `build_system`: the root's data merged in under `build-system`. */
  function MergeBuildSystem(data: Value, doc: Doc): (r: Doc)
    ensures r.Keys == doc.Keys + {"build-system"}
    ensures forall k :: k in doc && k != "build-system" ==> r[k] == doc[k]
  {
    MergeDoc(doc, map["build-system" := data])
  }

  /** Every setting of the root's build system that is not a table ends up in the project with the root's value. */
  lemma MergeBuildSystemKeepsData(data: Value, doc: Doc, path: seq<string>)
    requires Lookup(map["build-system" := data], ["build-system"] + path).Some?
    requires !Lookup(map["build-system" := data], ["build-system"] + path).value.Table?
    ensures Lookup(MergeBuildSystem(data, doc), ["build-system"] + path) == Lookup(map["build-system" := data], ["build-system"] + path)
  {
    MergeKeepsSource(Table(doc), Table(map["build-system" := data]), ["build-system"] + path);
  }

  /** The version `version` applies: the given one when non-empty, else git's when non-empty, else the default. */
  function ChooseVersion(given: Option<string>, git: Option<string>, defaultVersion: string): (v: string)
    ensures given.Some? && given.value != [] ==> v == given.value
    ensures (given.None? || given.value == []) && git.Some? && git.value != [] ==> v == git.value
    ensures (given.None? || given.value == []) && (git.None? || git.value == []) ==> v == defaultVersion
  {
    if given.Some? && given.value != [] then given.value
    else if git.Some? && git.value != [] then git.value
    else defaultVersion
  }

  /** The `_set` of `version`: `{"project": {"version": v}}` merged in. */
  function MergeVersion(v: string, doc: Doc): (r: Doc)
    ensures r.Keys == doc.Keys + {"project"}
    ensures forall k :: k in doc && k != "project" ==> r[k] == doc[k]
  {
    MergeDoc(doc, map["project" := Table(map["version" := Str(v)])])
  }

  /** After the merge the project's version is `v`; unlike the newer engine, a missing `project` table is created. */
  lemma MergeVersionStamps(v: string, doc: Doc)
    ensures Lookup(MergeVersion(v, doc), ["project", "version"]) == Some(Str(v))
    ensures "project" in doc && doc["project"].Table? ==>
      forall k :: k in doc["project"].fields && k != "version" ==> Lookup(MergeVersion(v, doc), ["project", k]) == Some(doc["project"].fields[k])
  {
    var src := map["project" := Table(map["version" := Str(v)])];
    assert Lookup(src, ["project", "version"]) == Some(Str(v));
    MergeKeepsSource(Table(doc), Table(src), ["project", "version"]);
  }

  // ---------------------------------------------------------------------
  // Project selection

  /** An entry of the selection: a project object, or an identifier to resolve. */
  datatype ProjectRef = Given(project: Project) | Named(id: string)

  /** What a selection entry yields: an existing project, or a project loaded from the directory an identifier resolves to. */
  datatype Target = Existing(project: Project) | Loaded(dir: Path)

  /** `if not projs: projs = projects.root().members()`. */
  function Requested(refs: seq<ProjectRef>, members: seq<Project>): (r: seq<ProjectRef>)
    ensures refs != [] ==> r == refs
    ensures refs == [] ==> |r| == |members| && forall i :: 0 <= i < |members| ==> r[i] == Given(members[i])
  {
    if refs != [] then refs else seq(|members|, i requires 0 <= i < |members| => Given(members[i]))
  }

  /**
   * The generator `_projects` run to its end or to its first failure: the
   * targets it yields, and the identifier it fails on, if any.
   */
  function Resolution(refs: seq<ProjectRef>, dirOf: string -> Option<Path>): (r: (seq<Target>, Option<string>))
    ensures |r.0| <= |refs|
    ensures r.1.Some? ==> Named(r.1.value) in refs && dirOf(r.1.value).None?
    decreases |refs|
  {
    if refs == [] then ([], None)
    else
      var front := Resolution(refs[..|refs| - 1], dirOf);
      if front.1.Some? then front
      else
        match refs[|refs| - 1]
        case Given(p) => (front.0 + [Existing(p)], None)
        case Named(id) =>
          if dirOf(id).None? then (front.0, Some(id)) else (front.0 + [Loaded(dirOf(id).value)], None)
  }

  /**
   * Resolution fails exactly when some identifier does not resolve, and
   * then on the first such identifier; the targets yielded are the entries
   * before it, in order, each a given project or the directory its
   * identifier names.
   */
  lemma {:induction false} ResolutionFacts(refs: seq<ProjectRef>, dirOf: string -> Option<Path>)
    ensures var (targets, failed) := Resolution(refs, dirOf);
      && (failed.Some? <==> exists i :: 0 <= i < |refs| && refs[i].Named? && dirOf(refs[i].id).None?)
      && (failed.None? ==> |targets| == |refs|)
      && (failed.Some? ==> exists i :: 0 <= i < |refs| && |targets| == i && refs[i] == Named(failed.value) && dirOf(failed.value).None?)
      && (forall i :: 0 <= i < |targets| ==> targets[i] == ResolvedTarget(refs[i], dirOf))
      && (forall i :: 0 <= i < |targets| ==> !(refs[i].Named? && dirOf(refs[i].id).None?))
    decreases |refs|
  {
    if refs != [] {
      var front := refs[..|refs| - 1];
      var last := refs[|refs| - 1];
      ResolutionFacts(front, dirOf);
      assert forall i :: 0 <= i < |front| ==> front[i] == refs[i];
      var (targets, failed) := Resolution(refs, dirOf);
      if Resolution(front, dirOf).1.None? && !(last.Named? && dirOf(last.id).None?) {
        assert failed.None?;
        forall i | 0 <= i < |refs| ensures !(refs[i].Named? && dirOf(refs[i].id).None?) {
          if i < |front| {
            assert refs[i] == front[i];
          }
        }
      }
    }
  }

  /** The target a resolvable entry yields. */
  function ResolvedTarget(ref: ProjectRef, dirOf: string -> Option<Path>): Target {
    match ref
    case Given(p) => Existing(p)
    case Named(id) => if dirOf(id).Some? then Loaded(dirOf(id).value) else Loaded([])
  }

  /** `_update_projects` skips the scripts project unless told to include it. */
  predicate Skipped(p: Project, includeScripts: bool) {
    !includeScripts && p.isScripts
  }

  /** How many times the loop of `_update_projects` over `projs` calls the update function on `p`. */
  function Visits(projs: seq<Project>, includeScripts: bool, p: Project): nat {
    if Skipped(p, includeScripts) then 0 else multiset(projs)[p]
  }

  /** Visiting one more selected project adds one visit to it and none to any other project. */
  lemma VisitsStep(projs: seq<Project>, i: nat, includeScripts: bool, p: Project)
    requires i < |projs|
    ensures Visits(projs[..i + 1], includeScripts, p) ==
      Visits(projs[..i], includeScripts, p) + (if p == projs[i] && !Skipped(p, includeScripts) then 1 else 0)
  {
    assert projs[..i + 1] == projs[..i] + [projs[i]];
  }

  /** `fn` applied `n` times. */
  function Times(fn: Doc -> Doc, n: nat, d: Doc): Doc {
    if n == 0 then d else fn(Times(fn, n - 1, d))
  }

  /** The projects that already exist: the given ones and the root's members. */
  function ExistingProjects(refs: seq<ProjectRef>, members: seq<Project>): set<Project> {
    (set r | r in refs && r.Given? :: r.project) + (set m | m in members)
  }

  /** A project object stands for a target: the given object itself, or a project loaded from the target's directory. */
  predicate Stands(p: Project, t: Target, scriptsAt: Path -> bool, read: Path -> Doc)
    reads p
  {
    match t
    case Existing(q) => p == q
    case Loaded(dir) => p.dir == dir && p.isScripts == scriptsAt(dir) && p.data == read(dir)
  }

  /**
   * The generator `_projects` drained: the project objects it yields, and
   * the identifier of its `ValueError`, if any.  An identifier yields a new
   * project loaded from its directory; nothing existing is changed.
   */
  method SelectProjects(refs: seq<ProjectRef>, dirOf: string -> Option<Path>, scriptsAt: Path -> bool, read: Path -> Doc)
    returns (selected: seq<Project>, failed: Option<string>)
    ensures failed == Resolution(refs, dirOf).1
    ensures |selected| == |Resolution(refs, dirOf).0|
    ensures forall i :: 0 <= i < |selected| ==> Stands(selected[i], Resolution(refs, dirOf).0[i], scriptsAt, read)
    ensures forall i :: 0 <= i < |selected| && Resolution(refs, dirOf).0[i].Loaded? ==> fresh(selected[i])
  {
    ghost var res := Resolution(refs, dirOf);
    ResolutionFacts(refs, dirOf);
    selected := [];
    var i := 0;
    while i < |refs|
      invariant 0 <= i <= |res.0|
      invariant |selected| == i
      invariant forall j :: 0 <= j < i ==> Stands(selected[j], res.0[j], scriptsAt, read)
      invariant forall j :: 0 <= j < i && res.0[j].Loaded? ==> fresh(selected[j])
    {
      var proj: Project;
      match refs[i] {
        case Given(p) =>
          proj := p;
        case Named(id) =>
          var dir := dirOf(id);
          if dir.None? {
            return selected, Some(id);
          }
          proj := new Project(dir.value, scriptsAt(dir.value), read(dir.value));
      }
      selected := selected + [proj];
      i := i + 1;
    }
    failed := None;
  }

  /**
   * The loop of `_update_projects` over the selected projects: applies `fn`
   * to each one that is not skipped, once per time it is selected.
   */
  method ApplyToProjects(projs: seq<Project>, includeScripts: bool, fn: Doc -> Doc)
    modifies set p | p in projs
    ensures forall p :: p in projs ==> p.data == Times(fn, Visits(projs, includeScripts, p), old(p.data))
  {
    var i := 0;
    while i < |projs|
      invariant 0 <= i <= |projs|
      invariant forall p :: p in projs ==> p.data == Times(fn, Visits(projs[..i], includeScripts, p), old(p.data))
    {
      var proj := projs[i];
      VisitProject(proj, includeScripts, fn);
      forall p | p in projs
        ensures p.data == Times(fn, Visits(projs[..i + 1], includeScripts, p), old(p.data))
      {
        VisitsStep(projs, i, includeScripts, p);
      }
      i := i + 1;
    }
    assert projs[..i] == projs;
  }

  /** One turn of the loop of `_update_projects`: the project is skipped, or updated. */
  method VisitProject(proj: Project, includeScripts: bool, fn: Doc -> Doc)
    modifies proj
    ensures proj.data == if Skipped(proj, includeScripts) then old(proj.data) else fn(old(proj.data))
  {
    if includeScripts || !proj.isScripts {
      proj.data := fn(proj.data);
    }
  }

  /**
   * `_update_projects`: applies `fn` to each selected project that is not
   * skipped and, at the first identifier that does not resolve, stops with
   * the `ValueError` of `_projects` once the entries before it have been
   * updated.  A project selected twice is updated twice; an identifier
   * yields a new project loaded from its directory.
   */
  method UpdateProjects(refs: seq<ProjectRef>, members: seq<Project>, dirOf: string -> Option<Path>,
                        scriptsAt: Path -> bool, read: Path -> Doc, includeScripts: bool, fn: Doc -> Doc)
    returns (r: Outcome<string>, selected: seq<Project>)
    modifies ExistingProjects(refs, members)
    ensures r.Fail? <==> Resolution(Requested(refs, members), dirOf).1.Some?
    ensures |selected| == |Resolution(Requested(refs, members), dirOf).0|
    ensures forall i :: 0 <= i < |selected| && Resolution(Requested(refs, members), dirOf).0[i].Existing? ==>
      selected[i] == Resolution(Requested(refs, members), dirOf).0[i].project
    ensures forall i :: 0 <= i < |selected| && Resolution(Requested(refs, members), dirOf).0[i].Loaded? ==>
      var dir := Resolution(Requested(refs, members), dirOf).0[i].dir;
      fresh(selected[i]) && selected[i].dir == dir && selected[i].isScripts == scriptsAt(dir) &&
      selected[i].data == Times(fn, Visits(selected, includeScripts, selected[i]), read(dir))
    ensures forall p :: p in ExistingProjects(refs, members) ==> p.data == Times(fn, Visits(selected, includeScripts, p), old(p.data))
  {
    var req := Requested(refs, members);
    ghost var existing := ExistingProjects(refs, members);
    var failed;
    selected, failed := SelectProjects(req, dirOf, scriptsAt, read);
    ghost var targets := Resolution(req, dirOf).0;
    ResolutionFacts(req, dirOf);
    forall i | 0 <= i < |selected| && targets[i].Existing?
      ensures selected[i] in existing
    {
      assert req[i].Given?;
    }
    ApplyToProjects(selected, includeScripts, fn);
    r := if failed.Some? then Fail("Project " + failed.value + " not found") else Pass;
  }

  // ---------------------------------------------------------------------
  // Commands

  /** The `_set` of `build_system`, as the update function handed to `_update_projects`. */
  function BuildSystemUpdate(data: Value): Doc -> Doc {
    d => MergeBuildSystem(data, d)
  }

  /** The `_set` of `version`. */
  function VersionUpdate(v: string): Doc -> Doc {
    d => MergeVersion(v, d)
  }

  /**
   * The `_set` of `member_project_dependencies`.  A manifest whose shape
   * the source would fail on (a dependency that is not a string, a source
   * entry that is not a table) is left as it is.
   */
  function DependenciesUpdate(names: seq<string>): Doc -> Doc {
    d => if LegacyShape(names, d) then LegacySyncedDependencies(names, d) else d
  }

  /**
   * `build_system`: without a truthy root `build-system` section nothing is
   * resolved and nothing changes; otherwise every selected project,
   * the scripts project included, has the section merged in.
   */
  method BuildSystem(rootDoc: Doc, refs: seq<ProjectRef>, members: seq<Project>, dirOf: string -> Option<Path>,
                     scriptsAt: Path -> bool, read: Path -> Doc)
    returns (r: Outcome<string>, selected: seq<Project>)
    modifies ExistingProjects(refs, members)
    ensures !HasBuildSystem(rootDoc) ==>
      && r == Pass && selected == []
      && forall p :: p in ExistingProjects(refs, members) ==> p.data == old(p.data)
    ensures HasBuildSystem(rootDoc) ==> (r.Fail? <==> Resolution(Requested(refs, members), dirOf).1.Some?)
    ensures HasBuildSystem(rootDoc) ==> |selected| == |Resolution(Requested(refs, members), dirOf).0|
    ensures HasBuildSystem(rootDoc) ==> forall i :: 0 <= i < |selected| && Resolution(Requested(refs, members), dirOf).0[i].Existing? ==>
      selected[i] == Resolution(Requested(refs, members), dirOf).0[i].project
    ensures HasBuildSystem(rootDoc) ==> forall i :: 0 <= i < |selected| && Resolution(Requested(refs, members), dirOf).0[i].Loaded? ==>
      var dir := Resolution(Requested(refs, members), dirOf).0[i].dir;
      fresh(selected[i]) && selected[i].dir == dir && selected[i].isScripts == scriptsAt(dir) &&
      selected[i].data == Times(BuildSystemUpdate(rootDoc["build-system"]), Visits(selected, true, selected[i]), read(dir))
    ensures HasBuildSystem(rootDoc) ==> forall p :: p in ExistingProjects(refs, members) ==>
      p.data == Times(BuildSystemUpdate(rootDoc["build-system"]), multiset(selected)[p], old(p.data))
  {
    var data := BuildSystemData(rootDoc);
    if data.None? {
      return Pass, [];
    }
    r, selected := UpdateProjects(refs, members, dirOf, scriptsAt, read, true, BuildSystemUpdate(data.value));
  }

  /**
   * `version`: the chosen version is merged into every selected project
   * but the scripts project.
   */
  method Version(given: Option<string>, git: Option<string>, defaultVersion: string, refs: seq<ProjectRef>,
                 members: seq<Project>, dirOf: string -> Option<Path>, scriptsAt: Path -> bool, read: Path -> Doc)
    returns (r: Outcome<string>, selected: seq<Project>)
    modifies ExistingProjects(refs, members)
    ensures r.Fail? <==> Resolution(Requested(refs, members), dirOf).1.Some?
    ensures |selected| == |Resolution(Requested(refs, members), dirOf).0|
    ensures forall i :: 0 <= i < |selected| && Resolution(Requested(refs, members), dirOf).0[i].Existing? ==>
      selected[i] == Resolution(Requested(refs, members), dirOf).0[i].project
    ensures forall i :: 0 <= i < |selected| && Resolution(Requested(refs, members), dirOf).0[i].Loaded? ==>
      var dir := Resolution(Requested(refs, members), dirOf).0[i].dir;
      fresh(selected[i]) && selected[i].dir == dir && selected[i].isScripts == scriptsAt(dir) &&
      selected[i].data == Times(VersionUpdate(ChooseVersion(given, git, defaultVersion)), Visits(selected, false, selected[i]), read(dir))
    ensures forall p :: p in ExistingProjects(refs, members) ==>
      p.data == Times(VersionUpdate(ChooseVersion(given, git, defaultVersion)), Visits(selected, false, p), old(p.data))
  {
    var v := ChooseVersion(given, git, defaultVersion);
    r, selected := UpdateProjects(refs, members, dirOf, scriptsAt, read, false, VersionUpdate(v));
  }

  /**
   * `member_project_dependencies`: `names` are the names of the root's
   * members; every selected project but the scripts project has its
   * member dependencies rewritten and marked.
   */
  method MemberProjectDependencies(names: seq<string>, refs: seq<ProjectRef>, members: seq<Project>,
                                   dirOf: string -> Option<Path>, scriptsAt: Path -> bool, read: Path -> Doc)
    returns (r: Outcome<string>, selected: seq<Project>)
    modifies ExistingProjects(refs, members)
    ensures r.Fail? <==> Resolution(Requested(refs, members), dirOf).1.Some?
    ensures |selected| == |Resolution(Requested(refs, members), dirOf).0|
    ensures forall i :: 0 <= i < |selected| && Resolution(Requested(refs, members), dirOf).0[i].Existing? ==>
      selected[i] == Resolution(Requested(refs, members), dirOf).0[i].project
    ensures forall i :: 0 <= i < |selected| && Resolution(Requested(refs, members), dirOf).0[i].Loaded? ==>
      var dir := Resolution(Requested(refs, members), dirOf).0[i].dir;
      fresh(selected[i]) && selected[i].dir == dir && selected[i].isScripts == scriptsAt(dir) &&
      selected[i].data == Times(DependenciesUpdate(names), Visits(selected, false, selected[i]), read(dir))
    ensures forall p :: p in ExistingProjects(refs, members) ==>
      p.data == Times(DependenciesUpdate(names), Visits(selected, false, p), old(p.data))
  {
    r, selected := UpdateProjects(refs, members, dirOf, scriptsAt, read, false, DependenciesUpdate(names));
  }
}
