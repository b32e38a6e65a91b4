# reggie-build workspace sync, modelled in Dafny

This project models the part of reggie-build that keeps a Python
monorepo's manifests (`pyproject.toml` files) consistent. A workspace has a
root manifest and member manifests. The model covers:

- the newer sync engine (`workspace_sync.py`):
  - stamping a version into every project;
  - copying the root's `build-system` table to the members;
  - merging the root's `tool.member-project` settings into the members;
  - rewriting internal dependencies as `name @ file://${PROJECT_ROOT}/<relative path>`,
    and reconciling the `tool.uv.sources` entries marked `workspace = true`;
  - deriving the root's `tool.uv.workspace.members` patterns from the member
    directories (the collapse of sibling groups, the pattern text, the sort).
- the older command set (`sync.py`): the same dependency rewrite with
  `../name` references, the build-system guard, the version fallback chain,
  and the project selection and update loop (`_projects`, `_update_projects`).
- the README help blocks (`readme.py`): the filter that drops `--help` rows
  and empty "Options" boxes from a command's help output, and the
  re-rendering of the `BEGIN:help` / `END:help` blocks with its "already up to
  date" outcome.

Modules:

- `Toml`: parsed manifests as nested tables, the deep merge, `prune`, and
  setting a value at a key path.
- `Paths`: paths as component sequences, and `os.path.relpath`.
- `DependencyNames`: the dependency-name pattern and the internal reference
  text.
- `Workspace`: the newer engine. `Manifest` and `Tree` are classes whose
  documents the sync methods update in place.
- `MemberPaths`: collapsing member directories, and sorting the patterns.
- `LegacySync`: the older command set. `Project` is a class whose document
  the update functions change.
- `HelpFilter`: the README help blocks.
- `Chars`: Python's whitespace set, shared by `strip()` and the pattern `\s`.
- `Sequences` and `Wrappers`: generic list helpers, and `Option` / `Result` /
  `Outcome`.

Loops in the source are methods with loop invariants, each proved against a
specification function. The properties the source promises are lemmas about
those functions:

- idempotence of every rewrite;
- the dependency-name round trip;
- what the reconciliation keeps and drops;
- the filter's behaviour on whole blocks;
- the fixed point of the README rewrite.

The version docstring of `_version` (`workspace_sync.py:151-157`) says
`HEAD~1` is used when the work tree is modified. The code does the opposite,
and the model follows the code (`Workspace.RevisionArgument`).

## Model

| member | source | states |
|---|---|---|
| Workspace.Tree.Resolve | src/reggie_build/workspace_sync.py:233-237 | a dependency name resolves exactly when it is the workspace's name (to the root) or a member's name (to that member), and always to a project of the tree |
| Workspace.WorkTreeModified | src/reggie_build/workspace_sync.py:166-172 | the work tree counts as modified iff some `git status --porcelain` line is not blank, blank meaning that `strip()` leaves nothing (Python's whitespace set, Unicode included) |
| Workspace.RevisionArgument | src/reggie_build/workspace_sync.py:175 | `HEAD` is asked for iff the tree is modified, `HEAD~1` iff it is clean |
| Workspace.VersionFromRevision | src/reggie_build/workspace_sync.py:179 | the derived version is `0.0.1+g` followed by the revision, which can be read back after the prefix |
| Workspace.StampVersion | src/reggie_build/workspace_sync.py:131-141 | a document without `project` is untouched; otherwise `project.version` ends up equal to the target; a document already at the target is untouched; no top-level key is added, and `project` gains only `version` |
| Workspace.StampVersionKeepsRest | src/reggie_build/workspace_sync.py:138-141 | stamping changes no other table and no other key of `project` |
| Workspace.StampVersionIdempotent | src/reggie_build/workspace_sync.py:138-140 | stamping a second time with the same version changes nothing |
| Workspace.StampProject | src/reggie_build/workspace_sync.py:132-141 | the loop body for one project leaves its document equal to the stamped document |
| Workspace.SyncVersion | src/reggie_build/workspace_sync.py:125-141 | every project gets the given version, else the derived one; `_version()` is called exactly once when no version is given and some project has a `project` table, otherwise never |
| Workspace.PropagateBuildSystem | src/reggie_build/workspace_sync.py:186-191 | a truthy root `build-system` replaces the member's (even one with extra keys) and nothing else changes; a missing or empty one changes nothing |
| Workspace.SyncBuildSystem | src/reggie_build/workspace_sync.py:182-191 | the root is unchanged and every member's new document is the propagation of the root's `build-system` |
| Workspace.ApplyMemberProjectTool | src/reggie_build/workspace_sync.py:202-204 | no settings leave the member as it was; otherwise the member gains the settings' keys and keeps every key the settings lack |
| Workspace.ApplyMemberProjectToolKeepsSettings | src/reggie_build/workspace_sync.py:204 | every non-table setting of the root reaches the member with the root's value |
| Workspace.ApplyMemberProjectToolIdempotent | src/reggie_build/workspace_sync.py:204 | merging the settings a second time changes nothing |
| Workspace.SyncMemberProjectTool | src/reggie_build/workspace_sync.py:194-204 | the root is unchanged; each member gets the root's `tool.member-project` settings merged in |
| Workspace.RewrittenDependency | src/reggie_build/workspace_sync.py:232-239 | a dependency whose parsed name does not resolve stays as it is; one that resolves becomes the member reference with the path from this project's directory to the target's |
| Workspace.RewrittenDependenciesElements | src/reggie_build/workspace_sync.py:230-240 | the rewrite keeps the list's length and order and rewrites each entry on its own |
| Workspace.InternalNamesMembers | src/reggie_build/workspace_sync.py:230-240 | the collected names are exactly the parsed names of the entries that resolve to the root or a member |
| Workspace.RewrittenDependencyIdempotent | src/reggie_build/workspace_sync.py:232-239 | rewriting keeps an entry's parsed name, and rewriting a rewritten entry gives it back |
| Workspace.RewrittenDependenciesIdempotent | src/reggie_build/workspace_sync.py:228-240 | a second rewrite of the list changes nothing and finds the same internal names |
| Workspace.ReconciledSources | src/reggie_build/workspace_sync.py:246-258 | after reconciliation a key is present iff it is internal or held an unmanaged entry; internal keys map to `{workspace = true}`; unmanaged entries of other names are kept |
| Workspace.ReconciledSourcesIdempotent | src/reggie_build/workspace_sync.py:246-258 | reconciling twice is reconciling once |
| Workspace.WithSources | src/reggie_build/workspace_sync.py:242-264 | the sources table holds the reconciled entries, or is gone (pruned) when there are none; top-level keys other than `tool` are kept |
| Workspace.WithSourcesElsewhere | src/reggie_build/workspace_sync.py:242-264 | storing and pruning the sources table changes nothing at any key path apart from `tool.uv.sources`, however deep |
| Workspace.SyncedDependencies | src/reggie_build/workspace_sync.py:224-264 | a project with no sources table and no internal dependency is left exactly as it was; top-level keys other than `project` and `tool` are never touched |
| Workspace.SyncedDependenciesElsewhere | src/reggie_build/workspace_sync.py:224-264 | the sync changes nothing at any key path apart from `project.dependencies` and `tool.uv.sources`, however deep |
| Workspace.SyncedSourcesTable | src/reggie_build/workspace_sync.py:242-264 | the sources table after the sync is absent when there was none and nothing is internal, or when reconciliation empties it, and holds the reconciled entries otherwise |
| Workspace.SyncedSourceEntry | src/reggie_build/workspace_sync.py:246-258 | per source key: an internal dependency is marked `workspace = true`; a managed entry of another name is removed; every other entry is kept |
| Workspace.SyncedDependencyList | src/reggie_build/workspace_sync.py:229-240 | the dependency list becomes the rewritten list when some entry is internal, and is untouched otherwise |
| Workspace.RewriteDependencies | src/reggie_build/workspace_sync.py:228-240 | the `enumerate` loop produces the rewritten list and the internal names, in list order |
| Workspace.RewriteOne | src/reggie_build/workspace_sync.py:232-240 | one loop step gives the rewritten entry, and the entry's name exactly when it resolves |
| Workspace.RemoveStaleSources | src/reggie_build/workspace_sync.py:246-255 | the removal loop drops exactly the managed entries whose names are not internal |
| Workspace.MarkWorkspaceSources | src/reggie_build/workspace_sync.py:256-258 | the update loop sets every internal name to `{workspace = true}` and keeps the other entries |
| Workspace.SyncProjectDependencies | src/reggie_build/workspace_sync.py:224-264 | the project's new document is the synced document (rewritten list, reconciled and pruned sources) |
| Workspace.SyncMemberProjectDependencies | src/reggie_build/workspace_sync.py:207-221 | fails iff the full tree is narrowed, and then changes nothing; otherwise every selected project is synced against the full tree's names and directories |
| Workspace.MemberPatternFromRoot | src/reggie_build/workspace_sync.py:279-283 | run from the root directory, an entry is the member directory relative to the root, with `/*` exactly when that directory holds no manifest |
| Workspace.PatternOf | src/reggie_build/workspace_sync.py:279-283 | one turn of the loop produces exactly the members-list entry of the directory |
| Workspace.MemberPatterns | src/reggie_build/workspace_sync.py:276-283 | one entry per collapsed directory, and the entries are exactly the patterns of those directories |
| Workspace.WithMemberPatterns | src/reggie_build/workspace_sync.py:285-295 | the workspace table always exists afterwards; an existing list is replaced, or removed when there are no patterns; a missing list is added even when empty; other top-level keys are kept |
| Workspace.WithMemberPatternsElsewhere | src/reggie_build/workspace_sync.py:285-295 | writing the members list changes nothing at any key path apart from `tool.uv.workspace`, however deep |
| Workspace.WithMemberPatternsKeepsWorkspace | src/reggie_build/workspace_sync.py:286-295 | every key of `tool.uv.workspace` other than `members` keeps its value |
| Workspace.SyncMemberPaths | src/reggie_build/workspace_sync.py:267-295 | fails iff the tree is narrowed or a member lies outside the root, and then changes nothing; otherwise the directories are what a recorded run of the collapse loop gives from the members taken relative to the root, each step a group of two or more siblings present at that point (no collapsible group left, the root left out, every member at or below a directory, every directory at or above a member, and every directory that is not a member lying above two distinct members), and their patterns, sorted and one per directory, are written as the root's members list |
| Workspace.MemberPattern | src/reggie_build/workspace_sync.py:279-283 | a directory holding a manifest gets its path relative to the root; any other directory gets that path followed by `/*`, a wildcard pattern for the sort |
| Paths.RelPath | src/reggie_build/workspace_sync.py:351 | a target below the start gives its path below the start; a start below the target gives one `..` per level between them |
| Paths.RelPathReaches | src/reggie_build/workspace_sync.py:349-352 | the relative path written into a reference leads from the dependent project's directory to the target's |
| Paths.RelPathFromAncestor | src/reggie_build/workspace_sync.py:279 | the path of a directory below the root, relative to the root, is its path below the root |
| DependencyNames.MatchFileReference | src/reggie_build/workspace_sync.py:341 | a pattern match cuts the string into leading spaces, a name, spaces, `@`, spaces, `file://` and the rest, and the parts rebuild the string |
| DependencyNames.ParseDependencyName | src/reggie_build/workspace_sync.py:337-342 | the parsed name is the string itself, or a name that the string spells out as a file reference with that name |
| DependencyNames.ParseFileReference | src/reggie_build/workspace_sync.py:341-342 | every string of the file-reference form parses to exactly the name it contains |
| DependencyNames.MemberDependency | src/reggie_build/workspace_sync.py:345-353 | parsing the reference that `_member_dependency` writes gives back the dependency's name |
| DependencyNames.MemberText | src/reggie_build/workspace_sync.py:352 | the reference written is a file reference: the name, ` @ `, `file://` and `${PROJECT_ROOT}/` followed by the relative path |
| MemberPaths.RelativeMembers | src/reggie_build/workspace_sync.py:301-309 | the root itself never appears among the relative paths |
| MemberPaths.GroupByParent | src/reggie_build/workspace_sync.py:314-317 | the keys are the parents of the paths, and each group holds exactly the paths with that parent |
| MemberPaths.FiledStep | src/reggie_build/workspace_sync.py:316-317 | adding one path to its parent's group keeps every key a parent of a filed path and every group exactly the filed paths with that parent |
| MemberPaths.SiblingCheckHolds | src/reggie_build/workspace_sync.py:324-328 | the "all siblings present" test holds for every group, so only the group's size decides |
| MemberPaths.FindCollapsibleGroup | src/reggie_build/workspace_sync.py:319-332 | a pass finds a non-root parent with two or more children, or finds none only when no such group exists |
| MemberPaths.CollapseShrinks | src/reggie_build/workspace_sync.py:329-330 | a collapse step makes the set smaller, so the loop ends |
| MemberPaths.CollapseLeavesRootOut | src/reggie_build/workspace_sync.py:320-322 | a collapse step never produces the root itself |
| MemberPaths.CollapseKeepsCover | src/reggie_build/workspace_sync.py:329-330 | after a step every original member still lies at or below a remaining path |
| MemberPaths.CollapseStaysWithin | src/reggie_build/workspace_sync.py:329-330 | a step introduces only ancestors of original members |
| MemberPaths.Collapse | src/reggie_build/workspace_sync.py:311-334 | the result is what the recorded steps give when applied in order to the members, and each step collapsed a group of two or more siblings under a parent other than the root, present at that point; the loop ends with no collapsible group left, the root left out, no more paths than it started with, every member at or below a result, every result at or above a member, and every result that is not a member lying above two distinct members |
| MemberPaths.ValidStepsSnoc | src/reggie_build/workspace_sync.py:319-331 | collapsing one more qualifying group extends the recorded run by that step |
| MemberPaths.CollapseKeepsAboveTwo | src/reggie_build/workspace_sync.py:319-331 | a step that collapses two or more siblings keeps every new path above two distinct original members |
| MemberPaths.StepAt | src/reggie_build/workspace_sync.py:319-331 | each recorded step is a group of two or more siblings of the paths left by the steps before it, and collapses that group |
| MemberPaths.RunContinues | src/reggie_build/workspace_sync.py:316-332 | a run that ends with no collapsible group goes on past every point at which one was left |
| MemberPaths.RunStops | src/reggie_build/workspace_sync.py:316-332 | a run takes no step once no collapsible group is left |
| MemberPaths.ForcedStep | src/reggie_build/workspace_sync.py:319-331 | when exactly one group qualifies, the next step of the run collapses it |
| MemberPaths.TwoForcedSteps | src/reggie_build/workspace_sync.py:316-332 | when one group qualifies, then one more, then none, the run is exactly those two steps |
| MemberPaths.DeepPairRunsEndAtParent | src/reggie_build/workspace_sync.py:311-332 | every run of the loop from `a/b/c/1`, `a/b/c/2` collapses `a/b/c` once and stops there, since `a/b` then holds a single path |
| MemberPaths.NestedRunsEndAtX | src/reggie_build/workspace_sync.py:311-332 | every run of the loop from `x/a/1`, `x/a/2`, `x/b` collapses `x/a` then `x` and ends at `{x}`, which reaches neither `x/a/1` nor `x/a/2` |
| MemberPaths.CollapseOrderMatters | src/reggie_build/workspace_sync.py:316-332 | from `x/a/1`, `x/a/2`, `x/b`, `x/c` the loop ends with `{x}` or with `{x, x/a}` depending on the order the groups are visited |
| MemberPaths.CollapseNestedLosesMembers | src/reggie_build/workspace_sync.py:311-332 | from `x/a/1`, `x/a/2`, `x/b` the loop ends at `{x}`, which leaves `x/a/1` neither a result nor directly below one; the one-level collapse reaches every member |
| MemberPaths.CollapseOneLevel | src/reggie_build/workspace_sync.py:319-332 | every member is kept or lies directly below a result; each result is a member or a parent of two or more members; the root is never a result |
| MemberPaths.OneLevelBounds | src/reggie_build/workspace_sync.py:319-332 | the one-level collapse covers every member and only introduces ancestors of members |
| MemberPaths.CollapseMemberPaths | src/reggie_build/workspace_sync.py:298-334 | fails iff some path other than the root lies outside it; otherwise the result is what a recorded run of the loop gives from the members taken relative to the root, each step a group of two or more siblings present at that point; no collapsible group is left, the root is left out, there are no more paths than members, every member lies at or below a result, every result at or above a member, and every result that is not a member lies above two distinct members |
| MemberPaths.CollapseIntoStep | src/reggie_build/workspace_sync.py:329-330 | a collapse step puts the parent in, leaves none of its children, keeps every path outside the group and adds nothing else |
| MemberPaths.SortPatterns | src/reggie_build/workspace_sync.py:284 | the result is sorted wildcard patterns first, then by text, and is a permutation of the input |
| MemberPaths.PatternLeqTotal | src/reggie_build/workspace_sync.py:284 | any two patterns are comparable under the sort key |
| MemberPaths.PatternLeqTransitive | src/reggie_build/workspace_sync.py:284 | the sort key's order is transitive |
| MemberPaths.PatternLeqAntisymmetric | src/reggie_build/workspace_sync.py:284 | two patterns that are equal under the sort key are the same pattern |
| MemberPaths.SortedUnique | src/reggie_build/workspace_sync.py:284 | two sorted orders of the same patterns are equal, so the set's iteration order does not show in the members list |
| Toml.SetAt | src/reggie_build/workspace_sync.py:141 | after the assignment the key path holds the value, only the path's first key is added, and every other top-level key is kept |
| Toml.SetAtElsewhere | src/reggie_build/workspace_sync.py:141 | the assignment changes nothing at any key path apart from the assigned one, however deep |
| Toml.Prune | src/reggie_build/workspace_sync.py:259 | pruning removes an empty table at the path; a table that still has keys is kept; no key is added, and every other top-level key is kept |
| Toml.PruneElsewhere | src/reggie_build/workspace_sync.py:259 | pruning changes nothing at any key path apart from the pruned one, however deep |
| Toml.MergeDoc | src/reggie_build/workspace_sync.py:204 | the merge has the keys of both sides; keys only in the destination are kept; a non-table source value replaces the destination's |
| Toml.MergeKeepsSource | src/reggie_build/workspace_sync.py:204 | every non-table value of the source reaches the result at the same key path |
| Toml.MergeIdempotent | src/reggie_build/workspace_sync.py:204 | merging the same source twice is merging it once |
| Toml.MergeLookupOutside | src/reggie_build/sync.py:155 | a key path that the source does not reach keeps the destination's value |
| LegacySync.LegacyMemberDependency | src/reggie_build/sync.py:135 | the older reference is the member reference whose relative path is `../` followed by the name |
| LegacySync.LegacyRewrittenElements | src/reggie_build/sync.py:130-136 | the rewrite keeps the list's length and order and rewrites each entry on its own |
| LegacySync.LegacyMemberDepsMembers | src/reggie_build/sync.py:130-136 | a name is collected iff it is a member name and some entry parses to it |
| LegacySync.LegacyRewrittenEntry | src/reggie_build/sync.py:130-136 | an entry naming a member becomes `name @ file://${PROJECT_ROOT}/../name`; the others stay; the parsed name is kept |
| LegacySync.LegacyRewrittenIdempotent | src/reggie_build/sync.py:130-136 | a second rewrite changes nothing and collects the same member dependencies |
| LegacySync.RewriteLegacyDependencies | src/reggie_build/sync.py:127-136 | the `range(len(deps))` loop produces the rewritten list and the member dependencies, in list order |
| LegacySync.LegacyRewriteOne | src/reggie_build/sync.py:131-136 | one loop step parses the name, decides membership, and rewrites exactly the member entries |
| LegacySync.MarkersLookup | src/reggie_build/sync.py:147-154 | the document built for the merge marks each member dependency `workspace = true` and holds nothing for other keys |
| LegacySync.LegacyMarksMemberDeps | src/reggie_build/sync.py:145-155 | after the update every member dependency is marked `workspace = true` in `tool.uv.sources` |
| LegacySync.LegacyCleanedEntry | src/reggie_build/sync.py:138-143 | the clean-up deletes the managed entries of keys that are not member dependencies and keeps the other entries |
| LegacySync.LegacySourceEntry | src/reggie_build/sync.py:138-155 | after the whole update, a source key that is not a member dependency has lost its managed entry and kept any other entry |
| LegacySync.LegacyDependencyList | src/reggie_build/sync.py:126-136 | the dependency list is the rewritten one when it names a member, and untouched otherwise |
| LegacySync.SetLegacyDependencies | src/reggie_build/sync.py:124-155 | the project's new document is the rewritten, cleaned and marked document |
| LegacySync.BuildSystemData | src/reggie_build/sync.py:84-88 | the command proceeds iff the root's `build-system` is truthy, with exactly that data |
| LegacySync.MergeBuildSystem | src/reggie_build/sync.py:90-92 | the project gains `build-system` and keeps every other top-level key |
| LegacySync.MergeBuildSystemKeepsData | src/reggie_build/sync.py:92 | every non-table setting of the root's build system reaches the project |
| LegacySync.ChooseVersion | src/reggie_build/sync.py:237-238 | a non-empty given version wins; else a non-empty git version; else the default |
| LegacySync.MergeVersion | src/reggie_build/sync.py:240-242 | the project gains `project` and keeps every other top-level key |
| LegacySync.MergeVersionStamps | src/reggie_build/sync.py:242 | after the merge `project.version` is the chosen version, and the other `project` keys are kept; a missing `project` table is created |
| LegacySync.Requested | src/reggie_build/sync.py:285-286 | an empty selection means all the root's members, in order; a non-empty one is used as given |
| LegacySync.Resolution | src/reggie_build/sync.py:288-297 | no more targets than identifiers; a failure names an identifier that was asked for and does not resolve |
| LegacySync.ResolutionFacts | src/reggie_build/sync.py:288-297 | resolution fails iff some identifier does not resolve, and then at the first one; the targets yielded before it are the entries in order |
| LegacySync.SelectProjects | src/reggie_build/sync.py:269-297 | the generator yields the given projects themselves and fresh projects loaded from the resolved directories, stopping at the first unresolved identifier |
| LegacySync.VisitProject | src/reggie_build/sync.py:264-266 | the scripts project is skipped unless included; any other project is updated once |
| LegacySync.ApplyToProjects | src/reggie_build/sync.py:263-266 | each project is updated once per time it is selected and not skipped |
| LegacySync.UpdateProjects | src/reggie_build/sync.py:247-266 | fails iff an identifier does not resolve; the projects before it are updated; existing projects are updated once per selection, and loaded projects start from their directory's manifest |
| LegacySync.BuildSystem | src/reggie_build/sync.py:84-94 | without a truthy root `build-system` nothing is selected and nothing changes; otherwise the selection is the resolved targets (given projects themselves, new projects loaded from the named directories) and every selected project, scripts included, has the section merged in once per selection |
| LegacySync.Version | src/reggie_build/sync.py:237-244 | the selection is the resolved targets (given projects themselves, new projects loaded from the named directories); every selected project except the scripts project has the chosen version merged in once per selection |
| LegacySync.MemberProjectDependencies | src/reggie_build/sync.py:107-157 | the selection is the resolved targets (given projects themselves, new projects loaded from the named directories); every selected project except the scripts project has its member dependencies rewritten and marked once per selection |
| HelpFilter.FilterHelpLines | src/reggie_build/readme.py:58-86 | the loop's output is the filtered help text |
| HelpFilter.AppendOptionLines | src/reggie_build/readme.py:77-79 | a kept block is appended without its help rows |
| HelpFilter.WithoutHelpRowsFacts | src/reggie_build/readme.py:77-79 | the kept lines are block lines that are not help rows, every such line is kept, and a block without help rows is kept whole |
| HelpFilter.WithoutHelpRowsAppend | src/reggie_build/readme.py:77-79 | the filter works line by line: filtering two pieces and joining them is filtering the whole, so order and repetitions are kept |
| HelpFilter.CopiesPlainLines | src/reggie_build/readme.py:86 | outside a block, lines are copied unchanged and in order |
| HelpFilter.BuffersBody | src/reggie_build/readme.py:64-65 | inside a block, lines are buffered and nothing is output |
| HelpFilter.HeaderRestarts | src/reggie_build/readme.py:59-62 | a header starts a fresh block, drops an unfinished one, and keeps the output so far |
| HelpFilter.ClosedBlock | src/reggie_build/readme.py:64-84 | a block closed by a footer is emitted without its help rows exactly when it holds a real option, and filtering resumes afresh |
| HelpFilter.FilteredOneBlock | src/reggie_build/readme.py:58-86 | a help text with one options block comes out as the text around it plus what the block emits |
| HelpFilter.UnfinishedBlockDropped | src/reggie_build/readme.py:58-86 | a block still open at the end of the help text contributes nothing |
| HelpFilter.NoOptionsUnchanged | src/reggie_build/readme.py:58-86 | a help text without an options header comes through unchanged |
| HelpFilter.Strip | src/reggie_build/readme.py:88 | the stripped text is a slice with only whitespace cut at both ends and none left at either end; it is empty iff the text is all whitespace |
| HelpFilter.StripIdempotent | src/reggie_build/readme.py:88 | stripping twice strips nothing more |
| HelpFilter.Fenced | src/reggie_build/readme.py:89 | the help text sits unchanged between the bash fence lines |
| HelpFilter.RunHelp | src/reggie_build/readme.py:52-89 | the result pairs the command with the fenced, stripped, filtered help text |
| HelpFilter.UpdateHelp | src/reggie_build/readme.py:125-156 | no help blocks means nothing to do; otherwise the README is reported unchanged iff the substitution reproduces it, else the substituted README is returned |
| HelpFilter.RerenderedFixedPoint | src/reggie_build/readme.py:144-152 | substitution keeps the commands, and substituting the substituted README again reproduces it |
| HelpFilter.SecondRunUpToDate | src/reggie_build/readme.py:152-156 | a second run with the same help output finds the README already up to date |

## Left out

- Reading and writing files, git subprocesses, ruff and taplo are not modelled. Nor are logging, the `write` flag and the README lookup (`readme.py:118-123`). Outputs such as `git status` lines, help output lines and file existence are parameters.
- The `sync` command that chains the operations (`workspace_sync.py:28-122`), and `ruff_format` (`workspace_sync.py:356-399`), are not modelled.
- The older `member_project_tool` and `ruff` commands (`sync.py:160-216`) are not modelled.
- Parallel help commands (`ProcessPoolExecutor`) are modelled as one map from command to help text.
- Key order and TOML formatting are not modelled: a manifest is a map.
- Python dict and set iteration order is left open. Loops over a set or a dict pick any element. Lemmas state order-free results, or show where order matters (`MemberPaths.CollapseOrderMatters`).
- Toml.MergeDoc: the merge library is not part of this model. It is taken to merge tables key by key and let anything else in the source replace the destination. The `overwrite` flag is not distinguished.
- Toml.Prune: the manifest library is not part of this model. `prune()` is taken to remove an empty table and every enclosing table this leaves empty.
- LegacySync.LegacyMarksMemberDeps: the merge at `sync.py:155` is called without `overwrite=True`. It is modelled as the same deep merge, so an existing `workspace` value is replaced.
- LegacySync.MergeBuildSystem: the older command deep-merges `build-system`, so member-only keys inside it stay. The newer engine replaces the table.
- DependencyNames.ParseDependencyName: `\w` is restricted to ASCII letters, digits and `_`. Python's pattern also accepts Unicode letters and digits. `\s` is Python's full whitespace set (`Chars.IsWhitespace`).
- Paths.RelPath: paths are taken as already resolved, so `resolve()`, symbolic links, `.` and `..` are not modelled.
- Workspace.MemberPattern: `os.path.relpath` resolves the relative member directory against the process's working directory, which is a parameter.
- Workspace.SyncVersion: the derived version (`_version()`) is a parameter. A failing git query is not modelled.
- LegacySync.ChooseVersion: `git_version()` and `DEFAULT_VERSION` are parameters (`utils` is not part of this model).
- Documents of a shape the source would fail on are excluded by preconditions: a `project` or `tool` key that is not a table, dependencies that are not strings, or a source entry that is not a table (`HasDependenciesShape`, `HasSourcesShape`, `HasWorkspaceShape`, `HasToolShape`, `LegacyShape`). The raised exceptions are not modelled.
- LegacySync.DependenciesUpdate: a manifest of a shape the source would fail on is left unchanged instead of raising.
- LegacySync.UpdateProjects: resolution is modelled before the updates. This matches the interleaved generator only if loading a project does not see earlier updates; `read` is a function of the directory.
- LegacySync.MemberProjectDependencies: the member names (`p.name`) are a parameter.
- HelpFilter.RunHelp: the three line patterns are parameters, and `splitlines()` is taken as given lines.
- Workspace.WithMemberPatterns: an existing `members` value that is not a list is replaced. The source calls `clear()` and `extend()` on it and would fail when there are patterns.
- HelpFilter.UpdateHelp: the sentinel pattern is replaced by a given cut of the README into text and help blocks.
- MemberPaths.CollapseOneLevel: a collapsed parent counts as reaching the directories directly below it. That is what its wildcard pattern does when the parent holds no manifest. A parent that is itself a member gets an exact pattern, in the source and in this model alike.

## Findings

| source | as written | input that shows it | evidently intended | confidence | as-written member | corrected member |
|---|---|---|---|---|---|---|
| src/reggie_build/workspace_sync.py:311-332 | the `while changed` loop collapses again a group it has itself produced | member directories `x/a/1`, `x/a/2`, `x/b` (no manifest in `x` or `x/a`): the loop ends at `{x}`, so the only pattern is `x/*`, which reaches neither `x/a/1` nor `x/a/2` | every member directory is matched by an exact pattern, or lies directly below a wildcard pattern's directory | medium, not executed | MemberPaths.NestedRunsEndAtX | MemberPaths.CollapseOneLevel |
