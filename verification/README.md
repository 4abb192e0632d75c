# Asset Dependency Reasoner and preflight checks, modelled in Dafny

This project models the core of the Unreal Editor asset validator: the Asset Dependency
Reasoner (`adr/adr_graph.py`, `adr/adr_policy.py`) and the pure decision logic of the
pipeline preflight (`preflight/preflight_core.py`).

- **Path normaliser** (`paths.dfy`). It turns editor path strings (`/Game/Foo/Bar`,
  `/Game/Foo/Bar.Bar`, `Blueprint'/Game/Foo/BP_Bar.BP_Bar'`) into object paths and
  package names. Python's `strip`, `find`/`rfind` and `split` live in `strings.dfy`.
- **Dependency classifier** (`classify.dfy`). It gives the reason and flags of an edge.
- **Graph builder** (`graph.dfy`, `builder.dfy`). It is a breadth-first walk from the
  root package, bounded by a depth limit and a node cap, over an injected dependency
  source. Each expansion merges the hard and soft lists so that hard wins and skips
  self-references. Every edge is recorded, but a package's parent link is set only by
  the first edge into it.
- **Path explainer** (`explain.dfy`). It gives the chain of parent links from the root
  down to a package.
- **Tree projector** (`tree.dfy`). It nests the edge list under the root.
- **Policy engine** (`policy.dfy`). It emits one `NO_EDITOR_DEPS` violation per
  editor-only edge target, deduplicated by (policy, package).
- **Preflight** (`preflight.dfy`). It covers:
  - the naming-prefix rule and the unused-asset heuristic with its cap of 50;
  - the mapping of violations to findings;
  - the `run_preflight` report with its pass/warn/fail verdict.

The builder's `while queue` loop is the tail-recursive method `Builder.WalkFrom`, one
iteration per call of `Builder.WalkStep`. It carries the invariant `Builder.WalkInv`
and terminates on the measure (unvisited packages of the finite universe, queue
length). Part of that invariant is a ghost history of every queue entry ever enqueued,
in order, with a cursor at the next one to dequeue. The history pins the FIFO order of
expansions and the node-cap stop rule, stated of the built graph as
`Builder.QueueOrder`. Everything else is a pure function with lemmas about it.

Where code and documentation can be read differently, the model follows the code:

- **Normalisation is idempotent only on quote-free input.** Lemma
  `Paths.ObjectPathIdempotentWithoutQuotes` proves idempotence there.
  `Paths.ObjectPathNotIdempotentWithQuotes` exhibits `'a''` → `a'.a'` → `.a`.
- **`build_dependency_graph` normalises its root twice.** It turns the root path into an
  object path (`adr/adr_graph.py:99`) and then takes its package name, which normalises
  that object path once more (`adr/adr_graph.py:100`, via line 31).
  `check_dependency_policies` passes its argument through untouched
  (`preflight/preflight_core.py:232-236`). The model states the graph's root as
  `PackageName(g.rootObject)` with `g.rootObject == ToObjectPath(rootObjectPath)`, and
  `PackageName` normalises again.
- **The tree recursion has no cycle guard.** A back edge (`A -> B -> A`, possible
  because edges into visited packages are still recorded) recurses until Python's
  recursion limit raises `RecursionError`. The model carries the set of packages on the
  current path and emits a re-entered package as a childless leaf marked `cyclic`.
  `Tree.TwoCycleProjection` shows the result on that cycle.

## Model

| member | source | states |
|---|---|---|
| Paths.ToObjectPath | Content/Python/adr/adr_graph.py:14-27 | empty input is returned as is; any other result contains an object separator `.`; a trimmed input that already has a `.` and does not end in `'` comes back unchanged |
| Paths.Unquote | Content/Python/adr/adr_graph.py:20-21 | for a string ending in `'`, the result is exactly the text between its first and its last quote (the string is `pre + "'" + r + "'"` with a quote-free `pre`), and empty when the final quote is the only one |
| Paths.WithLeaf | Content/Python/adr/adr_graph.py:23-25 | the result always contains `.`; a dotted path is kept; a dot-free one gains `.` and its last `/` segment |
| Paths.PackageName | Content/Python/adr/adr_graph.py:30-32 | the package name has no `.` and, followed by `.`, is a prefix of the normalised object path |
| Paths.DotFreePathIsOwnPackage | Content/Python/adr/adr_graph.py:14-32 | a trimmed, unquoted, dot-free path `p` normalises to `p.Leaf` and is its own package name (`/Game/Foo/Bar` → `/Game/Foo/Bar.Bar` → `/Game/Foo/Bar`) |
| Paths.CanonicalObjectPathIsFixed | Content/Python/adr/adr_graph.py:14-27 | a non-empty, quote-free dotted path with no whitespace at either end is a fixed point of normalisation |
| Paths.ObjectPathIdempotentWithoutQuotes | Content/Python/adr/adr_graph.py:14-27 | normalising twice equals normalising once for every input without a `'` |
| Paths.ObjectPathNotIdempotentWithQuotes | Content/Python/adr/adr_graph.py:18-27 | with quotes idempotence fails: `'a''` normalises to `a'.a'`, which normalises to `.a` |
| Classify.BaseReason | Content/Python/adr/adr_graph.py:79-86 | the base reason is one of the three fixed reasons; editor-only targets get the editor-only reason whatever their kind; otherwise it is the soft reason exactly for soft references |
| Classify.ClassifyDependency | Content/Python/adr/adr_graph.py:76-95 | the reason is never empty; it ends in ` (Transitive)` iff depth > 1; it starts with the editor-only reason iff the target has a marker, and with `Soft` iff unmarked and soft; `editor_only` is flagged iff marked; `suspicious` iff marked under a `/Game/` root; `editor_only` always comes first |
| Classify.EditorFolderIsFlagged | Content/Python/adr/adr_graph.py:47-48 | a path under `/Editor/` is suspected editor-only |
| Classify.TransitiveEditorDependencyExample | Content/Python/adr/adr_graph.py:76-95 | a depth-2 soft reference from a `/Game/` root into `/Editor/` is `Editor-only Suspected (Transitive)` with flags `editor_only`, `suspicious` |
| Graph.Dependencies | Content/Python/adr/adr_graph.py:70-71 | a package with a registry entry gets that entry's hard and soft lists; a package without one gets two empty lists |
| Graph.MakeNode | Content/Python/adr/adr_graph.py:108-114 | a node carries its package and class and is flagged `editor_only` exactly when its path has an editor-only marker |
| Graph.MakeEdge | Content/Python/adr/adr_graph.py:139-150 | an edge keeps its endpoints, kind and depth; its reason is non-empty and ends in ` (Transitive)` iff depth > 1; it is flagged `editor_only` iff its target has a marker, and `suspicious` iff the target has a marker and the root is under `/Game/` |
| Graph.CombineDepsSpec | Content/Python/adr/adr_graph.py:130-132 | the merged targets are distinct and are exactly the hard and soft ones; an entry is `Hard` iff its target is in the hard list; hard entries come first, in hard-list order, then soft-only ones in soft-list order |
| Graph.ExpansionEdgesSpec | Content/Python/adr/adr_graph.py:134-152 | one expansion yields one edge per target other than the expanded package itself, from it, one level deeper, classified for that target; targets are distinct and keep the merged order |
| Graph.FirstEdgeToAppend | Content/Python/adr/adr_graph.py:152-156 | appending an edge never changes an existing first edge into a package, and supplies one only when there was none |
| Graph.KindCountsPartition | Content/Python/adr/adr_graph.py:168-169 | hard and soft edge counts add up to the edge count |
| Graph.ComputeStats | Content/Python/adr/adr_graph.py:162-170 | the node and edge counts are the sizes of the node map and edge list; hard and soft counts are the number of edges of each kind and add up to the edge count; the editor-only count is the number of `editor_only` nodes, never above the node count |
| Builder.ExpandEdges | Content/Python/adr/adr_graph.py:134-152 | the inner loop appends exactly the expansion edges of the dequeued package |
| Builder.ExpandNodes | Content/Python/adr/adr_graph.py:138-160 | after the inner loop the visited set is the old one plus the non-self targets, and every visited package is a node built by `ensure_node` |
| Builder.ExpandLinks | Content/Python/adr/adr_graph.py:152-156 | the inner loop keeps every existing parent link, and each link stays the first edge into its child |
| Builder.ExpandDiscovers | Content/Python/adr/adr_graph.py:154-160 | every package first visited during an expansion gets a parent link from the expanded package, one level deeper |
| Builder.ExpandQueue | Content/Python/adr/adr_graph.py:158-160 | the inner loop only appends to the queue: once each, exactly the newly visited packages, at depth + 1 |
| Builder.InitialInv | Content/Python/adr/adr_graph.py:116-119 | the state before the loop (only the root, visited and queued at depth 0) satisfies the loop invariant |
| Builder.SkipKeepsInv | Content/Python/adr/adr_graph.py:122-124 | dequeuing a package at or beyond the depth limit without expanding it keeps the invariant |
| Builder.ExpandKeepsInv | Content/Python/adr/adr_graph.py:121-160 | one expansion keeps the invariant, with the dequeued package now expanded |
| Builder.LoopStep | Content/Python/adr/adr_graph.py:121-160 | one expansion keeps the invariant and lowers the termination measure (unvisited packages of the universe, queue length) |
| Builder.WalkStart | Content/Python/adr/adr_graph.py:116-119 | the state before the loop satisfies the whole loop invariant, with the root as the only history entry |
| Builder.WalkSkip | Content/Python/adr/adr_graph.py:121-124 | dequeuing an entry at or beyond the depth limit keeps the loop invariant and advances the history cursor |
| Builder.WalkExpand | Content/Python/adr/adr_graph.py:121-160 | expanding an entry below the depth limit while fewer than `max_nodes` nodes exist keeps the loop invariant, appends the new queue entries to the history, and lowers the measure |
| Builder.WalkStep | Content/Python/adr/adr_graph.py:121-160 | one iteration stops (`capped`) iff the dequeued entry lies below the depth limit and the node count has reached `max_nodes`, leaving the state unchanged; otherwise it keeps the invariant and lowers the measure |
| Builder.WalkFrom | Content/Python/adr/adr_graph.py:121-160 | the remaining iterations end with the invariant; unless truncated the queue is empty; when truncated the head entry lies below the depth limit and the node count has reached `max_nodes`; a state that stops at once is returned unchanged and truncated |
| Builder.Walk | Content/Python/adr/adr_graph.py:116-160 | the loop ends with the invariant, in breadth-first order (queue depths never decrease and span at most one level, edge depths never decrease) and with a history matching the edges; unless truncated the queue is empty; truncation means the head entry lies below the depth limit and the node count reached the cap; with cap ≤ 1 and depth ≥ 1 the state stays the initial one (only the root) and the walk is truncated |
| Builder.AddOrder | Content/Python/adr/adr_graph.py:152-160 | one inner iteration keeps the visited set equal to the root plus the edge targets, only appends to the queue, and extends the discovery order (first occurrences among root and edge targets) by exactly the entries it enqueues |
| Builder.ExpandOrder | Content/Python/adr/adr_graph.py:134-160 | a whole expansion keeps the visited set equal to the root plus the edge targets and extends the discovery order by exactly the entries it enqueues, in order |
| Builder.NextOrder | Content/Python/adr/adr_graph.py:121-160 | dequeuing and expanding the head keeps the rest of the queue in front and extends the discovery order by exactly the new queue entries |
| Builder.SkipKeepsHistory | Content/Python/adr/adr_graph.py:122-124 | skipping an entry at or beyond the depth limit adds no edges, so the edges remain the expansions of the shallow history entries before the cursor |
| Builder.StepKeepsHistory | Content/Python/adr/adr_graph.py:121-160 | expanding the head, begun with fewer than `max_nodes` nodes, makes the edges the expansions of the shallow history entries up to the cursor, in history order, and appends the new queue entries, each at its level, to the history |
| Builder.FinishQueueOrder | Content/Python/adr/adr_graph.py:116-181 | the returned graph satisfies `QueueOrder`: its edges are the expansions, in discovery order, of a prefix of its shallow packages; each expansion began with fewer than `max_nodes` packages reached; it is truncated iff that prefix is not all of them, and then `max_nodes` packages had been reached |
| Builder.BfsKept | Content/Python/adr/adr_graph.py:121-160 | popping the queue head and appending edges and queue entries one level below it keeps the queue layered and the edges sorted by depth |
| Builder.NextKeepsBfs | Content/Python/adr/adr_graph.py:121-160 | one expansion keeps the breadth-first order of queue and edges |
| Builder.SkipKeepsBfs | Content/Python/adr/adr_graph.py:122-124 | skipping a package at the depth limit keeps the breadth-first order |
| Builder.FinishNoDuplicatePairs | Content/Python/adr/adr_graph.py:118-160 | no two edges join the same (from, to) pair |
| Builder.DrainedIsComplete | Content/Python/adr/adr_graph.py:121-160 | once the queue is empty, every visited package below the depth limit has all its expansion edges in the list |
| Builder.NoDepthNoEdges | Content/Python/adr/adr_graph.py:121-124 | with depth limit ≤ 0 the root is the only package and there are no edges |
| Builder.FirstEdgeShallowest | Content/Python/adr/adr_graph.py:152-156 | when edges are sorted by depth and parent links are first edges, a node's level is at most the depth of every edge into it |
| Builder.ParentStep | Content/Python/adr/adr_graph.py:154-156 | a non-root node has a parent node one level up that lists it as a hard or soft dependency |
| Builder.NodeReached | Content/Python/adr/adr_graph.py:154-160 | every node is reachable from the root through the registry within its level's number of hops |
| Builder.HopReached | Content/Python/adr/adr_graph.py:134-160 | a listed dependency of an expanded node is a node at most one level deeper |
| Builder.ReachedWithin | Content/Python/adr/adr_graph.py:121-160 | when every node below the depth limit is expanded, every package within `k` hops of the root (`k` ≤ depth limit) is a node of level at most `k` |
| Builder.ReachStep | Content/Python/adr/adr_graph.py:129-160 | a listed hard or soft dependency of a package within `k` hops of the root is within `k + 1` hops |
| Builder.InBreadthFirst | Content/Python/adr/adr_graph.py:121-160 | a depth-sorted graph that follows the registry and whose parent links are first edges is in breadth-first order: no edge reaches a node above its level, and every node is within its level's hops of the root |
| Builder.AllReached | Content/Python/adr/adr_graph.py:121-160 | when every node below the depth limit is expanded, every package within the depth limit's hops of the root is a node whose level is at most its hop count |
| Builder.FinishFacts | Content/Python/adr/adr_graph.py:162-181 | the returned graph is well-formed, its nodes and edges are the ones `ensure_node` and the classifier make, an edge is flagged `editor_only` iff its target node is, parent links are first edges, no pair repeats, and each package's out-edges are empty or its full expansion |
| Builder.BuildDependencyGraph | Content/Python/adr/adr_graph.py:98-181 | the root is the normalised root path's package and is a node; every edge is a classified, non-self edge between nodes from a registry entry; `editor_only` edges are exactly those into `editor_only` nodes; parent links are first edges; no pair repeats; edges come in non-decreasing depth, each node's level is at most the depth of any edge into it, and each node is reachable from the root in its level's number of hops; the edges are the expansions of the graph's packages below the depth limit, taken in discovery order (FIFO: the order in which packages first appear among the root and the edge targets), up to the first one met with `max_nodes` packages already reached, where the walk stops as truncated; an untruncated walk expands every package below the depth limit and contains every package within the depth limit's hops of the root, at a level no deeper than its hop count; depth ≤ 0 gives only the root; cap ≤ 1 gives only the root and `truncated`; stats match the maps |
| Explain.Chain | Content/Python/adr/adr_graph.py:193-197 | the chain ends at the start package and each later package's recorded parent is the package before it |
| Explain.StepFor | Content/Python/adr/adr_graph.py:200-206 | a step carries the reason and flags of the package's recorded edge, or `Unknown` and no flags when it has none |
| Explain.ExplainPath | Content/Python/adr/adr_graph.py:184-208 | empty iff the normalised target is not a node; otherwise the first step has reason `ROOT` and no flags, the last is the target, and each later step is the recorded parent edge's step of a child of the step before |
| Explain.LevelBelowNodeCount | Content/Python/adr/adr_graph.py:193-195 | in a well-formed graph a node's level is below the node count, so the parent walk always reaches the root |
| Explain.ChainReachesRoot | Content/Python/adr/adr_graph.py:193-197 | in a well-formed graph the parent chain of a node starts at the root and has one package per level |
| Explain.ExplainBuiltPath | Content/Python/adr/adr_graph.py:184-208 | in a well-formed graph an explanation of a node starts at the root, has level + 1 steps, and each step is the recorded edge from the previous package |
| Tree.LastEdgeBetween | Content/Python/adr/adr_graph.py:216-218 | the looked-up edge is an edge of the list from `a` to `b`, and no later edge joins the same pair (later edges overwrite earlier ones) |
| Tree.ChildHasEdge | Content/Python/adr/adr_graph.py:216-230 | every child in the children map has an edge to look up |
| Tree.ChildNodeOK | Content/Python/adr/adr_graph.py:229-238 | a child node is one level deeper and carries its looked-up edge's reason and flags; it is cyclic exactly when already on the path, a leaf if cyclic, and otherwise has its own edge targets as children, each correct in turn |
| Tree.ChildNodesOK | Content/Python/adr/adr_graph.py:229-239 | the child list names the children in edge order, each correct |
| Tree.SubtreeOK | Content/Python/adr/adr_graph.py:220-241 | a subtree's children are the package's edge targets in edge order, each correct |
| Tree.BuildTreeHierarchyShape | Content/Python/adr/adr_graph.py:211-243 | the tree's root is the root package with reason `ROOT`, its node flags and depth 0, over correct children |
| Tree.TwoCycleProjection | Content/Python/adr/adr_graph.py:229-238 | on the cycle `A -> B -> A` the projection is `A` over `B` over a cyclic leaf `A` |
| Policy.FlaggedTargetsMembers | Content/Python/adr/adr_policy.py:7-11 | a package is a flagged target exactly when some `editor_only` edge points to it |
| Policy.RawViolations | Content/Python/adr/adr_policy.py:7-23 | one violation per entry of the flagged-target list (the target of each `editor_only` edge, in edge order), each about that entry's package |
| Policy.DedupIndices | Content/Python/adr/adr_policy.py:25-33 | the deduplicated list is exactly the subsequence of first occurrences of each key, in order |
| Policy.DedupSpec | Content/Python/adr/adr_policy.py:25-33 | deduplication keeps every key read, only input violations, and never two with the same key |
| Policy.EvaluatePolicies | Content/Python/adr/adr_policy.py:4-35 | there are no more violations than `editor_only` edges |
| Policy.PolicyFields | Content/Python/adr/adr_policy.py:14-22 | every violation is a `NO_EDITOR_DEPS` warning with the fixed message, and its example path is the package sequence of its explanation |
| Policy.PolicyPackages | Content/Python/adr/adr_policy.py:7-12 | the violating packages are exactly the targets of the `editor_only` edges |
| Policy.PolicyOrder | Content/Python/adr/adr_policy.py:25-35 | no package is reported twice, and violations follow the first `editor_only` edge into each package |
| Policy.PolicyCount | Content/Python/adr/adr_policy.py:7-35 | the violation count equals the number of distinct `editor_only` edge targets and is at most the edge count |
| Policy.PolicyIgnoresRoot | Content/Python/adr/adr_policy.py:4-35 | the `root_package` argument does not affect the result |
| Policy.FlaggedTargetPath | Content/Python/adr/adr_graph.py:184-208 | in a well-formed graph, the explanation of a flagged target that is its own package name runs from the root to that target, one package per level |
| Policy.EvaluatePoliciesPaths | Content/Python/adr/adr_policy.py:11-22 | in a well-formed graph, a violation about a package name has an example path from the root to that package, one package per level |
| Preflight.AssetNameFromObjectPath | Content/Python/preflight/preflight_core.py:78-85 | empty input gives `""`; a dot-free path is its own name; otherwise the path is the part before the first `.`, then `.`, then the name |
| Preflight.AssetNameExample | Content/Python/preflight/preflight_core.py:78-85 | `/Game/Foo/Bar.Bar` has asset name `Bar` |
| Preflight.AssetNameOfNormalisedPath | Content/Python/preflight/preflight_core.py:78-85 | the asset name of a normalised dot-free package path is its last `/` segment |
| Preflight.NamingFinding | Content/Python/preflight/preflight_core.py:117-147 | every finding is a warning about its path; missing asset data gives `NAMING_ASSET_DATA_MISSING`; an unruled class gives nothing; a ruled class gives `NAMING_PREFIX_MISMATCH`, with class, prefix and name, iff the name lacks the prefix |
| Preflight.CheckNaming | Content/Python/preflight/preflight_core.py:114-149 | there are at most as many findings as paths |
| Preflight.CheckNamingOrder | Content/Python/preflight/preflight_core.py:114-149 | the findings are the paths' own findings, all warnings, at most one per path, in selection order, missing none |
| Preflight.MissingAssetDataIsReported | Content/Python/preflight/preflight_core.py:118-126 | a selected path whose asset data cannot be read is reported as `NAMING_ASSET_DATA_MISSING` |
| Preflight.SliceTo | Content/Python/preflight/preflight_core.py:169-176 | Python's `xs[:n]` is a prefix of `xs`; for `n ≥ 0` it has `min(n, len(xs))` elements, for negative `n` it drops the last `min(-n, len(xs))` |
| Preflight.UnusedFinding | Content/Python/preflight/preflight_core.py:188-204 | a path is reported iff it is not a `.umap` (either case) and its referencer lookup succeeded with no referencers, as an `UNUSED_POSSIBLE` info |
| Preflight.CapUnused | Content/Python/preflight/preflight_core.py:206-215 | at most 50 findings pass unchanged; more are cut to the first 50 plus one `UNUSED_TRUNCATED` note reporting 50 |
| Preflight.CheckUnusedSpec | Content/Python/preflight/preflight_core.py:179-217 | every `UNUSED_POSSIBLE` finding is about a scanned non-map path with no referencers; the only other finding is a final `UNUSED_TRUNCATED`, present iff more than 50 paths qualified |
| Preflight.CheckUnusedOrder | Content/Python/preflight/preflight_core.py:179-217 | the findings follow scan order: of two findings, the second an `UNUSED_POSSIBLE`, the first is about an earlier scanned path |
| Preflight.UnusedFlaggedCount | Content/Python/preflight/preflight_core.py:294-297 | `unused_flagged_count` is the number of qualifying paths, capped at 50 |
| Preflight.ViolationFinding | Content/Python/preflight/preflight_core.py:240-247 | a finding is a warning iff its violation's severity is `"warning"` and an error otherwise; it keeps code, message, package and example path |
| Preflight.PolicyFindingsFacts | Content/Python/preflight/preflight_core.py:238-247 | policy findings are `NO_EDITOR_DEPS` warnings about `editor_only` edge targets, never two about the same package |
| Preflight.CheckDependencyPolicies | Content/Python/preflight/preflight_core.py:224-256 | the graph satisfies `Builder.Built` for the root, depth and cap: every clause of `build_dependency_graph`'s contract, including the FIFO expansion order and the node-cap stop rule, which together fix its edges, parent links and truncation flag; findings are the mapped policy violations of that graph, in order, all `NO_EDITOR_DEPS` warnings about distinct flagged targets; stats copy the graph's counts and truncation flag |
| Preflight.StatusOf | Content/Python/preflight/preflight_core.py:299-303 | `fail` iff some finding is an error; `warn` iff none is an error and some is a warning; `pass` iff all are info |
| Preflight.StatusMonotone | Content/Python/preflight/preflight_core.py:299-303 | appending findings never improves the verdict |
| Preflight.CheckSelected | Content/Python/preflight/preflight_core.py:279-291 | for a non-empty selection there is a graph satisfying `Builder.Built` for the first path with the default cap of 600, such that the findings are the naming findings followed by that graph's mapped policy violations, and the stats are its counts |
| Preflight.Conclude | Content/Python/preflight/preflight_core.py:293-314 | the report's findings are the earlier findings followed by the unused findings, the unused count is theirs (≤ 50), the other stats are passed through, and the verdict is `fail` iff some error and `pass` iff all info |
| Preflight.RunPreflight | Content/Python/preflight/preflight_core.py:263-314 | an empty selection gives no root, status `fail` and the findings `NO_SELECTION` followed by the unused findings, with no ADR stats; otherwise the root is the first path and there is a graph satisfying `Builder.Built` (FIFO order and the cap of 600 included) for it such that the findings are the naming findings, then its mapped policy violations, then the unused findings, and the ADR stats are its counts; the unused findings are counted (≤ 50); the verdict is `fail` iff some error and `pass` iff all info |

## Left out

- Editor API calls are not modelled. The asset registry, `find_asset_data`, the class
  lookup, the selection, the asset listing and the referencer lookup become parameters:
  a finite dependency map, total functions, `Option` results for calls that can fail,
  and sequences.
- `get_asset_class_name`'s exception handling is not modelled. Its result is whatever
  the injected class lookup returns.
- `_list_game_assets` is not modelled. Its listing is a parameter, and the model applies
  the `[:limit]` slice to it.
- File output (`save_report_files`, `_write_json`, `_write_text`, `_saved_reports_dir`),
  `to_markdown`, `adr/adr_report.py` and the editor scripts are left out. They are
  I/O and templating.
- The report's timestamp and duration are left out. They are wall-clock time and
  float rounding.
- Builder.BuildDependencyGraph: does not bound the node count by `max_nodes`, because
  neither does the source. The cap is only checked before an expansion, so one expansion
  can overshoot it. `Builder.QueueOrder` states what the check does guarantee.
- Explain.Chain: takes fuel, which the source's loop does not have. `ExplainPath` passes
  the node count. `Explain.ChainReachesRoot` shows that this is always enough on a
  well-formed graph. On a malformed graph with a parent cycle the source would loop
  forever, while the model stops.
- Tree.ChildNode: adds a cycle guard that the source lacks (see above). It also does not
  reproduce the `KeyError` the source raises for a child missing from `nodes`, because
  in a built graph every edge target is a node.
- Preflight.UnusedFinding: lowercases ASCII letters only. Non-ASCII lowering cannot
  produce the ASCII suffix `.umap`.
- Preflight.CheckDependencyPolicies: also returns the built graph, so that its contract
  can speak about it.
- Policy.PolicyIgnoresRoot: holds by definition, since the model never reads the
  argument.
- Policy.EvaluatePoliciesPaths: requires the violating package to be its own package
  name. `explain_path` normalises its target, so a target with a `.`, edge whitespace or
  a quote is explained under a different name.
