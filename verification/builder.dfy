/** `build_dependency_graph` of `adr/adr_graph.py`: a breadth-first walk from the root
    package over an injected dependency source, bounded by a depth limit and a node cap.

    The walk is modelled in two layers. `AddDependency` is one iteration of the inner
    `for dep, kind in deps.items()` loop and `Expand` folds it over one package's combined
    targets; the lemmas about `Expand` say what one expansion does to the state. The
    method `BuildDependencyGraph` is the outer `while queue` loop, whose invariant `Inv`
    is kept by `Expand` (lemma `ExpandKeepsInv`). */
module Builder {
  import opened Wrappers
  import opened Paths
  import opened Classify
  import opened Graph

  /** The fixed inputs of one walk: the root package, the dependency source, the class
      lookup (the asset-registry call, injected as a total function) and the depth limit. */
  datatype Context = Context(root: Package, src: DependencySource, classOf: Package -> string,
                             maxDepth: int)

  /** The mutable locals of the builder. `visited` and `queue` are the BFS bookkeeping;
      a queue entry is a package with the depth it was discovered at. */
  datatype BuildState = BuildState(
    nodes: map<Package, Node>,
    edges: seq<Edge>,
    parents: map<Package, Package>,
    edgeByChild: map<Package, Edge>,
    visited: set<Package>,
    queue: seq<(Package, nat)>)

  /** One package's combined dependency list: the hard/soft merge of its registry entry. */
  function Combined(src: DependencySource, p: Package): seq<(Package, DepKind)> {
    CombineDeps(Dependencies(src, p).0, Dependencies(src, p).1)
  }

  /** The state before the loop: only the root is a node, visited and queued at depth 0. */
  function InitialState(cx: Context): BuildState {
    BuildState(map[cx.root := MakeNode(cx.root, cx.classOf(cx.root))], [], map[], map[],
               {cx.root}, [(cx.root, 0)])
  }

  /** One iteration of the inner loop while expanding `current`, dequeued at `depth`: skip
      a self-reference; otherwise make sure the target is a node, append the edge, record
      it as the target's parent link unless one exists, and enqueue the target unless it
      was already visited. */
  function AddDependency(cx: Context, st: BuildState, current: Package, depth: nat,
                         dep: (Package, DepKind)): BuildState
  {
    var (d, k) := dep;
    if d == current then st
    else
      var e := MakeEdge(cx.root, current, d, k, depth + 1);
      var nodes := if d in st.nodes then st.nodes else st.nodes[d := MakeNode(d, cx.classOf(d))];
      var firstInto := d !in st.parents;
      var parents := if firstInto then st.parents[d := current] else st.parents;
      var edgeByChild := if firstInto then st.edgeByChild[d := e] else st.edgeByChild;
      var unseen := d !in st.visited;
      var visited := if unseen then st.visited + {d} else st.visited;
      var queue := if unseen then st.queue + [(d, depth + 1)] else st.queue;
      BuildState(nodes, st.edges + [e], parents, edgeByChild, visited, queue)
  }

  /** The whole inner loop: `AddDependency` for each combined target in order. */
  function Expand(cx: Context, st: BuildState, current: Package, depth: nat,
                  cs: seq<(Package, DepKind)>): BuildState
    decreases |cs|
  {
    if cs == [] then st
    else AddDependency(cx, Expand(cx, st, current, depth, cs[..|cs| - 1]), current, depth, cs[|cs| - 1])
  }

  // ---------------------------------------------------------------------------------
  // The pieces of the loop invariant
  // ---------------------------------------------------------------------------------

  /** Nodes are exactly the visited packages, each recorded by `ensure_node`. */
  ghost predicate NodesOK(cx: Context, st: BuildState) {
    && st.visited == st.nodes.Keys
    && forall p :: p in st.nodes ==> st.nodes[p] == MakeNode(p, cx.classOf(p))
  }

  /** The parent links: one per child, each the first edge into that child. */
  ghost predicate LinksOK(st: BuildState) {
    && st.parents.Keys == st.edgeByChild.Keys
    && st.parents.Keys <= st.visited
    && (forall n :: n in st.parents ==> st.parents[n] == st.edgeByChild[n].from)
    && (forall n :: FirstEdgeTo(st.edges, n) == Get(st.edgeByChild, n))
  }

  /** The root is visited, and every other visited package has a parent link. */
  ghost predicate Discovered(cx: Context, st: BuildState) {
    && cx.root in st.visited
    && forall p :: p in st.visited && p != cx.root ==> p in st.parents
  }

  function StateLevel(cx: Context, st: BuildState, p: Package): nat {
    LevelOf(cx.root, st.edgeByChild, p)
  }

  /** The edges leaving a package are all of its expansion if it has been expanded, and
      none otherwise. */
  ghost predicate ViewOK(cx: Context, st: BuildState, expanded: set<Package>) {
    forall p :: EdgesFrom(st.edges, p)
                == if p in expanded then ExpansionEdges(cx.root, p, StateLevel(cx, st, p), Combined(cx.src, p))
                   else []
  }

  /** Every target of an expanded package has been visited. */
  ghost predicate ClosedOK(cx: Context, st: BuildState, expanded: set<Package>) {
    && expanded <= st.visited
    && forall p, q :: p in expanded && q in PackagesOf(Combined(cx.src, p)) ==> q in st.visited
  }

  /** Every queue entry is a visited, unexpanded package at its discovery level. */
  ghost predicate QueueEntriesOK(cx: Context, st: BuildState, expanded: set<Package>) {
    forall i :: 0 <= i < |st.queue| ==>
      && st.queue[i].0 in st.visited && st.queue[i].0 !in expanded
      && st.queue[i].1 == StateLevel(cx, st, st.queue[i].0)
  }

  /** Expanded packages lie below the depth limit. */
  ghost predicate ExpandedShallow(cx: Context, st: BuildState, expanded: set<Package>) {
    forall p :: p in expanded ==> StateLevel(cx, st, p) < cx.maxDepth
  }

  /** A visited package is expanded, still queued, or at or beyond the depth limit. */
  ghost predicate QueueCovers(cx: Context, st: BuildState, expanded: set<Package>) {
    forall p :: p in st.visited ==>
      p in expanded || p in PackagesOf(st.queue) || StateLevel(cx, st, p) >= cx.maxDepth
  }

  /** The queue holds distinct packages, and the three facts above hold. */
  ghost predicate QueueOK(cx: Context, st: BuildState, expanded: set<Package>) {
    && Distinct(PackagesOf(st.queue))
    && QueueEntriesOK(cx, st, expanded)
    && ExpandedShallow(cx, st, expanded)
    && QueueCovers(cx, st, expanded)
  }

  ghost predicate Inv(cx: Context, st: BuildState, expanded: set<Package>) {
    && NodesOK(cx, st) && LinksOK(st) && Discovered(cx, st)
    && ViewOK(cx, st, expanded) && ClosedOK(cx, st, expanded) && QueueOK(cx, st, expanded)
  }

  // ---------------------------------------------------------------------------------
  // What one expansion does
  // ---------------------------------------------------------------------------------

  /** One inner iteration appends the edge to its target unless the target is the
      expanded package itself. */
  lemma AddEdge(cx: Context, st: BuildState, current: Package, depth: nat, dep: (Package, DepKind))
    ensures AddDependency(cx, st, current, depth, dep).edges
            == st.edges + (if dep.0 == current then [] else [MakeEdge(cx.root, current, dep.0, dep.1, depth + 1)])
  {
    if dep.0 == current {
      assert st.edges + [] == st.edges;
    }
  }

  /** The edges an expansion appends are exactly the expansion edges of its targets. */
  lemma {:induction false} ExpandEdges(cx: Context, st: BuildState, current: Package, depth: nat,
                                       cs: seq<(Package, DepKind)>)
    ensures Expand(cx, st, current, depth, cs).edges
            == st.edges + ExpansionEdges(cx.root, current, depth, cs)
    decreases |cs|
  {
    if cs == [] {
      assert ExpansionEdges(cx.root, current, depth, cs) == [];
      assert st.edges + [] == st.edges;
    } else {
      var init := cs[..|cs| - 1];
      var c := cs[|cs| - 1];
      assert cs == init + [c];
      ExpandEdges(cx, st, current, depth, init);
      var prev := Expand(cx, st, current, depth, init);
      AddEdge(cx, prev, current, depth, c);
      ExpansionEdgesAppend(cx.root, current, depth, init, c);
      var tail := if c.0 == current then [] else [MakeEdge(cx.root, current, c.0, c.1, depth + 1)];
      assert st.edges + ExpansionEdges(cx.root, current, depth, init) + tail
             == st.edges + (ExpansionEdges(cx.root, current, depth, init) + tail);
    }
  }

  /** An expansion visits exactly its targets other than the expanded package, and makes
      each of them a node. */
  lemma {:induction false} ExpandNodes(cx: Context, st: BuildState, current: Package, depth: nat,
                                       cs: seq<(Package, DepKind)>)
    requires NodesOK(cx, st)
    ensures var e := Expand(cx, st, current, depth, cs);
      && NodesOK(cx, e)
      && forall q :: q in e.visited <==> q in st.visited || (q in PackagesOf(cs) && q != current)
    decreases |cs|
  {
    if cs != [] {
      var init := cs[..|cs| - 1];
      ExpandNodes(cx, st, current, depth, init);
      assert PackagesOf(cs) == PackagesOf(init) + [cs[|cs| - 1].0];
    }
  }

  /** An expansion keeps every existing parent link and keeps each link the first edge
      into its child. */
  lemma {:induction false} ExpandLinks(cx: Context, st: BuildState, current: Package, depth: nat,
                                       cs: seq<(Package, DepKind)>)
    requires LinksOK(st)
    ensures var e := Expand(cx, st, current, depth, cs);
      && LinksOK(e)
      && forall n :: n in st.edgeByChild ==> n in e.edgeByChild && e.edgeByChild[n] == st.edgeByChild[n]
    decreases |cs|
  {
    if cs != [] {
      var init := cs[..|cs| - 1];
      ExpandLinks(cx, st, current, depth, init);
      var prev := Expand(cx, st, current, depth, init);
      var (d, k) := cs[|cs| - 1];
      if d != current {
        var edge := MakeEdge(cx.root, current, d, k, depth + 1);
        forall n
          ensures FirstEdgeTo(prev.edges + [edge], n)
                  == Get(if d !in prev.parents then prev.edgeByChild[d := edge] else prev.edgeByChild, n)
        {
          FirstEdgeToAppend(prev.edges, edge, n);
        }
      }
    }
  }

  /** Every package an expansion visits for the first time gets a parent link: the edge
      from the expanded package, one level deeper. */
  lemma {:induction false} ExpandDiscovers(cx: Context, st: BuildState, current: Package, depth: nat,
                                           cs: seq<(Package, DepKind)>)
    requires LinksOK(st)
    ensures var e := Expand(cx, st, current, depth, cs);
      && st.visited <= e.visited
      && forall q :: q in e.visited && q !in st.visited ==>
           && q in e.edgeByChild && e.edgeByChild[q].from == current
           && e.edgeByChild[q].depth == depth + 1
    decreases |cs|
  {
    if cs != [] {
      var init := cs[..|cs| - 1];
      ExpandDiscovers(cx, st, current, depth, init);
      ExpandLinks(cx, st, current, depth, init);
      var prev := Expand(cx, st, current, depth, init);
      var e := Expand(cx, st, current, depth, cs);
      var (d, k) := cs[|cs| - 1];
      if d != current {
        forall q | q in e.visited && q !in st.visited
          ensures q in e.edgeByChild && e.edgeByChild[q].from == current
          ensures e.edgeByChild[q].depth == depth + 1
        {
          if q in prev.visited {
            assert q in prev.edgeByChild;
            assert e.edgeByChild[q] == prev.edgeByChild[q];
          } else {
            assert q == d && d !in prev.parents;
          }
        }
      }
    }
  }

  /** One inner iteration visits and enqueues its target exactly when it is neither the
      expanded package nor already visited. */
  lemma StepQueue(cx: Context, st: BuildState, current: Package, depth: nat, dep: (Package, DepKind))
    ensures var e := AddDependency(cx, st, current, depth, dep);
      && (dep.0 != current && dep.0 !in st.visited ==>
            e.visited == st.visited + {dep.0} && e.queue == st.queue + [(dep.0, depth + 1)])
      && (dep.0 == current || dep.0 in st.visited ==> e.visited == st.visited && e.queue == st.queue)
  {
  }

  /** An expansion only adds to the visited set and the back of the queue, one queue entry
      per newly visited package, each a newly visited package one level deeper. */
  lemma {:induction false} ExpandQueueShape(cx: Context, st: BuildState, current: Package, depth: nat,
                                            cs: seq<(Package, DepKind)>)
    ensures var e := Expand(cx, st, current, depth, cs);
      && st.visited <= e.visited
      && |st.queue| <= |e.queue| && e.queue[..|st.queue|] == st.queue
      && |e.visited| - |st.visited| == |e.queue| - |st.queue|
      && (forall j :: |st.queue| <= j < |e.queue| ==>
            e.queue[j].0 in e.visited && e.queue[j].0 !in st.visited && e.queue[j].1 == depth + 1)
    decreases |cs|
  {
    if cs != [] {
      var init := cs[..|cs| - 1];
      ExpandQueueShape(cx, st, current, depth, init);
      var prev := Expand(cx, st, current, depth, init);
      var dep := cs[|cs| - 1];
      StepQueue(cx, prev, current, depth, dep);
      if dep.0 != current && dep.0 !in prev.visited {
        var e := Expand(cx, st, current, depth, cs);
        assert e.queue[..|st.queue|] == prev.queue[..|st.queue|];
        assert |e.visited| == |prev.visited| + 1;
      }
    }
  }

  /** Appending a package that no entry of `q[n..]` holds keeps `q[n..]` duplicate-free. */
  lemma AppendFresh(q: seq<(Package, nat)>, n: nat, visited: set<Package>, entry: (Package, nat))
    requires n <= |q| && Distinct(PackagesOf(q[n..]))
    requires forall j :: n <= j < |q| ==> q[j].0 in visited
    requires entry.0 !in visited
    ensures PackagesOf((q + [entry])[n..]) == PackagesOf(q[n..]) + [entry.0]
    ensures Distinct(PackagesOf((q + [entry])[n..]))
  {
    var before := PackagesOf(q[n..]);
    assert (q + [entry])[n..] == q[n..] + [entry];
    forall x | x in before
      ensures x !in [entry.0]
    {
      var i :| 0 <= i < |before| && before[i] == x;
      assert q[n + i].0 == x;
    }
    DistinctConcat(before, [entry.0]);
  }

  /** The packages an expansion enqueues are distinct and include every newly visited one. */
  lemma {:induction false} ExpandQueueFresh(cx: Context, st: BuildState, current: Package, depth: nat,
                                            cs: seq<(Package, DepKind)>)
    ensures var e := Expand(cx, st, current, depth, cs);
      && |st.queue| <= |e.queue|
      && Distinct(PackagesOf(e.queue[|st.queue|..]))
      && (forall q :: q in e.visited && q !in st.visited ==> q in PackagesOf(e.queue[|st.queue|..]))
    decreases |cs|
  {
    ExpandQueueShape(cx, st, current, depth, cs);
    if cs != [] {
      var init := cs[..|cs| - 1];
      ExpandQueueFresh(cx, st, current, depth, init);
      ExpandQueueShape(cx, st, current, depth, init);
      var prev := Expand(cx, st, current, depth, init);
      var dep := cs[|cs| - 1];
      StepQueue(cx, prev, current, depth, dep);
      if dep.0 != current && dep.0 !in prev.visited {
        AppendFresh(prev.queue, |st.queue|, prev.visited, (dep.0, depth + 1));
      }
    }
  }

  /** An expansion enqueues, in order and once each, exactly the packages it visits for the
      first time, at one level below the expanded package. */
  lemma ExpandQueue(cx: Context, st: BuildState, current: Package, depth: nat,
                    cs: seq<(Package, DepKind)>)
    ensures var e := Expand(cx, st, current, depth, cs);
      && st.visited <= e.visited
      && |st.queue| <= |e.queue| && e.queue[..|st.queue|] == st.queue
      && (forall j :: |st.queue| <= j < |e.queue| ==>
            e.queue[j].0 in e.visited && e.queue[j].0 !in st.visited && e.queue[j].1 == depth + 1)
      && Distinct(PackagesOf(e.queue[|st.queue|..]))
      && (forall q :: q in e.visited && q !in st.visited ==> q in PackagesOf(e.queue[|st.queue|..]))
      && |e.visited| - |st.visited| == |e.queue| - |st.queue|
  {
    ExpandQueueShape(cx, st, current, depth, cs);
    ExpandQueueFresh(cx, st, current, depth, cs);
  }

  // ---------------------------------------------------------------------------------
  // One iteration of the outer loop keeps the invariant
  // ---------------------------------------------------------------------------------

  /** The loop state just before an expansion: the invariant holds and the head of the
      queue lies below the depth limit. */
  ghost predicate ReadyToExpand(cx: Context, st: BuildState, expanded: set<Package>) {
    Inv(cx, st, expanded) && st.queue != [] && st.queue[0].1 < cx.maxDepth
  }

  function Dequeued(st: BuildState): BuildState
    requires st.queue != []
  {
    st.(queue := st.queue[1..])
  }

  /** The state after dequeuing the head of the queue and expanding it. */
  function NextState(cx: Context, st: BuildState): BuildState
    requires st.queue != []
  {
    Expand(cx, Dequeued(st), st.queue[0].0, st.queue[0].1, Combined(cx.src, st.queue[0].0))
  }

  /** Levels of packages already visited never change. */
  lemma LevelsStable(cx: Context, st: BuildState, e: BuildState)
    requires Discovered(cx, st) && LinksOK(st)
    requires forall n :: n in st.edgeByChild ==> n in e.edgeByChild && e.edgeByChild[n] == st.edgeByChild[n]
    ensures forall p :: p in st.visited ==> StateLevel(cx, e, p) == StateLevel(cx, st, p)
  {
  }

  /** The head of the queue is visited, not yet expanded, at its recorded level. */
  ghost predicate HeadOK(cx: Context, st: BuildState, expanded: set<Package>) {
    && st.queue != []
    && st.queue[0].0 in st.visited && st.queue[0].0 !in expanded
    && st.queue[0].1 == StateLevel(cx, st, st.queue[0].0)
  }

  /** The rest of the old queue is the front of the new one. */
  ghost predicate KeepsRest(st: BuildState, e: BuildState)
    requires st.queue != []
  {
    |st.queue| - 1 <= |e.queue| && e.queue[..|st.queue| - 1] == st.queue[1..]
  }

  /** Every newly visited package has a parent link one level below `depth`. */
  ghost predicate NewLinked(st: BuildState, e: BuildState, depth: nat) {
    forall q :: q in e.visited && q !in st.visited ==>
      q in e.edgeByChild && e.edgeByChild[q].depth == depth + 1
  }

  /** Every appended queue entry is a newly visited package one level below `depth`. */
  ghost predicate AppendsNew(st: BuildState, e: BuildState, depth: nat)
    requires st.queue != []
  {
    forall j :: |st.queue| - 1 <= j < |e.queue| ==>
      e.queue[j].0 in e.visited && e.queue[j].0 !in st.visited && e.queue[j].1 == depth + 1
  }

  /** The appended entries are distinct and hold every newly visited package. */
  ghost predicate NewQueued(st: BuildState, e: BuildState)
    requires st.queue != [] && |st.queue| - 1 <= |e.queue|
  {
    && Distinct(PackagesOf(e.queue[|st.queue| - 1..]))
    && (forall q :: q in e.visited && q !in st.visited ==> q in PackagesOf(e.queue[|st.queue| - 1..]))
  }

  /** What the fold lemmas say about the queue and the parent links of the state `e` after
      expanding the head of `st`'s queue. */
  ghost predicate QueueGrows(cx: Context, st: BuildState, e: BuildState)
    requires st.queue != []
  {
    var depth := st.queue[0].1;
    && st.visited <= e.visited
    && NewLinked(st, e, depth)
    && KeepsRest(st, e)
    && AppendsNew(st, e, depth)
    && NewQueued(st, e)
    && |e.visited| - |st.visited| == |e.queue| - (|st.queue| - 1)
  }

  /** What the fold lemmas say about the state `e` after expanding the head of `st`'s
      queue, stated without mentioning the fold itself. */
  ghost predicate Expanded(cx: Context, st: BuildState, e: BuildState)
    requires st.queue != []
  {
    var (current, depth) := st.queue[0];
    && NodesOK(cx, e) && LinksOK(e)
    && e.edges == st.edges + ExpansionEdges(cx.root, current, depth, Combined(cx.src, current))
    && (forall q :: q in e.visited <==> q in st.visited || (q in PackagesOf(Combined(cx.src, current)) && q != current))
    && (forall n :: n in st.edgeByChild ==> n in e.edgeByChild && e.edgeByChild[n] == st.edgeByChild[n])
    && QueueGrows(cx, st, e)
  }

  lemma NextIsExpanded(cx: Context, st: BuildState)
    requires st.queue != [] && NodesOK(cx, st) && LinksOK(st)
    ensures Expanded(cx, st, NextState(cx, st))
  {
    var (current, depth) := st.queue[0];
    var d := Dequeued(st);
    var cs := Combined(cx.src, current);
    ExpandEdges(cx, d, current, depth, cs);
    ExpandNodes(cx, d, current, depth, cs);
    ExpandLinks(cx, d, current, depth, cs);
    ExpandDiscovers(cx, d, current, depth, cs);
    ExpandQueue(cx, d, current, depth, cs);
  }

  lemma StepKeepsDiscovered(cx: Context, st: BuildState, e: BuildState, expanded: set<Package>)
    requires HeadOK(cx, st, expanded) && LinksOK(st) && Discovered(cx, st)
    requires Expanded(cx, st, e)
    ensures Discovered(cx, e)
    ensures forall p :: p in st.visited ==> StateLevel(cx, e, p) == StateLevel(cx, st, p)
  {
    LevelsStable(cx, st, e);
    forall p | p in e.visited && p != cx.root
      ensures p in e.parents
    {
      if p in st.visited {
        assert p in st.edgeByChild;
      }
    }
  }

  /** Appending one expansion's edges to the list extends the view of the expanded
      package by exactly those edges. */
  lemma StepKeepsView(cx: Context, st: BuildState, e: BuildState, expanded: set<Package>,
                      current: Package, depth: nat)
    requires ViewOK(cx, st, expanded) && current !in expanded
    requires forall p :: p in expanded ==> StateLevel(cx, e, p) == StateLevel(cx, st, p)
    requires StateLevel(cx, e, current) == depth
    requires e.edges == st.edges + ExpansionEdges(cx.root, current, depth, Combined(cx.src, current))
    ensures ViewOK(cx, e, expanded + {current})
  {
    var xs := ExpansionEdges(cx.root, current, depth, Combined(cx.src, current));
    ExpansionEdgesLeave(cx.root, current, depth, Combined(cx.src, current));
    forall p
      ensures EdgesFrom(e.edges, p)
              == if p in expanded + {current}
                 then ExpansionEdges(cx.root, p, StateLevel(cx, e, p), Combined(cx.src, p))
                 else []
    {
      EdgesFromConcat(st.edges, xs, current, p);
      if p == current {
        assert EdgesFrom(st.edges, p) == [];
        assert [] + xs == xs;
      } else if p in expanded {
        assert StateLevel(cx, e, p) == StateLevel(cx, st, p);
      }
    }
  }

  lemma StepKeepsClosed(cx: Context, st: BuildState, e: BuildState, expanded: set<Package>)
    requires HeadOK(cx, st, expanded) && ClosedOK(cx, st, expanded)
    requires Expanded(cx, st, e)
    ensures ClosedOK(cx, e, expanded + {st.queue[0].0})
  {
  }

  /** The packages queued after an expansion: the rest of the old queue, then the
      appended ones. */
  lemma QueueSplit(st: BuildState, e: BuildState)
    requires st.queue != [] && KeepsRest(st, e)
    ensures PackagesOf(e.queue)
            == PackagesOf(st.queue)[1..] + PackagesOf(e.queue[|st.queue| - 1..])
  {
    var n := |st.queue| - 1;
    assert e.queue == st.queue[1..] + e.queue[n..];
  }

  /** The queue after an expansion is the rest of the old queue followed by the packages
      the expansion discovered, all distinct. */
  lemma StepQueueDistinct(st: BuildState, e: BuildState)
    requires st.queue != [] && KeepsRest(st, e) && NewQueued(st, e)
    requires Distinct(PackagesOf(st.queue))
    requires forall i :: 0 <= i < |st.queue| ==> st.queue[i].0 in st.visited
    requires forall j :: |st.queue| - 1 <= j < |e.queue| ==> e.queue[j].0 !in st.visited
    ensures Distinct(PackagesOf(e.queue))
  {
    var n := |st.queue| - 1;
    QueueSplit(st, e);
    var a := PackagesOf(st.queue)[1..];
    var b := PackagesOf(e.queue[n..]);
    QueuedIn(st.queue[1..], st.visited);
    assert PackagesOf(st.queue[1..]) == a;
    QueuedOutside(e.queue[n..], st.visited);
    DistinctConcat(a, b);
  }

  /** The packages of queue entries that are all in `s` are in `s`. */
  lemma QueuedIn(q: seq<(Package, nat)>, s: set<Package>)
    requires forall i :: 0 <= i < |q| ==> q[i].0 in s
    ensures forall x :: x in PackagesOf(q) ==> x in s
  {
  }

  /** The packages of queue entries that all lie outside `s` lie outside `s`. */
  lemma QueuedOutside(q: seq<(Package, nat)>, s: set<Package>)
    requires forall i :: 0 <= i < |q| ==> q[i].0 !in s
    ensures forall x :: x in PackagesOf(q) ==> x !in s
  {
  }

  /** After an expansion the kept queue entries and the appended ones are visited,
      unexpanded packages at their discovery level. */
  lemma StepQueueEntries(cx: Context, st: BuildState, e: BuildState, expanded: set<Package>)
    requires HeadOK(cx, st, expanded) && QueueEntriesOK(cx, st, expanded)
    requires Distinct(PackagesOf(st.queue))
    requires expanded <= st.visited && cx.root in st.visited && st.visited <= e.visited
    requires forall p :: p in st.visited ==> StateLevel(cx, e, p) == StateLevel(cx, st, p)
    requires KeepsRest(st, e) && AppendsNew(st, e, st.queue[0].1) && NewLinked(st, e, st.queue[0].1)
    ensures QueueEntriesOK(cx, e, expanded + {st.queue[0].0})
  {
    var n := |st.queue| - 1;
    forall i | 0 <= i < |e.queue|
      ensures e.queue[i].0 in e.visited && e.queue[i].0 !in expanded + {st.queue[0].0}
      ensures e.queue[i].1 == StateLevel(cx, e, e.queue[i].0)
    {
      if i < n {
        assert e.queue[i] == st.queue[i + 1];
        assert PackagesOf(st.queue)[i + 1] != PackagesOf(st.queue)[0];
      } else {
        assert e.queue[i].0 != cx.root;
      }
    }
  }

  /** The expanded package was below the depth limit, and no level moves. */
  lemma StepExpandedShallow(cx: Context, st: BuildState, e: BuildState, expanded: set<Package>)
    requires HeadOK(cx, st, expanded) && ExpandedShallow(cx, st, expanded)
    requires expanded <= st.visited && st.queue[0].1 < cx.maxDepth
    requires forall p :: p in st.visited ==> StateLevel(cx, e, p) == StateLevel(cx, st, p)
    ensures ExpandedShallow(cx, e, expanded + {st.queue[0].0})
  {
  }

  /** A package visited before the expansion is still covered, and a newly visited one
      sits in the appended part of the queue. */
  lemma StepQueueCovers(cx: Context, st: BuildState, e: BuildState, expanded: set<Package>)
    requires st.queue != [] && QueueCovers(cx, st, expanded)
    requires forall p :: p in st.visited ==> StateLevel(cx, e, p) == StateLevel(cx, st, p)
    requires KeepsRest(st, e) && NewQueued(st, e)
    ensures QueueCovers(cx, e, expanded + {st.queue[0].0})
  {
    QueueSplit(st, e);
    StillQueued(st.queue);
  }

  /** A queued package other than the head is still queued once the head is removed. */
  lemma StillQueued(q: seq<(Package, nat)>)
    requires q != []
    ensures forall p :: p in PackagesOf(q) && p != q[0].0 ==> p in PackagesOf(q)[1..]
  {
    forall p | p in PackagesOf(q) && p != q[0].0
      ensures p in PackagesOf(q)[1..]
    {
      var i :| 0 <= i < |q| && PackagesOf(q)[i] == p;
      assert PackagesOf(q)[1..][i - 1] == p;
    }
  }

  lemma StepKeepsQueue(cx: Context, st: BuildState, e: BuildState, expanded: set<Package>)
    requires HeadOK(cx, st, expanded) && QueueOK(cx, st, expanded) && expanded <= st.visited
    requires cx.root in st.visited && st.queue[0].1 < cx.maxDepth
    requires forall p :: p in st.visited ==> StateLevel(cx, e, p) == StateLevel(cx, st, p)
    requires QueueGrows(cx, st, e)
    ensures QueueOK(cx, e, expanded + {st.queue[0].0})
  {
    StepQueueDistinct(st, e);
    StepQueueEntries(cx, st, e, expanded);
    StepExpandedShallow(cx, st, e, expanded);
    StepQueueCovers(cx, st, e, expanded);
  }

  /** The whole invariant survives one expansion, the expanded package joining `expanded`. */
  lemma ExpandKeepsInv(cx: Context, st: BuildState, expanded: set<Package>)
    requires ReadyToExpand(cx, st, expanded)
    ensures Inv(cx, NextState(cx, st), expanded + {st.queue[0].0})
  {
    var e := NextState(cx, st);
    assert PackagesOf(st.queue)[0] == st.queue[0].0;
    assert HeadOK(cx, st, expanded);
    NextIsExpanded(cx, st);
    StepKeepsDiscovered(cx, st, e, expanded);
    StepKeepsView(cx, st, e, expanded, st.queue[0].0, st.queue[0].1);
    StepKeepsClosed(cx, st, e, expanded);
    StepKeepsQueue(cx, st, e, expanded);
  }

  /** Dequeuing a package at or beyond the depth limit without expanding it (the
      `continue` branch) keeps the invariant. */
  lemma SkipKeepsInv(cx: Context, st: BuildState, expanded: set<Package>)
    requires Inv(cx, st, expanded) && st.queue != [] && st.queue[0].1 >= cx.maxDepth
    ensures Inv(cx, Dequeued(st), expanded)
  {
    SkipKeepsQueue(cx, st, expanded);
  }

  lemma SkipKeepsQueue(cx: Context, st: BuildState, expanded: set<Package>)
    requires QueueOK(cx, st, expanded) && st.queue != [] && st.queue[0].1 >= cx.maxDepth
    ensures QueueOK(cx, Dequeued(st), expanded)
  {
    var d := Dequeued(st);
    assert PackagesOf(d.queue) == PackagesOf(st.queue)[1..];
    SkipKeepsCovers(cx, st, expanded);
  }

  /** Dropping a head at or beyond the depth limit leaves every visited package shallow
      enough to be expanded or queued. */
  lemma SkipKeepsCovers(cx: Context, st: BuildState, expanded: set<Package>)
    requires QueueCovers(cx, st, expanded) && st.queue != [] && st.queue[0].1 >= cx.maxDepth
    requires st.queue[0].1 == StateLevel(cx, st, st.queue[0].0)
    ensures QueueCovers(cx, Dequeued(st), expanded)
  {
    var d := Dequeued(st);
    assert PackagesOf(d.queue) == PackagesOf(st.queue)[1..];
    forall p | p in d.visited
      ensures p in expanded || p in PackagesOf(d.queue) || StateLevel(cx, d, p) >= cx.maxDepth
    {
      assert StateLevel(cx, d, p) == StateLevel(cx, st, p);
      if p !in expanded && StateLevel(cx, st, p) < cx.maxDepth {
        var i :| 0 <= i < |st.queue| && PackagesOf(st.queue)[i] == p;
        assert i != 0;
        assert PackagesOf(d.queue)[i - 1] == p;
      }
    }
  }

  lemma InitialInv(cx: Context)
    ensures Inv(cx, InitialState(cx), {})
  {
    var st := InitialState(cx);
    assert PackagesOf(st.queue) == [cx.root];
    forall n
      ensures FirstEdgeTo(st.edges, n) == Get(st.edgeByChild, n)
    {
    }
  }

  // ---------------------------------------------------------------------------------
  // Termination
  // ---------------------------------------------------------------------------------

  /** Every package some registry entry lists as a dependency. */
  ghost function Mentioned(src: DependencySource): set<Package> {
    set q, p | q in src && p in src[q].0 + src[q].1 :: p
  }

  /** The packages a walk can ever visit: the root and the mentioned ones. */
  ghost function Universe(cx: Context): set<Package> {
    {cx.root} + Mentioned(cx.src)
  }

  lemma CombinedMentioned(src: DependencySource, p: Package)
    ensures forall q :: q in PackagesOf(Combined(src, p)) ==> q in Mentioned(src)
  {
    var (hard, soft) := Dependencies(src, p);
    CombineDepsTargets(hard, soft);
    forall q | q in PackagesOf(Combined(src, p))
      ensures q in Mentioned(src)
    {
      assert p in src && q in src[p].0 + src[p].1;
    }
  }

  /** An expansion stays inside the universe and either visits a new package or leaves
      the queue one shorter. */
  lemma StepDecreases(cx: Context, st: BuildState, e: BuildState)
    requires st.queue != [] && st.visited <= Universe(cx) && st.visited <= e.visited
    requires forall q :: q in e.visited <==>
               q in st.visited || (q in PackagesOf(Combined(cx.src, st.queue[0].0)) && q != st.queue[0].0)
    requires |e.visited| - |st.visited| == |e.queue| - (|st.queue| - 1)
    ensures e.visited <= Universe(cx)
    ensures |Universe(cx) - e.visited| < |Universe(cx) - st.visited|
            || (|Universe(cx) - e.visited| == |Universe(cx) - st.visited| && |e.queue| < |st.queue|)
  {
    var u := Universe(cx);
    CombinedMentioned(cx.src, st.queue[0].0);
    if e.visited != st.visited {
      var x :| x in e.visited && x !in st.visited;
      ShrinkCardinality(u - e.visited, u - st.visited, x);
    } else {
      assert u - e.visited == u - st.visited;
    }
  }

  /** One full iteration of the expanding branch: the invariant is kept and the
      termination measure goes down. */
  lemma LoopStep(cx: Context, st: BuildState, expanded: set<Package>)
    requires ReadyToExpand(cx, st, expanded) && st.visited <= Universe(cx)
    ensures Inv(cx, NextState(cx, st), expanded + {st.queue[0].0})
    ensures NextState(cx, st).visited <= Universe(cx)
    ensures var e := NextState(cx, st);
      |Universe(cx) - e.visited| < |Universe(cx) - st.visited|
      || (|Universe(cx) - e.visited| == |Universe(cx) - st.visited| && |e.queue| < |st.queue|)
  {
    ExpandKeepsInv(cx, st, expanded);
    NextDecreases(cx, st);
  }

  lemma NextDecreases(cx: Context, st: BuildState)
    requires st.queue != [] && NodesOK(cx, st) && st.visited <= Universe(cx)
    ensures NextState(cx, st).visited <= Universe(cx)
    ensures var e := NextState(cx, st);
      |Universe(cx) - e.visited| < |Universe(cx) - st.visited|
      || (|Universe(cx) - e.visited| == |Universe(cx) - st.visited| && |e.queue| < |st.queue|)
  {
    var d := Dequeued(st);
    var (current, depth) := st.queue[0];
    var cs := Combined(cx.src, current);
    ExpandNodes(cx, d, current, depth, cs);
    ExpandQueueShape(cx, d, current, depth, cs);
    StepDecreases(cx, st, NextState(cx, st));
  }

  // ---------------------------------------------------------------------------------
  // Breadth-first order
  // ---------------------------------------------------------------------------------

  /** The queue is first-in first-out over discovery depths: they never decrease from
      front to back and span at most one level. */
  ghost predicate Layered(q: seq<(Package, nat)>) {
    forall i, j :: 0 <= i < j < |q| ==> q[i].1 <= q[j].1 <= q[i].1 + 1
  }

  /** Edge depths never decrease along the edge list. */
  ghost predicate DepthSorted(es: seq<Edge>) {
    forall i, j :: 0 <= i < j < |es| ==> es[i].depth <= es[j].depth
  }

  /** No recorded edge lies more than one level below a queued package. */
  ghost predicate EdgesWithinQueue(st: BuildState) {
    forall i, j :: 0 <= i < |st.edges| && 0 <= j < |st.queue| ==>
      st.edges[i].depth <= st.queue[j].1 + 1
  }

  /** The breadth-first part of the loop invariant. */
  ghost predicate BfsOK(st: BuildState) {
    Layered(st.queue) && DepthSorted(st.edges) && EdgesWithinQueue(st)
  }

  /** Expanding the head of a layered queue appends edges and queue entries one level
      below it, which keeps the breadth-first order. */
  lemma BfsKept(st: BuildState, e: BuildState, xs: seq<Edge>)
    requires st.queue != [] && BfsOK(st) && KeepsRest(st, e)
    requires e.edges == st.edges + xs
    requires forall i :: 0 <= i < |xs| ==> xs[i].depth == st.queue[0].1 + 1
    requires forall j :: |st.queue| - 1 <= j < |e.queue| ==> e.queue[j].1 == st.queue[0].1 + 1
    ensures BfsOK(e)
  {
    var d := st.queue[0].1;
    var n := |st.queue| - 1;
    forall j | 0 <= j < |e.queue|
      ensures d <= e.queue[j].1 <= d + 1
    {
      if j < n {
        assert e.queue[j] == st.queue[j + 1];
      }
    }
    forall i | 0 <= i < |e.edges|
      ensures e.edges[i].depth <= d + 1
    {
      if i < |st.edges| {
        assert e.edges[i] == st.edges[i];
      } else {
        assert e.edges[i] == xs[i - |st.edges|];
      }
    }
    forall i, j | 0 <= i < j < |e.queue|
      ensures e.queue[i].1 <= e.queue[j].1 <= e.queue[i].1 + 1
    {
      if j < n {
        assert e.queue[i] == st.queue[i + 1] && e.queue[j] == st.queue[j + 1];
      }
    }
    forall i, j | 0 <= i < j < |e.edges|
      ensures e.edges[i].depth <= e.edges[j].depth
    {
      if j < |st.edges| {
        assert e.edges[i] == st.edges[i] && e.edges[j] == st.edges[j];
      } else {
        assert e.edges[j] == xs[j - |st.edges|];
      }
    }
  }

  /** One expansion keeps the breadth-first order. */
  lemma NextKeepsBfs(cx: Context, st: BuildState)
    requires st.queue != [] && BfsOK(st)
    ensures BfsOK(NextState(cx, st))
  {
    var (current, depth) := st.queue[0];
    var d := Dequeued(st);
    var cs := Combined(cx.src, current);
    ExpandEdges(cx, d, current, depth, cs);
    ExpansionEdgesLeave(cx.root, current, depth, cs);
    ExpandQueueShape(cx, d, current, depth, cs);
    BfsKept(st, NextState(cx, st), ExpansionEdges(cx.root, current, depth, cs));
  }

  /** Dequeuing without expanding keeps the breadth-first order. */
  lemma SkipKeepsBfs(st: BuildState)
    requires st.queue != [] && BfsOK(st)
    ensures BfsOK(Dequeued(st))
  {
    var q := Dequeued(st).queue;
    assert forall j :: 0 <= j < |q| ==> q[j] == st.queue[j + 1];
  }

  // ---------------------------------------------------------------------------------
  // Queue order and the node cap
  // ---------------------------------------------------------------------------------

  /** The first occurrence of each package, in order. */
  function Firsts(xs: seq<Package>): (r: seq<Package>)
    ensures Distinct(r)
    ensures forall x :: x in r <==> x in xs
    decreases |xs|
  {
    if xs == [] then []
    else
      var init := xs[..|xs| - 1];
      var x := xs[|xs| - 1];
      assert xs == init + [x];
      if x in init then Firsts(init)
      else
        DistinctConcat(Firsts(init), [x]);
        Firsts(init) + [x]
  }

  /** Appending a package adds it to the first occurrences exactly when it is new. */
  lemma FirstsSnoc(xs: seq<Package>, x: Package)
    ensures Firsts(xs + [x]) == Firsts(xs) + (if x in xs then [] else [x])
  {
    assert (xs + [x])[..|xs|] == xs;
  }

  /** The packages an edge list has reached from the root: the root and every target. */
  function Reached(root: Package, es: seq<Edge>): set<Package> {
    set x | x in [root] + EdgeTargets(es)
  }

  lemma ReachedSnoc(root: Package, es: seq<Edge>, e: Edge)
    ensures [root] + EdgeTargets(es + [e]) == [root] + EdgeTargets(es) + [e.to]
    ensures Reached(root, es + [e]) == Reached(root, es) + {e.to}
  {
    assert EdgeTargets(es + [e]) == EdgeTargets(es) + [e.to];
  }

  /** The edges of expanding each entry in turn, each at its recorded depth. */
  function Blocks(root: Package, src: DependencySource, xs: seq<(Package, nat)>): seq<Edge>
    decreases |xs|
  {
    if xs == [] then []
    else
      var (p, depth) := xs[|xs| - 1];
      Blocks(root, src, xs[..|xs| - 1]) + ExpansionEdges(root, p, depth, Combined(src, p))
  }

  /** The entries below the depth limit: of the dequeued entries, the expanded ones. */
  function Shallow(xs: seq<(Package, nat)>, maxDepth: int): seq<(Package, nat)>
    decreases |xs|
  {
    if xs == [] then []
    else Shallow(xs[..|xs| - 1], maxDepth) + (if xs[|xs| - 1].1 < maxDepth then [xs[|xs| - 1]] else [])
  }

  lemma {:induction false} ShallowConcat(a: seq<(Package, nat)>, b: seq<(Package, nat)>, maxDepth: int)
    ensures Shallow(a + b, maxDepth) == Shallow(a, maxDepth) + Shallow(b, maxDepth)
    decreases |b|
  {
    if b == [] {
      assert a + b == a;
    } else {
      var init := b[..|b| - 1];
      assert (a + b)[..|a + b| - 1] == a + init;
      ShallowConcat(a, init, maxDepth);
    }
  }

  /** Each package paired with its level in `g`. */
  function Leveled(g: Graph, ps: seq<Package>): (r: seq<(Package, nat)>)
    ensures |r| == |ps|
    ensures forall i :: 0 <= i < |ps| ==> r[i] == (ps[i], Level(g, ps[i]))
  {
    seq(|ps|, i requires 0 <= i < |ps| => (ps[i], Level(g, ps[i])))
  }

  /** The packages of the graph in order of discovery: the root, then each edge target
      the first time an edge reaches it. */
  function Order(g: Graph): seq<Package> {
    Firsts([g.rootPackage] + EdgeTargets(g.edges))
  }

  /** Before each of the expansions `xs`, fewer than `maxNodes` packages had been reached. */
  ghost predicate UnderCap(root: Package, src: DependencySource, maxNodes: int, xs: seq<(Package, nat)>) {
    forall i :: 0 <= i < |xs| ==> |Reached(root, Blocks(root, src, xs[..i]))| < maxNodes
  }

  /** The queue discipline of `build_dependency_graph`: the packages below the depth limit,
      taken in order of discovery, are expanded first in first out; each expansion starts
      with fewer than `max_nodes` packages reached; and the walk is truncated exactly when
      it stops at the first such package that finds the cap reached. */
  ghost predicate QueueOrder(src: DependencySource, maxDepth: int, maxNodes: int, g: Graph) {
    var s := Shallow(Leveled(g, Order(g)), maxDepth);
    exists m :: 0 <= m <= |s|
      && g.edges == Blocks(g.rootPackage, src, s[..m])
      && UnderCap(g.rootPackage, src, maxNodes, s[..m])
      && (g.truncated <==> m < |s|)
      && (m < |s| ==> |Reached(g.rootPackage, g.edges)| >= maxNodes)
  }

  /** The walk's queue history: `hist` holds every entry ever enqueued, in order, and the
      first `pos` of them have been dequeued. The enqueued packages are the discovery
      order of the edges so far, each at its level, and the edges are the expansions of
      the dequeued entries below the depth limit, each started under the node cap. */
  ghost predicate HistoryOK(cx: Context, maxNodes: int, st: BuildState, hist: seq<(Package, nat)>, pos: nat) {
    && pos <= |hist| && st.queue == hist[pos..]
    && st.visited == Reached(cx.root, st.edges)
    && PackagesOf(hist) == Firsts([cx.root] + EdgeTargets(st.edges))
    && (forall i :: 0 <= i < |hist| ==> hist[i].1 == StateLevel(cx, st, hist[i].0))
    && st.edges == Blocks(cx.root, cx.src, Shallow(hist[..pos], cx.maxDepth))
    && UnderCap(cx.root, cx.src, maxNodes, Shallow(hist[..pos], cx.maxDepth))
  }

  /** One inner iteration reaches exactly the package it enqueues, if any, which extends
      the discovery order. */
  lemma AddOrder(cx: Context, st: BuildState, current: Package, depth: nat, dep: (Package, DepKind))
    requires st.visited == Reached(cx.root, st.edges)
    ensures var e := AddDependency(cx, st, current, depth, dep);
      && e.visited == Reached(cx.root, e.edges)
      && |st.queue| <= |e.queue| && e.queue[..|st.queue|] == st.queue
      && Firsts([cx.root] + EdgeTargets(e.edges))
         == Firsts([cx.root] + EdgeTargets(st.edges)) + PackagesOf(e.queue[|st.queue|..])
  {
    var e := AddDependency(cx, st, current, depth, dep);
    StepQueue(cx, st, current, depth, dep);
    AddEdge(cx, st, current, depth, dep);
    var n := |st.queue|;
    if dep.0 == current {
      assert e.edges == st.edges + [];
      assert PackagesOf(e.queue[n..]) == [];
    } else {
      var edge := MakeEdge(cx.root, current, dep.0, dep.1, depth + 1);
      var xs := [cx.root] + EdgeTargets(st.edges);
      ReachedSnoc(cx.root, st.edges, edge);
      assert [cx.root] + EdgeTargets(e.edges) == xs + [dep.0];
      assert dep.0 in xs <==> dep.0 in st.visited;
      FirstsSnoc(xs, dep.0);
      if dep.0 !in st.visited {
        assert e.queue[n..] == [(dep.0, depth + 1)];
        assert PackagesOf(e.queue[n..]) == [dep.0];
      } else {
        assert PackagesOf(e.queue[n..]) == [];
      }
    }
  }

  /** An expansion reaches exactly the packages it enqueues, and they extend the discovery
      order in the order they are enqueued. */
  lemma {:induction false} ExpandOrder(cx: Context, st: BuildState, current: Package, depth: nat,
                                       cs: seq<(Package, DepKind)>)
    requires st.visited == Reached(cx.root, st.edges)
    ensures var e := Expand(cx, st, current, depth, cs);
      && e.visited == Reached(cx.root, e.edges)
      && |st.queue| <= |e.queue|
      && Firsts([cx.root] + EdgeTargets(e.edges))
         == Firsts([cx.root] + EdgeTargets(st.edges)) + PackagesOf(e.queue[|st.queue|..])
    decreases |cs|
  {
    if cs == [] {
      assert PackagesOf(st.queue[|st.queue|..]) == [];
    } else {
      var init := cs[..|cs| - 1];
      ExpandOrder(cx, st, current, depth, init);
      var prev := Expand(cx, st, current, depth, init);
      var e := AddDependency(cx, prev, current, depth, cs[|cs| - 1]);
      assert Expand(cx, st, current, depth, cs) == e;
      AddOrder(cx, prev, current, depth, cs[|cs| - 1]);
      OrderChain(cx.root, st, prev, e);
    }
  }

  /** Two steps that each extend the discovery order by their new queue entries extend it,
      together, by all of them. */
  lemma OrderChain(root: Package, st: BuildState, prev: BuildState, e: BuildState)
    requires |st.queue| <= |prev.queue| <= |e.queue| && e.queue[..|prev.queue|] == prev.queue
    requires Firsts([root] + EdgeTargets(prev.edges))
             == Firsts([root] + EdgeTargets(st.edges)) + PackagesOf(prev.queue[|st.queue|..])
    requires Firsts([root] + EdgeTargets(e.edges))
             == Firsts([root] + EdgeTargets(prev.edges)) + PackagesOf(e.queue[|prev.queue|..])
    ensures Firsts([root] + EdgeTargets(e.edges))
            == Firsts([root] + EdgeTargets(st.edges)) + PackagesOf(e.queue[|st.queue|..])
  {
    SuffixSplit(prev.queue, e.queue, |st.queue|);
    AppendChain(Firsts([root] + EdgeTargets(st.edges)), PackagesOf(prev.queue[|st.queue|..]),
                PackagesOf(e.queue[|prev.queue|..]));
  }

  /** Appending two blocks in turn is appending their concatenation. */
  lemma AppendChain(a: seq<Package>, p: seq<Package>, q: seq<Package>)
    ensures (a + p) + q == a + (p + q)
  {
  }

  /** Extending a queue splits its suffix from `n` into the old suffix and the new entries. */
  lemma SuffixSplit(a: seq<(Package, nat)>, b: seq<(Package, nat)>, n: nat)
    requires n <= |a| <= |b| && b[..|a|] == a
    ensures PackagesOf(b[n..]) == PackagesOf(a[n..]) + PackagesOf(b[|a|..])
  {
    assert b[n..] == a[n..] + b[|a|..];
  }

  lemma InitialHistory(cx: Context, maxNodes: int)
    ensures HistoryOK(cx, maxNodes, InitialState(cx), [(cx.root, 0)], 0)
  {
    var st := InitialState(cx);
    assert [cx.root] + EdgeTargets(st.edges) == [cx.root];
    assert Firsts([cx.root]) == Firsts([] + [cx.root]);
    assert Reached(cx.root, st.edges) == {cx.root};
  }

  /** Dequeuing an entry at or beyond the depth limit keeps the history. */
  lemma SkipKeepsHistory(cx: Context, maxNodes: int, st: BuildState, hist: seq<(Package, nat)>, pos: nat)
    requires HistoryOK(cx, maxNodes, st, hist, pos) && st.queue != [] && st.queue[0].1 >= cx.maxDepth
    ensures HistoryOK(cx, maxNodes, Dequeued(st), hist, pos + 1)
  {
    var xs := hist[..pos + 1];
    assert xs[..|xs| - 1] == hist[..pos];
    assert xs[|xs| - 1] == st.queue[0];
    assert Shallow(xs, cx.maxDepth) == Shallow(hist[..pos], cx.maxDepth);
  }

  /** The queue part of the history after an expansion. */
  lemma StepHistoryQueue(cx: Context, st: BuildState, hist: seq<(Package, nat)>, pos: nat)
    requires st.queue != [] && pos <= |hist| && st.queue == hist[pos..]
    requires st.visited == Reached(cx.root, st.edges)
    requires PackagesOf(hist) == Firsts([cx.root] + EdgeTargets(st.edges))
    ensures var e := NextState(cx, st);
      && |st.queue| - 1 <= |e.queue|
      && var hist' := hist + e.queue[|st.queue| - 1..];
      && e.queue == hist'[pos + 1..]
      && e.visited == Reached(cx.root, e.edges)
      && PackagesOf(hist') == Firsts([cx.root] + EdgeTargets(e.edges))
  {
    NextOrder(cx, st);
    HistoryQueueChain(cx.root, st, NextState(cx, st), hist, pos);
  }

  /** Dequeuing and expanding the head reaches exactly the packages it enqueues, which
      extend the discovery order in turn. */
  lemma NextOrder(cx: Context, st: BuildState)
    requires st.queue != [] && st.visited == Reached(cx.root, st.edges)
    ensures var e := NextState(cx, st);
      && |st.queue| - 1 <= |e.queue| && e.queue[..|st.queue| - 1] == st.queue[1..]
      && e.visited == Reached(cx.root, e.edges)
      && Firsts([cx.root] + EdgeTargets(e.edges))
         == Firsts([cx.root] + EdgeTargets(st.edges)) + PackagesOf(e.queue[|st.queue| - 1..])
  {
    var d := Dequeued(st);
    var (current, depth) := st.queue[0];
    var cs := Combined(cx.src, current);
    ExpandOrder(cx, d, current, depth, cs);
    ExpandQueueShape(cx, d, current, depth, cs);
  }

  /** The history stays the discovery order when a step appends its new queue entries. */
  lemma HistoryQueueChain(root: Package, st: BuildState, e: BuildState, hist: seq<(Package, nat)>, pos: nat)
    requires st.queue != [] && pos <= |hist| && st.queue == hist[pos..]
    requires PackagesOf(hist) == Firsts([root] + EdgeTargets(st.edges))
    requires |st.queue| - 1 <= |e.queue| && e.queue[..|st.queue| - 1] == st.queue[1..]
    requires Firsts([root] + EdgeTargets(e.edges))
             == Firsts([root] + EdgeTargets(st.edges)) + PackagesOf(e.queue[|st.queue| - 1..])
    ensures var hist' := hist + e.queue[|st.queue| - 1..];
      && e.queue == hist'[pos + 1..]
      && PackagesOf(hist') == Firsts([root] + EdgeTargets(e.edges))
  {
    var n := |st.queue| - 1;
    var hist' := hist + e.queue[n..];
    assert e.queue == e.queue[..n] + e.queue[n..];
    assert hist[pos + 1..] == st.queue[1..];
    assert hist'[pos + 1..] == hist[pos + 1..] + e.queue[n..];
    PackagesOfConcat(hist, e.queue[n..]);
  }

  lemma PackagesOfConcat<K>(a: seq<(Package, K)>, b: seq<(Package, K)>)
    ensures PackagesOf(a + b) == PackagesOf(a) + PackagesOf(b)
  {
  }

  /** The levels recorded in the history after an expansion. */
  lemma StepHistoryLevels(cx: Context, st: BuildState, e: BuildState, hist: seq<(Package, nat)>, n: nat)
    requires Discovered(cx, st) && LinksOK(st)
    requires forall m :: m in st.edgeByChild ==> m in e.edgeByChild && e.edgeByChild[m] == st.edgeByChild[m]
    requires forall i :: 0 <= i < |hist| ==> hist[i].0 in st.visited && hist[i].1 == StateLevel(cx, st, hist[i].0)
    requires n <= |e.queue|
    requires forall j :: n <= j < |e.queue| ==> e.queue[j].1 == StateLevel(cx, e, e.queue[j].0)
    ensures var hist' := hist + e.queue[n..];
      forall i :: 0 <= i < |hist'| ==> hist'[i].1 == StateLevel(cx, e, hist'[i].0)
  {
    LevelsStable(cx, st, e);
    var hist' := hist + e.queue[n..];
    forall i | 0 <= i < |hist'|
      ensures hist'[i].1 == StateLevel(cx, e, hist'[i].0)
    {
      if i >= |hist| {
        assert hist'[i] == e.queue[n + i - |hist|];
      }
    }
  }

  /** The edges part of the history after an expansion below the node cap. */
  lemma StepHistoryBlocks(cx: Context, maxNodes: int, st: BuildState, hist: seq<(Package, nat)>, pos: nat)
    requires st.queue != [] && pos < |hist| && hist[pos] == st.queue[0] && st.queue[0].1 < cx.maxDepth
    requires st.edges == Blocks(cx.root, cx.src, Shallow(hist[..pos], cx.maxDepth))
    requires UnderCap(cx.root, cx.src, maxNodes, Shallow(hist[..pos], cx.maxDepth))
    requires |Reached(cx.root, st.edges)| < maxNodes
    ensures var e := NextState(cx, st);
      && e.edges == Blocks(cx.root, cx.src, Shallow(hist[..pos + 1], cx.maxDepth))
      && UnderCap(cx.root, cx.src, maxNodes, Shallow(hist[..pos + 1], cx.maxDepth))
  {
    var (current, depth) := st.queue[0];
    var d := Dequeued(st);
    ExpandEdges(cx, d, current, depth, Combined(cx.src, current));
    var xs := Shallow(hist[..pos], cx.maxDepth);
    assert hist[..pos + 1] == hist[..pos] + [hist[pos]];
    assert Shallow(hist[..pos + 1], cx.maxDepth) == xs + [st.queue[0]];
    var ys := xs + [st.queue[0]];
    assert ys[..|ys| - 1] == xs;
    forall i | 0 <= i < |ys|
      ensures |Reached(cx.root, Blocks(cx.root, cx.src, ys[..i]))| < maxNodes
    {
      if i < |xs| {
        assert ys[..i] == xs[..i];
      } else {
        assert ys[..i] == xs;
      }
    }
  }

  /** The entries an expansion enqueues are at their levels, and existing parent links
      are kept. */
  lemma NewEntryLevels(cx: Context, st: BuildState)
    requires st.queue != [] && NodesOK(cx, st) && LinksOK(st) && Discovered(cx, st)
    ensures var e := NextState(cx, st);
      && (forall m :: m in st.edgeByChild ==> m in e.edgeByChild && e.edgeByChild[m] == st.edgeByChild[m])
      && |st.queue| - 1 <= |e.queue|
      && forall j :: |st.queue| - 1 <= j < |e.queue| ==> e.queue[j].1 == StateLevel(cx, e, e.queue[j].0)
  {
    NextIsExpanded(cx, st);
  }

  /** One expansion below the node cap keeps the history, extended by the newly enqueued
      entries. */
  lemma StepKeepsHistory(cx: Context, maxNodes: int, st: BuildState, hist: seq<(Package, nat)>, pos: nat)
    requires st.queue != [] && st.queue[0].1 < cx.maxDepth
    requires NodesOK(cx, st) && LinksOK(st) && Discovered(cx, st)
    requires HistoryOK(cx, maxNodes, st, hist, pos) && |st.nodes| < maxNodes
    ensures var e := NextState(cx, st);
      && |st.queue| - 1 <= |e.queue|
      && HistoryOK(cx, maxNodes, e, hist + e.queue[|st.queue| - 1..], pos + 1)
  {
    var e := NextState(cx, st);
    var n := |st.queue| - 1;
    StepHistoryQueue(cx, st, hist, pos);
    NewEntryLevels(cx, st);
    HistoryVisited(cx.root, st, hist);
    StepHistoryLevels(cx, st, e, hist, n);
    assert hist[pos] == st.queue[0];
    assert |Reached(cx.root, st.edges)| == |st.nodes|;
    StepHistoryBlocks(cx, maxNodes, st, hist, pos);
    HistoryAssemble(cx, maxNodes, e, hist, e.queue[n..], pos);
  }

  /** Every package of the history has been visited. */
  lemma HistoryVisited(root: Package, st: BuildState, hist: seq<(Package, nat)>)
    requires st.visited == Reached(root, st.edges)
    requires PackagesOf(hist) == Firsts([root] + EdgeTargets(st.edges))
    ensures forall i :: 0 <= i < |hist| ==> hist[i].0 in st.visited
  {
    forall i | 0 <= i < |hist|
      ensures hist[i].0 in st.visited
    {
      assert PackagesOf(hist)[i] == hist[i].0;
    }
  }

  /** The history facts after a step, gathered into `HistoryOK`. */
  lemma HistoryAssemble(cx: Context, maxNodes: int, e: BuildState, hist: seq<(Package, nat)>,
                        extra: seq<(Package, nat)>, pos: nat)
    requires pos < |hist| && e.queue == (hist + extra)[pos + 1..]
    requires e.visited == Reached(cx.root, e.edges)
    requires PackagesOf(hist + extra) == Firsts([cx.root] + EdgeTargets(e.edges))
    requires forall i :: 0 <= i < |hist + extra| ==> (hist + extra)[i].1 == StateLevel(cx, e, (hist + extra)[i].0)
    requires e.edges == Blocks(cx.root, cx.src, Shallow(hist[..pos + 1], cx.maxDepth))
    requires UnderCap(cx.root, cx.src, maxNodes, Shallow(hist[..pos + 1], cx.maxDepth))
    ensures HistoryOK(cx, maxNodes, e, hist + extra, pos + 1)
  {
    assert (hist + extra)[..pos + 1] == hist[..pos + 1];
  }

  /** The history is the built graph's discovery order, each package at its level. */
  lemma HistoryLeveled(cx: Context, rootObject: string, maxNodes: int, st: BuildState,
                       truncated: bool, hist: seq<(Package, nat)>, pos: nat)
    requires HistoryOK(cx, maxNodes, st, hist, pos)
    ensures var g := Finish(cx, rootObject, st, truncated);
      Leveled(g, Order(g)) == hist
  {
    var g := Finish(cx, rootObject, st, truncated);
    assert Order(g) == PackagesOf(hist);
  }

  /** The expanded entries of a history dequeued up to `pos` are a prefix of all its
      expanded entries: the whole when nothing is left, a proper prefix when the next entry
      lies below the depth limit. */
  lemma CutAt(hist: seq<(Package, nat)>, pos: nat, maxDepth: int) returns (m: nat)
    requires pos <= |hist|
    ensures var s := Shallow(hist, maxDepth);
      && m <= |s| && s[..m] == Shallow(hist[..pos], maxDepth)
      && (pos == |hist| ==> m == |s|)
      && (pos < |hist| && hist[pos].1 < maxDepth ==> m < |s|)
  {
    assert hist == hist[..pos] + hist[pos..];
    ShallowConcat(hist[..pos], hist[pos..], maxDepth);
    m := |Shallow(hist[..pos], maxDepth)|;
    if pos < |hist| && hist[pos].1 < maxDepth {
      var rest := hist[pos..];
      assert rest == [rest[0]] + rest[1..];
      ShallowConcat([rest[0]], rest[1..], maxDepth);
      var one: seq<(Package, nat)> := [rest[0]];
      assert one[..|one| - 1] == [];
      assert Shallow(one, maxDepth) == one;
    } else if pos == |hist| {
      assert hist[pos..] == [];
    }
  }

  /** At the end of the walk the history gives the queue discipline of the built graph. */
  lemma FinishQueueOrder(cx: Context, rootObject: string, maxNodes: int, st: BuildState,
                         truncated: bool, hist: seq<(Package, nat)>, pos: nat)
    requires NodesOK(cx, st) && HistoryOK(cx, maxNodes, st, hist, pos)
    requires !truncated ==> st.queue == []
    requires truncated ==> st.queue != [] && st.queue[0].1 < cx.maxDepth && |st.nodes| >= maxNodes
    ensures QueueOrder(cx.src, cx.maxDepth, maxNodes, Finish(cx, rootObject, st, truncated))
  {
    var g := Finish(cx, rootObject, st, truncated);
    HistoryLeveled(cx, rootObject, maxNodes, st, truncated, hist, pos);
    var m := CutAt(hist, pos, cx.maxDepth);
    var s := Shallow(Leveled(g, Order(g)), cx.maxDepth);
    if truncated {
      assert hist[pos] == st.queue[0];
      assert |Reached(cx.root, st.edges)| == |st.nodes|;
    }
    assert g.edges == Blocks(g.rootPackage, cx.src, s[..m]);
  }

  // ---------------------------------------------------------------------------------
  // The built graph
  // ---------------------------------------------------------------------------------

  /** The returned record: the builder's maps and edge list, the truncation flag and the
      stats computed over them. */
  function Finish(cx: Context, rootObject: string, st: BuildState, truncated: bool): Graph {
    Graph(rootObject, cx.root, st.nodes, st.edges, st.parents, st.edgeByChild, truncated,
          ComputeStats(st.nodes, st.edges))
  }

  /** Every edge leaves an expanded package for a different, visited one, one level below
      its source, and is the classified edge for one of the source's combined targets. */
  lemma EdgeFacts(cx: Context, st: BuildState, expanded: set<Package>, e: Edge)
    requires ViewOK(cx, st, expanded) && ClosedOK(cx, st, expanded) && e in st.edges
    ensures e.from in expanded && e.to in st.visited && e.from != e.to
    ensures e.depth == StateLevel(cx, st, e.from) + 1
    ensures (e.to, e.depType) in Combined(cx.src, e.from)
    ensures e == MakeEdge(cx.root, e.from, e.to, e.depType, e.depth)
  {
    var cs := Combined(cx.src, e.from);
    EdgesFromMembers(st.edges, e.from);
    assert e in EdgesFrom(st.edges, e.from);
    var xs := ExpansionEdges(cx.root, e.from, StateLevel(cx, st, e.from), cs);
    ExpansionEdgesSpec(cx.root, e.from, StateLevel(cx, st, e.from), cs);
    var i :| 0 <= i < |xs| && xs[i] == e;
    var k :| 0 <= k < |cs| && cs[k] == (e.to, e.depType);
    assert PackagesOf(cs)[k] == e.to;
  }

  lemma FinishWF(cx: Context, rootObject: string, st: BuildState, expanded: set<Package>, truncated: bool)
    requires Inv(cx, st, expanded)
    ensures WF(Finish(cx, rootObject, st, truncated))
  {
    var g := Finish(cx, rootObject, st, truncated);
    forall e | e in g.edges
      ensures e.from in g.nodes && e.to in g.nodes && e.from != e.to
    {
      EdgeFacts(cx, st, expanded, e);
    }
    forall n | n in g.parents
      ensures n in g.nodes && g.parents[n] in g.nodes
      ensures g.edgeByChild[n].from == g.parents[n] && g.edgeByChild[n].to == n
      ensures n != g.rootPackage ==> g.edgeByChild[n].depth == Level(g, g.parents[n]) + 1
    {
      assert FirstEdgeTo(st.edges, n) == Some(st.edgeByChild[n]);
      var i :| FirstInto(st.edges, n, i) && st.edges[i] == st.edgeByChild[n];
      EdgeFacts(cx, st, expanded, st.edges[i]);
    }
  }

  /** No two edges join the same pair of packages: a package is expanded once, over
      distinct targets. */
  lemma FinishNoDuplicatePairs(cx: Context, st: BuildState, expanded: set<Package>)
    requires ViewOK(cx, st, expanded)
    ensures forall i, j :: 0 <= i < j < |st.edges| ==>
              st.edges[i].from != st.edges[j].from || st.edges[i].to != st.edges[j].to
  {
    forall i, j | 0 <= i < j < |st.edges| && st.edges[i].from == st.edges[j].from
      ensures st.edges[i].to != st.edges[j].to
    {
      var p := st.edges[i].from;
      var a, b := EdgesFromPositions(st.edges, i, j);
      var v := EdgesFrom(st.edges, p);
      var (hard, soft) := Dependencies(cx.src, p);
      CombineDepsTargets(hard, soft);
      ExpansionEdgesSpec(cx.root, p, StateLevel(cx, st, p), Combined(cx.src, p));
      assert EdgeTargets(v)[a] != EdgeTargets(v)[b];
    }
  }

  /** Once the queue has run dry, every visited package below the depth limit has been
      expanded. */
  lemma DrainedIsComplete(cx: Context, st: BuildState, expanded: set<Package>)
    requires Inv(cx, st, expanded) && st.queue == []
    ensures forall p :: p in st.visited && StateLevel(cx, st, p) < cx.maxDepth ==>
              EdgesFrom(st.edges, p)
              == ExpansionEdges(cx.root, p, StateLevel(cx, st, p), Combined(cx.src, p))
  {
  }

  /** With a depth limit of zero or less nothing is expanded: the root is the only node
      and there are no edges. */
  lemma NoDepthNoEdges(cx: Context, st: BuildState, expanded: set<Package>)
    requires Inv(cx, st, expanded) && cx.maxDepth <= 0
    ensures st.edges == [] && st.visited == {cx.root}
  {
    assert expanded == {};
    if st.edges != [] {
      EdgeFacts(cx, st, expanded, st.edges[0]);
    }
    forall n
      ensures n !in st.parents
    {
      assert FirstEdgeTo(st.edges, n) == None;
    }
    assert st.visited == {cx.root};
  }

  /** The `while queue` loop, from the initial state. It ends with the queue drained, or
      with `truncated` set on reaching the node cap before an expansion. */
  method Walk(cx: Context, maxNodes: int)
    returns (st: BuildState, truncated: bool, ghost expanded: set<Package>,
             ghost hist: seq<(Package, nat)>, ghost pos: nat)
    ensures Inv(cx, st, expanded) && BfsOK(st) && HistoryOK(cx, maxNodes, st, hist, pos)
    ensures !truncated ==> st.queue == []
    ensures truncated ==> |st.nodes| >= maxNodes && cx.maxDepth >= 1
    ensures truncated ==> st.queue != [] && st.queue[0].1 < cx.maxDepth
    ensures maxNodes <= 1 && cx.maxDepth >= 1 ==> st == InitialState(cx) && truncated
  {
    var initial := InitialState(cx);
    WalkStart(cx, maxNodes);
    assert |initial.nodes| == 1;
    st, truncated, expanded, hist, pos := WalkFrom(cx, maxNodes, initial, {}, [(cx.root, 0)], 0);
  }

  /** The remaining iterations of the `while queue` loop from state `st0`. */
  method WalkFrom(cx: Context, maxNodes: int, st0: BuildState, ghost expanded0: set<Package>,
                  ghost hist0: seq<(Package, nat)>, ghost pos0: nat)
    returns (st: BuildState, truncated: bool, ghost expanded: set<Package>,
             ghost hist: seq<(Package, nat)>, ghost pos: nat)
    requires WalkInv(cx, maxNodes, st0, expanded0, hist0, pos0)
    ensures WalkInv(cx, maxNodes, st, expanded, hist, pos)
    ensures !truncated ==> st.queue == []
    ensures truncated ==> st.queue != [] && st.queue[0].1 < cx.maxDepth && |st.nodes| >= maxNodes
    ensures st0.queue != [] && st0.queue[0].1 < cx.maxDepth && |st0.nodes| >= maxNodes ==> st == st0 && truncated
    decreases |Universe(cx) - st0.visited|, |st0.queue|
  {
    if st0.queue == [] {
      return st0, false, expanded0, hist0, pos0;
    }
    var next, capped, expanded1, hist1, pos1 := WalkStep(cx, maxNodes, st0, expanded0, hist0, pos0);
    if capped {
      return st0, true, expanded0, hist0, pos0;
    }
    st, truncated, expanded, hist, pos := WalkFrom(cx, maxNodes, next, expanded1, hist1, pos1);
  }

  /** One iteration of the `while queue` loop: skip an entry at or beyond the depth limit;
      otherwise stop (`capped`) when the node cap is reached, or expand the entry. */
  method WalkStep(cx: Context, maxNodes: int, st: BuildState, ghost expanded: set<Package>,
                  ghost hist: seq<(Package, nat)>, ghost pos: nat)
    returns (next: BuildState, capped: bool, ghost expanded': set<Package>,
             ghost hist': seq<(Package, nat)>, ghost pos': nat)
    requires WalkInv(cx, maxNodes, st, expanded, hist, pos) && st.queue != []
    ensures capped <==> st.queue[0].1 < cx.maxDepth && |st.nodes| >= maxNodes
    ensures st.queue[0].1 < cx.maxDepth && maxNodes <= 1 ==> capped
    ensures capped ==> next == st && expanded' == expanded && hist' == hist && pos' == pos
    ensures WalkInv(cx, maxNodes, next, expanded', hist', pos')
    ensures !capped ==>
              || |Universe(cx) - next.visited| < |Universe(cx) - st.visited|
              || (|Universe(cx) - next.visited| == |Universe(cx) - st.visited| && |next.queue| < |st.queue|)
  {
    var (current, depth) := st.queue[0];
    assert |st.nodes| >= 1 by {
      SubsetCardinality({cx.root}, st.nodes.Keys);
    }
    if depth >= cx.maxDepth {
      WalkSkip(cx, maxNodes, st, expanded, hist, pos);
      next, capped := Dequeued(st), false;
      expanded', hist', pos' := expanded, hist, pos + 1;
    } else if |st.nodes| >= maxNodes {
      next, capped := st, true;
      expanded', hist', pos' := expanded, hist, pos;
    } else {
      WalkExpand(cx, maxNodes, st, expanded, hist, pos);
      next, capped := NextState(cx, st), false;
      expanded', hist', pos' := expanded + {current}, hist + next.queue[|st.queue| - 1..], pos + 1;
    }
  }

  /** The loop invariant of `Walk`. */
  ghost predicate WalkInv(cx: Context, maxNodes: int, st: BuildState, expanded: set<Package>,
                          hist: seq<(Package, nat)>, pos: nat) {
    && Inv(cx, st, expanded) && st.visited <= Universe(cx)
    && BfsOK(st) && HistoryOK(cx, maxNodes, st, hist, pos)
  }

  /** The loop invariant holds before the first iteration. */
  lemma WalkStart(cx: Context, maxNodes: int)
    ensures WalkInv(cx, maxNodes, InitialState(cx), {}, [(cx.root, 0)], 0)
  {
    InitialInv(cx);
    InitialHistory(cx, maxNodes);
  }

  /** Skipping an entry at or beyond the depth limit keeps the loop invariant. */
  lemma WalkSkip(cx: Context, maxNodes: int, st: BuildState, expanded: set<Package>,
                 hist: seq<(Package, nat)>, pos: nat)
    requires WalkInv(cx, maxNodes, st, expanded, hist, pos)
    requires st.queue != [] && st.queue[0].1 >= cx.maxDepth
    ensures WalkInv(cx, maxNodes, Dequeued(st), expanded, hist, pos + 1)
  {
    SkipKeepsInv(cx, st, expanded);
    SkipKeepsBfs(st);
    SkipKeepsHistory(cx, maxNodes, st, hist, pos);
  }

  /** Expanding an entry below the depth limit, with fewer nodes than the cap, keeps the
      loop invariant and brings the walk closer to its end. */
  lemma WalkExpand(cx: Context, maxNodes: int, st: BuildState, expanded: set<Package>,
                   hist: seq<(Package, nat)>, pos: nat)
    requires WalkInv(cx, maxNodes, st, expanded, hist, pos)
    requires st.queue != [] && st.queue[0].1 < cx.maxDepth && |st.nodes| < maxNodes
    ensures var e := NextState(cx, st);
      && |st.queue| - 1 <= |e.queue|
      && WalkInv(cx, maxNodes, e, expanded + {st.queue[0].0}, hist + e.queue[|st.queue| - 1..], pos + 1)
      && (|Universe(cx) - e.visited| < |Universe(cx) - st.visited|
          || (|Universe(cx) - e.visited| == |Universe(cx) - st.visited| && |e.queue| < |st.queue|))
  {
    LoopStep(cx, st, expanded);
    NextKeepsBfs(cx, st);
    StepKeepsHistory(cx, maxNodes, st, hist, pos);
  }

  /** The facts about the built graph that hold however the walk ended. */
  lemma FinishFacts(cx: Context, rootObject: string, st: BuildState, expanded: set<Package>, truncated: bool)
    requires Inv(cx, st, expanded)
    ensures var g := Finish(cx, rootObject, st, truncated);
      && WF(g)
      && (forall p :: p in g.nodes ==> g.nodes[p] == MakeNode(p, cx.classOf(p)))
      && (forall e :: e in g.edges ==>
            && (e.to, e.depType) in Combined(cx.src, e.from)
            && e == MakeEdge(g.rootPackage, e.from, e.to, e.depType, e.depth)
            && (EditorOnly in e.flags <==> EditorOnly in g.nodes[e.to].flags))
      && (forall n :: FirstEdgeTo(g.edges, n) == Get(g.edgeByChild, n))
      && (forall i, j :: 0 <= i < j < |g.edges| ==>
            g.edges[i].from != g.edges[j].from || g.edges[i].to != g.edges[j].to)
      && (forall p :: p in g.nodes ==>
            || EdgesFrom(g.edges, p) == []
            || (&& Level(g, p) < cx.maxDepth
                && EdgesFrom(g.edges, p)
                   == ExpansionEdges(g.rootPackage, p, Level(g, p), Combined(cx.src, p))))
  {
    var g := Finish(cx, rootObject, st, truncated);
    FinishWF(cx, rootObject, st, expanded, truncated);
    FinishNoDuplicatePairs(cx, st, expanded);
    forall e | e in g.edges
      ensures (e.to, e.depType) in Combined(cx.src, e.from)
      ensures e == MakeEdge(g.rootPackage, e.from, e.to, e.depType, e.depth)
    {
      EdgeFacts(cx, st, expanded, e);
    }
  }

  // ---------------------------------------------------------------------------------
  // Distance from the root
  // ---------------------------------------------------------------------------------

  /** The packages some package of `ps` lists as a hard or soft dependency. */
  ghost function Successors(src: DependencySource, ps: set<Package>): set<Package> {
    set p, q | p in ps && q in Dependencies(src, p).0 + Dependencies(src, p).1 :: q
  }

  /** The packages at most `k` dependency hops from `root`. */
  ghost function Reach(src: DependencySource, root: Package, k: nat): set<Package>
    decreases k
  {
    if k == 0 then {root} else Reach(src, root, k - 1) + Successors(src, Reach(src, root, k - 1))
  }

  /** The combined targets of a package are exactly its listed hard and soft ones. */
  lemma CombinedListed(src: DependencySource, p: Package)
    ensures forall q :: q in PackagesOf(Combined(src, p)) <==>
              q in Dependencies(src, p).0 + Dependencies(src, p).1
  {
    var (hard, soft) := Dependencies(src, p);
    CombineDepsTargets(hard, soft);
  }

  /** In a depth-sorted edge list whose first edges are the parent links, no edge reaches a
      package at a depth below that package's level. */
  lemma FirstEdgeShallowest(g: Graph)
    requires DepthSorted(g.edges)
    requires forall n :: FirstEdgeTo(g.edges, n) == Get(g.edgeByChild, n)
    ensures forall e :: e in g.edges ==> Level(g, e.to) <= e.depth
  {
    forall e | e in g.edges
      ensures Level(g, e.to) <= e.depth
    {
      var j :| 0 <= j < |g.edges| && g.edges[j] == e;
      var n := e.to;
      if n != g.rootPackage {
        assert EdgeTargets(g.edges)[j] == n;
        var first := FirstEdgeTo(g.edges, n);
        assert first.Some? && first == Get(g.edgeByChild, n);
        var i :| FirstInto(g.edges, n, i) && g.edges[i] == first.value;
        assert i <= j;
        assert Level(g, n) == g.edges[i].depth;
      }
    }
  }

  /** Every node of a well-formed graph whose edges follow the registry lies within its
      level of hops from the root. */
  lemma {:induction false} NodeReached(src: DependencySource, g: Graph, n: Package)
    requires WF(g)
    requires forall e :: e in g.edges ==> (e.to, e.depType) in Combined(src, e.from)
    requires forall m :: FirstEdgeTo(g.edges, m) == Get(g.edgeByChild, m)
    requires n in g.nodes
    ensures n in Reach(src, g.rootPackage, Level(g, n))
    decreases Level(g, n)
  {
    if n != g.rootPackage {
      var p := ParentStep(src, g, n);
      NodeReached(src, g, p);
      ReachStep(src, g.rootPackage, Level(g, p), p, n);
    }
  }

  /** A listed dependency of a package within `k` hops is within `k + 1` hops. */
  lemma ReachStep(src: DependencySource, root: Package, k: nat, p: Package, n: Package)
    requires p in Reach(src, root, k)
    requires n in Dependencies(src, p).0 + Dependencies(src, p).1
    ensures n in Reach(src, root, k + 1)
  {
    assert n in Successors(src, Reach(src, root, k));
  }

  /** A non-root node's parent is a node one level above it that lists it as a dependency. */
  lemma ParentStep(src: DependencySource, g: Graph, n: Package) returns (p: Package)
    requires WF(g)
    requires forall e :: e in g.edges ==> (e.to, e.depType) in Combined(src, e.from)
    requires forall m :: FirstEdgeTo(g.edges, m) == Get(g.edgeByChild, m)
    requires n in g.nodes && n != g.rootPackage
    ensures p in g.nodes && Level(g, n) == Level(g, p) + 1
    ensures n in Dependencies(src, p).0 + Dependencies(src, p).1
  {
    p := g.parents[n];
    var e := g.edgeByChild[n];
    assert FirstEdgeTo(g.edges, n) == Some(e);
    var i :| FirstInto(g.edges, n, i) && g.edges[i] == e;
    assert (n, e.depType) in Combined(src, p);
    var k :| 0 <= k < |Combined(src, p)| && Combined(src, p)[k] == (n, e.depType);
    assert PackagesOf(Combined(src, p))[k] == n;
    CombinedListed(src, p);
  }

  /** When every node below the depth limit has been expanded, every package within `k`
      hops of the root, `k` up to the limit, is a node whose level is at most `k`. */
  lemma {:induction false} ReachedWithin(src: DependencySource, maxDepth: int, g: Graph, k: nat)
    requires WF(g) && DepthSorted(g.edges)
    requires forall m :: FirstEdgeTo(g.edges, m) == Get(g.edgeByChild, m)
    requires forall p :: p in g.nodes && Level(g, p) < maxDepth ==>
               EdgesFrom(g.edges, p) == ExpansionEdges(g.rootPackage, p, Level(g, p), Combined(src, p))
    requires k <= maxDepth
    ensures forall n :: n in Reach(src, g.rootPackage, k) ==> n in g.nodes && Level(g, n) <= k
    decreases k
  {
    if k > 0 {
      ReachedWithin(src, maxDepth, g, k - 1);
      FirstEdgeShallowest(g);
      var prev := Reach(src, g.rootPackage, k - 1);
      forall n | n in Successors(src, prev)
        ensures n in g.nodes && Level(g, n) <= k
      {
        var p :| p in prev && n in Dependencies(src, p).0 + Dependencies(src, p).1;
        if n != p {
          HopReached(src, g, p, n);
        }
      }
    }
  }

  /** A listed dependency of an expanded node is a node at most one level below it. */
  lemma HopReached(src: DependencySource, g: Graph, p: Package, n: Package)
    requires WF(g) && p in g.nodes && n != p
    requires forall e :: e in g.edges ==> Level(g, e.to) <= e.depth
    requires EdgesFrom(g.edges, p) == ExpansionEdges(g.rootPackage, p, Level(g, p), Combined(src, p))
    requires n in Dependencies(src, p).0 + Dependencies(src, p).1
    ensures n in g.nodes && Level(g, n) <= Level(g, p) + 1
  {
    var cs := Combined(src, p);
    CombinedListed(src, p);
    var xs := ExpansionEdges(g.rootPackage, p, Level(g, p), cs);
    ExpansionEdgesSpec(g.rootPackage, p, Level(g, p), cs);
    assert n in EdgeTargets(xs);
    var i :| 0 <= i < |xs| && EdgeTargets(xs)[i] == n;
    EdgesFromMembers(g.edges, p);
    assert xs[i] in EdgesFrom(g.edges, p);
  }

  // ---------------------------------------------------------------------------------
  // What `build_dependency_graph` returns
  // ---------------------------------------------------------------------------------

  /** The graph's root is the package of the normalised root path. */
  predicate BuiltRoot(rootAssetPath: string, g: Graph) {
    g.rootObject == ToObjectPath(rootAssetPath) && g.rootPackage == PackageName(g.rootObject)
  }

  /** The graph is well-formed; its nodes are the records `ensure_node` makes; each edge is
      the classified edge for one of its source's combined targets, flagged editor-only
      exactly when its target node is; the parent links are the first edges into their
      children; and no pair of packages is joined twice. */
  ghost predicate BuiltContents(src: DependencySource, classOf: Package -> string, g: Graph) {
    && WF(g)
    && (forall p :: p in g.nodes ==> g.nodes[p] == MakeNode(p, classOf(p)))
    && (forall e :: e in g.edges ==>
          && (e.to, e.depType) in Combined(src, e.from)
          && e == MakeEdge(g.rootPackage, e.from, e.to, e.depType, e.depth)
          && (EditorOnly in e.flags <==> EditorOnly in g.nodes[e.to].flags))
    && (forall n :: FirstEdgeTo(g.edges, n) == Get(g.edgeByChild, n))
    && (forall i, j :: 0 <= i < j < |g.edges| ==>
          g.edges[i].from != g.edges[j].from || g.edges[i].to != g.edges[j].to)
  }

  /** Breadth-first order: edge depths never decrease along the list, no edge reaches a
      package below its level (the parent link is one of the shallowest edges), and every
      node lies within its level of hops from the root. */
  ghost predicate BreadthFirst(src: DependencySource, g: Graph) {
    && DepthSorted(g.edges)
    && (forall e :: e in g.edges ==> Level(g, e.to) <= e.depth)
    && (forall n :: n in g.nodes ==> n in Reach(src, g.rootPackage, Level(g, n)))
  }

  /** The edges leaving a node are none or its whole expansion at its level, which lies
      below the depth limit. Unless the walk was truncated, every node below the depth
      limit is expanded, and every package within the depth limit's hops of the root is
      a node whose level is its hop distance. */
  ghost predicate BuiltExpansions(src: DependencySource, maxDepth: int, g: Graph) {
    && (forall p :: p in g.nodes ==>
          || EdgesFrom(g.edges, p) == []
          || (&& Level(g, p) < maxDepth
              && EdgesFrom(g.edges, p)
                 == ExpansionEdges(g.rootPackage, p, Level(g, p), Combined(src, p))))
    && (!g.truncated ==> forall p :: p in g.nodes && Level(g, p) < maxDepth ==>
          EdgesFrom(g.edges, p) == ExpansionEdges(g.rootPackage, p, Level(g, p), Combined(src, p)))
    && (!g.truncated ==> AllWithinReach(src, maxDepth, g))
  }

  /** Every package within `k` hops of the root, `k` up to the depth limit, is a node whose
      level is at most `k`. */
  ghost predicate AllWithinReach(src: DependencySource, maxDepth: int, g: Graph) {
    forall k: nat, n :: k <= maxDepth && n in Reach(src, g.rootPackage, k) ==>
      n in g.nodes && Level(g, n) <= k
  }

  /** The limits: truncation happens only at the node cap; a depth limit of zero or less
      yields the root alone; a node cap of one or less stops before the first expansion. */
  predicate BuiltLimits(maxDepth: int, maxNodes: int, g: Graph) {
    && (g.truncated ==> |g.nodes| >= maxNodes && maxDepth >= 1)
    && (maxDepth <= 0 ==> g.nodes.Keys == {g.rootPackage} && g.edges == [] && !g.truncated)
    && (maxNodes <= 1 && maxDepth >= 1 ==>
          g.nodes.Keys == {g.rootPackage} && g.edges == [] && g.truncated)
  }

  /** Everything `build_dependency_graph` promises about its result. */
  ghost predicate Built(src: DependencySource, classOf: Package -> string, rootAssetPath: string,
                        maxDepth: int, maxNodes: int, g: Graph) {
    && BuiltRoot(rootAssetPath, g)
    && BuiltContents(src, classOf, g)
    && BreadthFirst(src, g)
    && QueueOrder(src, maxDepth, maxNodes, g)
    && BuiltExpansions(src, maxDepth, g)
    && BuiltLimits(maxDepth, maxNodes, g)
    && g.stats == ComputeStats(g.nodes, g.edges)
  }

  /** A depth-sorted graph that follows the registry, with first edges as parent links, is
      in breadth-first order. */
  lemma InBreadthFirst(src: DependencySource, g: Graph)
    requires WF(g) && DepthSorted(g.edges)
    requires forall e :: e in g.edges ==> (e.to, e.depType) in Combined(src, e.from)
    requires forall m :: FirstEdgeTo(g.edges, m) == Get(g.edgeByChild, m)
    ensures BreadthFirst(src, g)
  {
    FirstEdgeShallowest(g);
    forall n | n in g.nodes
      ensures n in Reach(src, g.rootPackage, Level(g, n))
    {
      NodeReached(src, g, n);
    }
  }

  /** When every node below the depth limit is expanded, every package within the depth
      limit's hops of the root is a node no deeper than its hop count. */
  lemma AllReached(src: DependencySource, maxDepth: int, g: Graph)
    requires WF(g) && DepthSorted(g.edges)
    requires forall m :: FirstEdgeTo(g.edges, m) == Get(g.edgeByChild, m)
    requires forall p :: p in g.nodes && Level(g, p) < maxDepth ==>
               EdgesFrom(g.edges, p) == ExpansionEdges(g.rootPackage, p, Level(g, p), Combined(src, p))
    ensures AllWithinReach(src, maxDepth, g)
  {
    forall k: nat | k <= maxDepth
      ensures forall n :: n in Reach(src, g.rootPackage, k) ==> n in g.nodes && Level(g, n) <= k
    {
      ReachedWithin(src, maxDepth, g, k);
    }
  }

  /** `build_dependency_graph(root_asset_path, max_depth, max_nodes)` with the dependency
      source `src` and the class lookup `classOf`. */
  method BuildDependencyGraph(src: DependencySource, classOf: Package -> string,
                              rootAssetPath: string, maxDepth: int, maxNodes: int)
    returns (g: Graph)
    ensures BuiltRoot(rootAssetPath, g)
    ensures BuiltContents(src, classOf, g)
    ensures BreadthFirst(src, g)
    ensures QueueOrder(src, maxDepth, maxNodes, g)
    ensures BuiltExpansions(src, maxDepth, g)
    ensures BuiltLimits(maxDepth, maxNodes, g)
    ensures g.stats == ComputeStats(g.nodes, g.edges)
  {
    var rootObject := ToObjectPath(rootAssetPath);
    var root := PackageName(rootObject);
    var cx := Context(root, src, classOf, maxDepth);
    var st, truncated, expanded, hist, pos := Walk(cx, maxNodes);
    g := Finish(cx, rootObject, st, truncated);
    FinishQueueOrder(cx, rootObject, maxNodes, st, truncated, hist, pos);
    FinishFacts(cx, rootObject, st, expanded, truncated);
    InBreadthFirst(src, g);
    if !truncated {
      DrainedIsComplete(cx, st, expanded);
      AllReached(src, maxDepth, g);
    }
    if maxDepth <= 0 {
      NoDepthNoEdges(cx, st, expanded);
    }
  }
}
