/** `build_tree_hierarchy` of `adr/adr_graph.py`: the edge list projected into a nested
    tree under the root.

    The source recursion has no cycle guard, so an edge back to a package on the current
    path (possible, since edges to visited packages are still recorded) makes it recurse
    until Python's recursion limit raises `RecursionError`. The model carries the set of
    packages on the current path and emits a re-entered package as a childless leaf
    marked `cyclic`. */
module Tree {
  import opened Wrappers
  import opened Classify
  import opened Graph


  datatype TreeNode = TreeNode(package: Package, reason: string, flags: seq<Flag>, depth: nat,
                               cyclic: bool, children: seq<TreeNode>)

  /** `children_map.get(pkg, [])`: the targets of the edges leaving `pkg`, in edge order. */
  function Children(es: seq<Edge>, pkg: Package): seq<Package> {
    EdgeTargets(EdgesFrom(es, pkg))
  }

  /** `edge_lookup[(a, b)]`: the last edge of the list from `a` to `b`, if any. */
  function LastEdgeBetween(es: seq<Edge>, a: Package, b: Package): (r: Option<Edge>)
    ensures r.Some? ==> r.value in es && r.value.from == a && r.value.to == b
    ensures r.Some? ==> exists i :: (0 <= i < |es| && es[i] == r.value &&
              forall j :: i < j < |es| ==> es[j].from != a || es[j].to != b)
    decreases |es|
  {
    if es == [] then None
    else if es[|es| - 1].from == a && es[|es| - 1].to == b then
      Some(es[|es| - 1])
    else
      var r := LastEdgeBetween(es[..|es| - 1], a, b);
      assert r.Some? ==> r.value in es[..|es| - 1];
      r
  }

  /** Every child has an edge to look up, and is an edge target. */
  lemma {:induction false} ChildHasEdge(es: seq<Edge>, a: Package, b: Package)
    requires b in Children(es, a)
    ensures LastEdgeBetween(es, a, b).Some?
    ensures b in TargetSet(es)
    decreases |es|
  {
    var init := es[..|es| - 1];
    var last := es[|es| - 1];
    EdgesFromAppend(init, last, a);
    assert es == init + [last];
    if !(last.from == a && last.to == b) {
      assert EdgesFrom(es, a) == EdgesFrom(init, a) + (if last.from == a then [last] else []);
      assert EdgeTargets(EdgesFrom(es, a))
             == EdgeTargets(EdgesFrom(init, a)) + (if last.from == a then [last.to] else []);
      ChildHasEdge(init, a, b);
    }
  }

  function TargetSet(es: seq<Edge>): set<Package> {
    set e | e in es :: e.to
  }

  /** The packages the projection can ever reach. */
  function TreeUniverse(g: Graph): set<Package> {
    {g.rootPackage} + TargetSet(g.edges)
  }

  /** The children of `pkg` at `depth`, `path` being the packages from the root down to
      `pkg` (the source's `build_node(pkg, depth)["children"]`). */
  function Subtree(g: Graph, pkg: Package, depth: nat, path: set<Package>): seq<TreeNode>
    requires path <= TreeUniverse(g)
    decreases |TreeUniverse(g) - path|, 1
  {
    ChildNodes(g, pkg, depth, path, Children(g.edges, pkg))
  }

  /** The `for child in children_map.get(pkg, [])` loop over the still unprocessed `kids`:
      one node per child, in order. */
  function ChildNodes(g: Graph, pkg: Package, depth: nat, path: set<Package>, kids: seq<Package>)
    : seq<TreeNode>
    requires path <= TreeUniverse(g)
    requires forall k :: k in kids ==> k in Children(g.edges, pkg)
    decreases |TreeUniverse(g) - path|, 0, |kids|
  {
    if kids == [] then []
    else [ChildNode(g, pkg, depth, path, kids[0])] + ChildNodes(g, pkg, depth, path, kids[1..])
  }

  /** One child: it carries its edge's reason and flags one level deeper; a child already
      on the path becomes a cyclic leaf, any other gets its own subtree. */
  function ChildNode(g: Graph, pkg: Package, depth: nat, path: set<Package>, child: Package): TreeNode
    requires path <= TreeUniverse(g)
    requires child in Children(g.edges, pkg)
    decreases |TreeUniverse(g) - path|, 0, 0
  {
    ChildHasEdge(g.edges, pkg, child);
    var e := LastEdgeBetween(g.edges, pkg, child).value;
    if child in path then
      TreeNode(child, e.reason, e.flags, depth + 1, true, [])
    else
      ShrinkCardinality(TreeUniverse(g) - (path + {child}), TreeUniverse(g) - path, child);
      TreeNode(child, e.reason, e.flags, depth + 1, false, Subtree(g, child, depth + 1, path + {child}))
  }

  /** `build_tree_hierarchy(graph)`: the root node, with reason `ROOT`, its node flags and
      depth 0, over the projected children. */
  function BuildTreeHierarchy(g: Graph): TreeNode
    requires g.rootPackage in g.nodes
  {
    TreeNode(g.rootPackage, RootReason, g.nodes[g.rootPackage].flags, 0, false,
             Subtree(g, g.rootPackage, 0, {g.rootPackage}))
  }

  // ---------------------------------------------------------------------------------
  // The shape of the projection
  // ---------------------------------------------------------------------------------

  function ChildPackages(ts: seq<TreeNode>): (r: seq<Package>)
    ensures |r| == |ts|
    ensures forall i :: 0 <= i < |ts| ==> r[i] == ts[i].package
  {
    seq(|ts|, i requires 0 <= i < |ts| => ts[i].package)
  }

  /** `c` is a correct projection of a child of `pkg` at `depth` below `path`: one level
      deeper, carrying the reason and flags of the last edge from `pkg` to it, cyclic
      exactly when it is already on the path, a leaf if cyclic, and otherwise a node whose
      children are its own edge targets in edge order, each correct in turn. */
  ghost predicate ChildOK(g: Graph, pkg: Package, depth: nat, path: set<Package>, c: TreeNode)
    decreases c, 1
  {
    && c.depth == depth + 1
    && LastEdgeBetween(g.edges, pkg, c.package).Some?
    && c.reason == LastEdgeBetween(g.edges, pkg, c.package).value.reason
    && c.flags == LastEdgeBetween(g.edges, pkg, c.package).value.flags
    && (c.cyclic <==> c.package in path)
    && (c.cyclic ==> c.children == [])
    && (!c.cyclic ==>
          && ChildPackages(c.children) == Children(g.edges, c.package)
          && ChildrenOK(g, c.package, depth + 1, path + {c.package}, c.children))
  }

  ghost predicate ChildrenOK(g: Graph, pkg: Package, depth: nat, path: set<Package>, cs: seq<TreeNode>)
    decreases cs, 0
  {
    forall i :: 0 <= i < |cs| ==> ChildOK(g, pkg, depth, path, cs[i])
  }

  lemma {:induction false} SubtreeOK(g: Graph, pkg: Package, depth: nat, path: set<Package>)
    requires path <= TreeUniverse(g)
    ensures ChildPackages(Subtree(g, pkg, depth, path)) == Children(g.edges, pkg)
    ensures ChildrenOK(g, pkg, depth, path, Subtree(g, pkg, depth, path))
    decreases |TreeUniverse(g) - path|, 1
  {
    ChildNodesOK(g, pkg, depth, path, Children(g.edges, pkg));
  }

  lemma {:induction false} ChildNodesOK(g: Graph, pkg: Package, depth: nat, path: set<Package>,
                                        kids: seq<Package>)
    requires path <= TreeUniverse(g)
    requires forall k :: k in kids ==> k in Children(g.edges, pkg)
    ensures ChildPackages(ChildNodes(g, pkg, depth, path, kids)) == kids
    ensures ChildrenOK(g, pkg, depth, path, ChildNodes(g, pkg, depth, path, kids))
    decreases |TreeUniverse(g) - path|, 0, |kids|
  {
    if kids != [] {
      var r := ChildNodes(g, pkg, depth, path, kids);
      var rest := ChildNodes(g, pkg, depth, path, kids[1..]);
      ChildNodesOK(g, pkg, depth, path, kids[1..]);
      ChildNodeOK(g, pkg, depth, path, kids[0]);
      assert r == [r[0]] + rest;
      assert ChildPackages(r) == [kids[0]] + ChildPackages(rest);
    }
  }

  lemma {:induction false} ChildNodeOK(g: Graph, pkg: Package, depth: nat, path: set<Package>,
                                       child: Package)
    requires path <= TreeUniverse(g)
    requires child in Children(g.edges, pkg)
    ensures ChildNode(g, pkg, depth, path, child).package == child
    ensures ChildOK(g, pkg, depth, path, ChildNode(g, pkg, depth, path, child))
    decreases |TreeUniverse(g) - path|, 0, 0
  {
    ChildHasEdge(g.edges, pkg, child);
    if child !in path {
      ShrinkCardinality(TreeUniverse(g) - (path + {child}), TreeUniverse(g) - path, child);
      SubtreeOK(g, child, depth + 1, path + {child});
    }
  }

  /** The projection starts at the root with reason `ROOT`, the root's node flags and
      depth 0, and every node below it is a correct projection of its edge. */
  lemma BuildTreeHierarchyShape(g: Graph)
    requires g.rootPackage in g.nodes
    ensures var t := BuildTreeHierarchy(g);
      && t.package == g.rootPackage && t.reason == RootReason && t.depth == 0 && !t.cyclic
      && t.flags == g.nodes[g.rootPackage].flags
      && ChildPackages(t.children) == Children(g.edges, g.rootPackage)
      && ChildrenOK(g, g.rootPackage, 0, {g.rootPackage}, t.children)
  {
    SubtreeOK(g, g.rootPackage, 0, {g.rootPackage});
  }

  const CycleAB: Edge := Edge("A", "B", Hard, "r1", [], 1)
  const CycleBA: Edge := Edge("B", "A", Hard, "r2", [], 2)

  /** A two-package graph whose edges form the cycle `A -> B -> A`. */
  const TwoCycle: Graph :=
    Graph("A.A", "A", map["A" := Node("A", "C", []), "B" := Node("B", "C", [])],
          [CycleAB, CycleBA], map["B" := "A", "A" := "B"], map["B" := CycleAB, "A" := CycleBA],
          false, Stats(2, 2, 0, 0, 2))

  /** The lookups of the cycle: each package has the other as its one child. */
  lemma TwoCycleLookups()
    ensures Children(TwoCycle.edges, "A") == ["B"] && Children(TwoCycle.edges, "B") == ["A"]
    ensures LastEdgeBetween(TwoCycle.edges, "A", "B") == Some(CycleAB)
    ensures LastEdgeBetween(TwoCycle.edges, "B", "A") == Some(CycleBA)
    ensures TreeUniverse(TwoCycle) == {"A", "B"}
  {
    var es := TwoCycle.edges;
    assert es[..1] == [CycleAB];
    assert EdgesFrom([CycleAB], "A") == [CycleAB];
    assert EdgesFrom(es, "A") == [CycleAB];
    assert EdgesFrom([CycleAB], "B") == [];
    assert EdgesFrom(es, "B") == [CycleBA];
    assert CycleAB in es && CycleBA in es;
  }

  /** On the cycle `A -> B -> A`, on which the unguarded recursion would not stop, the
      projection is `A` over `B` over a cyclic leaf `A`. */
  lemma TwoCycleProjection()
    ensures BuildTreeHierarchy(TwoCycle)
            == TreeNode("A", RootReason, [], 0, false,
                        [TreeNode("B", "r1", [], 1, false, [TreeNode("A", "r2", [], 2, true, [])])])
  {
    var g := TwoCycle;
    TwoCycleLookups();
    var leaf := TreeNode("A", "r2", [], 2, true, []);
    assert ChildNode(g, "B", 1, {"A", "B"}, "A") == leaf;
    assert ChildNodes(g, "B", 1, {"A", "B"}, ["A"]) == [leaf];
    assert Subtree(g, "B", 1, {"A", "B"}) == [leaf];
    assert {"A"} + {"B"} == {"A", "B"};
    var mid := TreeNode("B", "r1", [], 1, false, [leaf]);
    assert ChildNode(g, "A", 0, {"A"}, "B") == mid;
    assert ["B"][1..] == [];
    assert ChildNodes(g, "A", 0, {"A"}, ["B"]) == [mid];
    assert Subtree(g, "A", 0, {"A"}) == [mid];
  }
}
