/** `explain_path` of `adr/adr_graph.py`: why a package is in the graph, as the chain of
    recorded parent links from the root down to it. */
module Explain {
  import opened Wrappers
  import opened Paths
  import opened Classify
  import opened Graph

  const UnknownReason: string := "Unknown"

  /** One step of an explanation: a package with the reason and flags of the edge that
      first reached it. */
  datatype Step = Step(package: Package, reason: string, flags: seq<Flag>)

  /** The parent chain ending at `p`, root end first (the source's `chain` after
      `chain.reverse()`). The walk stops at the root, at a package without a parent link,
      or when `fuel` runs out; the source has no fuel, and `ExplainPath` passes the node
      count, which lemma `ChainReachesRoot` shows is always enough for a well-formed graph. */
  function Chain(g: Graph, p: Package, fuel: nat): (r: seq<Package>)
    ensures |r| >= 1 && r[|r| - 1] == p
    ensures forall i :: 1 <= i < |r| ==>
              r[i] != g.rootPackage && r[i] in g.parents && g.parents[r[i]] == r[i - 1]
    decreases fuel
  {
    if fuel == 0 || p == g.rootPackage || p !in g.parents then [p]
    else Chain(g, g.parents[p], fuel - 1) + [p]
  }

  /** The step for a package below the root: its recorded parent edge's reason and
      flags, `Unknown` and no flags when there is none. */
  function StepFor(g: Graph, p: Package): (s: Step)
    ensures s.package == p
    ensures p in g.edgeByChild ==> s.reason == g.edgeByChild[p].reason && s.flags == g.edgeByChild[p].flags
    ensures p !in g.edgeByChild ==> s.reason == UnknownReason && s.flags == []
  {
    match Get(g.edgeByChild, p)
    case None => Step(p, UnknownReason, [])
    case Some(e) => Step(p, e.reason, e.flags)
  }

  /** `explain_path(graph, target_package)`: nothing for a target that is not a node;
      otherwise a `ROOT` step followed by one step per parent link down to the target. */
  function ExplainPath(g: Graph, targetPackage: string): (r: seq<Step>)
    ensures r == [] <==> PackageName(targetPackage) !in g.nodes
    ensures r != [] ==>
              && r[0].reason == RootReason && r[0].flags == []
              && r[|r| - 1].package == PackageName(targetPackage)
    ensures forall i :: 1 <= i < |r| ==>
              && r[i].package in g.parents && g.parents[r[i].package] == r[i - 1].package
              && r[i] == StepFor(g, r[i].package)
  {
    var target := PackageName(targetPackage);
    if target !in g.nodes then []
    else
      var chain := Chain(g, target, |g.nodes|);
      var steps := ChainSteps(g, chain);
      assert forall i :: 1 <= i < |steps| ==> steps[i].package == chain[i];
      steps
  }

  /** A `ROOT` step for the first package of a chain, then the recorded step of each
      later one. */
  function ChainSteps(g: Graph, chain: seq<Package>): (r: seq<Step>)
    requires |chain| >= 1
    ensures |r| == |chain|
    ensures r[0] == Step(chain[0], RootReason, [])
    ensures forall i :: 1 <= i < |r| ==> r[i] == StepFor(g, chain[i])
    ensures forall i :: 0 <= i < |r| ==> r[i].package == chain[i]
  {
    [Step(chain[0], RootReason, [])]
    + seq(|chain| - 1, i requires 0 <= i < |chain| - 1 => StepFor(g, chain[i + 1]))
  }

  /** The packages of an explanation, as `evaluate_policies` records them. */
  function Packages(steps: seq<Step>): (r: seq<Package>)
    ensures |r| == |steps|
    ensures forall i :: 0 <= i < |steps| ==> r[i] == steps[i].package
  {
    seq(|steps|, i requires 0 <= i < |steps| => steps[i].package)
  }

  // ---------------------------------------------------------------------------------
  // Explanations in well-formed graphs
  // ---------------------------------------------------------------------------------

  /** The root and the chain of parents above a node. */
  ghost function Ancestors(g: Graph, n: Package): set<Package>
    requires WF(g) && n in g.nodes
    decreases Level(g, n)
  {
    if n == g.rootPackage then {n} else {n} + Ancestors(g, g.parents[n])
  }

  /** A node has exactly one ancestor per level from its own up to the root's, all of
      them nodes. */
  lemma {:induction false} AncestorsFacts(g: Graph, n: Package)
    requires WF(g) && n in g.nodes
    ensures Ancestors(g, n) <= g.nodes.Keys
    ensures |Ancestors(g, n)| == Level(g, n) + 1
    ensures forall a :: a in Ancestors(g, n) ==> Level(g, a) <= Level(g, n)
    decreases Level(g, n)
  {
    if n != g.rootPackage {
      var p := g.parents[n];
      AncestorsFacts(g, p);
      assert n !in Ancestors(g, p);
    }
  }

  /** The level of a node is below the node count, so the node count is enough fuel. */
  lemma LevelBelowNodeCount(g: Graph, n: Package)
    requires WF(g) && n in g.nodes
    ensures Level(g, n) < |g.nodes|
  {
    AncestorsFacts(g, n);
    SubsetCardinality(Ancestors(g, n), g.nodes.Keys);
  }

  /** With fuel at least the node's level, the chain climbs one level per link and
      starts at the root. */
  lemma {:induction false} ChainReachesRoot(g: Graph, p: Package, fuel: nat)
    requires WF(g) && p in g.nodes && fuel >= Level(g, p)
    ensures Chain(g, p, fuel)[0] == g.rootPackage
    ensures |Chain(g, p, fuel)| == Level(g, p) + 1
    decreases fuel
  {
    if p != g.rootPackage {
      ChainReachesRoot(g, g.parents[p], fuel - 1);
    }
  }

  /** In a well-formed graph an explanation of a node starts at the root, has one step
      per level, and every later step is the recorded parent edge from the step before. */
  lemma ExplainBuiltPath(g: Graph, targetPackage: string)
    requires WF(g) && PackageName(targetPackage) in g.nodes
    ensures var r := ExplainPath(g, targetPackage);
      && r[0].package == g.rootPackage
      && |r| == Level(g, PackageName(targetPackage)) + 1
      && forall i :: 1 <= i < |r| ==>
           var e := g.edgeByChild[r[i].package];
           e.from == r[i - 1].package && e.to == r[i].package
           && r[i].reason == e.reason && r[i].flags == e.flags
  {
    var target := PackageName(targetPackage);
    LevelBelowNodeCount(g, target);
    ChainReachesRoot(g, target, |g.nodes|);
  }
}
