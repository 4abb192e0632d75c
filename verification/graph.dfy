/** The graph value built by `build_dependency_graph` in `adr/adr_graph.py`, and the pure
    pieces of the builder: combining one package's hard and soft lists, the edges one
    expansion produces, the per-node views of the edge list, and the summary stats. */
module Graph {
  import opened Wrappers
  import opened Strings
  import opened Classify

  type Package = string

  /** The injected dependency source: per package, its direct hard and soft dependency
      lists. A package without an entry has no dependencies (the `or []` of the asset
      registry call). */
  type DependencySource = map<Package, (seq<Package>, seq<Package>)>

  datatype Node = Node(package: Package, cls: string, flags: seq<Flag>)

  datatype Edge = Edge(from: Package, to: Package, depType: DepKind, reason: string,
                       flags: seq<Flag>, depth: nat)

  datatype Stats = Stats(nodeCount: nat, edgeCount: nat, editorOnlySuspected: nat,
                         softEdges: nat, hardEdges: nat)

  datatype Graph = Graph(
    rootObject: string,
    rootPackage: Package,
    nodes: map<Package, Node>,
    edges: seq<Edge>,
    parents: map<Package, Package>,
    edgeByChild: map<Package, Edge>,
    truncated: bool,
    stats: Stats)

  function Dependencies(src: DependencySource, p: Package): (r: (seq<Package>, seq<Package>))
    ensures p in src ==> r == src[p]
    ensures p !in src ==> r == ([], [])
  {
    if p in src then src[p] else ([], [])
  }

  /** The record `ensure_node` creates: flagged editor-only exactly when the package path
      carries an editor-only marker. */
  function MakeNode(p: Package, cls: string): (n: Node)
    ensures n.package == p && n.cls == cls
    ensures EditorOnly in n.flags <==> IsEditorOnlySuspected(p)
    ensures n.flags == [] || n.flags == [EditorOnly]
  {
    Node(p, cls, if IsEditorOnlySuspected(p) then [EditorOnly] else [])
  }

  /** The record appended for one dependency: its reason and flags are the classifier's
      verdict for that target, kind and depth. */
  function MakeEdge(root: Package, from: Package, to: Package, kind: DepKind, depth: nat): (e: Edge)
    ensures e.from == from && e.to == to && e.depType == kind && e.depth == depth
    ensures EditorOnly in e.flags <==> IsEditorOnlySuspected(to)
    ensures Suspicious in e.flags <==> IsEditorOnlySuspected(to) && StartsWith(root, RuntimeContentRoot)
    ensures |e.reason| > 0
    ensures EndsWith(e.reason, TransitiveSuffix) <==> depth > 1
  {
    var c := ClassifyDependency(root, from, to, kind, depth);
    Edge(from, to, kind, c.reason, c.flags, depth)
  }

  // ---------------------------------------------------------------------------------
  // Combining one package's hard and soft lists
  // ---------------------------------------------------------------------------------

  /** The packages of a sequence of pairs: the targets of a combined list, or the
      packages of a queue. */
  function PackagesOf<K>(cs: seq<(Package, K)>): (r: seq<Package>)
    ensures |r| == |cs|
    ensures forall i :: 0 <= i < |cs| ==> r[i] == cs[i].0
  {
    seq(|cs|, i requires 0 <= i < |cs| => cs[i].0)
  }

  predicate Distinct(xs: seq<Package>) {
    forall i, j :: 0 <= i < j < |xs| ==> xs[i] != xs[j]
  }

  /** Two duplicate-free sequences with no element in common concatenate to a
      duplicate-free sequence. */
  lemma DistinctConcat(a: seq<Package>, b: seq<Package>)
    requires Distinct(a) && Distinct(b)
    requires forall x :: x in a ==> x !in b
    ensures Distinct(a + b)
  {
    forall i, j | 0 <= i < j < |a + b|
      ensures (a + b)[i] != (a + b)[j]
    {
      if i < |a| && j >= |a| {
        assert (a + b)[i] in a && (a + b)[j] in b;
      }
    }
  }

  /** The position of the first occurrence of `x` in `xs`. */
  function FirstIndex(xs: seq<Package>, x: Package): (r: nat)
    requires x in xs
    ensures r < |xs| && xs[r] == x
    ensures forall j :: 0 <= j < r ==> xs[j] != x
  {
    if xs[0] == x then 0 else 1 + FirstIndex(xs[1..], x)
  }

  /** One dict-building pass: `{d: kind for d in xs}` (or `setdefault`) on top of `acc`:
      the first occurrence of each target not yet present is added, in list order. */
  function AddKind(acc: seq<(Package, DepKind)>, xs: seq<Package>, k: DepKind)
    : (r: seq<(Package, DepKind)>)
    decreases |xs|
  {
    if xs == [] then acc
    else AddKind(if xs[0] in PackagesOf(acc) then acc else acc + [(xs[0], k)], xs[1..], k)
  }

  /** One pass keeps the old entries unchanged in front and adds at most one entry per
      element of `xs`. */
  lemma {:induction false} AddKindKeepsPrefix(acc: seq<(Package, DepKind)>, xs: seq<Package>, k: DepKind)
    ensures var r := AddKind(acc, xs, k);
      |acc| <= |r| <= |acc| + |xs| && r[..|acc|] == acc
    decreases |xs|
  {
    if xs != [] {
      var acc' := if xs[0] in PackagesOf(acc) then acc else acc + [(xs[0], k)];
      AddKindKeepsPrefix(acc', xs[1..], k);
      var r := AddKind(acc', xs[1..], k);
      assert r[..|acc'|] == acc';
      assert acc'[..|acc|] == acc;
      assert r[..|acc|] == r[..|acc'|][..|acc|];
    }
  }

  /** After one pass a package is a target iff it was one before or it occurs in `xs`. */
  lemma {:induction false} AddKindTargets(acc: seq<(Package, DepKind)>, xs: seq<Package>, k: DepKind)
    ensures forall p :: p in PackagesOf(AddKind(acc, xs, k)) <==> p in PackagesOf(acc) || p in xs
    decreases |xs|
  {
    if xs != [] {
      var acc' := if xs[0] in PackagesOf(acc) then acc else acc + [(xs[0], k)];
      assert PackagesOf(acc') == if xs[0] in PackagesOf(acc) then PackagesOf(acc) else PackagesOf(acc) + [xs[0]];
      AddKindTargets(acc', xs[1..], k);
      assert xs == [xs[0]] + xs[1..];
    }
  }

  /** Every entry a pass adds has kind `k`, comes from `xs` and was not a target before. */
  lemma {:induction false} AddKindNewEntries(acc: seq<(Package, DepKind)>, xs: seq<Package>, k: DepKind)
    ensures var r := AddKind(acc, xs, k);
      forall i :: |acc| <= i < |r| ==> r[i].1 == k && r[i].0 in xs && r[i].0 !in PackagesOf(acc)
    decreases |xs|
  {
    if xs != [] {
      var x := xs[0];
      var acc' := if x in PackagesOf(acc) then acc else acc + [(x, k)];
      assert PackagesOf(acc') == if x in PackagesOf(acc) then PackagesOf(acc) else PackagesOf(acc) + [x];
      AddKindNewEntries(acc', xs[1..], k);
      AddKindKeepsPrefix(acc', xs[1..], k);
      var r := AddKind(acc', xs[1..], k);
      forall i | |acc| <= i < |r|
        ensures r[i].1 == k && r[i].0 in xs && r[i].0 !in PackagesOf(acc)
      {
        if i < |acc'| {
          assert r[i] == acc'[i];
        } else {
          assert r[i].0 in xs[1..];
        }
      }
    }
  }

  /** A pass keeps the targets distinct. */
  lemma {:induction false} AddKindDistinct(acc: seq<(Package, DepKind)>, xs: seq<Package>, k: DepKind)
    requires Distinct(PackagesOf(acc))
    ensures Distinct(PackagesOf(AddKind(acc, xs, k)))
    decreases |xs|
  {
    if xs != [] {
      var x := xs[0];
      var acc' := if x in PackagesOf(acc) then acc else acc + [(x, k)];
      assert PackagesOf(acc') == if x in PackagesOf(acc) then PackagesOf(acc) else PackagesOf(acc) + [x];
      AddKindDistinct(acc', xs[1..], k);
    }
  }

  /** The entries a pass adds appear in order of their first occurrence in `xs`. */
  lemma {:induction false} AddKindOrder(acc: seq<(Package, DepKind)>, xs: seq<Package>, k: DepKind)
    ensures var r := AddKind(acc, xs, k);
      forall i, j :: |acc| <= i < j < |r| ==>
        (r[i].0 in xs && r[j].0 in xs && FirstIndex(xs, r[i].0) < FirstIndex(xs, r[j].0))
    decreases |xs|
  {
    AddKindNewEntries(acc, xs, k);
    if xs != [] {
      var x := xs[0];
      var acc' := if x in PackagesOf(acc) then acc else acc + [(x, k)];
      assert PackagesOf(acc') == if x in PackagesOf(acc) then PackagesOf(acc) else PackagesOf(acc) + [x];
      AddKindOrder(acc', xs[1..], k);
      AddKindNewEntries(acc', xs[1..], k);
      AddKindKeepsPrefix(acc', xs[1..], k);
      var r := AddKind(acc', xs[1..], k);
      forall i, j | |acc| <= i < j < |r|
        ensures FirstIndex(xs, r[i].0) < FirstIndex(xs, r[j].0)
      {
        assert r[j].0 != x by {
          assert j >= |acc'|;
          assert x in PackagesOf(acc');
        }
        assert FirstIndex(xs, r[j].0) == 1 + FirstIndex(xs[1..], r[j].0);
        if i < |acc'| {
          assert r[i] == acc'[i] == (x, k);
        } else {
          assert r[i].0 != x by { assert x in PackagesOf(acc'); }
          assert FirstIndex(xs, r[i].0) == 1 + FirstIndex(xs[1..], r[i].0);
        }
      }
    }
  }

  /** `deps = {d: "Hard" for d in hard}` followed by `deps.setdefault(d, "Soft")` for the
      soft list: the targets of one expansion. */
  function CombineDeps(hard: seq<Package>, soft: seq<Package>): (r: seq<(Package, DepKind)>)
  {
    AddKind(HardPass(hard), soft, Soft)
  }

  /** Each target once, hard winning over soft; hard targets first in hard-list order,
      then the soft-only targets in soft-list order. */
  lemma CombineDepsSpec(hard: seq<Package>, soft: seq<Package>)
    ensures var r := CombineDeps(hard, soft);
      && Distinct(PackagesOf(r))
      && |r| <= |hard| + |soft|
      && (forall p :: p in PackagesOf(r) <==> p in hard || p in soft)
      && (forall i :: 0 <= i < |r| ==> (r[i].1 == Hard <==> r[i].0 in hard))
      && (forall i, j :: 0 <= i < j < |r| && r[j].1 == Hard ==> r[i].1 == Hard)
      && (forall i, j :: 0 <= i < j < |r| && r[i].1 == Hard && r[j].1 == Hard ==>
            r[i].0 in hard && r[j].0 in hard && FirstIndex(hard, r[i].0) < FirstIndex(hard, r[j].0))
      && (forall i, j :: 0 <= i < j < |r| && r[i].1 == Soft && r[j].1 == Soft ==>
            r[i].0 in soft && r[j].0 in soft && FirstIndex(soft, r[i].0) < FirstIndex(soft, r[j].0))
  {
    CombineDepsTargets(hard, soft);
    CombineDepsKinds(hard, soft);
    CombineDepsOrder(hard, soft);
  }

  /** The hard pass, as the first half of `CombineDeps`. */
  function HardPass(hard: seq<Package>): seq<(Package, DepKind)> {
    AddKind([], hard, Hard)
  }

  lemma HardPassFacts(hard: seq<Package>)
    ensures var h := HardPass(hard);
      && Distinct(PackagesOf(h))
      && (forall p :: p in PackagesOf(h) <==> p in hard)
      && (forall i :: 0 <= i < |h| ==> h[i].1 == Hard && h[i].0 in hard)
      && |h| <= |hard|
  {
    var e: seq<(Package, DepKind)> := [];
    assert PackagesOf(e) == [];
    AddKindKeepsPrefix(e, hard, Hard);
    AddKindTargets(e, hard, Hard);
    AddKindNewEntries(e, hard, Hard);
    AddKindDistinct(e, hard, Hard);
  }

  lemma CombineDepsTargets(hard: seq<Package>, soft: seq<Package>)
    ensures var r := CombineDeps(hard, soft);
      && Distinct(PackagesOf(r))
      && |r| <= |hard| + |soft|
      && (forall p :: p in PackagesOf(r) <==> p in hard || p in soft)
  {
    var h := HardPass(hard);
    HardPassFacts(hard);
    AddKindKeepsPrefix(h, soft, Soft);
    AddKindTargets(h, soft, Soft);
    AddKindDistinct(h, soft, Soft);
  }

  lemma CombineDepsKinds(hard: seq<Package>, soft: seq<Package>)
    ensures var r := CombineDeps(hard, soft);
      && (forall i :: 0 <= i < |r| ==> (r[i].1 == Hard <==> r[i].0 in hard))
      && (forall i, j :: 0 <= i < j < |r| && r[j].1 == Hard ==> r[i].1 == Hard)
  {
    var h := HardPass(hard);
    HardPassFacts(hard);
    AddKindKeepsPrefix(h, soft, Soft);
    AddKindNewEntries(h, soft, Soft);
    var r := AddKind(h, soft, Soft);
    assert forall i :: 0 <= i < |h| ==> r[i] == h[i] by {
      assert r[..|h|] == h;
    }
    assert forall i :: 0 <= i < |h| ==> h[i].0 in PackagesOf(h);
  }

  lemma CombineDepsOrder(hard: seq<Package>, soft: seq<Package>)
    ensures var r := CombineDeps(hard, soft);
      && (forall i, j :: 0 <= i < j < |r| && r[i].1 == Hard && r[j].1 == Hard ==>
            r[i].0 in hard && r[j].0 in hard && FirstIndex(hard, r[i].0) < FirstIndex(hard, r[j].0))
      && (forall i, j :: 0 <= i < j < |r| && r[i].1 == Soft && r[j].1 == Soft ==>
            r[i].0 in soft && r[j].0 in soft && FirstIndex(soft, r[i].0) < FirstIndex(soft, r[j].0))
  {
    CombineDepsHardOrder(hard, soft);
    CombineDepsSoftOrder(hard, soft);
  }

  lemma CombineDepsHardOrder(hard: seq<Package>, soft: seq<Package>)
    ensures var r := CombineDeps(hard, soft);
      forall i, j :: 0 <= i < j < |r| && r[i].1 == Hard && r[j].1 == Hard ==>
        r[i].0 in hard && r[j].0 in hard && FirstIndex(hard, r[i].0) < FirstIndex(hard, r[j].0)
  {
    var e: seq<(Package, DepKind)> := [];
    var h := HardPass(hard);
    assert h == AddKind(e, hard, Hard);
    AddKindOrder(e, hard, Hard);
    AddKindKeepsPrefix(h, soft, Soft);
    AddKindNewEntries(h, soft, Soft);
    var r := AddKind(h, soft, Soft);
    forall i, j | 0 <= i < j < |r| && r[i].1 == Hard && r[j].1 == Hard
      ensures r[i].0 in hard && r[j].0 in hard && FirstIndex(hard, r[i].0) < FirstIndex(hard, r[j].0)
    {
      assert j < |h|;
      assert r[..|h|] == h;
      assert r[i] == h[i] && r[j] == h[j];
    }
  }

  lemma CombineDepsSoftOrder(hard: seq<Package>, soft: seq<Package>)
    ensures var r := CombineDeps(hard, soft);
      forall i, j :: 0 <= i < j < |r| && r[i].1 == Soft && r[j].1 == Soft ==>
        r[i].0 in soft && r[j].0 in soft && FirstIndex(soft, r[i].0) < FirstIndex(soft, r[j].0)
  {
    var h := HardPass(hard);
    HardPassFacts(hard);
    AddKindKeepsPrefix(h, soft, Soft);
    AddKindOrder(h, soft, Soft);
    var r := AddKind(h, soft, Soft);
  }

  // ---------------------------------------------------------------------------------
  // The edges of one expansion
  // ---------------------------------------------------------------------------------

  function EdgeTargets(es: seq<Edge>): (r: seq<Package>)
    ensures |r| == |es|
    ensures forall i :: 0 <= i < |es| ==> r[i] == es[i].to
  {
    seq(|es|, i requires 0 <= i < |es| => es[i].to)
  }

  /** The targets of `cs` other than `from` itself, in order: the entries the expansion
      loop does not skip as a self-reference. */
  function NonSelf(from: Package, cs: seq<(Package, DepKind)>): (r: seq<(Package, DepKind)>)
    decreases |cs|
  {
    if cs == [] then []
    else
      var prev := NonSelf(from, cs[..|cs| - 1]);
      if cs[|cs| - 1].0 == from then prev else prev + [cs[|cs| - 1]]
  }

  lemma NonSelfAppend(from: Package, cs: seq<(Package, DepKind)>, c: (Package, DepKind))
    ensures NonSelf(from, cs + [c]) == NonSelf(from, cs) + (if c.0 == from then [] else [c])
  {
    assert (cs + [c])[..|cs|] == cs;
  }

  /** The self-free targets are entries of `cs`, none of them `from`, and a package other
      than `from` is among them exactly when it is a target of `cs`. */
  lemma {:induction false} NonSelfMembers(from: Package, cs: seq<(Package, DepKind)>)
    ensures var r := NonSelf(from, cs);
      && |r| <= |cs|
      && (forall i :: 0 <= i < |r| ==> r[i] in cs && r[i].0 != from)
      && (forall p :: p in PackagesOf(r) <==> p in PackagesOf(cs) && p != from)
    decreases |cs|
  {
    if cs != [] {
      var init := cs[..|cs| - 1];
      var c := cs[|cs| - 1];
      assert cs == init + [c];
      NonSelfMembers(from, init);
      var prev := NonSelf(from, init);
      assert PackagesOf(cs) == PackagesOf(init) + [c.0];
      assert forall x :: x in init ==> x in cs;
      if c.0 != from {
        assert PackagesOf(prev + [c]) == PackagesOf(prev) + [c.0];
      }
    }
  }

  /** Dropping the self-reference keeps distinct targets distinct. */
  lemma {:induction false} NonSelfDistinct(from: Package, cs: seq<(Package, DepKind)>)
    requires Distinct(PackagesOf(cs))
    ensures Distinct(PackagesOf(NonSelf(from, cs)))
    decreases |cs|
  {
    if cs != [] {
      var init := cs[..|cs| - 1];
      var c := cs[|cs| - 1];
      assert PackagesOf(cs) == PackagesOf(init) + [c.0];
      NonSelfDistinct(from, init);
      NonSelfMembers(from, init);
      var prev := NonSelf(from, init);
      if c.0 != from {
        assert PackagesOf(prev + [c]) == PackagesOf(prev) + [c.0];
        assert c.0 !in PackagesOf(prev);
      }
    }
  }

  /** The self-free targets are entries of `cs` at increasing positions. */
  lemma {:induction false} NonSelfPositions(from: Package, cs: seq<(Package, DepKind)>)
    returns (idx: seq<nat>)
    ensures var r := NonSelf(from, cs);
      && |idx| == |r|
      && (forall i :: 0 <= i < |r| ==> idx[i] < |cs| && r[i] == cs[idx[i]])
      && (forall i, j :: 0 <= i < j < |r| ==> idx[i] < idx[j])
    decreases |cs|
  {
    if cs == [] {
      idx := [];
    } else {
      var init := cs[..|cs| - 1];
      var c := cs[|cs| - 1];
      var prev := NonSelfPositions(from, init);
      assert forall k :: 0 <= k < |init| ==> init[k] == cs[k];
      if c.0 == from {
        idx := prev;
      } else {
        idx := prev + [|init|];
      }
    }
  }

  /** In a duplicate-free list the first index of an element is its position. */
  lemma DistinctFirstIndex(xs: seq<Package>, k: nat)
    requires Distinct(xs) && k < |xs|
    ensures xs[k] in xs && FirstIndex(xs, xs[k]) == k
  {
  }

  /** The self-free targets keep their order in `cs`. */
  lemma NonSelfOrder(from: Package, cs: seq<(Package, DepKind)>)
    requires Distinct(PackagesOf(cs))
    ensures var r := NonSelf(from, cs);
      && (forall i :: 0 <= i < |r| ==> r[i].0 in PackagesOf(cs))
      && forall i, j :: 0 <= i < j < |r| ==>
           FirstIndex(PackagesOf(cs), r[i].0) < FirstIndex(PackagesOf(cs), r[j].0)
  {
    var idx := NonSelfPositions(from, cs);
    var r := NonSelf(from, cs);
    var t := PackagesOf(cs);
    forall i | 0 <= i < |r|
      ensures r[i].0 in t && FirstIndex(t, r[i].0) == idx[i]
    {
      assert t[idx[i]] == r[i].0;
      DistinctFirstIndex(t, idx[i]);
    }
  }

  /** The edges appended while expanding `from`, dequeued at `depth`, over its combined
      targets `cs` (the `for dep, kind in deps.items()` loop without the state updates). */
  function ExpansionEdges(root: Package, from: Package, depth: nat, cs: seq<(Package, DepKind)>)
    : (r: seq<Edge>)
  {
    var t := NonSelf(from, cs);
    seq(|t|, i requires 0 <= i < |t| => MakeEdge(root, from, t[i].0, t[i].1, depth + 1))
  }

  /** Every expansion edge leaves the expanded package, one level below it. */
  lemma ExpansionEdgesLeave(root: Package, from: Package, depth: nat, cs: seq<(Package, DepKind)>)
    ensures forall i :: 0 <= i < |ExpansionEdges(root, from, depth, cs)| ==>
              ExpansionEdges(root, from, depth, cs)[i].from == from
              && ExpansionEdges(root, from, depth, cs)[i].depth == depth + 1
  {
  }

  /** Every target except `from` itself yields exactly one edge from `from`, at depth
      `depth + 1`, carrying its kind and classification, in the order of `cs`. */
  lemma ExpansionEdgesSpec(root: Package, from: Package, depth: nat, cs: seq<(Package, DepKind)>)
    ensures var r := ExpansionEdges(root, from, depth, cs);
      && |r| <= |cs|
      && (forall i :: 0 <= i < |r| ==>
            && r[i].from == from && r[i].to != from && r[i].depth == depth + 1
            && (r[i].to, r[i].depType) in cs
            && r[i] == MakeEdge(root, from, r[i].to, r[i].depType, depth + 1))
      && (forall p :: p in EdgeTargets(r) <==> p in PackagesOf(cs) && p != from)
      && (Distinct(PackagesOf(cs)) ==> Distinct(EdgeTargets(r)))
      && (Distinct(PackagesOf(cs)) ==> forall i, j :: 0 <= i < j < |r| ==>
            FirstIndex(PackagesOf(cs), r[i].to) < FirstIndex(PackagesOf(cs), r[j].to))
  {
    var t := NonSelf(from, cs);
    var r := ExpansionEdges(root, from, depth, cs);
    NonSelfMembers(from, cs);
    assert forall i :: 0 <= i < |r| ==> r[i].to == t[i].0 && r[i].depType == t[i].1;
    assert EdgeTargets(r) == PackagesOf(t);
    if Distinct(PackagesOf(cs)) {
      NonSelfDistinct(from, cs);
      NonSelfOrder(from, cs);
    }
  }

  /** Expanding over one more target appends at most its edge. */
  lemma ExpansionEdgesAppend(root: Package, from: Package, depth: nat,
                             cs: seq<(Package, DepKind)>, c: (Package, DepKind))
    ensures ExpansionEdges(root, from, depth, cs + [c])
            == ExpansionEdges(root, from, depth, cs)
               + (if c.0 == from then [] else [MakeEdge(root, from, c.0, c.1, depth + 1)])
  {
    NonSelfAppend(from, cs, c);
  }

  // ---------------------------------------------------------------------------------
  // Views of the edge list
  // ---------------------------------------------------------------------------------

  /** The edges leaving `p`, in edge-list order. */
  function EdgesFrom(es: seq<Edge>, p: Package): (r: seq<Edge>)
    ensures |r| <= |es|
    decreases |es|
  {
    if es == [] then []
    else
      var prev := EdgesFrom(es[..|es| - 1], p);
      if es[|es| - 1].from == p then prev + [es[|es| - 1]] else prev
  }

  /** The view of `p` holds exactly the edges of the list that leave `p`. */
  lemma {:induction false} EdgesFromMembers(es: seq<Edge>, p: Package)
    ensures forall e :: e in EdgesFrom(es, p) <==> e in es && e.from == p
    decreases |es|
  {
    if es != [] {
      EdgesFromMembers(es[..|es| - 1], p);
      assert es == es[..|es| - 1] + [es[|es| - 1]];
    }
  }

  lemma EdgesFromAppend(es: seq<Edge>, e: Edge, p: Package)
    ensures EdgesFrom(es + [e], p) == EdgesFrom(es, p) + (if e.from == p then [e] else [])
  {
    assert (es + [e])[..|es|] == es;
  }

  /** The view of a concatenation is the concatenation of the views. */
  lemma {:induction false} EdgesFromSplit(a: seq<Edge>, b: seq<Edge>, p: Package)
    ensures EdgesFrom(a + b, p) == EdgesFrom(a, p) + EdgesFrom(b, p)
    decreases |b|
  {
    if b == [] {
      assert a + b == a;
    } else {
      var init := b[..|b| - 1];
      var x := b[|b| - 1];
      var ab := a + b;
      assert ab[..|ab| - 1] == a + init && ab[|ab| - 1] == x;
      EdgesFromSplit(a, init, p);
      var tail := if x.from == p then [x] else [];
      assert EdgesFrom(ab, p) == EdgesFrom(a + init, p) + tail;
      assert EdgesFrom(b, p) == EdgesFrom(init, p) + tail;
      assert EdgesFrom(a, p) + EdgesFrom(init, p) + tail == EdgesFrom(a, p) + (EdgesFrom(init, p) + tail);
    }
  }

  /** A list whose edges all leave `c` is its own view of `c` and has empty views
      otherwise. */
  lemma {:induction false} EdgesFromUniform(xs: seq<Edge>, c: Package, p: Package)
    requires forall i :: 0 <= i < |xs| ==> xs[i].from == c
    ensures EdgesFrom(xs, p) == if p == c then xs else []
    decreases |xs|
  {
    if xs != [] {
      var init := xs[..|xs| - 1];
      EdgesFromUniform(init, c, p);
      assert xs == init + [xs[|xs| - 1]];
    }
  }

  /** Appending edges that all leave `c` extends the view of `c` and no other. */
  lemma EdgesFromConcat(es: seq<Edge>, xs: seq<Edge>, c: Package, p: Package)
    requires forall i :: 0 <= i < |xs| ==> xs[i].from == c
    ensures EdgesFrom(es + xs, p) == EdgesFrom(es, p) + (if p == c then xs else [])
  {
    EdgesFromSplit(es, xs, p);
    EdgesFromUniform(xs, c, p);
    if p != c {
      assert EdgesFrom(es, p) + [] == EdgesFrom(es, p);
    }
  }

  /** Two edges of the list leaving the same package keep their relative order in that
      package's view. */
  lemma {:induction false} EdgesFromPositions(es: seq<Edge>, i: nat, j: nat) returns (a: nat, b: nat)
    requires i < j < |es| && es[i].from == es[j].from
    ensures var v := EdgesFrom(es, es[i].from); a < b < |v| && v[a] == es[i] && v[b] == es[j]
    decreases |es|
  {
    var p := es[i].from;
    var init := es[..|es| - 1];
    var v := EdgesFrom(init, p);
    assert EdgesFrom(es, p)[..|v|] == v;
    if j < |es| - 1 {
      a, b := EdgesFromPositions(init, i, j);
    } else {
      EdgesFromMembers(init, p);
      assert es[i] == init[i];
      a :| 0 <= a < |v| && v[a] == es[i];
      b := |v|;
    }
  }

  /** `i` is the position of the first edge into `n`. */
  predicate FirstInto(es: seq<Edge>, n: Package, i: int) {
    0 <= i < |es| && es[i].to == n && forall j :: 0 <= j < i ==> es[j].to != n
  }

  /** The first edge of the list whose target is `n`, if any. */
  function FirstEdgeTo(es: seq<Edge>, n: Package): (r: Option<Edge>)
    ensures r.Some? <==> n in EdgeTargets(es)
    ensures r.Some? ==> exists i :: FirstInto(es, n, i) && es[i] == r.value
    decreases |es|
  {
    if es == [] then None
    else
      var init := es[..|es| - 1];
      var prev := FirstEdgeTo(init, n);
      assert EdgeTargets(es) == EdgeTargets(init) + [es[|es| - 1].to];
      if prev.Some? then
        var i :| FirstInto(init, n, i) && init[i] == prev.value;
        assert FirstInto(es, n, i);
        prev
      else if es[|es| - 1].to == n then
        assert FirstInto(es, n, |es| - 1);
        Some(es[|es| - 1])
      else None
  }

  lemma FirstEdgeToAppend(es: seq<Edge>, e: Edge, n: Package)
    ensures FirstEdgeTo(es + [e], n) ==
              if FirstEdgeTo(es, n).Some? then FirstEdgeTo(es, n)
              else if e.to == n then Some(e) else None
  {
    assert (es + [e])[..|es|] == es;
  }

  // ---------------------------------------------------------------------------------
  // Levels and well-formedness
  // ---------------------------------------------------------------------------------

  /** The BFS depth at which a package was discovered: 0 for the root, otherwise the depth
      of the edge that first reached it. */
  function LevelOf(root: Package, edgeByChild: map<Package, Edge>, p: Package): nat {
    if p == root then 0 else if p in edgeByChild then edgeByChild[p].depth else 0
  }

  function Level(g: Graph, p: Package): nat {
    LevelOf(g.rootPackage, g.edgeByChild, p)
  }

  /** The structural invariant of a built graph: the root and every edge endpoint are nodes,
      no edge is a self-edge, every non-root node has a recorded parent, and each recorded
      parent link is an edge one level shallower than its child. */
  ghost predicate WF(g: Graph) {
    && g.rootPackage in g.nodes
    && (forall e :: e in g.edges ==> e.from in g.nodes && e.to in g.nodes && e.from != e.to)
    && g.parents.Keys == g.edgeByChild.Keys
    && (forall n :: n in g.nodes && n != g.rootPackage ==> n in g.parents)
    && (forall n :: n in g.parents ==>
          && n in g.nodes && g.parents[n] in g.nodes
          && g.edgeByChild[n].from == g.parents[n] && g.edgeByChild[n].to == n)
    && (forall n :: n in g.parents && n != g.rootPackage ==>
          g.edgeByChild[n].depth == Level(g, g.parents[n]) + 1)
  }

  // ---------------------------------------------------------------------------------
  // Stats
  // ---------------------------------------------------------------------------------

  /** The number of edges of kind `k`. */
  function CountKind(es: seq<Edge>, k: DepKind): (r: nat)
    ensures r <= |es|
  {
    if es == [] then 0 else (if es[0].depType == k then 1 else 0) + CountKind(es[1..], k)
  }

  /** Every edge is either hard or soft, so the two counts add up to the edge count. */
  lemma {:induction false} KindCountsPartition(es: seq<Edge>)
    ensures CountKind(es, Hard) + CountKind(es, Soft) == |es|
  {
    if es != [] {
      KindCountsPartition(es[1..]);
    }
  }

  function EditorOnlyNodes(nodes: map<Package, Node>): (r: set<Package>)
    ensures r <= nodes.Keys
    ensures forall p :: p in r <==> p in nodes && EditorOnly in nodes[p].flags
  {
    set p | p in nodes && EditorOnly in nodes[p].flags
  }

  /** The `stats` record: counts over the final nodes and edges. */
  function ComputeStats(nodes: map<Package, Node>, edges: seq<Edge>): (s: Stats)
    ensures s.nodeCount == |nodes| && s.edgeCount == |edges|
    ensures s.hardEdges == CountKind(edges, Hard) && s.softEdges == CountKind(edges, Soft)
    ensures s.hardEdges + s.softEdges == s.edgeCount
    ensures s.editorOnlySuspected == |EditorOnlyNodes(nodes)| <= s.nodeCount
  {
    KindCountsPartition(edges);
    var eo := EditorOnlyNodes(nodes);
    SubsetCardinality(eo, nodes.Keys);
    Stats(|nodes|, |edges|, |eo|, CountKind(edges, Soft), CountKind(edges, Hard))
  }

  lemma SubsetCardinality<T>(a: set<T>, b: set<T>)
    requires a <= b
    ensures |a| <= |b|
    decreases b
  {
    if a != {} {
      var x :| x in a;
      SubsetCardinality(a - {x}, b - {x});
    }
  }

  /** Removing a member of a finite set lowers its size. */
  lemma ShrinkCardinality<T>(a: set<T>, b: set<T>, x: T)
    requires a <= b && x in b && x !in a
    ensures |a| < |b|
  {
    SubsetCardinality(a, b - {x});
  }
}
