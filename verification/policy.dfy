/** `evaluate_policies` of `adr/adr_policy.py`: one `NO_EDITOR_DEPS` violation per
    editor-only edge of a dependency graph, deduplicated by (policy, package). */
module Policy {
  import opened Paths
  import opened Classify
  import opened Graph
  import opened Explain

  const NoEditorDeps: string := "NO_EDITOR_DEPS"
  const WarningSeverity: string := "warning"
  const EditorDepsMessage: string :=
    "Editor-only / dev content appears in the runtime dependency graph. This may cause cook or shipping issues."

  datatype Violation = Violation(policyId: string, severity: string, message: string,
                                 violatingPackage: Package, examplePath: seq<Package>)

  /** The targets of the edges flagged editor-only, in edge order. */
  function FlaggedTargets(es: seq<Edge>): (r: seq<Package>)
    ensures |r| <= |es|
    decreases |es|
  {
    if es == [] then []
    else
      var last := es[|es| - 1];
      FlaggedTargets(es[..|es| - 1]) + (if EditorOnly in last.flags then [last.to] else [])
  }

  /** A package is a flagged target exactly when some flagged edge points to it. */
  lemma {:induction false} FlaggedTargetsMembers(es: seq<Edge>)
    ensures forall p :: p in FlaggedTargets(es) <==> exists e :: e in es && EditorOnly in e.flags && e.to == p
    decreases |es|
  {
    if es != [] {
      var init := es[..|es| - 1];
      FlaggedTargetsMembers(init);
      assert es == init + [es[|es| - 1]];
    }
  }

  /** Two flagged edges keep their order among the flagged targets. */
  lemma {:induction false} FlaggedTargetsPositions(es: seq<Edge>, i: nat, j: nat) returns (a: nat, b: nat)
    requires i < j < |es| && EditorOnly in es[i].flags && EditorOnly in es[j].flags
    ensures a < b < |FlaggedTargets(es)|
    ensures FlaggedTargets(es)[a] == es[i].to && FlaggedTargets(es)[b] == es[j].to
    decreases |es|
  {
    var init := es[..|es| - 1];
    var t := FlaggedTargets(es);
    if j < |es| - 1 {
      a, b := FlaggedTargetsPositions(init, i, j);
    } else {
      a := FlaggedTargetsAt(init, i);
      b := |FlaggedTargets(init)|;
    }
  }

  lemma {:induction false} FlaggedTargetsAt(es: seq<Edge>, i: nat) returns (a: nat)
    requires i < |es| && EditorOnly in es[i].flags
    ensures a < |FlaggedTargets(es)| && FlaggedTargets(es)[a] == es[i].to
    decreases |es|
  {
    var init := es[..|es| - 1];
    if i < |es| - 1 {
      a := FlaggedTargetsAt(init, i);
    } else {
      a := |FlaggedTargets(init)|;
    }
  }

  /** The violation recorded for one flagged target. */
  function ViolationFor(g: Graph, p: Package): (v: Violation)
    ensures v.violatingPackage == p
  {
    Violation(NoEditorDeps, WarningSeverity, EditorDepsMessage, p, Packages(ExplainPath(g, p)))
  }

  /** The `violations` list before deduplication. */
  function RawViolations(g: Graph): (r: seq<Violation>)
    ensures |r| == |FlaggedTargets(g.edges)|
    ensures forall k :: 0 <= k < |r| ==> r[k] == ViolationFor(g, FlaggedTargets(g.edges)[k])
  {
    var t := FlaggedTargets(g.edges);
    seq(|t|, k requires 0 <= k < |t| => ViolationFor(g, t[k]))
  }

  // ---------------------------------------------------------------------------------
  // Deduplication by (policy_id, violating_package)
  // ---------------------------------------------------------------------------------

  type Key = (string, Package)

  function KeyOf(v: Violation): Key {
    (v.policyId, v.violatingPackage)
  }

  function KeySet(vs: seq<Violation>): set<Key> {
    set v | v in vs :: KeyOf(v)
  }

  /** The `seen` set and the `deduped` list after the loop has read all of `vs`. */
  function DedupState(vs: seq<Violation>): (st: (set<Key>, seq<Violation>))
    ensures |st.1| <= |vs|
    decreases |vs|
  {
    if vs == [] then ({}, [])
    else
      var st := DedupState(vs[..|vs| - 1]);
      var v := vs[|vs| - 1];
      if KeyOf(v) in st.0 then st else (st.0 + {KeyOf(v)}, st.1 + [v])
  }

  function Dedup(vs: seq<Violation>): seq<Violation> {
    DedupState(vs).1
  }

  /** Position `k` holds the first violation of `vs` with its key. */
  predicate FirstWithKey(vs: seq<Violation>, k: int) {
    0 <= k < |vs| && forall m :: 0 <= m < k ==> KeyOf(vs[m]) != KeyOf(vs[k])
  }

  /** The `seen` set holds every key read. */
  lemma {:induction false} DedupSeen(vs: seq<Violation>)
    ensures DedupState(vs).0 == KeySet(vs)
    decreases |vs|
  {
    if vs != [] {
      var init := vs[..|vs| - 1];
      DedupSeen(init);
      KeySetAppend(init, vs[|vs| - 1]);
      assert vs == init + [vs[|vs| - 1]];
    }
  }

  lemma KeySetAppend(vs: seq<Violation>, v: Violation)
    ensures KeySet(vs + [v]) == KeySet(vs) + {KeyOf(v)}
  {
    assert forall w :: w in vs + [v] <==> w in vs || w == v;
  }

  /** Appending a violation leaves the first occurrences before it as they were, and is a
      first occurrence itself exactly when its key is new. */
  lemma FirstWithKeyAppend(vs: seq<Violation>, v: Violation)
    ensures forall k :: 0 <= k < |vs| ==> (FirstWithKey(vs + [v], k) <==> FirstWithKey(vs, k))
    ensures FirstWithKey(vs + [v], |vs|) <==> KeyOf(v) !in KeySet(vs)
  {
    var ws := vs + [v];
    assert forall m :: 0 <= m < |vs| ==> ws[m] == vs[m];
    if KeyOf(v) in KeySet(vs) {
      var w :| w in vs && KeyOf(w) == KeyOf(v);
      var m :| 0 <= m < |vs| && vs[m] == w;
      assert KeyOf(ws[m]) == KeyOf(ws[|vs|]);
    } else {
      forall m | 0 <= m < |vs| ensures KeyOf(ws[m]) != KeyOf(ws[|vs|]) {
        assert vs[m] in vs;
      }
    }
  }

  /** The deduplicated list is exactly the subsequence of first occurrences: `idx` lists
      their positions in increasing order, and every first occurrence is among them. */
  lemma {:induction false} DedupIndices(vs: seq<Violation>) returns (idx: seq<nat>)
    ensures |idx| == |Dedup(vs)|
    ensures forall i :: 0 <= i < |idx| ==> FirstWithKey(vs, idx[i]) && Dedup(vs)[i] == vs[idx[i]]
    ensures forall i, j :: 0 <= i < j < |idx| ==> idx[i] < idx[j]
    ensures forall k :: FirstWithKey(vs, k) ==> k in idx
    decreases |vs|
  {
    if vs == [] {
      idx := [];
    } else {
      var init := vs[..|vs| - 1];
      var v := vs[|vs| - 1];
      var prev := DedupIndices(init);
      DedupSeen(init);
      FirstWithKeyAppend(init, v);
      assert vs == init + [v];
      if KeyOf(v) in KeySet(init) {
        idx := prev;
      } else {
        idx := prev + [|init|];
      }
    }
  }

  /** Deduplication keeps one violation per key read, each one of the inputs, and never
      two with the same key. */
  lemma DedupSpec(vs: seq<Violation>)
    ensures KeySet(Dedup(vs)) == KeySet(vs)
    ensures forall v :: v in Dedup(vs) ==> v in vs
    ensures forall i, j :: 0 <= i < j < |Dedup(vs)| ==> KeyOf(Dedup(vs)[i]) != KeyOf(Dedup(vs)[j])
  {
    var out := Dedup(vs);
    var idx := DedupIndices(vs);
    DedupSeen(vs);
    forall k | k in KeySet(vs) ensures k in KeySet(out) {
      var v :| v in vs && KeyOf(v) == k;
      var first := FirstKeyPosition(vs, v);
      var i :| 0 <= i < |idx| && idx[i] == first;
      assert out[i] == vs[first] && out[i] in out;
    }
  }

  /** Every key read has a first position. */
  lemma FirstKeyPosition(vs: seq<Violation>, v: Violation) returns (k: nat)
    requires v in vs
    ensures FirstWithKey(vs, k) && KeyOf(vs[k]) == KeyOf(v)
  {
    var n :| 0 <= n < |vs| && vs[n] == v;
    k := n;
    while exists m :: 0 <= m < k && KeyOf(vs[m]) == KeyOf(v)
      invariant 0 <= k < |vs| && KeyOf(vs[k]) == KeyOf(v)
      decreases k
    {
      var m :| 0 <= m < k && KeyOf(vs[m]) == KeyOf(v);
      k := m;
    }
  }

  // ---------------------------------------------------------------------------------
  // evaluate_policies
  // ---------------------------------------------------------------------------------

  /** `evaluate_policies(root_package, graph)`. The root package is accepted but, as in
      the original, plays no part in the result. */
  function EvaluatePolicies(rootPackage: Package, g: Graph): (r: seq<Violation>)
    ensures |r| <= |FlaggedTargets(g.edges)|
  {
    Dedup(RawViolations(g))
  }

  /** The packages some editor-only edge points to. */
  function FlaggedSet(es: seq<Edge>): set<Package> {
    set e | e in es && EditorOnly in e.flags :: e.to
  }

  function ViolatingPackages(vs: seq<Violation>): set<Package> {
    set v | v in vs :: v.violatingPackage
  }

  /** In the raw list, position `k` is the first of its key exactly when it is the first
      occurrence of its package among the flagged targets. */
  lemma RawFirstWithKey(g: Graph, k: nat)
    requires k < |FlaggedTargets(g.edges)|
    ensures FirstWithKey(RawViolations(g), k) <==> FirstIndex(FlaggedTargets(g.edges), FlaggedTargets(g.edges)[k]) == k
  {
    var t := FlaggedTargets(g.edges);
    var raw := RawViolations(g);
    assert forall m :: 0 <= m < |raw| ==> KeyOf(raw[m]) == (NoEditorDeps, t[m]);
  }

  /** Each kept violation sits at the first flagged position of its package, these
      positions increase, and every flagged target is kept. */
  lemma PolicyPositions(rootPackage: Package, g: Graph) returns (idx: seq<nat>)
    ensures var r := EvaluatePolicies(rootPackage, g);
      var t := FlaggedTargets(g.edges);
      && |idx| == |r|
      && (forall i :: 0 <= i < |r| ==>
            && idx[i] < |t| && r[i] == ViolationFor(g, t[idx[i]])
            && FirstIndex(t, r[i].violatingPackage) == idx[i])
      && (forall i, j :: 0 <= i < j < |idx| ==> idx[i] < idx[j])
      && (forall p :: p in t ==> p in ViolatingPackages(r))
  {
    var t := FlaggedTargets(g.edges);
    var raw := RawViolations(g);
    var r := EvaluatePolicies(rootPackage, g);
    idx := DedupIndices(raw);
    forall i | 0 <= i < |r|
      ensures idx[i] < |t| && r[i] == ViolationFor(g, t[idx[i]])
      ensures FirstIndex(t, r[i].violatingPackage) == idx[i]
    {
      assert FirstWithKey(raw, idx[i]) && r[i] == raw[idx[i]];
      RawFirstWithKey(g, idx[i]);
    }
    forall p | p in t ensures p in ViolatingPackages(r) {
      var k := FirstIndex(t, p);
      RawFirstWithKey(g, k);
      var i :| 0 <= i < |idx| && idx[i] == k;
      assert r[i].violatingPackage == p && r[i] in r;
    }
  }

  lemma PackagesFromPositions(r: seq<Violation>, t: seq<Package>, idx: seq<nat>)
    requires |idx| == |r|
    requires forall i :: 0 <= i < |r| ==> idx[i] < |t| && r[i].violatingPackage == t[idx[i]]
    ensures forall p :: p in ViolatingPackages(r) ==> p in t
  {
    forall p | p in ViolatingPackages(r) ensures p in t {
      var v :| v in r && v.violatingPackage == p;
      var i :| 0 <= i < |r| && r[i] == v;
      assert t[idx[i]] in t;
    }
  }

  /** Every violation is a `NO_EDITOR_DEPS` warning with the fixed message that carries
      its package's explanation. */
  lemma PolicyFields(rootPackage: Package, g: Graph)
    ensures var r := EvaluatePolicies(rootPackage, g);
      forall i :: 0 <= i < |r| ==>
        && r[i].policyId == NoEditorDeps && r[i].severity == WarningSeverity
        && r[i].message == EditorDepsMessage
        && r[i].examplePath == Packages(ExplainPath(g, r[i].violatingPackage))
  {
    var idx := PolicyPositions(rootPackage, g);
  }

  /** The violating packages are exactly the targets of the editor-only edges. */
  lemma PolicyPackages(rootPackage: Package, g: Graph)
    ensures var r := EvaluatePolicies(rootPackage, g);
      && ViolatingPackages(r) == FlaggedSet(g.edges)
      && (forall i :: 0 <= i < |r| ==> r[i].violatingPackage in FlaggedTargets(g.edges))
  {
    var t := FlaggedTargets(g.edges);
    var r := EvaluatePolicies(rootPackage, g);
    var idx := PolicyPositions(rootPackage, g);
    FlaggedTargetsMembers(g.edges);
    forall p | p in FlaggedSet(g.edges) ensures p in t {
      var e :| e in g.edges && EditorOnly in e.flags && e.to == p;
    }
    PackagesFromPositions(r, t, idx);
  }

  /** Each package is reported once, in the order of the first editor-only edge into
      each. */
  lemma PolicyOrder(rootPackage: Package, g: Graph)
    ensures var r := EvaluatePolicies(rootPackage, g);
      var t := FlaggedTargets(g.edges);
      forall i, j :: 0 <= i < j < |r| ==>
        && r[i].violatingPackage in t && r[j].violatingPackage in t
        && r[i].violatingPackage != r[j].violatingPackage
        && FirstIndex(t, r[i].violatingPackage) < FirstIndex(t, r[j].violatingPackage)
  {
    var idx := PolicyPositions(rootPackage, g);
  }

  /** A list of violations about pairwise different packages names as many packages as
      it has violations. */
  lemma {:induction false} DistinctPackagesCount(vs: seq<Violation>)
    requires forall i, j :: 0 <= i < j < |vs| ==> vs[i].violatingPackage != vs[j].violatingPackage
    ensures |ViolatingPackages(vs)| == |vs|
    decreases |vs|
  {
    if vs != [] {
      var init := vs[..|vs| - 1];
      var v := vs[|vs| - 1];
      assert vs == init + [v];
      DistinctPackagesCount(init);
      NewPackage(init, v);
    }
  }

  /** Appending a violation about a package no earlier one names adds that package. */
  lemma NewPackage(vs: seq<Violation>, v: Violation)
    requires forall i :: 0 <= i < |vs| ==> vs[i].violatingPackage != v.violatingPackage
    ensures ViolatingPackages(vs + [v]) == ViolatingPackages(vs) + {v.violatingPackage}
    ensures v.violatingPackage !in ViolatingPackages(vs)
  {
    assert forall w :: w in vs + [v] <==> w in vs || w == v;
    forall w | w in vs ensures w.violatingPackage != v.violatingPackage {
      var i :| 0 <= i < |vs| && vs[i] == w;
    }
  }

  /** There are exactly as many violations as distinct editor-only edge targets, and no
      more than edges. */
  lemma PolicyCount(rootPackage: Package, g: Graph)
    ensures |EvaluatePolicies(rootPackage, g)| == |FlaggedSet(g.edges)|
    ensures |EvaluatePolicies(rootPackage, g)| <= |g.edges|
  {
    PolicyPackages(rootPackage, g);
    PolicyOrder(rootPackage, g);
    DistinctPackagesCount(EvaluatePolicies(rootPackage, g));
  }

  /** The root-package argument is never read. */
  lemma PolicyIgnoresRoot(a: Package, b: Package, g: Graph)
    ensures EvaluatePolicies(a, g) == EvaluatePolicies(b, g)
  {
  }

  /** In a well-formed graph, the explanation of an editor-only edge's target that is a
      package name runs from the root down to it, one package per level. */
  lemma FlaggedTargetPath(g: Graph, p: Package)
    requires WF(g) && p in FlaggedSet(g.edges) && PackageName(p) == p
    ensures var path := Packages(ExplainPath(g, p));
      && |path| == Level(g, p) + 1
      && path[0] == g.rootPackage && path[|path| - 1] == p
  {
    var e :| e in g.edges && EditorOnly in e.flags && e.to == p;
    ExplainBuiltPath(g, p);
  }

  /** For a well-formed graph, the example path of a violation about a package name runs
      from the graph's root down to that package, one package per level. */
  lemma EvaluatePoliciesPaths(rootPackage: Package, g: Graph)
    requires WF(g)
    ensures var r := EvaluatePolicies(rootPackage, g);
      forall i :: 0 <= i < |r| && PackageName(r[i].violatingPackage) == r[i].violatingPackage ==>
        var path := r[i].examplePath;
        && |path| == Level(g, r[i].violatingPackage) + 1
        && path[0] == g.rootPackage && path[|path| - 1] == r[i].violatingPackage
  {
    var r := EvaluatePolicies(rootPackage, g);
    PolicyFields(rootPackage, g);
    PolicyPackages(rootPackage, g);
    forall i | 0 <= i < |r| && PackageName(r[i].violatingPackage) == r[i].violatingPackage
      ensures |r[i].examplePath| == Level(g, r[i].violatingPackage) + 1
      ensures r[i].examplePath[0] == g.rootPackage
      ensures r[i].examplePath[|r[i].examplePath| - 1] == r[i].violatingPackage
    {
      assert r[i] in r;
      FlaggedTargetPath(g, r[i].violatingPackage);
    }
  }
}
