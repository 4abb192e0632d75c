/** The pure decision logic of `preflight/preflight_core.py`: the naming-prefix rule, the
    unused-asset heuristic with its report cap, the mapping of dependency-policy
    violations to findings, and the pass/warn/fail verdict over all findings.

    The editor calls the source makes (selection, asset data, asset listing, referencer
    lookup, the dependency source of the graph builder) are parameters here. */
module Preflight {
  import opened Wrappers
  import opened Strings
  import opened Paths
  import opened Graph
  import opened Builder
  import opened Policy

  /** The node cap `run_preflight` passes to the graph builder. */
  const DefaultMaxNodes: int := 600

  /** The most `UNUSED_POSSIBLE` findings one scan reports. */
  const UnusedReportCap: nat := 50

  /** `NAMING_RULES`: the required asset-name prefix per asset class. */
  const NamingRules: map<string, string> := map[
    "Material" := "M_",
    "MaterialInstanceConstant" := "MI_",
    "Texture2D" := "T_",
    "Blueprint" := "BP_",
    "WidgetBlueprint" := "WBP_",
    "StaticMesh" := "SM_",
    "SkeletalMesh" := "SK_"]

  const UnknownClass: string := "Unknown"

  const AssetDataMissing: string := "NAMING_ASSET_DATA_MISSING"
  const AssetDataMissingHint: string := "Could not read asset data for selected asset."
  const PrefixMismatch: string := "NAMING_PREFIX_MISMATCH"
  const UnusedPossible: string := "UNUSED_POSSIBLE"
  const UnusedPossibleHint: string := "No package referencers found (heuristic). Verify before deletion."
  const UnusedTruncated: string := "UNUSED_TRUNCATED"
  const UnusedTruncatedHint: string := "Unused scan results truncated for readability."
  const NoSelection: string := "NO_SELECTION"
  const NoSelectionHint: string := "Select at least one asset in the Content Browser before running preflight."

  datatype Severity = Error | Warning | Info

  /** The `details` dictionaries the checks attach. */
  datatype Details =
    | NoDetails
    | NamingDetails(cls: string, expectedPrefix: string, actualName: string)
    | ReportedDetails(reported: nat)
    | PathDetails(examplePath: seq<Package>)

  datatype Finding = Finding(severity: Severity, code: string, hint: string,
                             asset: Option<string>, details: Details)

  /** What the asset lookup returns for a readable asset: its class name, or `None` when
      reading the class raises. */
  datatype AssetData = AssetData(className: Option<string>)

  // ---------------------------------------------------------------------------------
  // An order-keeping filter over a list, with the positions it keeps
  // ---------------------------------------------------------------------------------

  /** The `for x in xs: if …: out.append(…)` pattern: the present results of `f`, in
      list order. */
  function FilterMap<A, B>(xs: seq<A>, f: A -> Option<B>): (r: seq<B>)
    ensures |r| <= |xs|
    decreases |xs|
  {
    if xs == [] then []
    else
      var init := FilterMap(xs[..|xs| - 1], f);
      match f(xs[|xs| - 1])
      case None => init
      case Some(b) => init + [b]
  }

  /** The kept results are those of the positions `idx`, which increase and include every
      position where `f` gives a result. */
  lemma {:induction false} FilterMapIndices<A, B>(xs: seq<A>, f: A -> Option<B>) returns (idx: seq<nat>)
    ensures |idx| == |FilterMap(xs, f)|
    ensures forall i :: 0 <= i < |idx| ==> idx[i] < |xs| && f(xs[idx[i]]) == Some(FilterMap(xs, f)[i])
    ensures forall i, j :: 0 <= i < j < |idx| ==> idx[i] < idx[j]
    ensures forall k :: 0 <= k < |xs| && f(xs[k]).Some? ==> k in idx
    decreases |xs|
  {
    if xs == [] {
      idx := [];
    } else {
      var init := xs[..|xs| - 1];
      var prev := FilterMapIndices(init, f);
      var last := xs[|xs| - 1];
      assert forall k :: 0 <= k < |init| ==> xs[k] == init[k];
      if f(last).Some? {
        assert FilterMap(xs, f) == FilterMap(init, f) + [f(last).value];
        idx := prev + [|init|];
      } else {
        assert FilterMap(xs, f) == FilterMap(init, f);
        idx := prev;
      }
    }
  }

  // ---------------------------------------------------------------------------------
  // Naming check
  // ---------------------------------------------------------------------------------

  /** `_asset_name_from_object_path`: the text after the first `.`, the whole path when
      there is none. */
  function AssetNameFromObjectPath(objectPath: string): (r: string)
    ensures objectPath == "" ==> r == ""
    ensures '.' !in objectPath ==> r == objectPath
    ensures '.' in objectPath ==> objectPath == BeforeFirst(objectPath, '.') + "." + r
  {
    if objectPath == "" then "" else AfterFirst(objectPath, '.')
  }

  lemma AssetNameExample()
    ensures AssetNameFromObjectPath("/Game/Foo/Bar.Bar") == "Bar"
  {
    var p := "/Game/Foo/Bar.Bar";
    assert p[..13] == "/Game/Foo/Bar" && '.' !in p[..13] && p[13] == '.';
    FirstDotAfterDotFreePrefix("/Game/Foo/Bar", "Bar");
    assert p == "/Game/Foo/Bar" + "." + "Bar";
  }

  /** The asset name of a normalised, dot-free package path is its last `/` segment. */
  lemma AssetNameOfNormalisedPath(p: string)
    requires p != "" && Strip(p) == p
    requires '.' !in p && '\'' !in p
    ensures AssetNameFromObjectPath(ToObjectPath(p)) == AfterLast(p, '/')
  {
    DotFreePathIsOwnPackage(p);
    var o := ToObjectPath(p);
    FirstDotAfterDotFreePrefix(p, AfterLast(p, '/'));
    assert o[|p|] == '.';
  }

  /** The naming rule of a class: `NAMING_RULES.get(class_name)`, where a missing or
      empty prefix means the class is not covered. */
  function ExpectedPrefix(cls: string): (r: Option<string>)
    ensures r.Some? <==> cls in NamingRules && NamingRules[cls] != ""
    ensures r.Some? ==> r.value == NamingRules[cls]
  {
    if cls in NamingRules && NamingRules[cls] != "" then Some(NamingRules[cls]) else None
  }

  function PrefixMismatchHint(prefix: string, cls: string): string {
    "Expected prefix '" + prefix + "' for class '" + cls + "'."
  }

  /** The finding, if any, for one selected path given what the asset lookup returned. */
  function NamingFinding(objectPath: string, ad: Option<AssetData>): (r: Option<Finding>)
    ensures r.Some? ==> r.value.severity == Warning && r.value.asset == Some(objectPath)
    ensures ad.None? ==> r.Some? && r.value.code == AssetDataMissing && r.value.details == NoDetails
    ensures ad.Some? ==>
      var cls := ad.value.className.GetOr(UnknownClass);
      && (ExpectedPrefix(cls).None? ==> r.None?)
      && (ExpectedPrefix(cls).Some? ==>
            && (r.Some? <==> !StartsWith(AssetNameFromObjectPath(objectPath), ExpectedPrefix(cls).value))
            && (r.Some? ==>
                  && r.value.code == PrefixMismatch
                  && r.value.details
                     == NamingDetails(cls, ExpectedPrefix(cls).value, AssetNameFromObjectPath(objectPath))))
  {
    match ad
    case None => Some(Finding(Warning, AssetDataMissing, AssetDataMissingHint, Some(objectPath), NoDetails))
    case Some(data) =>
      var cls := data.className.GetOr(UnknownClass);
      match ExpectedPrefix(cls)
      case None => None
      case Some(prefix) =>
        var name := AssetNameFromObjectPath(objectPath);
        if StartsWith(name, prefix) then None
        else Some(Finding(Warning, PrefixMismatch, PrefixMismatchHint(prefix, cls), Some(objectPath),
                          NamingDetails(cls, prefix, name)))
  }

  /** `check_naming_for_assets`, with `_find_asset_data` as the lookup. */
  function CheckNaming(objectPaths: seq<string>, lookup: string -> Option<AssetData>): (r: seq<Finding>)
    ensures |r| <= |objectPaths|
  {
    FilterMap(objectPaths, (p: string) => NamingFinding(p, lookup(p)))
  }

  /** The naming findings are all warnings, at most one per selected path and in
      selection order: finding `i` is the finding of path `idx[i]`, the positions
      increase, and every path with a finding is among them. */
  lemma CheckNamingOrder(objectPaths: seq<string>, lookup: string -> Option<AssetData>)
    returns (idx: seq<nat>)
    ensures var r := CheckNaming(objectPaths, lookup);
      && |idx| == |r|
      && (forall i :: 0 <= i < |r| ==>
            && idx[i] < |objectPaths| && r[i].severity == Warning
            && r[i].asset == Some(objectPaths[idx[i]])
            && Some(r[i]) == NamingFinding(objectPaths[idx[i]], lookup(objectPaths[idx[i]])))
      && (forall i, j :: 0 <= i < j < |idx| ==> idx[i] < idx[j])
      && (forall k :: 0 <= k < |objectPaths| && NamingFinding(objectPaths[k], lookup(objectPaths[k])).Some?
            ==> k in idx)
  {
    idx := FilterMapIndices(objectPaths, (p: string) => NamingFinding(p, lookup(p)));
  }

  /** A path whose asset data cannot be read is reported as such. */
  lemma MissingAssetDataIsReported(objectPaths: seq<string>, lookup: string -> Option<AssetData>, k: nat)
    requires k < |objectPaths| && lookup(objectPaths[k]).None?
    ensures exists f :: f in CheckNaming(objectPaths, lookup)
              && f.code == AssetDataMissing && f.asset == Some(objectPaths[k])
  {
    var r := CheckNaming(objectPaths, lookup);
    var idx := CheckNamingOrder(objectPaths, lookup);
    var i :| 0 <= i < |idx| && idx[i] == k;
    assert r[i] in r;
  }

  // ---------------------------------------------------------------------------------
  // Unused-asset scan
  // ---------------------------------------------------------------------------------

  /** The map check: the path ends in `.umap`, as written or lowercased. */
  predicate IsMapPath(p: string) {
    EndsWith(p, ".umap") || EndsWith(Lower(p), ".umap")
  }

  /** Python's `xs[:n]`. */
  function SliceTo<T>(xs: seq<T>, n: int): (r: seq<T>)
    ensures r <= xs
    ensures n >= 0 ==> |r| == if n < |xs| then n else |xs|
    ensures n < 0 ==> |r| == |xs| - (if -n < |xs| then -n else |xs|)
  {
    if n >= 0 then xs[..if n < |xs| then n else |xs|]
    else xs[..if |xs| + n > 0 then |xs| + n else 0]
  }

  /** The heuristic for one listed path, given the referencer lookup's answer: `None` when
      the lookup raised, otherwise the number of referencing packages. */
  function UnusedFinding(p: string, refs: Option<nat>): (r: Option<Finding>)
    ensures r.Some? <==> !IsMapPath(p) && refs == Some(0)
    ensures r.Some? ==> r.value == Finding(Info, UnusedPossible, UnusedPossibleHint, Some(p), NoDetails)
  {
    if IsMapPath(p) then None
    else match refs
      case None => None
      case Some(n) =>
        if n == 0 then Some(Finding(Info, UnusedPossible, UnusedPossibleHint, Some(p), NoDetails))
        else None
  }

  function RawUnused(assets: seq<string>, referencers: string -> Option<nat>): (r: seq<Finding>)
    ensures |r| <= |assets|
  {
    FilterMap(assets, (p: string) => UnusedFinding(p, referencers(p)))
  }

  const TruncatedFinding: Finding :=
    Finding(Info, UnusedTruncated, UnusedTruncatedHint, None, ReportedDetails(UnusedReportCap))

  /** The report cap: more than 50 findings are cut to the first 50 followed by one
      `UNUSED_TRUNCATED` note. */
  function CapUnused(fs: seq<Finding>): (r: seq<Finding>)
    ensures |r| <= UnusedReportCap + 1
    ensures |fs| <= UnusedReportCap ==> r == fs
    ensures |fs| > UnusedReportCap ==>
              |r| == UnusedReportCap + 1 && r[..UnusedReportCap] == fs[..UnusedReportCap]
              && r[UnusedReportCap] == TruncatedFinding
  {
    if |fs| > UnusedReportCap then fs[..UnusedReportCap] + [TruncatedFinding] else fs
  }

  /** `check_unused_assets(limit)` over the asset listing (`_list_game_assets` before its
      `[:limit]` slice) and the referencer lookup. */
  function CheckUnused(listing: seq<string>, limit: int, referencers: string -> Option<nat>): (r: seq<Finding>)
    ensures |r| <= UnusedReportCap + 1
  {
    CapUnused(RawUnused(SliceTo(listing, limit), referencers))
  }

  /** Every reported `UNUSED_POSSIBLE` finding is about a scanned path that is not a map
      and whose lookup found no referencers; the only other finding is a final
      `UNUSED_TRUNCATED`, present exactly when more than 50 paths qualified. */
  lemma CheckUnusedSpec(listing: seq<string>, limit: int, referencers: string -> Option<nat>)
    ensures var scanned := SliceTo(listing, limit);
      var raw := RawUnused(scanned, referencers);
      var r := CheckUnused(listing, limit, referencers);
      && (forall i :: 0 <= i < |r| && r[i].code == UnusedPossible ==>
            exists k :: 0 <= k < |scanned| && r[i].asset == Some(scanned[k])
                        && !IsMapPath(scanned[k]) && referencers(scanned[k]) == Some(0))
      && (forall i :: 0 <= i < |r| && r[i].code != UnusedPossible ==>
            i == UnusedReportCap && r[i] == TruncatedFinding)
      && (TruncatedFinding in r <==> |raw| > UnusedReportCap)
  {
    var scanned := SliceTo(listing, limit);
    var f := (p: string) => UnusedFinding(p, referencers(p));
    var raw := RawUnused(scanned, referencers);
    var r := CheckUnused(listing, limit, referencers);
    var idx := FilterMapIndices(scanned, f);
    assert forall i :: 0 <= i < |raw| ==> raw[i].code == UnusedPossible && f(scanned[idx[i]]) == Some(raw[i]);
    forall i | 0 <= i < |r| && r[i].code == UnusedPossible
      ensures exists k :: 0 <= k < |scanned| && r[i].asset == Some(scanned[k])
                          && !IsMapPath(scanned[k]) && referencers(scanned[k]) == Some(0)
    {
      assert r[i] == raw[i];
      var k := idx[i];
      assert f(scanned[k]) == Some(raw[i]);
    }
    if |raw| <= UnusedReportCap {
      assert forall i :: 0 <= i < |r| ==> r[i].code == UnusedPossible;
    }
  }

  /** The reported `UNUSED_POSSIBLE` findings follow scan order: an earlier finding is
      about an earlier scanned path. */
  lemma CheckUnusedOrder(listing: seq<string>, limit: int, referencers: string -> Option<nat>)
    ensures var scanned := SliceTo(listing, limit);
      var r := CheckUnused(listing, limit, referencers);
      forall i, j :: 0 <= i < j < |r| && r[j].code == UnusedPossible ==>
        exists ki, kj :: 0 <= ki < kj < |scanned| && r[i].asset == Some(scanned[ki])
                         && r[j].asset == Some(scanned[kj])
  {
    var scanned := SliceTo(listing, limit);
    var f := (p: string) => UnusedFinding(p, referencers(p));
    var raw := RawUnused(scanned, referencers);
    var r := CheckUnused(listing, limit, referencers);
    var idx := FilterMapIndices(scanned, f);
    forall i, j | 0 <= i < j < |r| && r[j].code == UnusedPossible
      ensures exists ki, kj :: 0 <= ki < kj < |scanned| && r[i].asset == Some(scanned[ki])
                               && r[j].asset == Some(scanned[kj])
    {
      assert j < |raw| && r[i] == raw[i] && r[j] == raw[j];
      assert f(scanned[idx[i]]) == Some(raw[i]) && f(scanned[idx[j]]) == Some(raw[j]);
      assert idx[i] < idx[j];
    }
  }

  /** The number of findings with a given code. */
  function CountCode(fs: seq<Finding>, code: string): (n: nat)
    ensures n <= |fs|
  {
    if fs == [] then 0 else (if fs[0].code == code then 1 else 0) + CountCode(fs[1..], code)
  }

  lemma {:induction false} CountCodeConcat(a: seq<Finding>, b: seq<Finding>, code: string)
    ensures CountCode(a + b, code) == CountCode(a, code) + CountCode(b, code)
    decreases |a|
  {
    if a != [] {
      assert (a + b)[1..] == a[1..] + b;
      CountCodeConcat(a[1..], b, code);
    } else {
      assert a + b == b;
    }
  }

  lemma {:induction false} CountCodeAll(fs: seq<Finding>, code: string)
    requires forall i :: 0 <= i < |fs| ==> fs[i].code == code
    ensures CountCode(fs, code) == |fs|
    decreases |fs|
  {
    if fs != [] {
      CountCodeAll(fs[1..], code);
    }
  }

  /** `unused_flagged_count`: the number of `UNUSED_POSSIBLE` findings reported, which is
      the number of qualifying paths up to the cap of 50. */
  lemma UnusedFlaggedCount(listing: seq<string>, limit: int, referencers: string -> Option<nat>)
    ensures var raw := RawUnused(SliceTo(listing, limit), referencers);
      CountCode(CheckUnused(listing, limit, referencers), UnusedPossible)
      == if |raw| > UnusedReportCap then UnusedReportCap else |raw|
  {
    var scanned := SliceTo(listing, limit);
    var f := (p: string) => UnusedFinding(p, referencers(p));
    var raw := RawUnused(scanned, referencers);
    var idx := FilterMapIndices(scanned, f);
    assert forall i :: 0 <= i < |raw| ==> f(scanned[idx[i]]) == Some(raw[i]) && raw[i].code == UnusedPossible;
    if |raw| > UnusedReportCap {
      var kept := raw[..UnusedReportCap];
      CountCodeAll(kept, UnusedPossible);
      CountCodeConcat(kept, [TruncatedFinding], UnusedPossible);
      assert CountCode([TruncatedFinding], UnusedPossible) == 0;
    } else {
      CountCodeAll(raw, UnusedPossible);
    }
  }

  // ---------------------------------------------------------------------------------
  // Dependency-policy findings
  // ---------------------------------------------------------------------------------

  /** One violation as a finding: a `"warning"` violation stays a warning, any other
      severity becomes an error. */
  function ViolationFinding(v: Violation): (f: Finding)
    ensures f.severity == Warning <==> v.severity == WarningSeverity
    ensures f.severity != Info
    ensures f.code == v.policyId && f.hint == v.message
    ensures f.asset == Some(v.violatingPackage) && f.details == PathDetails(v.examplePath)
  {
    Finding(if v.severity == WarningSeverity then Warning else Error, v.policyId, v.message,
            Some(v.violatingPackage), PathDetails(v.examplePath))
  }

  function ViolationFindings(vs: seq<Violation>): (r: seq<Finding>)
    ensures |r| == |vs|
    ensures forall i :: 0 <= i < |vs| ==> r[i] == ViolationFinding(vs[i])
  {
    seq(|vs|, i requires 0 <= i < |vs| => ViolationFinding(vs[i]))
  }

  /** The `stats` the policy check reports from the graph. */
  datatype AdrStats = AdrStats(nodes: nat, edges: nat, editorOnlySuspected: nat, truncated: bool)

  /** The findings of a policy evaluation are warnings coded `NO_EDITOR_DEPS`, one per
      editor-only edge target, and never two about the same package. */
  lemma PolicyFindingsFacts(g: Graph)
    ensures var findings := ViolationFindings(EvaluatePolicies(g.rootPackage, g));
      && (forall i :: 0 <= i < |findings| ==>
            && findings[i].severity == Warning && findings[i].code == NoEditorDeps
            && findings[i].asset.Some? && findings[i].asset.value in FlaggedSet(g.edges))
      && (forall i, j :: 0 <= i < j < |findings| ==> findings[i].asset != findings[j].asset)
  {
    var violations := EvaluatePolicies(g.rootPackage, g);
    PolicyFields(g.rootPackage, g);
    PolicyPackages(g.rootPackage, g);
    PolicyOrder(g.rootPackage, g);
    assert forall i :: 0 <= i < |violations| ==> violations[i] in violations;
  }

  /** `check_dependency_policies`: build the graph from the root, evaluate the policies,
      and map each violation to a finding. The graph is returned too, so that callers
      can relate the findings to it. */
  method CheckDependencyPolicies(src: DependencySource, classOf: Package -> string,
                                 rootObjectPath: string, maxDepth: int, maxNodes: int)
    returns (findings: seq<Finding>, stats: AdrStats, g: Graph)
    ensures Built(src, classOf, rootObjectPath, maxDepth, maxNodes, g)
    ensures findings == ViolationFindings(EvaluatePolicies(g.rootPackage, g))
    ensures forall i :: 0 <= i < |findings| ==>
              && findings[i].severity == Warning && findings[i].code == NoEditorDeps
              && findings[i].asset.Some? && findings[i].asset.value in FlaggedSet(g.edges)
    ensures forall i, j :: 0 <= i < j < |findings| ==> findings[i].asset != findings[j].asset
    ensures stats == AdrStats(|g.nodes|, |g.edges|, g.stats.editorOnlySuspected, g.truncated)
  {
    g := BuildDependencyGraph(src, classOf, rootObjectPath, maxDepth, maxNodes);
    findings := ViolationFindings(EvaluatePolicies(g.rootPackage, g));
    PolicyFindingsFacts(g);
    stats := AdrStats(g.stats.nodeCount, g.stats.edgeCount, g.stats.editorOnlySuspected, g.truncated);
  }

  // ---------------------------------------------------------------------------------
  // The preflight run and its verdict
  // ---------------------------------------------------------------------------------

  datatype Status = Pass | Warn | Fail

  function HasSeverity(fs: seq<Finding>, s: Severity): (b: bool)
    ensures b <==> exists i :: 0 <= i < |fs| && fs[i].severity == s
  {
    if fs == [] then false
    else if fs[0].severity == s then true
    else
      var b := HasSeverity(fs[1..], s);
      assert forall i :: 1 <= i < |fs| ==> fs[i] == fs[1..][i - 1];
      b
  }

  /** The verdict: fail on any error, otherwise warn on any warning, otherwise pass. */
  function StatusOf(fs: seq<Finding>): (s: Status)
    ensures s == Fail <==> exists i :: 0 <= i < |fs| && fs[i].severity == Error
    ensures s == Warn <==>
              (forall i :: 0 <= i < |fs| ==> fs[i].severity != Error)
              && exists i :: 0 <= i < |fs| && fs[i].severity == Warning
    ensures s == Pass <==> forall i :: 0 <= i < |fs| ==> fs[i].severity == Info
  {
    if HasSeverity(fs, Error) then Fail
    else if HasSeverity(fs, Warning) then Warn
    else Pass
  }

  /** Adding findings never improves the verdict. */
  lemma StatusMonotone(a: seq<Finding>, b: seq<Finding>)
    ensures StatusOf(a) == Fail ==> StatusOf(a + b) == Fail
    ensures StatusOf(a) == Warn ==> StatusOf(a + b) != Pass
  {
    assert forall i :: 0 <= i < |a| ==> (a + b)[i] == a[i];
  }

  datatype PreflightStats = PreflightStats(selectedCount: Option<nat>, adr: Option<AdrStats>,
                                           unusedScannedLimit: int, unusedFlaggedCount: nat)

  /** The error reported when nothing is selected. */
  const NoSelectionFinding: Finding := Finding(Error, NoSelection, NoSelectionHint, None, NoDetails)

  datatype Report = Report(status: Status, rootAsset: Option<string>, findings: seq<Finding>,
                           stats: PreflightStats)

  /** `run_preflight(depth, unused_limit)` over the selected object paths and the injected
      lookups: the naming check over the selection and the policy check on its first
      path (with the default node cap), or a `NO_SELECTION` error when nothing is
      selected; then, either way, the unused scan; then the verdict over everything. */
  method RunPreflight(selected: seq<string>, lookup: string -> Option<AssetData>,
                      src: DependencySource, classOf: Package -> string, depth: int,
                      listing: seq<string>, unusedLimit: int, referencers: string -> Option<nat>)
    returns (report: Report)
    ensures var unused := CheckUnused(listing, unusedLimit, referencers);
      selected == [] ==>
        && report.rootAsset == None && report.status == Fail
        && report.findings == [NoSelectionFinding] + unused
        && report.stats.selectedCount == None && report.stats.adr == None
    ensures var unused := CheckUnused(listing, unusedLimit, referencers);
      selected != [] ==>
        && report.rootAsset == Some(selected[0])
        && report.stats.selectedCount == Some(|selected|)
        && exists g :: Built(src, classOf, selected[0], depth, DefaultMaxNodes, g)
             && report.findings
                == CheckNaming(selected, lookup) + ViolationFindings(EvaluatePolicies(g.rootPackage, g)) + unused
             && report.stats.adr
                == Some(AdrStats(|g.nodes|, |g.edges|, g.stats.editorOnlySuspected, g.truncated))
    ensures var unused := CheckUnused(listing, unusedLimit, referencers);
      && report.stats.unusedFlaggedCount == CountCode(unused, UnusedPossible)
      && report.stats.unusedFlaggedCount <= UnusedReportCap
    ensures report.stats.unusedScannedLimit == unusedLimit
    ensures report.status == Fail <==> exists i :: 0 <= i < |report.findings| && report.findings[i].severity == Error
    ensures report.status == Pass <==> forall i :: 0 <= i < |report.findings| ==> report.findings[i].severity == Info
  {
    var findings: seq<Finding> := [];
    var selectedCount: Option<nat> := None;
    var adr: Option<AdrStats> := None;
    if selected == [] {
      findings := [NoSelectionFinding];
    } else {
      var adrStats;
      findings, adrStats := CheckSelected(selected, lookup, src, classOf, depth);
      selectedCount := Some(|selected|);
      adr := Some(adrStats);
    }
    var root := if selected == [] then None else Some(selected[0]);
    report := Conclude(findings, root, selectedCount, adr, listing, unusedLimit, referencers);
    if selected == [] {
      assert report.findings[0].severity == Error;
    } else {
      ghost var g :| Built(src, classOf, selected[0], depth, DefaultMaxNodes, g)
        && findings == CheckNaming(selected, lookup) + ViolationFindings(EvaluatePolicies(g.rootPackage, g))
        && adr == Some(AdrStats(|g.nodes|, |g.edges|, g.stats.editorOnlySuspected, g.truncated));
    }
  }

  /** The tail of `run_preflight`: the unused scan appended to the findings so far, its
      counts in the stats, and the verdict over every finding. */
  method Conclude(findings: seq<Finding>, root: Option<string>, selectedCount: Option<nat>,
                  adr: Option<AdrStats>, listing: seq<string>, unusedLimit: int,
                  referencers: string -> Option<nat>)
    returns (report: Report)
    ensures var unused := CheckUnused(listing, unusedLimit, referencers);
      && report.findings == findings + unused
      && report.stats.unusedFlaggedCount == CountCode(unused, UnusedPossible)
      && report.stats.unusedFlaggedCount <= UnusedReportCap
    ensures report.rootAsset == root
    ensures report.stats.selectedCount == selectedCount && report.stats.adr == adr
    ensures report.stats.unusedScannedLimit == unusedLimit
    ensures report.status == Fail <==> exists i :: 0 <= i < |report.findings| && report.findings[i].severity == Error
    ensures report.status == Pass <==> forall i :: 0 <= i < |report.findings| ==> report.findings[i].severity == Info
  {
    var unused := CheckUnused(listing, unusedLimit, referencers);
    var all := findings + unused;
    UnusedFlaggedCount(listing, unusedLimit, referencers);
    var flagged := CountCode(unused, UnusedPossible);
    report := Report(StatusOf(all), root, all, PreflightStats(selectedCount, adr, unusedLimit, flagged));
  }

  /** The naming findings of the selection, then the dependency findings of the graph built
      from its first asset with the default node cap. */
  method CheckSelected(selected: seq<string>, lookup: string -> Option<AssetData>,
                       src: DependencySource, classOf: Package -> string, depth: int)
    returns (findings: seq<Finding>, stats: AdrStats)
    requires selected != []
    ensures exists g :: Built(src, classOf, selected[0], depth, DefaultMaxNodes, g)
                          && findings == CheckNaming(selected, lookup) + ViolationFindings(EvaluatePolicies(g.rootPackage, g))
                          && stats == AdrStats(|g.nodes|, |g.edges|, g.stats.editorOnlySuspected, g.truncated)
  {
    var adrFindings, g;
    adrFindings, stats, g := CheckDependencyPolicies(src, classOf, selected[0], depth, DefaultMaxNodes);
    findings := CheckNaming(selected, lookup) + adrFindings;
  }
}
