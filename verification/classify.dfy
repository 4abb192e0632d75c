/** The dependency classifier of `adr/adr_graph.py`: a total function from
    (root, source, target, kind, depth) to a human-readable reason and a flag list. */
module Classify {
  import opened Strings

  /** Path fragments that mark a package as existing for editor or development use. */
  const EditorOnlyMarkers: seq<string> := ["/Editor/", "/Developers/", "/Test/", "/Debug/"]

  /** The project's shippable runtime content root. */
  const RuntimeContentRoot: string := "/Game/"

  const HardReason: string := "Hard Runtime Reference"
  const SoftReason: string := "Soft Reference (optional)"
  const EditorOnlyReason: string := "Editor-only Suspected"
  /** The reason explanations and the tree give the root. */
  const RootReason: string := "ROOT"
  const TransitiveSuffix: string := " (Transitive)"

  /** The two reference kinds the asset registry reports. */
  datatype DepKind = Hard | Soft

  /** The semantic flags carried by nodes and edges (`"editor_only"`, `"suspicious"`). */
  datatype Flag = EditorOnly | Suspicious

  datatype Classification = Classification(reason: string, flags: seq<Flag>)

  /** `is_editor_only_suspected`: the path contains one of the editor-only markers. */
  predicate IsEditorOnlySuspected(path: string) {
    exists i :: 0 <= i < |EditorOnlyMarkers| && Contains(path, EditorOnlyMarkers[i])
  }

  /** The reason before the transitive suffix: editor-only overrides the kind's reason. */
  function BaseReason(to: string, kind: DepKind): (r: string)
    ensures r == EditorOnlyReason || r == HardReason || r == SoftReason
    ensures IsEditorOnlySuspected(to) ==> r == EditorOnlyReason
    ensures !IsEditorOnlySuspected(to) ==> (r == SoftReason <==> kind == Soft)
  {
    if IsEditorOnlySuspected(to) then EditorOnlyReason
    else if kind == Soft then SoftReason
    else HardReason
  }

  /** `classify_dependency`. The source package is accepted but, as in the original,
      plays no part in the result. */
  function ClassifyDependency(root: string, from: string, to: string, kind: DepKind, depth: int)
    : (c: Classification)
    ensures |c.reason| > 0
    ensures EndsWith(c.reason, TransitiveSuffix) <==> depth > 1
    ensures StartsWith(c.reason, EditorOnlyReason) <==> IsEditorOnlySuspected(to)
    ensures StartsWith(c.reason, "Soft") <==> !IsEditorOnlySuspected(to) && kind == Soft
    ensures EditorOnly in c.flags <==> IsEditorOnlySuspected(to)
    ensures Suspicious in c.flags <==> IsEditorOnlySuspected(to) && StartsWith(root, RuntimeContentRoot)
    ensures c.flags == [] || c.flags[0] == EditorOnly
    ensures |c.flags| <= 2
  {
    var editorOnly := IsEditorOnlySuspected(to);
    var base := BaseReason(to, kind);
    var flags := (if editorOnly then [EditorOnly] else [])
                 + (if StartsWith(root, RuntimeContentRoot) && editorOnly then [Suspicious] else []);
    var reason := if depth > 1 then base + TransitiveSuffix else base;
    BaseReasonShape(to, kind, depth);
    Classification(reason, flags)
  }

  /** How the three base reasons can be told apart from each other and from the suffix. */
  lemma BaseReasonShape(to: string, kind: DepKind, depth: int)
    ensures var base := BaseReason(to, kind);
      var reason := if depth > 1 then base + TransitiveSuffix else base;
      && (EndsWith(reason, TransitiveSuffix) <==> depth > 1)
      && (StartsWith(reason, EditorOnlyReason) <==> base == EditorOnlyReason)
      && (StartsWith(reason, "Soft") <==> base == SoftReason)
  {
    var base := BaseReason(to, kind);
    var reason := if depth > 1 then base + TransitiveSuffix else base;
    SuffixMarksTransitive(base, depth);
    assert reason[..|base|] == base;
    FirstLetterDecides(reason, base);
  }

  /** None of the base reasons ends in the suffix, so the suffix is present exactly when
      it was appended. */
  lemma SuffixMarksTransitive(base: string, depth: int)
    requires base == EditorOnlyReason || base == HardReason || base == SoftReason
    ensures EndsWith(if depth > 1 then base + TransitiveSuffix else base, TransitiveSuffix) <==> depth > 1
  {
    assert base[|base| - 13] != ' ' by {
      assert HardReason[9] == 'i' && EditorOnlyReason[8] == 'n' && SoftReason[12] == 'c';
    }
    if depth > 1 {
      var reason := base + TransitiveSuffix;
      assert reason[|reason| - |TransitiveSuffix|..] == TransitiveSuffix;
    }
  }

  /** A reason starting with a base reason starts with `Editor-only Suspected` or `Soft`
      exactly when that base reason is the editor-only or the soft one. */
  lemma FirstLetterDecides(reason: string, base: string)
    requires base == EditorOnlyReason || base == HardReason || base == SoftReason
    requires |base| <= |reason| && reason[..|base|] == base
    ensures StartsWith(reason, EditorOnlyReason) <==> base == EditorOnlyReason
    ensures StartsWith(reason, "Soft") <==> base == SoftReason
  {
    assert reason[0] == base[0];
    assert HardReason[0] == 'H' && SoftReason[0] == 'S' && EditorOnlyReason[0] == 'E';
    assert StartsWith(reason, "Soft") ==> reason[0] == 'S';
    assert StartsWith(reason, EditorOnlyReason) ==> reason[0] == 'E';
    if base == SoftReason {
      assert reason[..4] == base[..4] == "Soft";
    }
  }

  /** A package under an editor-only folder is flagged. */
  lemma EditorFolderIsFlagged()
    ensures IsEditorOnlySuspected("/Editor/Dev/Baz")
  {
    assert StartsWith("/Editor/Dev/Baz", EditorOnlyMarkers[0]);
  }

  /** A soft reference two levels below a `/Game/` root into an editor folder is reported
      as a transitive editor-only dependency and flagged suspicious. */
  lemma TransitiveEditorDependencyExample()
    ensures ClassifyDependency("/Game/Foo/Foo", "/Game/Bar/Bar", "/Editor/Dev/Baz", Soft, 2)
            == Classification("Editor-only Suspected (Transitive)", [EditorOnly, Suspicious])
  {
    EditorFolderIsFlagged();
    assert StartsWith("/Game/Foo/Foo", RuntimeContentRoot);
    assert EditorOnlyReason + TransitiveSuffix == "Editor-only Suspected (Transitive)";
  }
}
