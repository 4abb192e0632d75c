/** The path normaliser of `adr/adr_graph.py`: turning the loosely formatted path strings
    the editor hands out (`/Game/Foo/Bar`, `/Game/Foo/Bar.Bar`,
    `Blueprint'/Game/Foo/BP_Bar.BP_Bar'`) into an object path `package.leaf` and a
    package name. */
module Paths {
  import opened Strings

  /** The quote-unwrapping step: for a string ending in `'`, the text strictly between
      its first and its last `'` (Python's `s[s.find("'") + 1 : s.rfind("'")]`, which is
      empty when the final quote is the only one). */
  function Unquote(s: string): (r: string)
    requires EndsWith(s, "'")
    ensures '\'' in s[..|s| - 1] ==>
              exists pre :: '\'' !in pre && s == pre + "'" + r + "'"
    ensures '\'' !in s[..|s| - 1] ==> r == ""
  {
    var first := FindChar(s, '\'');
    assert s[|s| - 1] == '\'';
    if first + 1 <= |s| - 1 then
      var r := s[first + 1..|s| - 1];
      assert s == s[..first] + "'" + r + "'";
      r
    else
      assert s[..|s| - 1] == s[..first];
      ""
  }

  /** The unwrapping applies only to a string that ends in a quote. */
  function UnwrapQuoted(s: string): (r: string)
    ensures !EndsWith(s, "'") ==> r == s
  {
    if '\'' in s && EndsWith(s, "'") then Unquote(s) else s
  }

  /** Appending `.Leaf`: a path with an object separator is kept, any other gains the
      separator followed by its last `/` segment. */
  function WithLeaf(s: string): (r: string)
    ensures '.' in r
    ensures '.' in s ==> r == s
    ensures '.' !in s ==> r == s + "." + AfterLast(s, '/')
  {
    if '.' !in s then
      var r := s + "." + AfterLast(s, '/');
      assert r[|s|] == '.';
      r
    else s
  }

  /** `asset_path_to_object_path`: strip, unwrap an editor `Class'...'` quoting, and append
      `.Leaf` (the last `/` segment) when there is no object separator yet. */
  function ToObjectPath(assetPath: string): (r: string)
    ensures assetPath == "" ==> r == ""
    ensures assetPath != "" ==> '.' in r
    ensures (Strip(assetPath) == assetPath && '.' in assetPath && !EndsWith(assetPath, "'"))
              ==> r == assetPath
  {
    if assetPath == "" then assetPath
    else WithLeaf(UnwrapQuoted(Strip(assetPath)))
  }

  /** `object_path_to_package_name`: the normalised object path up to its first `.`. */
  function PackageName(objectPath: string): (r: string)
    ensures '.' !in r
    ensures objectPath != "" ==> StartsWith(ToObjectPath(objectPath), r + ".")
    ensures objectPath == "" ==> r == ""
  {
    BeforeFirst(ToObjectPath(objectPath), '.')
  }

  /** A trimmed, unquoted path without an object separator (`/Game/Foo/Bar`) becomes
      `/Game/Foo/Bar.Bar` and is its own package name. */
  lemma DotFreePathIsOwnPackage(p: string)
    requires p != "" && Strip(p) == p
    requires '.' !in p && '\'' !in p
    ensures ToObjectPath(p) == p + "." + AfterLast(p, '/')
    ensures PackageName(p) == p
  {
    var o := ToObjectPath(p);
    assert UnwrapQuoted(p) == p;
    assert o == p + "." + AfterLast(p, '/');
    FirstDotAfterDotFreePrefix(p, AfterLast(p, '/'));
  }

  lemma FirstDotAfterDotFreePrefix(p: string, leaf: string)
    requires '.' !in p
    ensures BeforeFirst(p + "." + leaf, '.') == p
  {
    var o := p + "." + leaf;
    assert o[|p|] == '.';
    assert forall i :: 0 <= i < |p| ==> o[i] == p[i];
    assert FindChar(o, '.') == |p|;
    assert o[..|p|] == p;
  }

  /** Every character of a slice of `s` is a character of `s`. */
  lemma SliceKeepsCharsOut(s: string, r: string, k: int, c: char)
    requires 0 <= k <= |s| - |r| && r == s[k..k + |r|]
    requires c !in s
    ensures c !in r
  {
    assert forall i :: 0 <= i < |r| ==> r[i] == s[k + i];
  }

  /** Appending the leaf to a quote-free string with no whitespace at either end gives a
      quote-free, non-empty string with no whitespace at either end. */
  lemma WithLeafKeepsShape(s: string)
    requires '\'' !in s
    requires |s| > 0 ==> !IsSpace(s[0]) && !IsSpace(s[|s| - 1])
    ensures var r := WithLeaf(s);
      && |r| > 0 && '\'' !in r && !IsSpace(r[0]) && !IsSpace(r[|r| - 1])
  {
    var r := WithLeaf(s);
    if '.' !in s {
      var leaf := AfterLast(s, '/');
      assert r == s + "." + leaf;
      if |s| > 0 { assert r[0] == s[0]; } else { assert r[0] == '.'; }
      if |leaf| > 0 {
        assert r[|r| - 1] == leaf[|leaf| - 1] == s[|s| - 1];
      } else {
        assert r[|r| - 1] == '.';
      }
      SliceKeepsCharsOut(s, leaf, |s| - |leaf|, '\'');
      assert '\'' !in ".";
    }
  }

  /** A non-empty, quote-free object path with no whitespace at either end and an object
      separator is a fixed point of the normaliser. */
  lemma CanonicalObjectPathIsFixed(r: string)
    requires |r| > 0 && '\'' !in r && '.' in r
    requires !IsSpace(r[0]) && !IsSpace(r[|r| - 1])
    ensures ToObjectPath(r) == r
  {
    StripNoEdgeSpace(r);
    assert r[|r| - 1] != '\'';
  }

  /** A quote-free input is normalised by stripping it and appending the leaf; the
      stripped text is quote-free and has no whitespace at either end. */
  lemma QuoteFreeNormalisation(raw: string)
    requires raw != "" && '\'' !in raw
    ensures ToObjectPath(raw) == WithLeaf(Strip(raw))
    ensures '\'' !in Strip(raw)
    ensures |Strip(raw)| > 0 ==> !IsSpace(Strip(raw)[0]) && !IsSpace(Strip(raw)[|Strip(raw)| - 1])
  {
    var s := Strip(raw);
    var k :| SliceBetweenSpaces(raw, s, k);
    SliceKeepsCharsOut(raw, s, k, '\'');
    assert UnwrapQuoted(s) == s;
  }

  /** Normalising twice is normalising once, for every input without a `'`. */
  lemma ObjectPathIdempotentWithoutQuotes(raw: string)
    requires '\'' !in raw
    ensures ToObjectPath(ToObjectPath(raw)) == ToObjectPath(raw)
  {
    if raw != "" {
      QuoteFreeNormalisation(raw);
      var s := Strip(raw);
      WithLeafKeepsShape(s);
      var once := WithLeaf(s);
      assert |once| > 0 && '\'' !in once && '.' in once;
      assert !IsSpace(once[0]) && !IsSpace(once[|once| - 1]);
      CanonicalObjectPathIsFixed(once);
    }
  }

  /** With quotes, normalising is not idempotent: `'a''` unwraps to `a'`, which gains the
      leaf `.a'`, and normalising `a'.a'` unwraps once more, to `.a`. */
  lemma ObjectPathNotIdempotentWithQuotes()
    ensures ToObjectPath("'a''") == "a'.a'"
    ensures ToObjectPath("a'.a'") == ".a"
  {
    QuotedNameGainsLeaf();
    QuotedObjectPathUnwrapsAgain();
  }

  lemma QuotedNameGainsLeaf()
    ensures ToObjectPath("'a''") == "a'.a'"
  {
    var q := "'a''";
    StripNoEdgeSpace(q);
    assert FindChar(q, '\'') == 0;
    assert UnwrapQuoted(q) == "a'";
    LeafOfQuotedName();
  }

  lemma QuotedObjectPathUnwrapsAgain()
    ensures ToObjectPath("a'.a'") == ".a"
  {
    var q := "a'.a'";
    StripNoEdgeSpace(q);
    assert FindChar(q, '\'') == 1 by {
      assert q[1..] == "'.a'";
    }
    assert UnwrapQuoted(q) == ".a";
    assert ".a"[0] == '.';
    assert WithLeaf(".a") == ".a";
  }

  lemma LeafOfQuotedName()
    ensures WithLeaf("a'") == "a'.a'"
  {
    assert AfterLast("a'", '/') == "a'" by {
      assert AfterLast("a", '/') == "a";
    }
    assert '.' !in "a'" by {
      assert |"a'"| == 2 && "a'"[0] == 'a' && "a'"[1] == '\'';
    }
    assert "a'" + "." + "a'" == "a'.a'";
  }
}
