/**
 * `_exclude_files_helper`: the pages left out of the EPUB build. The result of
 * `glob.glob('tutorials/v_*')` is a parameter, in the order it was enumerated.
 */
module EpubExcludes {

  /** The pages always left out, in this order. */
  const FixedExcludes: seq<string> :=
    ["404.xhtml", "index.xhtml", "not_found.xhtml", "pdf.xhtml", "examples/examples.xhtml"]

  /** `path.endswith('.rst')`. */
  predicate EndsWithRst(path: string) {
    |path| >= 4 && path[|path| - 4..] == ".rst"
  }

  predicate EndsWithXhtml(path: string) {
    |path| >= 6 && path[|path| - 6..] == ".xhtml"
  }

  /** `path[:-3] + 'xhtml'` on a `.rst` path: the same stem with the extension `.xhtml`. */
  function XhtmlPath(path: string): (r: string)
    requires EndsWithRst(path)
    ensures EndsWithXhtml(r)
    ensures |r| == |path| + 2 && r[..|path| - 4] == path[..|path| - 4]
  {
    path[..|path| - 3] + "xhtml"
  }

  /** The source page an `.xhtml` output path comes from. */
  function RstPath(path: string): string
    requires EndsWithXhtml(path)
  {
    path[..|path| - 5] + "rst"
  }

  /** Swapping the extension loses nothing: the source path is recovered. */
  lemma XhtmlPathRoundTrip(path: string)
    requires EndsWithRst(path)
    ensures RstPath(XhtmlPath(path)) == path
  {
    var r := XhtmlPath(path);
    assert r[..|r| - 5] == path[..|path| - 3];
    assert path[|path| - 3..] == ".rst"[1..];
    assert path == path[..|path| - 3] + path[|path| - 3..];
  }

  /** What one scanned path adds to the list. */
  function Contribution(path: string): seq<string> {
    if EndsWithRst(path) then [XhtmlPath(path)] else []
  }

  /** The entries the scan adds, in scan order. */
  function TutorialExcludes(scan: seq<string>): seq<string> {
    if scan == [] then []
    else TutorialExcludes(scan[..|scan| - 1]) + Contribution(scan[|scan| - 1])
  }

  /** The list `_exclude_files_helper` returns. */
  function ExcludeFiles(scan: seq<string>): seq<string> {
    FixedExcludes + TutorialExcludes(scan)
  }

  /** The number of scanned paths ending in `.rst`. */
  function RstCount(scan: seq<string>): nat {
    if scan == [] then 0 else (if EndsWithRst(scan[0]) then 1 else 0) + RstCount(scan[1..])
  }

  /** Builds the list as the source does: the fixed pages, then one append per `.rst` path. */
  method ExcludeFilesHelper(scan: seq<string>) returns (excludes: seq<string>)
    ensures excludes == ExcludeFiles(scan)
    ensures excludes[..|FixedExcludes|] == FixedExcludes
    ensures |excludes| == |FixedExcludes| + RstCount(scan)
  {
    excludes := ["404.xhtml", "index.xhtml", "not_found.xhtml", "pdf.xhtml", "examples/examples.xhtml"];
    for i := 0 to |scan|
      invariant excludes == FixedExcludes + TutorialExcludes(scan[..i])
    {
      var filepath := scan[i];
      if EndsWithRst(filepath) {
        excludes := excludes + [XhtmlPath(filepath)];
      }
      assert scan[..i + 1][..i] == scan[..i];
    }
    assert scan[..|scan|] == scan;
    ExcludeFilesStartsFixed(scan);
    TutorialExcludesLength(scan);
  }

  lemma {:induction false} RstCountAppend(scan: seq<string>, path: string)
    ensures RstCount(scan + [path]) == RstCount(scan) + |Contribution(path)|
  {
    if scan != [] {
      assert (scan + [path])[1..] == scan[1..] + [path];
      RstCountAppend(scan[1..], path);
    }
  }

  /** The scan adds exactly one entry per `.rst` path. */
  lemma {:induction false} TutorialExcludesLength(scan: seq<string>)
    ensures |TutorialExcludes(scan)| == RstCount(scan)
  {
    if scan != [] {
      var init := scan[..|scan| - 1];
      TutorialExcludesLength(init);
      RstCountAppend(init, scan[|scan| - 1]);
      assert init + [scan[|scan| - 1]] == scan;
    }
  }

  /**
   * The entry of the `.rst` path at scan index `i` sits after the entries of all earlier
   * `.rst` paths: appended entries keep scan order.
   */
  lemma {:induction false} TutorialExcludesAt(scan: seq<string>, i: nat)
    requires i < |scan| && EndsWithRst(scan[i])
    ensures RstCount(scan[..i]) < |TutorialExcludes(scan)|
    ensures TutorialExcludes(scan)[RstCount(scan[..i])] == XhtmlPath(scan[i])
  {
    var init := scan[..|scan| - 1];
    TutorialExcludesLength(init);
    if i < |scan| - 1 {
      assert init[..i] == scan[..i];
      TutorialExcludesAt(init, i);
    } else {
      assert scan[..i] == init;
    }
  }

  /** Every added entry is the `.xhtml` path of some scanned `.rst` path. */
  lemma {:induction false} TutorialExcludesFrom(scan: seq<string>, j: nat)
    requires j < |TutorialExcludes(scan)|
    ensures exists i :: 0 <= i < |scan| && EndsWithRst(scan[i]) && TutorialExcludes(scan)[j] == XhtmlPath(scan[i])
  {
    var init := scan[..|scan| - 1];
    if j < |TutorialExcludes(init)| {
      TutorialExcludesFrom(init, j);
      var i :| 0 <= i < |init| && EndsWithRst(init[i]) && TutorialExcludes(init)[j] == XhtmlPath(init[i]);
      assert scan[i] == init[i];
    } else {
      assert TutorialExcludes(scan)[j] == XhtmlPath(scan[|scan| - 1]);
    }
  }

  /** The scan adds nothing exactly when no scanned path ends in `.rst`. */
  lemma {:induction false} TutorialExcludesEmpty(scan: seq<string>)
    ensures TutorialExcludes(scan) == [] <==> forall i :: 0 <= i < |scan| ==> !EndsWithRst(scan[i])
  {
    if scan != [] {
      var init := scan[..|scan| - 1];
      TutorialExcludesEmpty(init);
      assert forall i :: 0 <= i < |init| ==> init[i] == scan[i];
    }
  }

  /** Whatever the scan, the list starts with the five fixed pages. */
  lemma ExcludeFilesStartsFixed(scan: seq<string>)
    ensures |ExcludeFiles(scan)| >= 5
    ensures ExcludeFiles(scan)[..5] == ["404.xhtml", "index.xhtml", "not_found.xhtml", "pdf.xhtml", "examples/examples.xhtml"]
  {
  }

  /** An empty scan (a missing `tutorials` directory) gives the fixed pages alone. */
  lemma ExcludeFilesEmptyScan()
    ensures ExcludeFiles([]) == FixedExcludes
  {
  }

  lemma ExcludeFilesExample()
    ensures ExcludeFiles(["tutorials/v_1.0.rst", "tutorials/v_1.0", "tutorials/v_2.0.rst"])
         == FixedExcludes + ["tutorials/v_1.0.xhtml", "tutorials/v_2.0.xhtml"]
  {
    var a, b, c := "tutorials/v_1.0.rst", "tutorials/v_1.0", "tutorials/v_2.0.rst";
    var scan := [a, b, c];
    assert scan[..2] == [a, b] && [a, b][..1] == [a] && [a][..0] == [];
    assert !EndsWithRst(b);
    assert XhtmlPath(a) == "tutorials/v_1.0.xhtml";
    assert XhtmlPath(c) == "tutorials/v_2.0.xhtml";
    assert TutorialExcludes([a]) == TutorialExcludes([]) + Contribution(a) == [XhtmlPath(a)];
    assert TutorialExcludes([a, b]) == TutorialExcludes([a]) + Contribution(b) == [XhtmlPath(a)];
    assert TutorialExcludes(scan) == TutorialExcludes([a, b]) + Contribution(c);
  }
}
