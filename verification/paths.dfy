/**
  File extensions as the output writer reads them: the part of
  `os.path.splitext(filepath)[1]` after its dot, with POSIX path rules.
 */
module Paths {
  import opened Strings

  /** Some character strictly between `lo` and `hi` is not a dot. */
  predicate HasNonDot(p: string, lo: int, hi: int)
    requires -1 <= lo && hi <= |p|
  {
    exists k :: lo < k < hi && p[k] != '.'
  }

  /**
    `os.path.splitext(p)`: the extension starts at the last dot, provided
    that dot lies in the last path component and is not part of a run of
    leading dots (so `.bashrc` has no extension); otherwise it is empty.
   */
  function SplitExt(p: string): (r: (string, string))
    ensures r.0 + r.1 == p
    ensures r.1 == [] || (r.1[0] == '.' && '/' !in r.1 && '.' !in r.1[1..])
    // The root keeps a character other than a dot in its last component.
    ensures r.1 != [] ==> HasStem(r.0)
  {
    var sep := RFind(p, '/');
    var dot := RFind(p, '.');
    if dot > sep && HasNonDot(p, sep, dot) then
      var ext := p[dot..];
      assert forall k :: 0 <= k < |ext| ==> ext[k] == p[dot + k];
      RootKeepsStem(p, sep, dot);
      (p[..dot], ext)
    else
      (p, [])
  }

  /** Cutting a path at a dot after its last slash keeps that slash and the characters before the dot. */
  lemma RootKeepsStem(p: string, sep: int, dot: int)
    requires sep == RFind(p, '/') && sep < dot < |p| && HasNonDot(p, sep, dot)
    ensures HasStem(p[..dot])
  {
    var root := p[..dot];
    assert forall k :: 0 <= k < dot ==> root[k] == p[k];
    if sep >= 0 {
      RFindAt(root, '/', sep);
    } else {
      assert forall k :: 0 <= k < |root| ==> root[k] != '/';
    }
    var k :| sep < k < dot && p[k] != '.';
    assert root[k] != '.';
  }

  /** `os.path.splitext(p)[1][1:]`: the extension without its dot, "" when there is none. */
  function Extension(p: string): (e: string)
    ensures '.' !in e && '/' !in e
    ensures e != [] ==> |e| < |p| && p[|p| - |e| - 1..] == ['.'] + e
    ensures e != [] ==> HasStem(p[..|p| - |e| - 1])
  {
    var ext := SplitExt(p).1;
    if ext == [] then [] else ext[1..]
  }

  /** The last path component has a character other than a dot. */
  predicate HasStem(p: string)
  {
    HasNonDot(p, RFind(p, '/'), |p|)
  }

  /**
    The partner of SplitExt: appending a dot and a dot-free, slash-free
    (possibly empty) extension to a path whose last component has a
    non-dot character splits the path back into the two parts.
   */
  lemma SplitExtOfAppended(stem: string, e: string)
    requires HasStem(stem) && '.' !in e && '/' !in e
    ensures SplitExt(stem + ['.'] + e) == (stem, ['.'] + e)
  {
    var p := stem + ['.'] + e;
    var sepS := RFind(stem, '/');
    var sep := RFind(p, '/');
    var dot := RFind(p, '.');
    assert p[|stem|] == '.';
    assert dot == |stem|;
    assert forall j :: |stem| < j < |p| ==> p[j] == e[j - |stem| - 1];
    assert sep < |stem|;
    assert forall j :: 0 <= j < |stem| ==> p[j] == stem[j];
    assert sep == sepS;
    var k :| sepS < k < |stem| && stem[k] != '.';
    assert p[k] != '.';
    assert HasNonDot(p, sep, dot);
    assert p[dot..] == ['.'] + e;
    assert p[..dot] == stem;
  }

  /** Appending `.e` to a path whose last component has a non-dot character makes `e` its extension. */
  lemma ExtensionOfAppended(stem: string, e: string)
    requires HasStem(stem) && '.' !in e && '/' !in e
    ensures Extension(stem + ['.'] + e) == e
  {
    SplitExtOfAppended(stem, e);
    assert (['.'] + e)[1..] == e;
  }

  /**
    Leading dots do not start an extension: when every character of the last
    component before its last dot is a dot (`.bashrc`, `..nc`, `out/.nc`),
    or the last component has no dot at all, splitext leaves the path whole.
   */
  lemma SplitExtLeadingDots(p: string)
    requires forall k :: RFind(p, '/') < k < RFind(p, '.') ==> p[k] == '.'
    ensures SplitExt(p) == (p, [])
  {
  }

  /** A last component without a dot, or made only of dots and then nothing else, has no extension. */
  lemma NoDotNoExtension(p: string)
    requires forall k :: RFind(p, '/') < k < |p| ==> p[k] != '.'
    ensures Extension(p) == []
  {
  }

  /**
    Leading dots do not start an extension: when every character of the last
    component before its last dot is a dot (`.bashrc`, `..nc`, `out/.nc`),
    the path has no extension.
   */
  lemma LeadingDotsNoExtension(p: string)
    requires forall k :: RFind(p, '/') < k < RFind(p, '.') ==> p[k] == '.'
    ensures Extension(p) == []
  {
  }

  /** A netCDF output file has the extension `nc`. */
  lemma NetcdfExtension()
    ensures Extension("output/run_iter-00010.nc") == "nc"
  {
    var stem := "output/run_iter-00010";
    RFindAt(stem, '/', 6);
    assert stem[7] != '.';
    ExtensionOfAppended(stem, "nc");
    assert "output/run_iter-00010.nc" == stem + ['.'] + "nc";
  }

  /** Only the text after the last dot is the extension. */
  lemma LastDotExtension()
    ensures Extension("a.tar.gz") == "gz"
  {
    var stem := "a.tar";
    assert stem[0] != '.';
    ExtensionOfAppended(stem, "gz");
    assert "a.tar.gz" == stem + ['.'] + "gz";
  }

  /** A leading dot, a dot in a directory name and a trailing dot give no extension. */
  lemma NoExtensionExamples()
    ensures Extension("output/.nc") == ""
    ensures Extension("out.d/file") == ""
    ensures Extension("file.") == ""
    ensures SplitExt("file.") == ("file", ".")
  {
    SplitExtOfAppended("file", "");
    assert "file" + ['.'] + "" == "file.";
    RFindAt("output/.nc", '/', 6);
    RFindAt("output/.nc", '.', 7);
    RFindAt("out.d/file", '/', 5);
    RFindAt("out.d/file", '.', 3);
    RFindAt("file.", '.', 4);
  }
}
