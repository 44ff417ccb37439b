/** File names of one image: `os.path.splitext` (POSIX flavour, separator `/`, no alternative
    separator), the annotation name `gt_<stem>.txt` and the output name `<stem>.png`. */
module Paths {

  const Sep: char := '/'
  const ExtSep: char := '.'

  /** `s.rfind(ch)`: the index of the last `ch` in `s`, or -1 if there is none. */
  function RFind(s: string, ch: char): (i: int)
    ensures -1 <= i < |s|
    ensures i >= 0 ==> s[i] == ch
    ensures forall j :: i < j < |s| ==> s[j] != ch
  {
    if |s| == 0 then -1
    else if s[|s| - 1] == ch then |s| - 1
    else RFind(s[..|s| - 1], ch)
  }

  /** Some character of `p[lo..hi]` is not a dot. */
  predicate NonDotBetween(p: string, lo: int, hi: int)
    requires 0 <= lo <= hi <= |p|
  {
    exists k :: lo <= k < hi && p[k] != ExtSep
  }

  /** The last path component of `p` has a dot after some character that is not a dot; a
      component such as `.bashrc` or `..` has none. */
  ghost predicate HasExtension(p: string) {
    exists k, d :: RFind(p, Sep) < k < d < |p| && p[k] != ExtSep && p[d] == ExtSep
  }

  /** `os.path.splitext(p)`: the extension runs from the last dot of the last component to the
      end, unless that dot belongs to the run of dots the component starts with. */
  function SplitExt(p: string): (r: (string, string))
    ensures r.0 + r.1 == p
    ensures r.1 != [] <==> HasExtension(p)
    ensures r.1 != [] ==> r.1[0] == ExtSep && forall j :: 0 < j < |r.1| ==> r.1[j] != ExtSep && r.1[j] != Sep
  {
    var sepIndex := RFind(p, Sep);
    var dotIndex := RFind(p, ExtSep);
    if dotIndex > sepIndex && NonDotBetween(p, sepIndex + 1, dotIndex) then
      (p[..dotIndex], p[dotIndex..])
    else
      (p, [])
  }

  /** The Python algorithm step by step: find the last separator and the last dot, then scan
      the leading dots of the last component. */
  method SplitExtScan(p: string) returns (root: string, ext: string)
    ensures (root, ext) == SplitExt(p)
  {
    var sepIndex := RFind(p, Sep);
    var dotIndex := RFind(p, ExtSep);
    if dotIndex > sepIndex {
      var filenameIndex := sepIndex + 1;
      while filenameIndex < dotIndex
        invariant sepIndex + 1 <= filenameIndex <= dotIndex
        invariant forall k :: sepIndex + 1 <= k < filenameIndex ==> p[k] == ExtSep
      {
        if p[filenameIndex] != ExtSep {
          return p[..dotIndex], p[dotIndex..];
        }
        filenameIndex := filenameIndex + 1;
      }
    }
    return p, p[..0];
  }

  /** `os.path.splitext(filename)[0]`. */
  function Stem(filename: string): (s: string)
    ensures |s| <= |filename| && s == filename[..|s|]
    ensures |s| < |filename| <==> HasExtension(filename)
  {
    SplitExt(filename).0
  }

  /** The annotation file of an image: `gt_`, its stem and `.txt`. */
  function GtName(filename: string): (g: string)
    ensures |g| == |Stem(filename)| + 7
  {
    "gt_" + Stem(filename) + ".txt"
  }

  /** The output file of an image: its stem and `.png`. */
  function OutputName(filename: string): (o: string)
    ensures |o| == |Stem(filename)| + 4
  {
    Stem(filename) + ".png"
  }

  // ---------------------------------------------------------------------------
  // Properties

  /** The last `ch` of a concatenation is in the second part if it has one, else in the first. */
  lemma {:induction false} RFindAppend(a: string, b: string, ch: char)
    ensures RFind(a + b, ch) == if RFind(b, ch) >= 0 then |a| + RFind(b, ch) else RFind(a, ch)
  {
    var i, j := RFind(a + b, ch), RFind(b, ch);
    if j >= 0 {
      assert (a + b)[|a| + j] == ch;
    } else if RFind(a, ch) >= 0 {
      assert (a + b)[RFind(a, ch)] == ch;
    }
  }

  /** Appending an extension to a name whose last component has a character other than a dot
      splits back into the name and that extension. */
  lemma SplitExtAppend(stem: string, ext: string)
    requires |ext| > 0 && ext[0] == ExtSep
    requires forall j :: 0 < j < |ext| ==> ext[j] != ExtSep && ext[j] != Sep
    requires NonDotBetween(stem, RFind(stem, Sep) + 1, |stem|)
    ensures SplitExt(stem + ext) == (stem, ext)
  {
    var p := stem + ext;
    var sepIndex := RFind(stem, Sep);
    assert RFind(p, Sep) == sepIndex by {
      RFindAppend(stem, ext, Sep);
      assert RFind(ext, Sep) == -1;
    }
    assert RFind(p, ExtSep) == |stem| by {
      RFindAppend(stem, ext, ExtSep);
      assert RFind(ext, ExtSep) == 0;
    }
    assert NonDotBetween(p, sepIndex + 1, |stem|) by {
      var k :| sepIndex + 1 <= k < |stem| && stem[k] != ExtSep;
      assert p[k] == stem[k];
    }
    SplitExtAtDot(p, |stem|);
    assert p[..|stem|] == stem && p[|stem|..] == ext;
  }

  /** The split falls at the last dot when a character other than a dot precedes it in
      its component. */
  lemma SplitExtAtDot(p: string, dot: int)
    requires RFind(p, ExtSep) == dot && dot > RFind(p, Sep)
    requires NonDotBetween(p, RFind(p, Sep) + 1, dot)
    ensures SplitExt(p) == (p[..dot], p[dot..])
  {
  }

  /** The stem keeps a character other than a dot in its last component whenever the
      file name has one. */
  lemma StemKeepsName(filename: string)
    requires NonDotBetween(filename, RFind(filename, Sep) + 1, |filename|)
    ensures var s := Stem(filename); NonDotBetween(s, RFind(s, Sep) + 1, |s|)
  {
    var (s, e) := SplitExt(filename);
    if e != [] {
      var dotIndex := RFind(filename, ExtSep);
      var sepIndex := RFind(filename, Sep);
      assert s == filename[..dotIndex];
      RFindAppend(s, e, Sep);
      assert RFind(e, Sep) == -1;
      var k :| sepIndex + 1 <= k < dotIndex && filename[k] != ExtSep;
      assert s[k] == filename[k];
    }
  }

  /** A file name without a separator has the annotation name and the output name built from
      the same stem, and each of them splits back into that stem (behind `gt_` for the
      annotation) and its fixed extension. */
  lemma NamesSplitBack(filename: string)
    requires Sep !in filename
    requires NonDotBetween(filename, 0, |filename|)
    ensures SplitExt(GtName(filename)) == ("gt_" + Stem(filename), ".txt")
    ensures SplitExt(OutputName(filename)) == (Stem(filename), ".png")
  {
    var stem := Stem(filename);
    assert RFind(filename, Sep) == -1;
    StemKeepsName(filename);
    SplitExtAppend(stem, ".png");
    assert stem == filename[..|stem|];
    assert RFind(stem, Sep) == -1;
    var g := "gt_" + stem;
    RFindAppend("gt_", stem, Sep);
    assert RFind("gt_", Sep) == -1;
    assert g[0] == 'g';
    SplitExtAppend(g, ".txt");
    assert "gt_" + stem + ".txt" == g + ".txt";
  }

  /** Two images share an annotation file exactly when they share an output file, exactly when
      their stems agree: `a.jpg` and `a.png` read `gt_a.txt` and both write `a.png`. */
  lemma SameNames(f1: string, f2: string)
    ensures GtName(f1) == GtName(f2) <==> Stem(f1) == Stem(f2)
    ensures OutputName(f1) == OutputName(f2) <==> Stem(f1) == Stem(f2)
  {
    var s1, s2 := Stem(f1), Stem(f2);
    if GtName(f1) == GtName(f2) {
      assert s1 == GtName(f1)[3..|GtName(f1)| - 4];
      assert s2 == GtName(f2)[3..|GtName(f2)| - 4];
    }
    if OutputName(f1) == OutputName(f2) {
      assert s1 == OutputName(f1)[..|OutputName(f1)| - 4];
      assert s2 == OutputName(f2)[..|OutputName(f2)| - 4];
    }
  }
}
