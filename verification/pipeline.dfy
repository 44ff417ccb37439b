/** The script's two loops: the lines of one annotation file become one segmentation mask,
    and the images of the input folder are processed in listing order until one fails.
    Rasterisation (`cv2.fillPoly`) is a parameter `inside`: `inside(poly, Point(x, y))` says
    whether the pixel in column `x` and row `y` is painted for the polygon `poly`. */
module Pipeline {
  import opened Outcomes
  import opened Shrinker
  import opened Annotation
  import opened Masks
  import opened Paths

  /** Which pixels the rasteriser paints for a polygon. */
  type Rasterizer = (seq<Point>, Point) -> bool

  /** The first annotation line that could not be read, by position, and why. */
  datatype LineFailure = LineFailure(line: nat, error: LineError)

  /** The region mask of one polygon: a fresh all-zero mask in which the pixels the rasteriser
      paints for the polygon become 255. */
  function Region(h: nat, w: nat, poly: seq<Point>, inside: Rasterizer): (m: Mask)
    ensures HasShape(m, h, w) && IsBinary(m)
    ensures forall r, c :: 0 <= r < h && 0 <= c < w ==> (m[r][c] == Foreground <==> inside(poly, Point(c, r)))
  {
    seq(h, r => seq(w, c => if inside(poly, Point(c, r)) then Foreground else 0))
  }

  /** How one line is read; the script reads with `ParseLine`. */
  type LineReader = string -> Result<seq<Point>, LineError>

  /** Reads every line with `read`, stopping at the first one that fails. */
  function ParseAll(lines: seq<string>, read: LineReader): (r: Result<seq<seq<Point>>, LineFailure>)
    ensures r.Ok? <==> forall i :: 0 <= i < |lines| ==> read(lines[i]).Ok?
    ensures r.Ok? ==> |r.value| == |lines| && forall i :: 0 <= i < |lines| ==> read(lines[i]) == Ok(r.value[i])
    ensures r.Err? ==> && r.error.line < |lines|
                       && read(lines[r.error.line]) == Err(r.error.error)
                       && forall i :: 0 <= i < r.error.line ==> read(lines[i]).Ok?
  {
    if |lines| == 0 then Ok([])
    else
      var n := |lines| - 1;
      var init :- ParseAll(lines[..n], read);
      match read(lines[n])
      case Err(e) => Err(LineFailure(n, e))
      case Ok(ps) => Ok(init + [ps])
  }

  /** The region mask of every polygon, shrunk with the script's factor. */
  function Regions(h: nat, w: nat, polys: seq<seq<Point>>, inside: Rasterizer): (ms: seq<Mask>)
    ensures |ms| == |polys|
    ensures forall i :: 0 <= i < |ms| ==> HasShape(ms[i], h, w) && IsBinary(ms[i])
  {
    seq(|polys|, i requires 0 <= i < |polys| => Region(h, w, Shrink(polys[i], ScriptShrinkFactor), inside))
  }

  /** The accumulated mask of a list of polygons. */
  function Segment(h: nat, w: nat, polys: seq<seq<Point>>, inside: Rasterizer): (m: Mask)
    ensures HasShape(m, h, w)
  {
    Accumulate(h, w, Regions(h, w, polys, inside))
  }

  /** The mask of one image of height `h` and width `w` with the given annotation lines. */
  function SegmentImage(h: nat, w: nat, lines: seq<string>, read: LineReader, inside: Rasterizer): (r: Result<Mask, LineFailure>)
    ensures r.Ok? <==> forall i :: 0 <= i < |lines| ==> read(lines[i]).Ok?
    ensures r.Ok? ==> HasShape(r.value, h, w)
    ensures r.Err? ==> r == Err(ParseAll(lines, read).error)
  {
    var polys :- ParseAll(lines, read);
    Ok(Segment(h, w, polys, inside))
  }

  /** The per-image loop of the script: start from zeros, and for each line read the points,
      shrink them by 0.1, paint the region and OR it in; a bad line ends the run. */
  method SegmentLines(h: nat, w: nat, lines: seq<string>, read: LineReader, inside: Rasterizer) returns (r: Result<Mask, LineFailure>)
    ensures r == SegmentImage(h, w, lines, read, inside)
  {
    var segmentation := Zeros(h, w);
    ghost var polys: seq<seq<Point>> := [];
    var i := 0;
    while i < |lines|
      invariant 0 <= i <= |lines|
      invariant ParseAll(lines[..i], read) == Ok(polys)
      invariant segmentation == Segment(h, w, polys, inside)
    {
      var parsed := read(lines[i]);
      if parsed.Err? {
        ParseAllStops(lines, read, i, polys);
        return Err(LineFailure(i, parsed.error));
      }
      var vertices := Shrink(parsed.value, ScriptShrinkFactor);
      var mask := Region(h, w, vertices, inside);
      SegmentStep(h, w, polys, parsed.value, inside);
      segmentation := Union(segmentation, mask);
      ParseAllStep(lines, read, i, polys);
      polys := polys + [parsed.value];
      i := i + 1;
    }
    assert lines[..i] == lines;
    return Ok(segmentation);
  }

  /** Reading one more line that reads appends its points. */
  lemma ParseAllStep(lines: seq<string>, read: LineReader, i: nat, polys: seq<seq<Point>>)
    requires i < |lines| && ParseAll(lines[..i], read) == Ok(polys) && read(lines[i]).Ok?
    ensures ParseAll(lines[..i + 1], read) == Ok(polys + [read(lines[i]).value])
  {
    assert lines[..i + 1][..i] == lines[..i];
  }

  /** Once the lines before `i` read and line `i` does not, the whole file fails there. */
  lemma ParseAllStops(lines: seq<string>, read: LineReader, i: nat, polys: seq<seq<Point>>)
    requires i < |lines| && ParseAll(lines[..i], read) == Ok(polys) && read(lines[i]).Err?
    ensures ParseAll(lines, read) == Err(LineFailure(i, read(lines[i]).error))
  {
    forall k | 0 <= k < i
      ensures read(lines[k]).Ok?
    {
      assert lines[..i][k] == lines[k];
    }
    var r := ParseAll(lines, read);
    assert r.Err?;
    var j := r.error.line;
    assert read(lines[j]).Err?;
    assert j >= i;
    assert j <= i;
  }

  /** One more polygon ORs its region into the mask of the earlier ones. */
  lemma SegmentStep(h: nat, w: nat, polys: seq<seq<Point>>, poly: seq<Point>, inside: Rasterizer)
    ensures var prev, mask := Segment(h, w, polys, inside), Region(h, w, Shrink(poly, ScriptShrinkFactor), inside);
      SameShape(prev, mask) && Segment(h, w, polys + [poly], inside) == Union(prev, mask)
  {
    var regions := Regions(h, w, polys + [poly], inside);
    assert regions[..|polys|] == Regions(h, w, polys, inside);
  }

  // ---------------------------------------------------------------------------
  // Properties of one image

  /** A pixel of the mask is 0 or 255, and it is 255 exactly when the rasteriser paints it for
      some shrunk polygon. */
  lemma SegmentPixel(h: nat, w: nat, polys: seq<seq<Point>>, inside: Rasterizer, r: int, c: int)
    requires 0 <= r < h && 0 <= c < w
    ensures var m := Segment(h, w, polys, inside);
      && (m[r][c] == 0 || m[r][c] == Foreground)
      && (m[r][c] == Foreground <==>
            exists i :: 0 <= i < |polys| && inside(Shrink(polys[i], ScriptShrinkFactor), Point(c, r)))
  {
    var regions := Regions(h, w, polys, inside);
    AccumulateForeground(h, w, regions, r, c);
    assert forall i :: 0 <= i < |polys| ==>
      (regions[i][r][c] == Foreground <==> inside(Shrink(polys[i], ScriptShrinkFactor), Point(c, r)));
  }

  /** The mask of an image whose lines all read is binary, has the image's shape, and is 255
      exactly where some line's shrunk polygon is painted. */
  lemma SegmentImagePixel(h: nat, w: nat, lines: seq<string>, read: LineReader, inside: Rasterizer, r: int, c: int)
    requires forall i :: 0 <= i < |lines| ==> read(lines[i]).Ok?
    requires 0 <= r < h && 0 <= c < w
    ensures var m := SegmentImage(h, w, lines, read, inside).value;
      && HasShape(m, h, w)
      && (m[r][c] == 0 || m[r][c] == Foreground)
      && (m[r][c] == Foreground <==>
            exists i :: 0 <= i < |lines| && inside(Shrink(read(lines[i]).value, ScriptShrinkFactor), Point(c, r)))
  {
    var polys := ParseAll(lines, read).value;
    SegmentPixel(h, w, polys, inside, r, c);
    assert forall i :: 0 <= i < |lines| ==> read(lines[i]).value == polys[i];
  }

  /** An annotation file none of whose shrunk polygons paints a pixel, in particular an empty
      file, gives the all-zero mask. */
  lemma SegmentNothingPainted(h: nat, w: nat, lines: seq<string>, read: LineReader, inside: Rasterizer)
    requires forall i :: 0 <= i < |lines| ==> read(lines[i]).Ok?
    requires forall i, p :: 0 <= i < |lines| ==> !inside(Shrink(read(lines[i]).value, ScriptShrinkFactor), p)
    ensures SegmentImage(h, w, lines, read, inside) == Ok(Zeros(h, w))
  {
    var m := SegmentImage(h, w, lines, read, inside).value;
    var z := Zeros(h, w);
    forall r, c | InBounds(m, r, c)
      ensures m[r][c] == z[r][c]
    {
      SegmentImagePixel(h, w, lines, read, inside, r, c);
      assert InBounds(z, r, c);
    }
    PixelsDetermine(m, z);
  }

  /** Two annotation files with the same lines, in any order and with any repetitions, that
      both read give the same mask. */
  lemma SegmentSameLines(h: nat, w: nat, lines1: seq<string>, lines2: seq<string>, read: LineReader, inside: Rasterizer)
    requires forall i :: 0 <= i < |lines1| ==> read(lines1[i]).Ok?
    requires forall l :: l in lines1 <==> l in lines2
    ensures SegmentImage(h, w, lines2, read, inside).Ok?
    ensures SegmentImage(h, w, lines1, read, inside) == SegmentImage(h, w, lines2, read, inside)
  {
    forall i | 0 <= i < |lines2|
      ensures read(lines2[i]).Ok?
    {
      assert lines2[i] in lines1;
    }
    var polys1, polys2 := ParseAll(lines1, read).value, ParseAll(lines2, read).value;
    var regions1, regions2 := Regions(h, w, polys1, inside), Regions(h, w, polys2, inside);
    forall x
      ensures x in regions1 <==> x in regions2
    {
      if x in regions1 {
        var i :| 0 <= i < |regions1| && regions1[i] == x;
        assert lines1[i] in lines2;
        var j :| 0 <= j < |lines2| && lines2[j] == lines1[i];
        assert regions2[j] == x;
      }
      if x in regions2 {
        var j :| 0 <= j < |regions2| && regions2[j] == x;
        assert lines2[j] in lines1;
        var i :| 0 <= i < |lines1| && lines1[i] == lines2[j];
        assert regions1[i] == x;
      }
    }
    AccumulateSameRegions(h, w, regions1, regions2);
  }

  /** Reordering the lines of an annotation file whose lines all read leaves the mask unchanged. */
  lemma SegmentReordered(h: nat, w: nat, lines1: seq<string>, lines2: seq<string>, read: LineReader, inside: Rasterizer)
    requires forall i :: 0 <= i < |lines1| ==> read(lines1[i]).Ok?
    requires multiset(lines1) == multiset(lines2)
    ensures SegmentImage(h, w, lines1, read, inside) == SegmentImage(h, w, lines2, read, inside)
  {
    forall l
      ensures l in lines1 <==> l in lines2
    {
      assert l in lines1 <==> l in multiset(lines1);
      assert l in lines2 <==> l in multiset(lines2);
    }
    SegmentSameLines(h, w, lines1, lines2, read, inside);
  }

  /** A file with a bad line fails at its first bad line, with the reason the reader gives. */
  lemma SegmentFailsAtFirstBadLine(h: nat, w: nat, lines: seq<string>, read: LineReader, inside: Rasterizer, k: nat)
    requires k < |lines| && read(lines[k]).Err?
    requires forall i :: 0 <= i < k ==> read(lines[i]).Ok?
    ensures SegmentImage(h, w, lines, read, inside) == Err(LineFailure(k, read(lines[k]).error))
  {
    var r := ParseAll(lines, read);
    assert r.Err?;
    assert r.error.line == k;
  }

  // ---------------------------------------------------------------------------
  // The batch

  /** Why the run stopped at an image. */
  datatype BatchFailure =
    | UnreadableImage(image: string)                          // `cv2.imread` gave no image
    | MissingAnnotation(image: string, gtName: string)        // `open` found no annotation file
    | MalformedLine(image: string, line: nat, error: LineError) // a line could not be read

  /** What the run leaves behind: the images written, in order, and why it stopped early, if it did. */
  datatype BatchOutcome = BatchOutcome(written: seq<(string, Mask)>, failure: Option<BatchFailure>)

  /** One image: read its shape, find its annotation file, build the mask and name the output.
      `shapeOf` stands for `cv2.imread(...).shape`; `gtFiles` maps the names of the annotation
      folder to their lines. */
  function ProcessImage(image: string, shapeOf: string -> Option<(nat, nat)>,
                        gtFiles: map<string, seq<string>>, inside: Rasterizer): (r: Result<(string, Mask), BatchFailure>)
    ensures shapeOf(image).None? ==> r == Err(UnreadableImage(image))
    ensures shapeOf(image).Some? && GtName(image) !in gtFiles ==> r == Err(MissingAnnotation(image, GtName(image)))
    ensures r.Ok? ==> && shapeOf(image).Some? && GtName(image) in gtFiles
                      && r.value.0 == OutputName(image)
                      && HasShape(r.value.1, shapeOf(image).value.0, shapeOf(image).value.1)
    ensures shapeOf(image).Some? && GtName(image) in gtFiles ==>
      var lines := gtFiles[GtName(image)];
      && (r.Ok? <==> forall i :: 0 <= i < |lines| ==> ParseLine(lines[i]).Ok?)
      && (r.Err? ==> && r.error.MalformedLine? && r.error.image == image && r.error.line < |lines|
                     && ParseLine(lines[r.error.line]) == Err(r.error.error)
                     && forall i :: 0 <= i < r.error.line ==> ParseLine(lines[i]).Ok?)
  {
    match shapeOf(image)
    case None => Err(UnreadableImage(image))
    case Some(shape) =>
      var gt := GtName(image);
      if gt !in gtFiles then Err(MissingAnnotation(image, gt))
      else
        match SegmentImage(shape.0, shape.1, gtFiles[gt], ParseLine, inside)
        case Err(f) => Err(MalformedLine(image, f.line, f.error))
        case Ok(m) => Ok((OutputName(image), m))
  }

  /** The outer loop over `os.listdir` order: every image is processed in turn and written, and
      the first failure ends the run with the earlier images already written. */
  function RunBatch(images: seq<string>, process: string -> Result<(string, Mask), BatchFailure>): (o: BatchOutcome)
    ensures |o.written| <= |images|
    ensures forall i :: 0 <= i < |o.written| ==> process(images[i]) == Ok(o.written[i])
    ensures o.failure.None? <==> |o.written| == |images|
    ensures o.failure.Some? ==> process(images[|o.written|]) == Err(o.failure.value)
  {
    if |images| == 0 then BatchOutcome([], None)
    else
      match process(images[0])
      case Err(f) => BatchOutcome([], Some(f))
      case Ok(out) =>
        var rest := RunBatch(images[1..], process);
        BatchOutcome([out] + rest.written, rest.failure)
  }

  /** The script over an image folder listed as `images`. */
  function RunScript(images: seq<string>, shapeOf: string -> Option<(nat, nat)>,
                     gtFiles: map<string, seq<string>>, inside: Rasterizer): (o: BatchOutcome)
    ensures |o.written| <= |images|
    ensures forall i :: 0 <= i < |o.written| ==>
      && o.written[i].0 == OutputName(images[i])
      && shapeOf(images[i]).Some?
      && HasShape(o.written[i].1, shapeOf(images[i]).value.0, shapeOf(images[i]).value.1)
    ensures o.failure.None? <==> |o.written| == |images|
  {
    RunBatch(images, image => ProcessImage(image, shapeOf, gtFiles, inside))
  }

  /** A run that finishes writes one mask per image, named `<stem>.png`, of the image's shape. */
  lemma RunScriptComplete(images: seq<string>, shapeOf: string -> Option<(nat, nat)>,
                          gtFiles: map<string, seq<string>>, inside: Rasterizer, i: int)
    requires RunScript(images, shapeOf, gtFiles, inside).failure.None?
    requires 0 <= i < |images|
    ensures var o := RunScript(images, shapeOf, gtFiles, inside);
      && shapeOf(images[i]).Some? && GtName(images[i]) in gtFiles
      && o.written[i].0 == OutputName(images[i])
      && HasShape(o.written[i].1, shapeOf(images[i]).value.0, shapeOf(images[i]).value.1)
  {
    var o := RunScript(images, shapeOf, gtFiles, inside);
    assert ProcessImage(images[i], shapeOf, gtFiles, inside) == Ok(o.written[i]);
  }
}
