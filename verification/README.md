# make_mask: a Dafny model

`make_mask.py` turns text-detection ground truth into binary segmentation masks. Each image
in `train_image` has an annotation file `gt_<stem>.txt`. Each line of that file holds the
vertices `x1,y1,…,x4,y4` of one quadrilateral, optionally followed by a label. The script
works per line:

1. It reads the line: strip U+FEFF, strip whitespace, split on `,`, take the first eight
   fields, apply `int()` to each, and reshape into points.
2. It shrinks the polygon about its vertex centroid by the factor 0.1, rounding half to even.
3. It paints the polygon with 255 into an all-zero H×W mask.
4. It ORs that mask into the image's segmentation.

The result is written as `<stem>.png` in `segmentation`.

The project models that pipeline with exact arithmetic:

| file | module | models |
|---|---|---|
| `outcomes.dfy` | `Outcomes` | `Option` and `Result` |
| `rounding.dfy` | `Rounding` | NumPy's round-half-to-even on exact reals |
| `shrinker.dfy` | `Shrinker` | `shrink_quadrilateral` |
| `shrink_properties.dfy` | `ShrinkProperties` | what the shrink keeps, where vertices land, worked examples with 0.1 |
| `text.dfy` | `Text` | `str.strip`, `str.split`, `int()` and `str()` for base-10 integers |
| `annotation.dfy` | `Annotation` | reading one annotation line |
| `annotation_properties.dfy` | `AnnotationProperties` | BOM and extra-field independence, round trips, rejected lines |
| `masks.dfy` | `Masks` | `np.zeros`, `cv2.bitwise_or` and the OR fold |
| `paths.dfy` | `Paths` | `os.path.splitext` (POSIX), the annotation and output names |
| `pipeline.dfy` | `Pipeline` | the per-image loop over lines and the batch loop over images |

Coordinates are unbounded integers. The centroid and the shrunk vertices are exact rationals
(`real`). Masks are `seq<seq<bv8>>`. What cannot be seen stays a parameter:

- `inside` is the rasteriser. It says which pixels `cv2.fillPoly` paints for a polygon.
- `shapeOf` gives the shape of an image, or `None` where `cv2.imread` gives no image.
- `gtFiles` gives the lines of each annotation file.
- `images` is the `os.listdir` order.

The BOM is stripped before the whitespace (line 59, then line 61). A line that starts with
whitespace followed by a BOM keeps the BOM, and `int()` then rejects it.

## Model

| member | source | states |
|---|---|---|
| Rounding.RoundHalfEven | make_mask.py:27 | the result is an integer within one half of the exact value, and on a tie it is the even neighbour |
| Rounding.RoundHalfEvenUnique | make_mask.py:27 | the condition above pins down the rounding: any integer meeting it is the result |
| Rounding.RoundHalfEvenOfInteger | make_mask.py:27 | an integer rounds to itself |
| Rounding.RoundHalfEvenMonotone | make_mask.py:27 | rounding never reverses the order of two values |
| Shrinker.ShrinkAxis | make_mask.py:18-27 | one output per input coordinate; each is a half-to-even rounding of the coordinate moved towards the mean by the factor |
| Shrinker.Shrink | make_mask.py:6-29 | as many points as given, in the same order; the x and y coordinates are shrunk independently about their own means |
| ShrinkProperties.SumScaled | make_mask.py:21-24 | moving every coordinate the fraction s of the way to c moves their sum the fraction s of the way from S to n·c |
| ShrinkProperties.ScaledAllKeepsSum | make_mask.py:18-24 | displacements from the exact centre cancel, so scaling them keeps the sum |
| ShrinkProperties.ExactAxisKeepsMean | make_mask.py:18-24 | before rounding, the shrunk coordinates have exactly the input centroid |
| ShrinkProperties.ShrinkAxisMeanNear | make_mask.py:18-27 | after rounding, the mean of one axis is within one half of the input mean |
| ShrinkProperties.ShrinkCentroidNear | make_mask.py:18-27 | the centroid of the output polygon is within one half of the input centroid on each axis |
| ShrinkProperties.ShrinkAxisZero | make_mask.py:21-27 | factor 0 returns the coordinates unchanged |
| ShrinkProperties.ShrinkZeroIsIdentity | make_mask.py:21-27 | factor 0 returns the polygon unchanged |
| ShrinkProperties.ShrinkAxisBetween | make_mask.py:18-27 | for s in [0, 1] each coordinate lands between the original coordinate and the rounded mean |
| ShrinkProperties.ShrinkStaysBetween | make_mask.py:18-27 | for s in [0, 1] each output vertex lies, per axis, between the input vertex and the centroid, widened by one half |
| ShrinkProperties.ShrinkAxisMonotone | make_mask.py:21-27 | a larger factor never moves a coordinate further from the rounded mean |
| ShrinkProperties.ExactQuadrilateralAxis | make_mask.py:18-24 | with the script's factor 0.1 on four coordinates summing to S, a coordinate v moves exactly to (36·v + S) / 40 |
| ShrinkProperties.ShrinkAxisScriptFactor | make_mask.py:24-27 | with factor 0.1 each output coordinate of a quadrilateral rounds (36·v + S) / 40 half to even |
| ShrinkProperties.ShrinkAxisScriptFactorIs | make_mask.py:24-27 | any integer that rounds (36·v + S) / 40 half to even is the output coordinate |
| ShrinkProperties.ShrinkTieRoundsToEven | make_mask.py:27 | exact ties go to the even neighbour: the x-axis [0, 0, 0, 20] becomes [0, 0, 0, 18] |
| ShrinkProperties.ShrinkSquareExample | make_mask.py:6-29 | the square with corners (10, 10) and (90, 90) becomes the square with corners (14, 14) and (86, 86) |
| Text.Strip | make_mask.py:59-61 | `s.strip(chars)`: the result neither starts nor ends with a character of the set; `Text.StripExact` pins down which middle it keeps |
| Text.TrimStart | make_mask.py:59-61 | removes exactly the maximal run of leading characters from the set |
| Text.TrimEnd | make_mask.py:59-61 | removes exactly the maximal run of trailing characters from the set |
| Text.StripExact | make_mask.py:59-61 | stripping returns the middle of any string made of stripped characters, a middle that does not start or end with one, and stripped characters |
| Text.Split | make_mask.py:61 | at least one field; no field contains the separator |
| Text.JoinSplit | make_mask.py:61 | joining the fields with the separator gives back the string |
| Text.SplitJoin | make_mask.py:61 | splitting the join of separator-free fields gives back the fields |
| Text.ParseDecimal | make_mask.py:63 | `int(s)` succeeds iff `s`, stripped of the whitespace `int()` skips (not U+001C to U+001F), is an optional sign followed by ASCII digits |
| Text.LeadingZerosValue | make_mask.py:63 | leading zeros do not change the value of a digit string |
| Text.LiteralOfDigits | make_mask.py:63 | an optional `+` or `-` before a digit string reads as the digits' value, negated after `-` |
| Text.ParsePadded | make_mask.py:63 | `int()` on any accepted form (skipped whitespace, an optional `+` or `-`, leading zeros, the digits of n) gives n, negated after `-`; with `Text.ParseDecimal` this fixes the value of every accepted field, e.g. `07` is 7, `+5` is 5 and `-0` is 0 |
| Text.ParseShow | make_mask.py:63 | `int()` reads back `str(n)` as n, with any whitespace `int()` skips around it |
| Text.ParseRejectsForeignCharacter | make_mask.py:63 | `int()` fails on a field containing a character that is not whitespace it skips, a sign or a digit |
| Text.ParseRejectsSeparator | make_mask.py:61-63 | a field containing one of U+001C to U+001F, which `str.strip()` removes but `int()` does not skip, fails to convert |
| Text.ParseRejectsBlank | make_mask.py:63 | `int()` fails on an empty field or one made only of whitespace it skips |
| Annotation.Fields | make_mask.py:59-61 | the BOM- and whitespace-stripped line split on commas gives at least one field |
| Annotation.TakenFields | make_mask.py:63 | the first eight fields, or all of them if there are fewer; always a prefix of the fields |
| Annotation.ConvertAll | make_mask.py:63 | succeeds iff every field converts, giving the values in order; otherwise it names the first field that fails |
| Annotation.PairUp | make_mask.py:64 | point i is (ns[2i], ns[2i+1]) |
| Annotation.PairUpFlatten | make_mask.py:64 | pairing up the flattened coordinates gives back the points |
| Annotation.ParseFields | make_mask.py:63-64 | succeeds iff every field is an integer and their number is even; each point comes from two consecutive fields; conversion comes first, so a failure names the first bad field with its text, and an odd count is reported only when every field converts |
| Annotation.ParseLine | make_mask.py:59-64 | a line that reads gives one to four points |
| AnnotationProperties.ParseLineIgnoresBom | make_mask.py:59 | a leading BOM makes no difference |
| AnnotationProperties.ParseLineIgnoresExtraFields | make_mask.py:61-63 | lines that agree on their first eight fields read alike |
| AnnotationProperties.ParseNumbersLine | make_mask.py:59-64 | one to eight numbers with trailing whitespace read as their points if their count is even, and fail with the odd count otherwise |
| AnnotationProperties.ParseRenderedLine | make_mask.py:59-64 | one to four points, printed as comma-separated integers and followed by any whitespace, read back as the same points |
| AnnotationProperties.ParseLabelledLine | make_mask.py:59-64 | four points printed and followed by a comma and any tail (a label, a line end) read back as the same points |
| AnnotationProperties.ParseBlankLine | make_mask.py:61-63 | a blank line fails in `int('')` |
| AnnotationProperties.ParseOddLine | make_mask.py:64 | the line `1,2,3` fails the reshape with three fields |
| Masks.Zeros | make_mask.py:53 | an H×W mask, all background |
| Masks.Union | make_mask.py:72 | same shape; a pixel is background iff it is background in both; on binary masks it is 255 iff it is 255 in either, and the result stays binary |
| Masks.UnionCommutes | make_mask.py:72 | the union is commutative |
| Masks.UnionAssociates | make_mask.py:72 | the union is associative |
| Masks.UnionIdempotent | make_mask.py:72 | OR-ing a mask with itself gives the mask |
| Masks.UnionZeros | make_mask.py:53 | the all-zero start mask is the identity of the union |
| Masks.Accumulate | make_mask.py:53 | the accumulated mask keeps the H×W shape |
| Masks.AccumulateBackground | make_mask.py:68-72 | a pixel is background iff every region leaves it background |
| Masks.AccumulateForeground | make_mask.py:68-72 | with binary regions a pixel is 0 or 255, and 255 iff some region is 255 there |
| Masks.AccumulateIsBinary | make_mask.py:68-72 | the accumulated mask of binary regions is binary |
| Masks.AccumulateSameRegions | make_mask.py:68-72 | order and repetition of binary regions do not matter |
| Masks.AccumulatePermutation | make_mask.py:68-72 | reordering the binary regions leaves the accumulated mask unchanged |
| Paths.SplitExt | make_mask.py:48 | root + ext is the name; ext is non-empty iff the last component has a dot after a character that is not a dot; ext is one dot followed by neither dots nor separators |
| Paths.SplitExtScan | make_mask.py:48 | the leading-dot scan of `splitext` computes the split above |
| Paths.Stem | make_mask.py:48 | `os.path.splitext(filename)[0]` is a prefix of the name, and a proper prefix iff the name has an extension |
| Paths.GtName | make_mask.py:48 | `gt_` + stem + `.txt`, seven characters longer than the stem; it splits back into `gt_` + stem and `.txt` (`Paths.NamesSplitBack`) and determines the stem (`Paths.SameNames`) |
| Paths.OutputName | make_mask.py:75 | stem + `.png`, four characters longer than the stem; it splits back into the stem and `.png` (`Paths.NamesSplitBack`) and determines the stem (`Paths.SameNames`) |
| Paths.NamesSplitBack | make_mask.py:48 | for a file name, the annotation name splits into `gt_` + stem and `.txt`, and the output name into the stem and `.png` |
| Paths.SameNames | make_mask.py:75 | two images share an annotation file iff they share an output file iff their stems agree |
| Pipeline.Region | make_mask.py:68-69 | an H×W binary mask that is 255 exactly at the pixels the rasteriser paints |
| Pipeline.ParseAll | make_mask.py:58-64 | succeeds iff every line reads, with the points of each line in order; otherwise it names the first bad line and its error |
| Pipeline.Regions | make_mask.py:65-69 | one H×W binary region mask per polygon, in order; `Pipeline.SegmentPixel` states which pixels they paint |
| Pipeline.Segment | make_mask.py:53-72 | the OR of the region masks keeps the H×W shape; `Pipeline.SegmentPixel` states its pixels |
| Pipeline.SegmentImage | make_mask.py:53-72 | succeeds iff every line reads, and then has the image's H×W shape; a failure is the first bad line's |
| Pipeline.SegmentLines | make_mask.py:53-72 | the line-by-line loop computes the mask of the image |
| Pipeline.SegmentPixel | make_mask.py:65-72 | a pixel is 0 or 255, and 255 iff some polygon, shrunk by 0.1, is painted there |
| Pipeline.SegmentImagePixel | make_mask.py:53-72 | when all lines read, the mask is H×W and binary, and 255 exactly where some line's shrunk polygon is painted |
| Pipeline.SegmentNothingPainted | make_mask.py:53 | a file whose polygons paint nothing, in particular an empty file, gives the all-zero mask |
| Pipeline.SegmentSameLines | make_mask.py:58-72 | files with the same set of lines give the same mask, whatever the order and repetitions |
| Pipeline.SegmentReordered | make_mask.py:58-72 | reordering the lines of a file leaves the mask unchanged |
| Pipeline.SegmentFailsAtFirstBadLine | make_mask.py:58-64 | a file fails at its first bad line, with that line's reason |
| Pipeline.ProcessImage | make_mask.py:44-75 | no image fails first; then a missing `gt_<stem>.txt` fails; otherwise it succeeds iff every line reads, failing at the first bad line with its reason, and success gives `<stem>.png` with the image's shape |
| Pipeline.RunBatch | make_mask.py:42-76 | images are processed in order; the written outputs are those of a prefix; the run completes iff every image succeeds, and otherwise stops with the first failure |
| Pipeline.RunScript | make_mask.py:42-76 | the script over a listing: the images written are a prefix of the listing, each under `<stem>.png` with a mask of the image's shape, and the run finishes iff every image was written |
| Pipeline.RunScriptComplete | make_mask.py:42-76 | a run that completes writes, for every image, a mask of its shape named after its stem |

## Left out

- File-system and codec I/O are left out: `os.listdir`, `os.makedirs`, `open`, `cv2.imread`,
  `cv2.imwrite` and `print` (lines 39-45, 56, 76-78). They are parameters (`images`,
  `shapeOf`, `gtFiles`) or outputs (`written`). A failing `imwrite` is not modelled.
- Reading a file as lines is not modelled. Text-mode newline translation and decoding are
  included in that. The lines arrive as strings and keep their line ends, which the strip
  removes.
- Rasterisation by `cv2.fillPoly` (line 69) is the parameter `inside`. Its fill rule and
  clipping are not modelled.
- Rounding.RoundHalfEven: works on exact rationals. NumPy rounds the IEEE-754 result of
  `np.mean` and `* (1 - 0.1)`, so values within floating-point error of a tie may round
  differently.
- ShrinkProperties.ShrinkAxisScriptFactor: states the exact rational coordinate. It does not
  model the floating-point error of the script's computation.
- The `np.int32` conversion of the points (line 64) is not modelled. Neither is the integer
  width of `astype(int)` (line 27). Coordinates are unbounded, so values outside 32 bits are
  not rejected.
- `int()` accepts underscores between digits and non-ASCII decimal digits. The model does not.
- The channel count of `image.shape` (line 52) is unused and not modelled.
- Paths.SplitExt: follows the POSIX flavour of `os.path.splitext` (separator `/`). The Windows
  flavour (`\` and drive letters) is not modelled.
- Masks.AccumulateForeground, Masks.AccumulateSameRegions and Masks.AccumulatePermutation:
  these require binary regions. Painting 255 into a zero mask (lines 68-69) only ever gives
  such regions. Masks.AccumulateBackground holds for any regions.
- Pipeline.SegmentImage: takes the line reader as a parameter. The script's reader is
  `Annotation.ParseLine`, which `Pipeline.ProcessImage` passes in. The per-image lemmas hold
  for every reader.

## Behaviour of the script

- The script has no error handling. The first bad line, missing annotation file or
  unreadable image ends the whole run, and masks written for earlier images stay written
  (`Pipeline.RunBatch`).
- A line with an even number of fields, fewer than eight, is accepted and gives a polygon
  with fewer points (`AnnotationProperties.ParseNumbersLine`).
- With the factor 0.1 of line 65, the square (10, 10)–(90, 90) becomes (14, 14)–(86, 86)
  (`ShrinkProperties.ShrinkSquareExample`).
- The strip at line 61 removes U+001C to U+001F, but only at the ends of the line. Inside
  the line, say before a comma, such a character stays in its field. `int()` at line 63 does
  not skip it and fails (`Text.ParseRejectsSeparator`).
