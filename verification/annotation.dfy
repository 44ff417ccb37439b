/** Reading one line of a ground-truth file into polygon vertices: the BOM and the surrounding
    whitespace are stripped, the line is split on commas, at most the first eight fields are
    converted with `int()`, and the numbers are paired into (x, y) points. */
module Annotation {
  import opened Outcomes
  import opened Text
  import opened Shrinker

  /** Only the first eight fields (four x, y pairs) are read; a transcription label may follow. */
  const MaxFields: nat := 8

  /** Why a line cannot be read; in the script either one raises and stops the run. */
  datatype LineError =
    | NotAnInteger(field: nat, text: string)  // `int()` rejected one of the first eight fields
    | OddFieldCount(count: nat)                // the numbers do not pair up into points

  /** The comma-separated fields of a line, after stripping BOMs and then whitespace at both ends. */
  function Fields(line: string): (fs: seq<string>)
    ensures |fs| >= 1
  {
    Split(Strip(Strip(line, {Bom}), Whitespace), ',')
  }

  /** The fields the script converts: the first eight, or all of them if there are fewer. */
  function TakenFields(line: string): (fs: seq<string>)
    ensures 1 <= |fs| <= MaxFields && |fs| <= |Fields(line)|
    ensures fs == Fields(line)[..|fs|]
    ensures |fs| < MaxFields ==> fs == Fields(line)
  {
    var all := Fields(line);
    all[..if |all| <= MaxFields then |all| else MaxFields]
  }

  /** `list(map(convert, fs))`: converts every field, failing at the first one `convert` rejects. */
  function ConvertAll(fs: seq<string>, convert: string -> Option<int>): (r: Result<seq<int>, LineError>)
    ensures r.Ok? <==> forall i :: 0 <= i < |fs| ==> convert(fs[i]).Some?
    ensures r.Ok? ==> |r.value| == |fs| && forall i :: 0 <= i < |fs| ==> convert(fs[i]) == Some(r.value[i])
    ensures r.Err? ==> && r.error.NotAnInteger?
                       && r.error.field < |fs|
                       && r.error.text == fs[r.error.field]
                       && convert(fs[r.error.field]) == None
                       && forall i :: 0 <= i < r.error.field ==> convert(fs[i]).Some?
  {
    if |fs| == 0 then Ok([])
    else
      var init :- ConvertAll(fs[..|fs| - 1], convert);
      match convert(fs[|fs| - 1])
      case None => Err(NotAnInteger(|fs| - 1, fs[|fs| - 1]))
      case Some(v) => Ok(init + [v])
  }

  /** `reshape((-1, 2))`: consecutive numbers become the x and y of one point. */
  function PairUp(ns: seq<int>): (ps: seq<Point>)
    requires |ns| % 2 == 0
    ensures |ps| == |ns| / 2
    ensures forall i :: 0 <= i < |ps| ==> ps[i].x == ns[2 * i] && ps[i].y == ns[2 * i + 1]
  {
    seq(|ns| / 2, i requires 0 <= i < |ns| / 2 => Point(ns[2 * i], ns[2 * i + 1]))
  }

  /** The coordinates of the points in reading order: x1, y1, x2, y2, ... */
  function Flatten(ps: seq<Point>): (ns: seq<int>)
    ensures |ns| == 2 * |ps|
  {
    if |ps| == 0 then [] else [ps[0].x, ps[0].y] + Flatten(ps[1..])
  }

  lemma {:induction false} FlattenIndex(ps: seq<Point>, i: int)
    requires 0 <= i < |ps|
    ensures Flatten(ps)[2 * i] == ps[i].x && Flatten(ps)[2 * i + 1] == ps[i].y
  {
    if i > 0 {
      FlattenIndex(ps[1..], i - 1);
    }
  }

  /** Pairing up the flattened coordinates gives back the points. */
  lemma PairUpFlatten(ps: seq<Point>)
    ensures PairUp(Flatten(ps)) == ps
  {
    forall i | 0 <= i < |ps|
      ensures PairUp(Flatten(ps))[i] == ps[i]
    {
      FlattenIndex(ps, i);
    }
  }

  /** Converts the taken fields with `int()` and pairs the numbers into points. Conversion
      comes first, so a bad field is reported, the first one, before an odd count is. */
  function ParseFields(fs: seq<string>): (r: Result<seq<Point>, LineError>)
    ensures r.Ok? <==> (forall i :: 0 <= i < |fs| ==> ParseDecimal(fs[i]).Some?) && |fs| % 2 == 0
    ensures r.Ok? ==>
      && |fs| == 2 * |r.value|
      && forall i :: 0 <= i < |r.value| ==>
           ParseDecimal(fs[2 * i]) == Some(r.value[i].x) && ParseDecimal(fs[2 * i + 1]) == Some(r.value[i].y)
    ensures r.Err? && r.error.NotAnInteger? ==>
      && r.error.field < |fs| && r.error.text == fs[r.error.field]
      && ParseDecimal(fs[r.error.field]) == None
      && forall i :: 0 <= i < r.error.field ==> ParseDecimal(fs[i]).Some?
    ensures r.Err? && r.error.OddFieldCount? ==>
      && r.error.count == |fs| && |fs| % 2 == 1
      && forall i :: 0 <= i < |fs| ==> ParseDecimal(fs[i]).Some?
  {
    match ConvertAll(fs, ParseDecimal)
    case Err(e) => Err(e)
    case Ok(ns) => if |ns| % 2 != 0 then Err(OddFieldCount(|ns|)) else Ok(PairUp(ns))
  }

  /** Parses one annotation line as the script does: a line that
      parses yields one to four points. */
  function ParseLine(line: string): (r: Result<seq<Point>, LineError>)
    ensures r.Ok? ==> 1 <= |r.value| <= MaxFields / 2
  {
    ParseFields(TakenFields(line))
  }
}
