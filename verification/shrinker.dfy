/** The isotropic shrink of an annotated polygon about its vertex centroid
    (`shrink_quadrilateral`). Arithmetic is exact: coordinates are integers,
    the centroid and the scaled vertices are rationals, and the result is
    rounded half to even. */
module Shrinker {
  import opened Rounding

  /** A vertex in pixel coordinates. */
  datatype Point = Point(x: int, y: int)

  /** The factor the script passes for every annotation. */
  const ScriptShrinkFactor: real := 0.1

  function Sum(cs: seq<int>): int
  {
    if |cs| == 0 then 0 else cs[0] + Sum(cs[1..])
  }

  function SumReal(rs: seq<real>): real
  {
    if |rs| == 0 then 0.0 else rs[0] + SumReal(rs[1..])
  }

  /** Arithmetic mean of a non-empty list of coordinates. */
  function Mean(cs: seq<int>): real
    requires |cs| > 0
  {
    Sum(cs) as real / |cs| as real
  }

  /** Where coordinate `v` lands when its displacement from `c` is scaled by `1 - s`. */
  function Scaled(v: real, c: real, s: real): real
  {
    c + (v - c) * (1.0 - s)
  }

  /** Every coordinate scaled about the centre `c`. */
  function ScaledAll(cs: seq<int>, c: real, s: real): (es: seq<real>)
    ensures |es| == |cs|
  {
    seq(|cs|, i requires 0 <= i < |cs| => Scaled(cs[i] as real, c, s))
  }

  /** The unrounded shrunk coordinates of one axis. */
  function ExactAxis(cs: seq<int>, s: real): (es: seq<real>)
    requires |cs| > 0
    ensures |es| == |cs|
  {
    ScaledAll(cs, Mean(cs), s)
  }

  /** One axis of the shrink: every coordinate moved towards the mean, then rounded. */
  function ShrinkAxis(cs: seq<int>, s: real): (r: seq<int>)
    ensures |r| == |cs|
    ensures |cs| > 0 ==> forall i :: 0 <= i < |cs| ==> IsRoundHalfEven(ExactAxis(cs, s)[i], r[i])
  {
    if |cs| == 0 then []
    else seq(|cs|, i requires 0 <= i < |cs| => RoundHalfEven(ExactAxis(cs, s)[i]))
  }

  function Xs(box: seq<Point>): (xs: seq<int>)
    ensures |xs| == |box|
  {
    seq(|box|, i requires 0 <= i < |box| => box[i].x)
  }

  function Ys(box: seq<Point>): (ys: seq<int>)
    ensures |ys| == |box|
  {
    seq(|box|, i requires 0 <= i < |box| => box[i].y)
  }

  /** `shrink_quadrilateral(box, s)`: as many points as given, in the same order,
      each axis shrunk on its own about that axis' mean. */
  function Shrink(box: seq<Point>, s: real): (r: seq<Point>)
    ensures |r| == |box|
    ensures Xs(r) == ShrinkAxis(Xs(box), s) && Ys(r) == ShrinkAxis(Ys(box), s)
  {
    var xs, ys := ShrinkAxis(Xs(box), s), ShrinkAxis(Ys(box), s);
    var r := seq(|box|, i requires 0 <= i < |box| => Point(xs[i], ys[i]));
    assert Xs(r) == xs;
    assert Ys(r) == ys;
    r
  }
}
