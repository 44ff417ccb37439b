/** Properties of the shrink: what it keeps, where its vertices land, and worked examples
    with the script's factor. */
module ShrinkProperties {
  import opened Rounding
  import opened Shrinker

  // ---------------------------------------------------------------------------
  // Arithmetic helpers

  /** The mean times the count gives back the sum. */
  lemma MeanTimesCount(cs: seq<int>)
    requires |cs| > 0
    ensures |cs| as real * Mean(cs) == Sum(cs) as real
  {
  }

  /** Summing the scaled coordinates: each moves the fraction `s` of its way to the centre, so the
      sum moves the fraction `s` of the way from `S` to `n * c`. */
  lemma {:induction false} SumScaled(cs: seq<int>, c: real, s: real)
    ensures SumReal(ScaledAll(cs, c, s)) == Sum(cs) as real + (|cs| as real * c - Sum(cs) as real) * s
  {
    var es := ScaledAll(cs, c, s);
    if |cs| > 0 {
      assert es[1..] == ScaledAll(cs[1..], c, s);
      SumScaled(cs[1..], c, s);
      var n := (|cs| - 1) as real;
      var v := cs[0] as real;
      var t := Sum(cs[1..]) as real;
      ScaledAsStep(v, c, s);
      assert SumReal(es) == (v + (c - v) * s) + (t + (n * c - t) * s);
      assert (c - v) * s + (n * c - t) * s == ((n + 1.0) * c - (v + t)) * s;
    }
  }

  /** The product of two non-negative reals is non-negative. */
  lemma MulNonNeg(a: real, b: real)
    requires 0.0 <= a && 0.0 <= b
    ensures 0.0 <= a * b
  {
  }

  /** A part `a * s` of a non-negative `a`, with `s` in [0, 1], lies between 0 and `a`. */
  lemma PartOf(a: real, s: real)
    requires 0.0 <= a && 0.0 <= s <= 1.0
    ensures 0.0 <= a * s <= a
  {
    MulNonNeg(a, s);
    MulNonNeg(a, 1.0 - s);
    assert a - a * s == a * (1.0 - s);
  }

  /** The scaled point is the original point moved the fraction `s` of the way to the centre. */
  lemma ScaledAsStep(v: real, c: real, s: real)
    ensures Scaled(v, c, s) == v + (c - v) * s
  {
  }

  lemma ScaledBetweenBelow(v: real, c: real, s: real)
    requires 0.0 <= s <= 1.0 && v <= c
    ensures v <= Scaled(v, c, s) <= c
  {
    var d := c - v;
    assert Scaled(v, c, s) == v + d * s by { ScaledAsStep(v, c, s); }
    PartOf(d, s);
  }

  lemma ScaledBetweenAbove(v: real, c: real, s: real)
    requires 0.0 <= s <= 1.0 && c <= v
    ensures c <= Scaled(v, c, s) <= v
  {
    var d := v - c;
    assert Scaled(v, c, s) == c + d * (1.0 - s);
    PartOf(d, 1.0 - s);
  }

  /** With `s` in [0, 1] the scaled point lies between the original point and the centre. */
  lemma ScaledBetween(v: real, c: real, s: real)
    requires 0.0 <= s <= 1.0
    ensures v <= c ==> v <= Scaled(v, c, s) <= c
    ensures c <= v ==> c <= Scaled(v, c, s) <= v
  {
    if v <= c {
      ScaledBetweenBelow(v, c, s);
    }
    if c <= v {
      ScaledBetweenAbove(v, c, s);
    }
  }

  /** Moving a larger fraction of the way to the centre ends up nearer the centre. */
  lemma StepMonotone(v: real, c: real, s1: real, s2: real)
    requires s1 <= s2
    ensures v <= c ==> v + (c - v) * s1 <= v + (c - v) * s2
    ensures c <= v ==> v + (c - v) * s2 <= v + (c - v) * s1
  {
    assert (c - v) * s2 - (c - v) * s1 == (c - v) * (s2 - s1);
    if v <= c {
      MulNonNeg(c - v, s2 - s1);
    } else {
      MulNonNeg(v - c, s2 - s1);
      assert (c - v) * (s2 - s1) == -((v - c) * (s2 - s1));
    }
  }

  /** A larger shrink factor moves a point no further from the centre than a smaller one. */
  lemma ScaledMonotone(v: real, c: real, s1: real, s2: real)
    requires 0.0 <= s1 <= s2 <= 1.0
    ensures v >= c ==> c <= Scaled(v, c, s2) <= Scaled(v, c, s1)
    ensures v <= c ==> Scaled(v, c, s1) <= Scaled(v, c, s2) <= c
  {
    ScaledAsStep(v, c, s1);
    ScaledAsStep(v, c, s2);
    ScaledBetween(v, c, s2);
    StepMonotone(v, c, s1, s2);
  }

  /** If every integer is within one half of its real, the sums differ by at most half the count. */
  lemma {:induction false} SumRoundedNear(rs: seq<real>, ns: seq<int>)
    requires |rs| == |ns|
    requires forall i :: 0 <= i < |ns| ==> -0.5 <= ns[i] as real - rs[i] <= 0.5
    ensures -0.5 * |ns| as real <= Sum(ns) as real - SumReal(rs) <= 0.5 * |ns| as real
  {
    if |ns| > 0 {
      SumRoundedNear(rs[1..], ns[1..]);
    }
  }

  // ---------------------------------------------------------------------------
  // Properties of one axis

  /** With factor 0 the scale is the identity, so integer coordinates come back unchanged. */
  lemma ShrinkAxisZero(cs: seq<int>)
    ensures ShrinkAxis(cs, 0.0) == cs
  {
    if |cs| > 0 {
      forall i | 0 <= i < |cs|
        ensures ShrinkAxis(cs, 0.0)[i] == cs[i]
      {
        assert ExactAxis(cs, 0.0)[i] == cs[i] as real;
        RoundHalfEvenOfInteger(cs[i]);
      }
    }
  }

  /** Displacements from an exact centre sum to zero, whatever they are scaled by. */
  lemma ScaledAllKeepsSum(cs: seq<int>, c: real, s: real)
    requires |cs| as real * c == Sum(cs) as real
    ensures SumReal(ScaledAll(cs, c, s)) == Sum(cs) as real
  {
    var x, total, target := SumReal(ScaledAll(cs, c, s)), Sum(cs) as real, |cs| as real * c;
    assert x == total + (target - total) * s by {
      SumScaled(cs, c, s);
    }
    NoMove(x, total, target, s);
  }

  /** A total moved the fraction `s` of the way to where it already is stays where it is. */
  lemma NoMove(x: real, total: real, target: real, s: real)
    requires x == total + (target - total) * s && target == total
    ensures x == total
  {
    var d := target - total;
    assert d == 0.0;
    assert d * s == 0.0;
  }

  /** Before rounding the shrunk coordinates keep exactly the original mean. */
  lemma ExactAxisKeepsMean(cs: seq<int>, s: real)
    requires |cs| > 0
    ensures SumReal(ExactAxis(cs, s)) == Sum(cs) as real
  {
    MeanTimesCount(cs);
    ScaledAllKeepsSum(cs, Mean(cs), s);
  }

  /** After rounding, the mean of the shrunk coordinates is within one half of the original mean. */
  lemma ShrinkAxisMeanNear(cs: seq<int>, s: real)
    requires |cs| > 0
    ensures -0.5 <= Mean(ShrinkAxis(cs, s)) - Mean(cs) <= 0.5
  {
    var r := ShrinkAxis(cs, s);
    var es := ExactAxis(cs, s);
    SumRoundedNear(es, r);
    ExactAxisKeepsMean(cs, s);
    var n := |cs|;
    var d := Sum(r) - Sum(cs);
    MeanTimesCount(cs);
    MeanTimesCount(r);
    var t := Mean(r) - Mean(cs);
    assert t * n as real == Mean(r) * n as real - Mean(cs) * n as real;
    assert t * n as real == d as real;
    ScaledDistance(t, n, d);
  }

  /** For s in [0, 1] each shrunk coordinate lies between the original coordinate and the
      rounded mean, hence within one half beyond the segment from the coordinate to the mean. */
  lemma ShrinkAxisBetween(cs: seq<int>, s: real, i: int)
    requires 0.0 <= s <= 1.0
    requires 0 <= i < |cs|
    ensures var v, c, r := cs[i], Mean(cs), ShrinkAxis(cs, s)[i];
            && (v as real <= c ==> v <= r <= RoundHalfEven(c))
            && (c <= v as real ==> RoundHalfEven(c) <= r <= v)
    ensures var v, c, r := cs[i] as real, Mean(cs), ShrinkAxis(cs, s)[i] as real;
            && (if v <= c then v else c) - 0.5 <= r
            && r <= (if v <= c then c else v) + 0.5
  {
    var v, c := cs[i], Mean(cs);
    var e := ExactAxis(cs, s)[i];
    ScaledBetween(v as real, c, s);
    RoundHalfEvenOfInteger(v);
    if v as real <= c {
      RoundHalfEvenMonotone(v as real, e);
      RoundHalfEvenMonotone(e, c);
    }
    if c <= v as real {
      RoundHalfEvenMonotone(c, e);
      RoundHalfEvenMonotone(e, v as real);
    }
  }

  /** Shrinking harder never moves a coordinate away from the rounded mean. */
  lemma ShrinkAxisMonotone(cs: seq<int>, s1: real, s2: real, i: int)
    requires 0.0 <= s1 <= s2 <= 1.0
    requires 0 <= i < |cs|
    ensures var v, c := cs[i] as real, Mean(cs);
            var r1, r2 := ShrinkAxis(cs, s1)[i], ShrinkAxis(cs, s2)[i];
            && (v >= c ==> RoundHalfEven(c) <= r2 <= r1)
            && (v <= c ==> r1 <= r2 <= RoundHalfEven(c))
  {
    var c := Mean(cs);
    var e1, e2 := ExactAxis(cs, s1)[i], ExactAxis(cs, s2)[i];
    ScaledMonotone(cs[i] as real, c, s1, s2);
    if cs[i] as real >= c {
      RoundHalfEvenMonotone(c, e2);
      RoundHalfEvenMonotone(e2, e1);
    }
    if cs[i] as real <= c {
      RoundHalfEvenMonotone(e1, e2);
      RoundHalfEvenMonotone(e2, c);
    }
  }

  /** With factor 0.1 about the mean `c = S / 4` of four coordinates, the scaled point is
      `(36 v + S) / 40`. */
  lemma ScaledQuadrilateralByScriptFactor(v: real, c: real, total: real)
    requires 4.0 * c == total
    ensures Scaled(v, c, ScriptShrinkFactor) == (36.0 * v + total) / 40.0
  {
  }

  /** On an axis of four coordinates with sum `S`, the unrounded image of `v` is `(36 v + S) / 40`. */
  lemma ExactQuadrilateralAxis(cs: seq<int>, i: int)
    requires |cs| == 4 && 0 <= i < 4
    ensures ExactAxis(cs, ScriptShrinkFactor)[i] == (36 * cs[i] + Sum(cs)) as real / 40.0
  {
    var c := Mean(cs);
    assert ExactAxis(cs, ScriptShrinkFactor)[i] == Scaled(cs[i] as real, c, ScriptShrinkFactor);
    MeanTimesCount(cs);
    ScaledQuadrilateralByScriptFactor(cs[i] as real, c, Sum(cs) as real);
  }

  /** With the script's factor 0.1, each coordinate of a quadrilateral becomes a
      half-to-even rounding of `(36 v + S) / 40`, where `S` is the sum of the axis. */
  lemma ShrinkAxisScriptFactor(cs: seq<int>, i: int)
    requires |cs| == 4 && 0 <= i < 4
    ensures IsRoundHalfEven((36 * cs[i] + Sum(cs)) as real / 40.0, ShrinkAxis(cs, ScriptShrinkFactor)[i])
  {
    ExactQuadrilateralAxis(cs, i);
  }

  /** Any integer that rounds `(36 v + S) / 40` half to even is the shrunk coordinate. */
  lemma ShrinkAxisScriptFactorIs(cs: seq<int>, i: int, n: int)
    requires |cs| == 4 && 0 <= i < 4
    requires IsRoundHalfEven((36 * cs[i] + Sum(cs)) as real / 40.0, n)
    ensures ShrinkAxis(cs, ScriptShrinkFactor)[i] == n
  {
    var q := (36 * cs[i] + Sum(cs)) as real / 40.0;
    var r := ShrinkAxis(cs, ScriptShrinkFactor)[i];
    assert IsRoundHalfEven(q, r) by {
      ShrinkAxisScriptFactor(cs, i);
    }
    RoundingIsFunctional(q, r, n);
  }

  /** A list of points is determined by its two coordinate lists. */
  lemma PointsFromAxes(r: seq<Point>, q: seq<Point>)
    requires Xs(r) == Xs(q) && Ys(r) == Ys(q)
    ensures r == q
  {
    assert |r| == |Xs(r)| == |q|;
    forall i | 0 <= i < |r|
      ensures r[i] == q[i]
    {
      assert r[i].x == Xs(r)[i] && r[i].y == Ys(r)[i];
      assert q[i].x == Xs(q)[i] && q[i].y == Ys(q)[i];
    }
  }

  // ---------------------------------------------------------------------------
  // Properties of the point-level shrink

  /** `Shrink(box, 0)` returns the box unchanged. */
  lemma ShrinkZeroIsIdentity(box: seq<Point>)
    ensures Shrink(box, 0.0) == box
  {
    ShrinkAxisZero(Xs(box));
    ShrinkAxisZero(Ys(box));
    PointsFromAxes(Shrink(box, 0.0), box);
  }

  /** For s in [0, 1] each output vertex lies, on each axis, between the input vertex and the
      input centroid, widened by one half for the rounding. */
  lemma ShrinkStaysBetween(box: seq<Point>, s: real, i: int)
    requires 0.0 <= s <= 1.0
    requires 0 <= i < |box|
    ensures var v, c, r := box[i].x as real, Mean(Xs(box)), Shrink(box, s)[i].x as real;
            (if v <= c then v else c) - 0.5 <= r <= (if v <= c then c else v) + 0.5
    ensures var v, c, r := box[i].y as real, Mean(Ys(box)), Shrink(box, s)[i].y as real;
            (if v <= c then v else c) - 0.5 <= r <= (if v <= c then c else v) + 0.5
  {
    var r := Shrink(box, s);
    assert r[i].x == Xs(r)[i] && r[i].y == Ys(r)[i];
    assert box[i].x == Xs(box)[i] && box[i].y == Ys(box)[i];
    ShrinkAxisBetween(Xs(box), s, i);
    ShrinkAxisBetween(Ys(box), s, i);
  }

  /** The centroid of the shrunk polygon is within one half of the input centroid on each axis. */
  lemma ShrinkCentroidNear(box: seq<Point>, s: real)
    requires |box| > 0
    ensures -0.5 <= Mean(Xs(Shrink(box, s))) - Mean(Xs(box)) <= 0.5
    ensures -0.5 <= Mean(Ys(Shrink(box, s))) - Mean(Ys(box)) <= 0.5
  {
    ShrinkAxisMeanNear(Xs(box), s);
    ShrinkAxisMeanNear(Ys(box), s);
  }

  /** Rounding half to even decides ties: on the x-axis `[0, 0, 0, 20]` the exact
      images are `0.5` and `18.5`, and they round down to the even `0` and `18`. */
  lemma ShrinkTieRoundsToEven()
    ensures ShrinkAxis([0, 0, 0, 20], ScriptShrinkFactor) == [0, 0, 0, 18]
  {
    var cs := [0, 0, 0, 20];
    assert Sum(cs) == 20;
    ShrinkAxisScriptFactorIs(cs, 0, 0);
    ShrinkAxisScriptFactorIs(cs, 1, 0);
    ShrinkAxisScriptFactorIs(cs, 2, 0);
    ShrinkAxisScriptFactorIs(cs, 3, 18);
  }

  /** The two axes of the example square. */
  lemma ShrinkSquareSide()
    ensures ShrinkAxis([10, 90, 90, 10], ScriptShrinkFactor) == [14, 86, 86, 14]
    ensures ShrinkAxis([10, 10, 90, 90], ScriptShrinkFactor) == [14, 14, 86, 86]
  {
    var a, b := [10, 90, 90, 10], [10, 10, 90, 90];
    assert Sum(a) == 200 && Sum(b) == 200;
    ShrinkAxisScriptFactorIs(a, 0, 14);
    ShrinkAxisScriptFactorIs(a, 1, 86);
    ShrinkAxisScriptFactorIs(a, 2, 86);
    ShrinkAxisScriptFactorIs(a, 3, 14);
    ShrinkAxisScriptFactorIs(b, 0, 14);
    ShrinkAxisScriptFactorIs(b, 1, 14);
    ShrinkAxisScriptFactorIs(b, 2, 86);
    ShrinkAxisScriptFactorIs(b, 3, 86);
  }

  /** The 80-pixel square with corners (10, 10) and (90, 90) shrinks to the square with
      corners (14, 14) and (86, 86): every corner moves 4 pixels, a tenth of its 40-pixel
      distance from the centre (50, 50) on each axis. */
  lemma ShrinkSquareExample()
    ensures Shrink([Point(10, 10), Point(90, 10), Point(90, 90), Point(10, 90)], ScriptShrinkFactor)
            == [Point(14, 14), Point(86, 14), Point(86, 86), Point(14, 86)]
  {
    var box := [Point(10, 10), Point(90, 10), Point(90, 90), Point(10, 90)];
    var want := [Point(14, 14), Point(86, 14), Point(86, 86), Point(14, 86)];
    assert Xs(box) == [10, 90, 90, 10] && Ys(box) == [10, 10, 90, 90];
    assert Xs(want) == [14, 86, 86, 14] && Ys(want) == [14, 14, 86, 86];
    ShrinkSquareSide();
    PointsFromAxes(Shrink(box, ScriptShrinkFactor), want);
  }
}
