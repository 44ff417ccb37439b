/** Single-channel 8-bit masks (`np.uint8` arrays of shape H x W) and their pointwise
    union (`cv2.bitwise_or`), folded over the region masks of an image. */
module Masks {

  /** A mask as rows of 8-bit pixels. */
  type Mask = seq<seq<bv8>>

  /** The value `fillPoly` paints inside a region. */
  const Foreground: bv8 := 255

  /** `m` has `h` rows of `w` pixels each. */
  predicate HasShape(m: Mask, h: nat, w: nat) {
    |m| == h && forall r :: 0 <= r < h ==> |m[r]| == w
  }

  /** `a` and `b` have the same number of rows and the same row lengths. */
  predicate SameShape(a: Mask, b: Mask) {
    |a| == |b| && forall r :: 0 <= r < |a| ==> |a[r]| == |b[r]|
  }

  /** `(r, c)` addresses a pixel of `m`. */
  predicate InBounds(m: Mask, r: int, c: int) {
    0 <= r < |m| && 0 <= c < |m[r]|
  }

  /** Every pixel is background (0) or foreground (255). */
  ghost predicate IsBinary(m: Mask) {
    forall r, c :: InBounds(m, r, c) ==> m[r][c] == 0 || m[r][c] == Foreground
  }

  /** `np.zeros((h, w), dtype=np.uint8)`. */
  function Zeros(h: nat, w: nat): (m: Mask)
    ensures HasShape(m, h, w) && IsBinary(m)
    ensures forall r, c :: InBounds(m, r, c) ==> m[r][c] == 0
  {
    seq(h, _ => seq(w, _ => 0 as bv8))
  }

  /** `cv2.bitwise_or(a, b)` on two masks of the same shape. A pixel is background exactly
      when it is background in both; on binary masks it is foreground exactly when it is
      foreground in either. */
  function Union(a: Mask, b: Mask): (m: Mask)
    requires SameShape(a, b)
    ensures SameShape(m, a)
    ensures forall r, c :: InBounds(m, r, c) ==> (m[r][c] == 0 <==> a[r][c] == 0 && b[r][c] == 0)
    ensures IsBinary(a) && IsBinary(b) ==>
      && IsBinary(m)
      && forall r, c :: InBounds(m, r, c) ==>
           (m[r][c] == Foreground <==> a[r][c] == Foreground || b[r][c] == Foreground)
  {
    seq(|a|, r requires 0 <= r < |a| => seq(|a[r]|, c requires 0 <= c < |a[r]| => a[r][c] | b[r][c]))
  }

  /** The segmentation after the region masks of `regions` have been OR-ed into it one by one,
      in order, starting from the all-zero mask. */
  function Accumulate(h: nat, w: nat, regions: seq<Mask>): (m: Mask)
    requires forall i :: 0 <= i < |regions| ==> HasShape(regions[i], h, w)
    ensures HasShape(m, h, w)
  {
    if |regions| == 0 then Zeros(h, w)
    else
      var prev, last := Accumulate(h, w, regions[..|regions| - 1]), regions[|regions| - 1];
      assert HasShape(prev, h, w) && HasShape(last, h, w);
      assert SameShape(prev, last);
      Union(prev, last)
  }

  // ---------------------------------------------------------------------------
  // Algebra of the union

  /** Two masks of the same shape that agree on every pixel are equal. */
  lemma PixelsDetermine(a: Mask, b: Mask)
    requires SameShape(a, b)
    requires forall r, c :: InBounds(a, r, c) ==> a[r][c] == b[r][c]
    ensures a == b
  {
    forall r | 0 <= r < |a|
      ensures a[r] == b[r]
    {
      assert forall c :: 0 <= c < |a[r]| ==> InBounds(a, r, c);
    }
  }

  /** The order of the two operands does not matter. */
  lemma UnionCommutes(a: Mask, b: Mask)
    requires SameShape(a, b)
    ensures Union(a, b) == Union(b, a)
  {
    var u, v := Union(a, b), Union(b, a);
    forall r, c | InBounds(u, r, c)
      ensures u[r][c] == v[r][c]
    {
      assert u[r][c] == a[r][c] | b[r][c];
      assert v[r][c] == b[r][c] | a[r][c];
    }
    PixelsDetermine(u, v);
  }

  /** Grouping does not matter. */
  lemma UnionAssociates(a: Mask, b: Mask, c: Mask)
    requires SameShape(a, b) && SameShape(b, c)
    ensures Union(Union(a, b), c) == Union(a, Union(b, c))
  {
    var u, v := Union(Union(a, b), c), Union(a, Union(b, c));
    forall r, k | InBounds(u, r, k)
      ensures u[r][k] == v[r][k]
    {
      assert u[r][k] == (a[r][k] | b[r][k]) | c[r][k];
      assert v[r][k] == a[r][k] | (b[r][k] | c[r][k]);
    }
    PixelsDetermine(u, v);
  }

  /** OR-ing a mask into itself changes nothing. */
  lemma UnionIdempotent(a: Mask)
    ensures Union(a, a) == a
  {
    var u := Union(a, a);
    forall r, c | InBounds(u, r, c)
      ensures u[r][c] == a[r][c]
    {
      assert u[r][c] == a[r][c] | a[r][c];
    }
    PixelsDetermine(u, a);
  }

  /** The all-zero mask is the identity of the union. */
  lemma UnionZeros(a: Mask, h: nat, w: nat)
    requires HasShape(a, h, w)
    ensures Union(Zeros(h, w), a) == a
  {
    var u := Union(Zeros(h, w), a);
    forall r, c | InBounds(u, r, c)
      ensures u[r][c] == a[r][c]
    {
      assert u[r][c] == 0 | a[r][c];
    }
    PixelsDetermine(u, a);
  }

  // ---------------------------------------------------------------------------
  // The accumulated mask

  /** Every region mask of the list is binary. */
  ghost predicate AllBinary(regions: seq<Mask>) {
    forall i :: 0 <= i < |regions| ==> IsBinary(regions[i])
  }

  /** A pixel of the accumulated mask is background exactly when every region leaves it
      background. */
  lemma {:induction false} AccumulateBackground(h: nat, w: nat, regions: seq<Mask>, r: int, c: int)
    requires forall i :: 0 <= i < |regions| ==> HasShape(regions[i], h, w)
    requires 0 <= r < h && 0 <= c < w
    ensures var m := Accumulate(h, w, regions);
      m[r][c] == 0 <==> forall i :: 0 <= i < |regions| ==> regions[i][r][c] == 0
  {
    if |regions| > 0 {
      var n := |regions| - 1;
      var init := regions[..n];
      AccumulateBackground(h, w, init, r, c);
      assert forall i :: 0 <= i < n ==> init[i] == regions[i];
      assert InBounds(Accumulate(h, w, regions), r, c);
    }
  }

  /** With binary regions, a pixel of the accumulated mask is 0 or 255, and it is foreground
      exactly when some region covers it. */
  lemma {:induction false} AccumulateForeground(h: nat, w: nat, regions: seq<Mask>, r: int, c: int)
    requires forall i :: 0 <= i < |regions| ==> HasShape(regions[i], h, w)
    requires AllBinary(regions)
    requires 0 <= r < h && 0 <= c < w
    ensures var m := Accumulate(h, w, regions);
      && (m[r][c] == 0 || m[r][c] == Foreground)
      && (m[r][c] == Foreground <==> exists i :: 0 <= i < |regions| && regions[i][r][c] == Foreground)
  {
    if |regions| > 0 {
      var n := |regions| - 1;
      var init := regions[..n];
      var last := regions[n];
      var m, prev := Accumulate(h, w, regions), Accumulate(h, w, init);
      assert forall i :: 0 <= i < n ==> init[i] == regions[i];
      AccumulateForeground(h, w, init, r, c);
      assert InBounds(m, r, c) && InBounds(prev, r, c) && InBounds(last, r, c);
      assert IsBinary(last);
      assert m[r][c] == prev[r][c] | last[r][c];
    }
  }

  /** The accumulated mask of binary regions is binary. */
  lemma AccumulateIsBinary(h: nat, w: nat, regions: seq<Mask>)
    requires forall i :: 0 <= i < |regions| ==> HasShape(regions[i], h, w)
    requires AllBinary(regions)
    ensures IsBinary(Accumulate(h, w, regions))
  {
    var m := Accumulate(h, w, regions);
    forall r, c | InBounds(m, r, c)
      ensures m[r][c] == 0 || m[r][c] == Foreground
    {
      AccumulateForeground(h, w, regions, r, c);
    }
  }

  /** Only which binary regions occur matters: their order and any repetitions do not. */
  lemma AccumulateSameRegions(h: nat, w: nat, regions1: seq<Mask>, regions2: seq<Mask>)
    requires forall i :: 0 <= i < |regions1| ==> HasShape(regions1[i], h, w)
    requires forall i :: 0 <= i < |regions2| ==> HasShape(regions2[i], h, w)
    requires AllBinary(regions1) && AllBinary(regions2)
    requires forall x :: x in regions1 <==> x in regions2
    ensures Accumulate(h, w, regions1) == Accumulate(h, w, regions2)
  {
    var m1, m2 := Accumulate(h, w, regions1), Accumulate(h, w, regions2);
    forall r, c | InBounds(m1, r, c)
      ensures m1[r][c] == m2[r][c]
    {
      AccumulateForeground(h, w, regions1, r, c);
      AccumulateForeground(h, w, regions2, r, c);
      if m1[r][c] == Foreground {
        var i :| 0 <= i < |regions1| && regions1[i][r][c] == Foreground;
        assert regions1[i] in regions2;
      }
      if m2[r][c] == Foreground {
        var i :| 0 <= i < |regions2| && regions2[i][r][c] == Foreground;
        assert regions2[i] in regions1;
      }
    }
    PixelsDetermine(m1, m2);
  }

  /** Reordering the annotation lines leaves the accumulated mask unchanged. */
  lemma AccumulatePermutation(h: nat, w: nat, regions1: seq<Mask>, regions2: seq<Mask>)
    requires forall i :: 0 <= i < |regions1| ==> HasShape(regions1[i], h, w)
    requires forall i :: 0 <= i < |regions2| ==> HasShape(regions2[i], h, w)
    requires AllBinary(regions1) && AllBinary(regions2)
    requires multiset(regions1) == multiset(regions2)
    ensures Accumulate(h, w, regions1) == Accumulate(h, w, regions2)
  {
    forall x
      ensures x in regions1 <==> x in regions2
    {
      assert x in regions1 <==> x in multiset(regions1);
      assert x in regions2 <==> x in multiset(regions2);
    }
    AccumulateSameRegions(h, w, regions1, regions2);
  }
}
