/** Fixed-threshold binarisation (computeThresholdGE). */
module Binarizer {
  import opened Grids

  /** 255 where the pixel reaches the threshold, 0 below it. */
  function ThresholdGE(g: Grid<int>, t: int, w: nat, h: nat): (out: Grid<int>)
    requires Covers(g, h, w)
    ensures IsRect(out, h, w)
    ensures forall i, j :: 0 <= i < h && 0 <= j < w ==>
              (out[i][j] == 255 <==> g[i][j] >= t) && (out[i][j] == 0 <==> g[i][j] < t)
  {
    seq(h, i requires 0 <= i < h =>
      seq(w, j requires 0 <= j < w => if g[i][j] < t then 0 else 255))
  }

  /** Changing one input pixel changes at most that output pixel. */
  lemma ThresholdLocal(g: Grid<int>, t: int, w: nat, h: nat, i: nat, j: nat, v: int)
    requires IsRect(g, h, w) && i < h && j < w
    ensures IsRect(g[i := g[i][j := v]], h, w)
    ensures forall a, b :: 0 <= a < h && 0 <= b < w && (a, b) != (i, j) ==>
              ThresholdGE(g[i := g[i][j := v]], t, w, h)[a][b] == ThresholdGE(g, t, w, h)[a][b]
  {
    RectCovers(g, h, w);
    RectCovers(g[i := g[i][j := v]], h, w);
  }

  /** Brightening an image never removes foreground. */
  lemma ThresholdMonotone(g: Grid<int>, g': Grid<int>, t: int, w: nat, h: nat)
    requires Covers(g, h, w) && Covers(g', h, w)
    requires forall i, j :: 0 <= i < h && 0 <= j < w ==> g[i][j] <= g'[i][j]
    ensures forall i, j :: 0 <= i < h && 0 <= j < w ==>
              ThresholdGE(g, t, w, h)[i][j] <= ThresholdGE(g', t, w, h)[i][j]
  {
  }

  /** An image entirely below the threshold has no foreground. */
  lemma DarkImageThresholdsToZero(g: Grid<int>, t: int, w: nat, h: nat)
    requires Covers(g, h, w)
    requires forall i, j :: 0 <= i < h && 0 <= j < w ==> g[i][j] < t
    ensures IsConstant(ThresholdGE(g, t, w, h), h, w, 0)
  {
  }
}
