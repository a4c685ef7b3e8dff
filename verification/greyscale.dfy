/** Colour to greyscale conversion (computeRGBToGreyscale). */
module Greyscale {
  import opened Grids
  import opened Rounding

  /** The weighted sum 0.299 R + 0.587 G + 0.114 B, as an exact rational. */
  function Luma(r: int, g: int, b: int): real {
    (299 * r + 587 * g + 114 * b) as real / 1000.0
  }

  /** One output pixel: the weighted sum rounded by Python's `round`. */
  function GreyPixel(r: int, g: int, b: int): (v: int)
    ensures r == g == b ==> v == r
    ensures 0 <= r <= 255 && 0 <= g <= 255 && 0 <= b <= 255 ==> 0 <= v <= 255
    ensures -0.5 <= Luma(r, g, b) - v as real <= 0.5
  {
    var y := Luma(r, g, b);
    assert r == g == b ==> Round(y) == r by {
      if r == g == b {
        assert y == r as real;
        RoundOfInteger(r);
      }
    }
    assert 0 <= r <= 255 && 0 <= g <= 255 && 0 <= b <= 255 ==> 0 <= Round(y) <= 255 by {
      if 0 <= r <= 255 && 0 <= g <= 255 && 0 <= b <= 255 {
        RoundWithin(y, 0, 255);
      }
    }
    Round(y)
  }

  /** The weights are nonnegative, so brightening any channel never darkens
      the grey value. */
  lemma GreyPixelMonotone(r: int, g: int, b: int, r': int, g': int, b': int)
    requires r <= r' && g <= g' && b <= b'
    ensures GreyPixel(r, g, b) <= GreyPixel(r', g', b')
  {
    RoundMonotone(Luma(r, g, b), Luma(r', g', b'));
  }

  function ToGreyscale(pr: Grid<int>, pg: Grid<int>, pb: Grid<int>, w: nat, h: nat): (out: Grid<int>)
    requires Covers(pr, h, w) && Covers(pg, h, w) && Covers(pb, h, w)
    ensures IsRect(out, h, w)
    ensures forall i, j :: 0 <= i < h && 0 <= j < w ==>
              out[i][j] == GreyPixel(pr[i][j], pg[i][j], pb[i][j])
    ensures forall i, j :: 0 <= i < h && 0 <= j < w && pr[i][j] == pg[i][j] == pb[i][j] ==>
              out[i][j] == pr[i][j]
    ensures AllWithin(pr, h, w, 0, 255) && AllWithin(pg, h, w, 0, 255) && AllWithin(pb, h, w, 0, 255) ==>
              AllWithin(out, h, w, 0, 255)
  {
    seq(h, i requires 0 <= i < h =>
      seq(w, j requires 0 <= j < w => GreyPixel(pr[i][j], pg[i][j], pb[i][j])))
  }

  /** A grey input image (R = G = B = v everywhere) comes back unchanged. */
  lemma GreyImageIsFixed(p: Grid<int>, w: nat, h: nat)
    requires IsRect(p, h, w)
    ensures ToGreyscale(p, p, p, w, h) == p
  {
    RectCovers(p, h, w);
    var out := ToGreyscale(p, p, p, w, h);
    forall i | 0 <= i < h
      ensures out[i] == p[i]
    {
    }
  }
}
