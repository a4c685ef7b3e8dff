/** Binary dilation and erosion with a flat 3x3 structuring element
    (computeDilation8Nbh3x3FlatSE and computeErosion8Nbh3x3FlatSE). */
module Morphology {
  import opened Grids

  /** Pixel `(x, y)` of the `h`-by-`w` image, reading outside it as 0. */
  function At(g: Grid<int>, h: nat, w: nat, x: int, y: int): int
    requires Covers(g, h, w)
  {
    if 0 <= x < h && 0 <= y < w then g[x][y] else 0
  }

  /** The 3x3 window centred on `(i, j)` in the order the nested loops visit
      it: row `i - 1` first, and within a row column `j - 1` first. */
  function Window(g: Grid<int>, h: nat, w: nat, i: int, j: int): (xs: seq<int>)
    requires Covers(g, h, w)
    ensures |xs| == 9
  {
    seq(9, k requires 0 <= k < 9 => At(g, h, w, i - 1 + k / 3, j - 1 + k % 3))
  }

  /** Window entry `k` is the pixel at row offset `k / 3`, column offset `k % 3`,
      and every pixel of the window is some entry. */
  lemma WindowEntry(g: Grid<int>, h: nat, w: nat, i: int, j: int, x: int, y: int)
    requires Covers(g, h, w)
    requires i - 1 <= x <= i + 1 && j - 1 <= y <= j + 1
    ensures Window(g, h, w, i, j)[3 * (x - i + 1) + (y - j + 1)] == At(g, h, w, x, y)
  {
    var k := 3 * (x - i + 1) + (y - j + 1);
    assert k / 3 == x - i + 1 && k % 3 == y - j + 1;
  }

  /** Python's `max` of a non-empty list. */
  function Max(xs: seq<int>): (m: int)
    requires |xs| > 0
    ensures m in xs
    ensures forall k :: 0 <= k < |xs| ==> xs[k] <= m
  {
    if |xs| == 1 then xs[0]
    else
      var rest := Max(xs[1..]);
      if xs[0] >= rest then xs[0] else rest
  }

  /** Some pixel of the 3x3 window centred on `(i, j)` is positive. */
  ghost predicate AnyPositive(g: Grid<int>, h: nat, w: nat, i: int, j: int)
    requires Covers(g, h, w)
  {
    exists x, y :: i - 1 <= x <= i + 1 && j - 1 <= y <= j + 1 && At(g, h, w, x, y) > 0
  }

  /** Every pixel of the 3x3 window centred on `(i, j)` is nonzero. */
  ghost predicate AllNonzero(g: Grid<int>, h: nat, w: nat, i: int, j: int)
    requires Covers(g, h, w)
  {
    forall x, y :: i - 1 <= x <= i + 1 && j - 1 <= y <= j + 1 ==> At(g, h, w, x, y) != 0
  }

  /** The dilation test `max(window) > 0` holds exactly when some pixel of
      the window is positive. */
  lemma MaxPositiveIff(g: Grid<int>, h: nat, w: nat, i: int, j: int)
    requires Covers(g, h, w)
    ensures Max(Window(g, h, w, i, j)) > 0 <==> AnyPositive(g, h, w, i, j)
  {
    var xs := Window(g, h, w, i, j);
    if Max(xs) > 0 {
      var k :| 0 <= k < 9 && xs[k] == Max(xs);
      assert At(g, h, w, i - 1 + k / 3, j - 1 + k % 3) > 0;
    }
    if AnyPositive(g, h, w, i, j) {
      var x, y :| i - 1 <= x <= i + 1 && j - 1 <= y <= j + 1 && At(g, h, w, x, y) > 0;
      WindowEntry(g, h, w, i, j, x, y);
    }
  }

  /** The erosion loop's flag stays true exactly when no window pixel is 0. */
  lemma NoZeroIff(g: Grid<int>, h: nat, w: nat, i: int, j: int)
    requires Covers(g, h, w)
    ensures 0 !in Window(g, h, w, i, j) <==> AllNonzero(g, h, w, i, j)
  {
    var xs := Window(g, h, w, i, j);
    if 0 in xs {
      var k :| 0 <= k < 9 && xs[k] == 0;
      assert At(g, h, w, i - 1 + k / 3, j - 1 + k % 3) == 0;
    }
    if !AllNonzero(g, h, w, i, j) {
      var x, y :| i - 1 <= x <= i + 1 && j - 1 <= y <= j + 1 && At(g, h, w, x, y) == 0;
      WindowEntry(g, h, w, i, j, x, y);
    }
  }

  /** computeDilation8Nbh3x3FlatSE: 1 wherever the 3x3 window, padded with 0
      outside the image, has a positive pixel; 0 elsewhere. */
  function Dilate(g: Grid<int>, w: nat, h: nat): (out: Grid<int>)
    requires Covers(g, h, w)
    ensures IsRect(out, h, w)
    ensures forall i, j :: 0 <= i < h && 0 <= j < w ==> out[i][j] == 0 || out[i][j] == 1
    ensures forall i, j :: 0 <= i < h && 0 <= j < w ==> (out[i][j] == 1 <==> AnyPositive(g, h, w, i, j))
    ensures forall i, j :: 0 <= i < h && 0 <= j < w && g[i][j] > 0 ==> out[i][j] == 1
  {
    var out := seq(h, i requires 0 <= i < h =>
      seq(w, j requires 0 <= j < w => if Max(Window(g, h, w, i, j)) > 0 then 1 else 0));
    assert forall i, j :: 0 <= i < h && 0 <= j < w ==> (out[i][j] == 1 <==> AnyPositive(g, h, w, i, j)) by {
      forall i, j | 0 <= i < h && 0 <= j < w
        ensures out[i][j] == 1 <==> AnyPositive(g, h, w, i, j)
      {
        MaxPositiveIff(g, h, w, i, j);
      }
    }
    assert forall i, j :: 0 <= i < h && 0 <= j < w && g[i][j] > 0 ==> out[i][j] == 1 by {
      forall i, j | 0 <= i < h && 0 <= j < w && g[i][j] > 0
        ensures out[i][j] == 1
      {
        assert At(g, h, w, i, j) > 0;
        assert AnyPositive(g, h, w, i, j);
      }
    }
    out
  }

  /** Pixel `(i, j)` lies on the one-pixel frame the erosion never computes. */
  predicate OnFrame(i: int, j: int, h: nat, w: nat) {
    i == 0 || i == h - 1 || j == 0 || j == w - 1
  }

  /** computeErosion8Nbh3x3FlatSE: on pixels off the frame, 1 when the whole
      3x3 window is nonzero and 0 otherwise; the frame stays 0. The source
      reads its input only when the image is at least 3 by 3. */
  function Erode(g: Grid<int>, w: nat, h: nat): (out: Grid<int>)
    requires h >= 3 && w >= 3 ==> Covers(g, h, w)
    ensures IsRect(out, h, w)
    ensures forall i, j :: 0 <= i < h && 0 <= j < w ==> out[i][j] == 0 || out[i][j] == 1
    ensures forall i, j :: 0 <= i < h && 0 <= j < w && OnFrame(i, j, h, w) ==> out[i][j] == 0
    ensures forall i, j :: 0 <= i < h && 0 <= j < w && !OnFrame(i, j, h, w) ==>
              (out[i][j] == 1 <==> AllNonzero(g, h, w, i, j))
    ensures forall i, j :: 0 <= i < h && 0 <= j < w && !OnFrame(i, j, h, w) && out[i][j] == 1 ==> g[i][j] != 0
  {
    var out := seq(h, i requires 0 <= i < h =>
      seq(w, j requires 0 <= j < w =>
        if 1 <= i < h - 1 && 1 <= j < w - 1 then (if 0 in Window(g, h, w, i, j) then 0 else 1) else 0));
    assert forall i, j :: 0 <= i < h && 0 <= j < w && !OnFrame(i, j, h, w) ==>
             (out[i][j] == 1 <==> AllNonzero(g, h, w, i, j)) by {
      forall i, j | 0 <= i < h && 0 <= j < w && !OnFrame(i, j, h, w)
        ensures out[i][j] == 1 <==> AllNonzero(g, h, w, i, j)
      {
        NoZeroIff(g, h, w, i, j);
      }
    }
    assert forall i, j :: 0 <= i < h && 0 <= j < w && !OnFrame(i, j, h, w) && out[i][j] == 1 ==> g[i][j] != 0 by {
      forall i, j | 0 <= i < h && 0 <= j < w && !OnFrame(i, j, h, w) && out[i][j] == 1
        ensures g[i][j] != 0
      {
        assert AllNonzero(g, h, w, i, j);
        assert At(g, h, w, i, j) != 0;
      }
    }
    out
  }

  /** Dilation is monotone: more positive input pixels never give fewer
      foreground output pixels. */
  lemma DilateMonotone(g: Grid<int>, g': Grid<int>, w: nat, h: nat)
    requires Covers(g, h, w) && Covers(g', h, w)
    requires forall i, j :: 0 <= i < h && 0 <= j < w && g[i][j] > 0 ==> g'[i][j] > 0
    ensures forall i, j :: 0 <= i < h && 0 <= j < w ==> Dilate(g, w, h)[i][j] <= Dilate(g', w, h)[i][j]
  {
    var out, out' := Dilate(g, w, h), Dilate(g', w, h);
    forall i, j | 0 <= i < h && 0 <= j < w
      ensures out[i][j] <= out'[i][j]
    {
      if out[i][j] == 1 {
        var x, y :| i - 1 <= x <= i + 1 && j - 1 <= y <= j + 1 && At(g, h, w, x, y) > 0;
        assert At(g', h, w, x, y) > 0;
      }
    }
  }

  /** Erosion is monotone: more nonzero input pixels never give fewer
      foreground output pixels. */
  lemma ErodeMonotone(g: Grid<int>, g': Grid<int>, w: nat, h: nat)
    requires Covers(g, h, w) && Covers(g', h, w)
    requires forall i, j :: 0 <= i < h && 0 <= j < w && g[i][j] != 0 ==> g'[i][j] != 0
    ensures forall i, j :: 0 <= i < h && 0 <= j < w ==> Erode(g, w, h)[i][j] <= Erode(g', w, h)[i][j]
  {
    var out, out' := Erode(g, w, h), Erode(g', w, h);
    forall i, j | 0 <= i < h && 0 <= j < w
      ensures out[i][j] <= out'[i][j]
    {
      if out[i][j] == 1 {
        assert AllNonzero(g, h, w, i, j);
        forall x, y | i - 1 <= x <= i + 1 && j - 1 <= y <= j + 1
          ensures At(g', h, w, x, y) != 0
        {
          assert At(g, h, w, x, y) != 0;
        }
      }
    }
  }

  /** `n` dilations in a row; the result keeps every positive input pixel. */
  function DilateTimes(g: Grid<int>, w: nat, h: nat, n: nat): (out: Grid<int>)
    requires Covers(g, h, w)
    ensures Covers(out, h, w)
    ensures n > 0 ==> IsRect(out, h, w)
    ensures forall i, j :: 0 <= i < h && 0 <= j < w && g[i][j] > 0 ==> out[i][j] > 0
    ensures IsConstant(g, h, w, 0) ==> IsConstant(out, h, w, 0)
  {
    if n == 0 then g
    else
      var prev := DilateTimes(g, w, h, n - 1);
      var out := Dilate(prev, w, h);
      RectCovers(out, h, w);
      assert IsConstant(prev, h, w, 0) ==> IsConstant(out, h, w, 0) by {
        if IsConstant(prev, h, w, 0) {
          forall i, j | 0 <= i < h && 0 <= j < w
            ensures out[i][j] == 0
          {
            assert !AnyPositive(prev, h, w, i, j);
          }
        }
      }
      out
  }

  /** `n` erosions in a row; every nonzero output pixel was nonzero in the input. */
  function ErodeTimes(g: Grid<int>, w: nat, h: nat, n: nat): (out: Grid<int>)
    requires Covers(g, h, w)
    ensures Covers(out, h, w)
    ensures n > 0 ==> IsRect(out, h, w)
    ensures forall i, j :: 0 <= i < h && 0 <= j < w && out[i][j] != 0 ==> g[i][j] != 0
    ensures IsConstant(g, h, w, 0) ==> IsConstant(out, h, w, 0)
    ensures n > 0 ==> forall i, j :: 0 <= i < h && 0 <= j < w ==> out[i][j] == 0 || out[i][j] == 1
    ensures n > 0 ==> forall i, j :: 0 <= i < h && 0 <= j < w && OnFrame(i, j, h, w) ==> out[i][j] == 0
  {
    if n == 0 then g
    else
      var prev := ErodeTimes(g, w, h, n - 1);
      var out := Erode(prev, w, h);
      RectCovers(out, h, w);
      out
  }
}
