/** The texture map: population standard deviation of a sparse 5x5 window
    (computeStandardDeviationImage5x5 and its helper `standard`). */
module Texture {
  import opened Grids
  import opened RealArith

  /** What the model assumes of the square root (`** 0.5`): the root of zero
      is zero and the root of a positive number is positive. */
  ghost predicate RootLike(sqrt: real -> real) {
    sqrt(0.0) == 0.0 && forall x :: 0.0 < x ==> 0.0 < sqrt(x)
  }

  function Sum(xs: seq<real>): real {
    if |xs| == 0 then 0.0 else xs[0] + Sum(xs[1..])
  }

  /** The sum of `(x - m)^2` over `xs`, the accumulation loop in `standard`. */
  function SquaredDeviations(xs: seq<real>, m: real): real {
    if |xs| == 0 then 0.0 else (xs[0] - m) * (xs[0] - m) + SquaredDeviations(xs[1..], m)
  }

  /** All entries of `xs` are equal. */
  predicate Flat(xs: seq<real>) {
    forall k :: 0 <= k < |xs| ==> xs[k] == xs[0]
  }

  lemma {:induction false} SquaredDeviationsNonnegative(xs: seq<real>, m: real)
    ensures SquaredDeviations(xs, m) >= 0.0
  {
    if |xs| > 0 {
      SquaredDeviationsNonnegative(xs[1..], m);
      Square(xs[0] - m, (xs[0] - m) * (xs[0] - m));
    }
  }

  lemma HeadDeviates(xs: seq<real>, m: real)
    requires |xs| > 0 && xs[0] != m
    ensures SquaredDeviations(xs, m) > 0.0
  {
    SquaredDeviationsNonnegative(xs[1..], m);
    Square(xs[0] - m, (xs[0] - m) * (xs[0] - m));
  }

  /** The squared deviations from `m` vanish exactly when every entry is `m`. */
  lemma {:induction false} SquaredDeviationsZero(xs: seq<real>, m: real)
    ensures SquaredDeviations(xs, m) == 0.0 <==> forall k :: 0 <= k < |xs| ==> xs[k] == m
  {
    if |xs| > 0 {
      SquaredDeviationsZero(xs[1..], m);
      SquaredDeviationsNonnegative(xs[1..], m);
      Square(xs[0] - m, (xs[0] - m) * (xs[0] - m));
      assert SquaredDeviations(xs, m) == (xs[0] - m) * (xs[0] - m) + SquaredDeviations(xs[1..], m);
      if forall k :: 0 <= k < |xs| ==> xs[k] == m {
        assert forall k :: 0 <= k < |xs[1..]| ==> xs[1..][k] == m by {
          forall k | 0 <= k < |xs[1..]| ensures xs[1..][k] == m {
            assert xs[1..][k] == xs[k + 1];
          }
        }
      } else {
        var k :| 0 <= k < |xs| && xs[k] != m;
        if k > 0 {
          assert xs[1..][k - 1] == xs[k];
          assert SquaredDeviations(xs[1..], m) > 0.0;
        } else {
          HeadDeviates(xs, m);
        }
      }
    }
  }

  /** The sum of `n` copies of `c` is `n * c`. */
  lemma {:induction false} SumFlat(xs: seq<real>, c: real)
    requires forall k :: 0 <= k < |xs| ==> xs[k] == c
    ensures Sum(xs) == |xs| as real * c
  {
    if |xs| > 0 {
      SumFlat(xs[1..], c);
    }
  }

  function Mean(xs: seq<real>): real
    requires |xs| > 0
  {
    Sum(xs) / |xs| as real
  }

  /** Population variance: dividing by the number of samples, not one less. */
  function Variance(xs: seq<real>): (v: real)
    requires |xs| > 0
    ensures v >= 0.0
    ensures v == 0.0 <==> Flat(xs)
  {
    var m := Mean(xs);
    SquaredDeviationsNonnegative(xs, m);
    SquaredDeviationsZero(xs, m);
    assert Flat(xs) ==> m == xs[0] by {
      if Flat(xs) {
        SumFlat(xs, xs[0]);
      }
    }
    SquaredDeviations(xs, m) / |xs| as real
  }

  /** `standard`: the population standard deviation. */
  function StdDev(sqrt: real -> real, xs: seq<real>): (s: real)
    requires RootLike(sqrt)
    requires |xs| > 0
    ensures s >= 0.0
    ensures s == 0.0 <==> Flat(xs)
  {
    sqrt(Variance(xs))
  }

  /** Pixel `(row, col)` has the 2-pixel clearance the window needs. */
  predicate Interior(row: int, col: int, h: nat, w: nat) {
    2 <= row < h - 2 && 2 <= col < w - 2
  }

  /** The nine samples of the window at `(row, col)`, in the source's order:
      the row above (two up), the row below (two down), then the centre row,
      each at columns `col - 2`, `col`, `col + 2`. */
  function Samples(g: Grid<int>, row: int, col: int, h: nat, w: nat): (xs: seq<real>)
    requires Covers(g, h, w) && Interior(row, col, h, w)
    ensures |xs| == 9
  {
    [g[row - 2][col - 2] as real, g[row - 2][col] as real, g[row - 2][col + 2] as real,
     g[row + 2][col - 2] as real, g[row + 2][col] as real, g[row + 2][col + 2] as real,
     g[row][col - 2] as real, g[row][col] as real, g[row][col + 2] as real]
  }

  /** computeStandardDeviationImage5x5: a 2-pixel border of zeros around the
      standard deviations of the interior windows. The source reads its input
      only when the image is at least 5 by 5. */
  function StdDevImage(sqrt: real -> real, g: Grid<int>, w: nat, h: nat): (out: Grid<real>)
    requires RootLike(sqrt)
    requires h >= 5 && w >= 5 ==> Covers(g, h, w)
    ensures IsRect(out, h, w)
    ensures forall row, col :: 0 <= row < h && 0 <= col < w && !Interior(row, col, h, w) ==>
              out[row][col] == 0.0
    ensures forall row, col :: 0 <= row < h && 0 <= col < w && Interior(row, col, h, w) ==>
              out[row][col] >= 0.0 && (out[row][col] == 0.0 <==> Flat(Samples(g, row, col, h, w)))
  {
    seq(h, row requires 0 <= row < h =>
      seq(w, col requires 0 <= col < w =>
        if Interior(row, col, h, w) then StdDev(sqrt, Samples(g, row, col, h, w)) else 0.0))
  }

  /** An interior texture value depends on nothing but its nine samples. */
  lemma StdDevImageLocal(sqrt: real -> real, g: Grid<int>, g': Grid<int>, w: nat, h: nat, row: nat, col: nat)
    requires RootLike(sqrt)
    requires Covers(g, h, w) && Covers(g', h, w)
    requires Interior(row, col, h, w)
    requires Samples(g, row, col, h, w) == Samples(g', row, col, h, w)
    ensures StdDevImage(sqrt, g, w, h)[row][col] == StdDevImage(sqrt, g', w, h)[row][col]
  {
  }

  /** A flat image has no texture anywhere. */
  lemma {:induction false} FlatImageHasNoTexture(sqrt: real -> real, g: Grid<int>, w: nat, h: nat, v: int)
    requires RootLike(sqrt)
    requires IsConstant(g, h, w, v)
    ensures IsConstant(StdDevImage(sqrt, g, w, h), h, w, 0.0)
  {
    var out := StdDevImage(sqrt, g, w, h);
    forall row, col | 0 <= row < h && 0 <= col < w
      ensures out[row][col] == 0.0
    {
      if Interior(row, col, h, w) {
        var xs := Samples(g, row, col, h, w);
        assert Flat(xs);
      }
    }
  }
}
