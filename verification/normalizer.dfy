/** The min/max scan and the contrast stretch to 0..255
    (computeMinAndMaxValues and scaleTo0And255AndQuantize). */
module Normalizer {
  import opened Grids
  import opened Rounding
  import opened RealArith

  /** `v` is one of the values of `g` (in any row, at any column). */
  ghost predicate Occurs(g: Grid<real>, v: real) {
    exists i, j :: 0 <= i < |g| && 0 <= j < |g[i]| && g[i][j] == v
  }

  /** The inner loop of the scan: fold one row into the running (min, max),
      with the two independent updates of the source. */
  function ScanRow(row: seq<real>, acc: (real, real)): (r: (real, real))
    ensures r.0 <= acc.0 && acc.1 <= r.1
    ensures forall k :: 0 <= k < |row| ==> r.0 <= row[k] <= r.1
    ensures r.0 == acc.0 || r.0 in row
    ensures r.1 == acc.1 || r.1 in row
    decreases |row|
  {
    if |row| == 0 then acc
    else
      var x := row[0];
      var lo := if x < acc.0 then x else acc.0;
      var hi := if x > acc.1 then x else acc.1;
      ScanRow(row[1..], (lo, hi))
  }

  /** The outer loop of the scan: every row, in order. */
  function ScanRows(rows: Grid<real>, acc: (real, real)): (r: (real, real))
    ensures r.0 <= acc.0 && acc.1 <= r.1
    ensures forall i, j :: 0 <= i < |rows| && 0 <= j < |rows[i]| ==> r.0 <= rows[i][j] <= r.1
    ensures r.0 == acc.0 || Occurs(rows, r.0)
    ensures r.1 == acc.1 || Occurs(rows, r.1)
    decreases |rows|
  {
    if |rows| == 0 then acc
    else
      var mid := ScanRow(rows[0], acc);
      var r := ScanRows(rows[1..], mid);
      assert forall i, j :: 1 <= i < |rows| && 0 <= j < |rows[i]| ==> rows[i][j] == rows[1..][i - 1][j];
      assert r.0 != mid.0 ==> Occurs(rows, r.0) by {
        if r.0 != mid.0 {
          var i, j :| 0 <= i < |rows[1..]| && 0 <= j < |rows[1..][i]| && rows[1..][i][j] == r.0;
          assert rows[i + 1][j] == r.0;
        }
      }
      assert r.1 != mid.1 ==> Occurs(rows, r.1) by {
        if r.1 != mid.1 {
          var i, j :| 0 <= i < |rows[1..]| && 0 <= j < |rows[1..][i]| && rows[1..][i][j] == r.1;
          assert rows[i + 1][j] == r.1;
        }
      }
      assert mid.0 != acc.0 ==> Occurs(rows, mid.0) by {
        if mid.0 != acc.0 {
          var k :| 0 <= k < |rows[0]| && rows[0][k] == mid.0;
        }
      }
      assert mid.1 != acc.1 ==> Occurs(rows, mid.1) by {
        if mid.1 != acc.1 {
          var k :| 0 <= k < |rows[0]| && rows[0][k] == mid.1;
        }
      }
      r
  }

  /** computeMinAndMaxValues: the scan starts from the first pixel, so the
      grid must have one. Returns (min, max). */
  function MinAndMax(g: Grid<real>): (r: (real, real))
    requires |g| > 0 && |g[0]| > 0
    ensures forall i, j :: 0 <= i < |g| && 0 <= j < |g[i]| ==> r.0 <= g[i][j] <= r.1
    ensures Occurs(g, r.0) && Occurs(g, r.1)
  {
    ScanRows(g, (g[0][0], g[0][0]))
  }

  /** What scaleTo0And255AndQuantize can do: return a grid, or raise the
      TypeError its rescale branch would raise on subtracting a tuple. */
  datatype Outcome = Done(grid: Grid<int>) | RaisesTypeError

  /** scaleTo0And255AndQuantize as written: both names are bound to the same
      (min, max) pair, so the "constant image" test always succeeds and every
      image, whatever its contrast, comes back as an all-zero grid. */
  function ScaleAsWritten(g: Grid<real>, w: nat, h: nat): (r: Outcome)
    requires |g| > 0 && |g[0]| > 0
    ensures r.Done? && IsRect(r.grid, h, w) && IsConstant(r.grid, h, w, 0)
  {
    var maxMax := MinAndMax(g);
    var minMin := MinAndMax(g);
    if maxMax == minMin then Done(Filled(h, w, 0))
    else RaisesTypeError
  }

  /** The exact stretched value of `x`, before rounding. */
  function StretchValue(x: real, lo: real, hi: real): real
    requires lo < hi
  {
    (x - lo) * (255.0 / (hi - lo))
  }

  lemma StretchValueBounds(x: real, x': real, lo: real, hi: real)
    requires lo <= x <= x' <= hi && lo < hi
    ensures 0.0 <= StretchValue(x, lo, hi) <= StretchValue(x', lo, hi) <= 255.0
    ensures x == lo ==> StretchValue(x, lo, hi) == 0.0
    ensures x' == hi ==> StretchValue(x', lo, hi) == 255.0
  {
    var s := 255.0 / (hi - lo);
    ScaleBounds(x - lo, x' - lo, s, StretchValue(x, lo, hi), StretchValue(x', lo, hi));
    ScaleBounds(x' - lo, hi - lo, s, StretchValue(x', lo, hi), (hi - lo) * s);
    CancelQuotient(hi - lo, 255.0, (hi - lo) * s);
  }

  /** One pixel of the intended linear stretch: `lo` to 0, `hi` to 255. */
  function Stretch(x: real, lo: real, hi: real): (v: int)
    requires lo <= x <= hi && lo < hi
    ensures 0 <= v <= 255
    ensures x == lo ==> v == 0
    ensures x == hi ==> v == 255
    ensures -0.5 <= StretchValue(x, lo, hi) - v as real <= 0.5
  {
    StretchValueBounds(x, x, lo, hi);
    RoundWithin(StretchValue(x, lo, hi), 0, 255);
    RoundOfInteger(0);
    RoundOfInteger(255);
    Round(StretchValue(x, lo, hi))
  }

  /** A brighter input pixel never stretches to a darker output pixel. */
  lemma StretchMonotone(x: real, x': real, lo: real, hi: real)
    requires lo <= x <= x' <= hi && lo < hi
    ensures Stretch(x, lo, hi) <= Stretch(x', lo, hi)
  {
    StretchValueBounds(x, x', lo, hi);
    RoundMonotone(StretchValue(x, lo, hi), StretchValue(x', lo, hi));
  }

  /** The normaliser as evidently intended: the darkest pixel of the image
      maps to 0 and the brightest to 255, a constant image to all zeros. */
  function ScaleTo0And255(g: Grid<real>, w: nat, h: nat): (out: Grid<int>)
    requires |g| > 0 && |g[0]| > 0 && Covers(g, h, w)
    ensures IsRect(out, h, w)
    ensures AllWithin(out, h, w, 0, 255)
    ensures MinAndMax(g).0 == MinAndMax(g).1 ==> IsConstant(out, h, w, 0)
    ensures forall i, j :: 0 <= i < h && 0 <= j < w && g[i][j] == MinAndMax(g).0 ==> out[i][j] == 0
    ensures MinAndMax(g).0 < MinAndMax(g).1 ==>
              forall i, j :: 0 <= i < h && 0 <= j < w && g[i][j] == MinAndMax(g).1 ==> out[i][j] == 255
    ensures MinAndMax(g).0 < MinAndMax(g).1 ==>
              forall i, j :: 0 <= i < h && 0 <= j < w ==> out[i][j] == Stretch(g[i][j], MinAndMax(g).0, MinAndMax(g).1)
    ensures forall i, j, a, b :: 0 <= i < h && 0 <= j < w && 0 <= a < h && 0 <= b < w && g[i][j] <= g[a][b] ==>
              out[i][j] <= out[a][b]
  {
    var (lo, hi) := MinAndMax(g);
    if lo == hi then Filled(h, w, 0)
    else
      var out := seq(h, i requires 0 <= i < h => seq(w, j requires 0 <= j < w => Stretch(g[i][j], lo, hi)));
      assert forall i, j, a, b :: 0 <= i < h && 0 <= j < w && 0 <= a < h && 0 <= b < w && g[i][j] <= g[a][b] ==>
               out[i][j] <= out[a][b] by {
        forall i, j, a, b | 0 <= i < h && 0 <= j < w && 0 <= a < h && 0 <= b < w && g[i][j] <= g[a][b]
          ensures out[i][j] <= out[a][b]
        {
          StretchMonotone(g[i][j], g[a][b], lo, hi);
        }
      }
      out
  }

  /** The defect, on a two-pixel image with values 0 and 1: the code as
      written returns zeros, the intended stretch returns 0 and 255. */
  lemma ScaleAsWrittenLosesContrast()
    ensures MinAndMax([[0.0, 1.0]]) == (0.0, 1.0)
    ensures ScaleAsWritten([[0.0, 1.0]], 2, 1) == Done([[0, 0]])
    ensures ScaleTo0And255([[0.0, 1.0]], 2, 1) == [[0, 255]]
  {
    var g := [[0.0, 1.0]];
    var out := ScaleTo0And255(g, 2, 1);
    assert out[0][0] == 0 && out[0][1] == 255;
    assert out[0] == [0, 255];
    assert ScaleAsWritten(g, 2, 1).grid[0] == [0, 0];
  }
}
