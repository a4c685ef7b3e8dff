/** De-interleaving of decoded PNG rows `r,g,b,r,g,b,...` into one grid per
    colour channel (the loop inside readRGBImageToSeparatePixelArrays). */
module ChannelSplit {
  import opened Grids

  /** Channel `c` (0 red, 1 green, 2 blue) of one interleaved row: the `c`-th
      entry of every complete triplet; a trailing partial triplet is dropped. */
  function Channel(row: seq<int>, c: nat): (ch: seq<int>)
    requires c < 3
    ensures |ch| == |row| / 3
  {
    seq(|row| / 3, m requires 0 <= m < |row| / 3 => row[3 * m + c])
  }

  /** The inverse direction: interleave three equally long channel rows. */
  function Interleave(r: seq<int>, g: seq<int>, b: seq<int>): (row: seq<int>)
    requires |r| == |g| == |b|
    ensures |row| == 3 * |r|
  {
    seq(3 * |r|, k requires 0 <= k < 3 * |r| =>
      if k % 3 == 0 then r[k / 3] else if k % 3 == 1 then g[k / 3] else b[k / 3])
  }

  /** Splitting an interleaved row gives back the channels it was built from. */
  lemma SplitOfInterleave(r: seq<int>, g: seq<int>, b: seq<int>)
    requires |r| == |g| == |b|
    ensures Channel(Interleave(r, g, b), 0) == r
    ensures Channel(Interleave(r, g, b), 1) == g
    ensures Channel(Interleave(r, g, b), 2) == b
  {
  }

  /** Re-interleaving the split channels gives back the row up to its last
      complete triplet: exactly the trailing partial triplet is lost. */
  lemma InterleaveOfSplit(row: seq<int>)
    ensures Interleave(Channel(row, 0), Channel(row, 1), Channel(row, 2))
            == row[..3 * (|row| / 3)]
  {
  }

  /** The Python loop: walk the row keeping the latest red and green values,
      and on every third entry append the completed triplet. */
  method SplitRow(row: seq<int>) returns (pr: seq<int>, pg: seq<int>, pb: seq<int>)
    ensures pr == Channel(row, 0) && pg == Channel(row, 1) && pb == Channel(row, 2)
  {
    pr, pg, pb := [], [], [];
    var r, g, b := 0, 0, 0;
    var elem := 0;
    while elem < |row|
      invariant 0 <= elem <= |row|
      invariant pr == Channel(row[..elem], 0)
      invariant pg == Channel(row[..elem], 1)
      invariant pb == Channel(row[..elem], 2)
      invariant elem % 3 >= 1 ==> r == row[elem - elem % 3]
      invariant elem % 3 == 2 ==> g == row[elem - 1]
    {
      if elem % 3 == 0 {
        r := row[elem];
      } else if elem % 3 == 1 {
        g := row[elem];
      } else {
        b := row[elem];
        pr := pr + [r];
        pg := pg + [g];
        pb := pb + [b];
      }
      elem := elem + 1;
    }
    assert row[..elem] == row;
  }

  /** readRGBImageToSeparatePixelArrays without the PNG decoder: one output
      row per input row in each channel grid. */
  method SplitChannels(rows: seq<seq<int>>) returns (pr: Grid<int>, pg: Grid<int>, pb: Grid<int>)
    ensures |pr| == |pg| == |pb| == |rows|
    ensures forall k :: 0 <= k < |rows| ==>
              pr[k] == Channel(rows[k], 0) && pg[k] == Channel(rows[k], 1) && pb[k] == Channel(rows[k], 2)
  {
    pr, pg, pb := [], [], [];
    for k := 0 to |rows|
      invariant |pr| == |pg| == |pb| == k
      invariant forall m :: 0 <= m < k ==>
                  pr[m] == Channel(rows[m], 0) && pg[m] == Channel(rows[m], 1) && pb[m] == Channel(rows[m], 2)
    {
      var rowR, rowG, rowB := SplitRow(rows[k]);
      pr, pg, pb := pr + [rowR], pg + [rowG], pb + [rowB];
    }
  }
}
