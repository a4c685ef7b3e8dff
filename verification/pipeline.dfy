/** The stage sequence of the detector's `main`: greyscale, texture map,
    normalise, threshold at 150, four dilations, three erosions. */
module Pipeline {
  import opened Grids
  import opened ChannelSplit
  import opened Greyscale
  import opened Texture
  import opened Normalizer
  import opened Binarizer
  import opened Morphology

  const Threshold: int := 150
  const Dilations: nat := 4
  const Erosions: nat := 3

  /** The stages after the normaliser: binarise, then merge and clean blobs. */
  function Binarize(scaled: Grid<int>, w: nat, h: nat): (out: Grid<int>)
    requires IsRect(scaled, h, w)
    ensures IsRect(out, h, w)
    ensures forall i, j :: 0 <= i < h && 0 <= j < w ==> out[i][j] == 0 || out[i][j] == 1
    ensures forall i, j :: 0 <= i < h && 0 <= j < w && OnFrame(i, j, h, w) ==> out[i][j] == 0
    ensures IsConstant(scaled, h, w, 0) ==> IsConstant(out, h, w, 0)
  {
    RectCovers(scaled, h, w);
    var bin := ThresholdGE(scaled, Threshold, w, h);
    RectCovers(bin, h, w);
    var out := ErodeTimes(DilateTimes(bin, w, h, Dilations), w, h, Erosions);
    assert IsConstant(scaled, h, w, 0) ==> IsConstant(bin, h, w, 0);
    out
  }

  /** `main`'s stage sequence exactly as written, from the three colour
      grids. The normaliser reads the first texture pixel, so the image must
      have at least one. Because the normaliser as written always returns
      zeros, the pipeline finds no foreground in any image. */
  function DetectAsWritten(sqrt: real -> real, pr: Grid<int>, pg: Grid<int>, pb: Grid<int>, w: nat, h: nat): (r: Outcome)
    requires RootLike(sqrt)
    requires w > 0 && h > 0
    requires Covers(pr, h, w) && Covers(pg, h, w) && Covers(pb, h, w)
    ensures r == Done(Filled(h, w, 0))
  {
    var grey := ToGreyscale(pr, pg, pb, w, h);
    RectCovers(grey, h, w);
    var texture := StdDevImage(sqrt, grey, w, h);
    match ScaleAsWritten(texture, w, h)
    case RaisesTypeError => RaisesTypeError
    case Done(scaled) =>
      var out := Binarize(scaled, w, h);
      ConstantIsFilled(out, h, w, 0);
      Done(out)
  }

  /** `main` from the decoded PNG rows: split the channels, then run the
      stages as written. */
  method RunAsWritten(sqrt: real -> real, rows: seq<seq<int>>, w: nat, h: nat) returns (r: Outcome)
    requires RootLike(sqrt)
    requires w > 0 && h > 0
    requires h <= |rows| && forall i :: 0 <= i < h ==> 3 * w <= |rows[i]|
    ensures r == Done(Filled(h, w, 0))
  {
    var pr, pg, pb := SplitChannels(rows);
    r := DetectAsWritten(sqrt, pr, pg, pb, w, h);
  }

  /** The same stage sequence with the normaliser as evidently intended. */
  function Detect(sqrt: real -> real, pr: Grid<int>, pg: Grid<int>, pb: Grid<int>, w: nat, h: nat): (out: Grid<int>)
    requires RootLike(sqrt)
    requires w > 0 && h > 0
    requires Covers(pr, h, w) && Covers(pg, h, w) && Covers(pb, h, w)
    ensures IsRect(out, h, w)
    ensures forall i, j :: 0 <= i < h && 0 <= j < w ==> out[i][j] == 0 || out[i][j] == 1
    ensures forall i, j :: 0 <= i < h && 0 <= j < w && OnFrame(i, j, h, w) ==> out[i][j] == 0
  {
    var grey := ToGreyscale(pr, pg, pb, w, h);
    RectCovers(grey, h, w);
    var texture := StdDevImage(sqrt, grey, w, h);
    RectCovers(texture, h, w);
    Binarize(ScaleTo0And255(texture, w, h), w, h)
  }

  /** An image of one flat colour has no texture, so even the intended
      pipeline finds no foreground in it. */
  lemma FlatImageFindsNothing(sqrt: real -> real, pr: Grid<int>, pg: Grid<int>, pb: Grid<int>, w: nat, h: nat,
                              vr: int, vg: int, vb: int)
    requires RootLike(sqrt)
    requires w > 0 && h > 0
    requires IsConstant(pr, h, w, vr) && IsConstant(pg, h, w, vg) && IsConstant(pb, h, w, vb)
    ensures Detect(sqrt, pr, pg, pb, w, h) == Filled(h, w, 0)
  {
    var grey := ToGreyscale(pr, pg, pb, w, h);
    assert IsConstant(grey, h, w, GreyPixel(vr, vg, vb));
    RectCovers(grey, h, w);
    var texture := StdDevImage(sqrt, grey, w, h);
    FlatImageHasNoTexture(sqrt, grey, w, h, GreyPixel(vr, vg, vb));
    RectCovers(texture, h, w);
    var (lo, hi) := MinAndMax(texture);
    assert lo == 0.0 && hi == 0.0;
    var scaled := ScaleTo0And255(texture, w, h);
    var out := Detect(sqrt, pr, pg, pb, w, h);
    assert out == Binarize(scaled, w, h);
    ConstantIsFilled(out, h, w, 0);
  }
}
