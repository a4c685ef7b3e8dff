# License-plate detector: grid pipeline in Dafny

This project models the image-processing pipeline of `CS373LicensePlateDetection.py`. That file is a classical license-plate detector. It reads a PNG, splits it into red, green and blue pixel grids, and then runs a fixed sequence of stages. Each stage returns a new grid:

1. colour to greyscale (`computeRGBToGreyscale`);
2. a texture map: the population standard deviation of nine samples, taken from a sparse 5x5 window around each interior pixel (`computeStandardDeviationImage5x5` and `standard`);
3. a contrast stretch to 0..255 (`computeMinAndMaxValues` and `scaleTo0And255AndQuantize`);
4. a threshold at 150 (`computeThresholdGE`);
5. four binary dilations and three binary erosions, each with a flat 3x3 structuring element (`computeDilation8Nbh3x3FlatSE` and `computeErosion8Nbh3x3FlatSE`).

Grids are `seq<seq<T>>`, indexed `g[row][col]`. The width and height are passed explicitly, as in the source. A stage asks of its input only what its loops read (`Grids.Covers`: every index inside the `h`-by-`w` box exists). It promises an exactly `h`-by-`w` output (`Grids.IsRect`). Python's `round` is modelled as round-half-to-even on exact reals (`Rounding.Round`). The square root in `standard` is a parameter `sqrt`. The model assumes only that it maps 0 to 0 and positive numbers to positive numbers (`Texture.RootLike`).

Modules follow the stages: `Grids`, `Rounding`, `RealArith` (square and product facts, kept apart so that the solver sees only the arithmetic), `ChannelSplit`, `Greyscale`, `Texture`, `Normalizer`, `Binarizer`, `Morphology` and `Pipeline`.

Notes on how the code behaves, which the model follows:

- **Normalizer.** The function's name and its rescale branch at lines 126-129 show that a min-to-0, max-to-255 stretch was intended. The code binds `max_max` and `min_min` to the same `(min, max)` pair, so it always returns zeros (see Findings).
- **Image size.** The code checks neither the image size nor that the three channel grids have the same size. Its loops run zero times on small images, and it fails only where it indexes past the end.
- **Erosion frame.** Unlike the dilation at lines 140-141, the erosion never computes its one-pixel frame and leaves it at 0, which zero padding would also give. `Morphology.Erode` states the code's form.

## Model

| member | source | states |
|---|---|---|
| Grids.Filled | CS373LicensePlateDetection.py:53-56 | the fresh grid has exactly `h` rows of `w` cells, each holding the initial value |
| Grids.ConstantIsFilled | CS373LicensePlateDetection.py:53-56 | any `h`-by-`w` grid holding one value everywhere equals the freshly initialised grid of that value |
| ChannelSplit.SplitRow | CS373LicensePlateDetection.py:27-43 | the per-row loop, with its running `r`, `g`, `b` variables, yields exactly the red, green and blue entries of the complete triplets: entry `m` of the red row is `row[3m]`, green is `row[3m+1]`, blue is `row[3m+2]`, and there are `len(row) / 3` of each (integer division) |
| ChannelSplit.SplitChannels | CS373LicensePlateDetection.py:22-47 | one output row per input row in each of the three grids, and each output row is the de-interleaved channel of its input row |
| ChannelSplit.SplitOfInterleave | CS373LicensePlateDetection.py:33-43 | splitting an interleaved row gives back the three channels it was built from |
| ChannelSplit.InterleaveOfSplit | CS373LicensePlateDetection.py:33-43 | re-interleaving the split channels gives back the row up to its last complete triplet, so only a trailing partial triplet is lost |
| Rounding.Round | CS373LicensePlateDetection.py:64 | Python `round`: the result is within 1/2 of the value, and on an exact tie it is even |
| Rounding.RoundUnique | CS373LicensePlateDetection.py:64 | the nearest-and-even-on-ties conditions determine the rounded integer uniquely |
| Rounding.RoundMonotone | CS373LicensePlateDetection.py:64 | rounding preserves order |
| Greyscale.GreyPixel | CS373LicensePlateDetection.py:64 | an equal R, G and B value `v` converts to `v`; inputs in 0..255 give an output in 0..255; the output is within 1/2 of 0.299R + 0.587G + 0.114B |
| Greyscale.GreyPixelMonotone | CS373LicensePlateDetection.py:64 | raising any channel never lowers the grey value (the weights are nonnegative) |
| Greyscale.ToGreyscale | CS373LicensePlateDetection.py:59-66 | the output is `h`-by-`w` and converts pixel by pixel; grey pixels are kept; 8-bit channels give 8-bit grey |
| Greyscale.GreyImageIsFixed | CS373LicensePlateDetection.py:59-66 | converting an image whose three channels are the same grid returns that grid |
| Texture.SquaredDeviationsNonnegative | CS373LicensePlateDetection.py:86-89 | the accumulated sum of squared deviations is never negative |
| Texture.SquaredDeviationsZero | CS373LicensePlateDetection.py:86-89 | the squared deviations from `m` sum to zero exactly when every sample equals `m` |
| Texture.SumFlat | CS373LicensePlateDetection.py:85 | the sum of `n` copies of `c` is `n * c`, so the mean of equal samples is that sample |
| Texture.Variance | CS373LicensePlateDetection.py:84-90 | the population variance is nonnegative, and it is zero exactly when all samples are equal |
| Texture.StdDev | CS373LicensePlateDetection.py:84-90 | `standard` returns a nonnegative value, and it is zero exactly when all samples are equal |
| Texture.StdDevImage | CS373LicensePlateDetection.py:68-83 | the output is `h`-by-`w`; every pixel within two of the edge is 0; an interior value is nonnegative, and it is 0 exactly when its nine samples at offsets -2, 0 and +2 are all equal |
| Texture.StdDevImageLocal | CS373LicensePlateDetection.py:72-82 | an interior texture value depends on nothing but its nine samples |
| Texture.FlatImageHasNoTexture | CS373LicensePlateDetection.py:68-90 | a constant image gives an all-zero texture map |
| Normalizer.ScanRow | CS373LicensePlateDetection.py:111-115 | folding a row into the running (min, max) gives a pair that bounds every value of the row and of the old pair, and each bound is either the old bound or a value of the row |
| Normalizer.ScanRows | CS373LicensePlateDetection.py:110-115 | the same over all rows: the pair bounds every value, and each bound is the starting bound or occurs in the grid |
| Normalizer.MinAndMax | CS373LicensePlateDetection.py:107-116 | on a grid with a first pixel, the returned min is at most and the max at least every value of every row, and both occur in the grid |
| Normalizer.ScaleAsWritten | CS373LicensePlateDetection.py:118-124 | as written, the function never reaches the rescale branch (which would raise a TypeError): it always returns an `h`-by-`w` grid of zeros, whatever the contrast of the input |
| Normalizer.ScaleAsWrittenLosesContrast | CS373LicensePlateDetection.py:118-131 | on the two-pixel image `[[0.0, 1.0]]` the min and max differ, yet the code as written returns `[[0, 0]]`, while the intended stretch returns `[[0, 255]]` |
| Normalizer.StretchValueBounds | CS373LicensePlateDetection.py:128-129 | the unrounded stretch maps `[min, max]` monotonically into `[0, 255]`, with min to exactly 0 and max to exactly 255 |
| Normalizer.Stretch | CS373LicensePlateDetection.py:128-129 | one rescaled pixel is within 1/2 of the linear value `(x - min) * (255 / (max - min))`, lies in 0..255, and the minimum gives 0 and the maximum gives 255 |
| Normalizer.StretchMonotone | CS373LicensePlateDetection.py:128-129 | a brighter input pixel never stretches to a darker output pixel |
| Normalizer.ScaleTo0And255 | CS373LicensePlateDetection.py:118-131 | the intended normaliser: an `h`-by-`w` result in 0..255; pixels at the image minimum give 0; pixels at the maximum give 255 unless the image is constant, in which case all pixels give 0; otherwise every pixel is the rounded linear stretch of its value; the result preserves the order of pixel values |
| Binarizer.ThresholdGE | CS373LicensePlateDetection.py:92-102 | the output is `h`-by-`w`; a pixel is 255 exactly when the input is at least the threshold, and 0 exactly when it is below it |
| Binarizer.ThresholdLocal | CS373LicensePlateDetection.py:97-100 | changing one input pixel changes no output pixel other than that one |
| Binarizer.ThresholdMonotone | CS373LicensePlateDetection.py:97-100 | a pointwise brighter image thresholds to a pointwise greater-or-equal image |
| Binarizer.DarkImageThresholdsToZero | CS373LicensePlateDetection.py:92-102 | an image entirely below the threshold gives an all-zero result |
| Morphology.WindowEntry | CS373LicensePlateDetection.py:138-143 | the nine collected values are the 3x3 window in row-major order, so every window pixel appears at a known position |
| Morphology.Max | CS373LicensePlateDetection.py:144 | `max` of a non-empty list is one of its elements, and it is at least every element |
| Morphology.MaxPositiveIff | CS373LicensePlateDetection.py:137-145 | the test `max(window) > 0` holds exactly when some pixel of the zero-padded 3x3 window is positive |
| Morphology.NoZeroIff | CS373LicensePlateDetection.py:151-156 | the `all_ones` flag stays true exactly when no pixel of the 3x3 window is 0 |
| Morphology.Dilate | CS373LicensePlateDetection.py:133-146 | the output is `h`-by-`w` with values in {0, 1}; a pixel is 1 exactly when its zero-padded 3x3 window holds a positive pixel; every positive input pixel is 1 in the output (extensive) |
| Morphology.Erode | CS373LicensePlateDetection.py:147-158 | the output is `h`-by-`w` with values in {0, 1}; rows 0 and `h-1` and columns 0 and `w-1` are 0; elsewhere a pixel is 1 exactly when all nine pixels of its window are nonzero; so every output 1 sits on a nonzero input pixel (anti-extensive) |
| Morphology.DilateMonotone | CS373LicensePlateDetection.py:133-146 | dilating a grid with more positive pixels never gives fewer foreground pixels |
| Morphology.ErodeMonotone | CS373LicensePlateDetection.py:147-158 | eroding a grid with more nonzero pixels never gives fewer foreground pixels |
| Morphology.DilateTimes | CS373LicensePlateDetection.py:210-213 | repeated dilation keeps every positive input pixel positive, and it keeps an all-zero grid all zero |
| Morphology.ErodeTimes | CS373LicensePlateDetection.py:215-217 | after repeated erosion, every nonzero pixel was nonzero in the input; an all-zero grid stays all zero; after at least one erosion the result is a {0, 1} grid with a zero frame |
| Pipeline.Binarize | CS373LicensePlateDetection.py:208-217 | the threshold at 150, then four dilations, then three erosions, give an `h`-by-`w` grid with values in {0, 1} and a zero frame; an all-zero input gives an all-zero output |
| Pipeline.DetectAsWritten | CS373LicensePlateDetection.py:205-217 | for every colour image with at least one pixel, the stage sequence as written completes without the TypeError and yields the all-zero `h`-by-`w` grid |
| Pipeline.RunAsWritten | CS373LicensePlateDetection.py:191-217 | starting from the decoded interleaved rows, the channel split followed by the stage sequence as written yields the all-zero `h`-by-`w` grid |
| Pipeline.Detect | CS373LicensePlateDetection.py:205-217 | the stage sequence with the intended normaliser yields an `h`-by-`w` grid with values in {0, 1} and a zero one-pixel frame |
| Pipeline.FlatImageFindsNothing | CS373LicensePlateDetection.py:205-217 | an image of one flat colour has no texture, so even with the intended normaliser the pipeline yields the all-zero grid |

## Findings

| source | as written | input that shows it | evidently intended | confidence | as-written member | corrected member |
|---|---|---|---|---|---|---|
| CS373LicensePlateDetection.py:119-122 | `max_max` and `min_min` are both bound to the same `(min, max)` tuple from `computeMinAndMaxValues`, so `max_max == min_min` always holds and every image is returned as all zeros (the rescale at :126-129 is unreachable, and it would raise a TypeError on subtracting a tuple) | the image `[[0.0, 1.0]]`: min 0.0 differs from max 1.0, yet the output is `[[0, 0]]` | unpack `(min, max)`, send min to 0 and max to 255, and return all zeros only for a constant image | high (not executed) | Normalizer.ScaleAsWrittenLosesContrast | Normalizer.ScaleTo0And255 |

`Normalizer.ScaleAsWritten` and `Pipeline.DetectAsWritten` keep the code's behaviour, and the contract of `Pipeline.DetectAsWritten` states the consequence: the pipeline as written detects nothing in any image. `Pipeline.Detect` runs the same stages with the corrected `Normalizer.ScaleTo0And255`.

## Left out

- PNG decoding (`imageIO.png.Reader`, lines 15-17), the `print` calls and `printPixelArray` (lines 104-106) are I/O. `ChannelSplit.SplitChannels` takes the decoded rows as its input.
- `main`'s command-line and output-path handling, the matplotlib figures, the `Rectangle` overlay and `savefig` (lines 166-201 and 233-259) are user interface and file output.
- The dummy centred bounding box (lines 221-226) is float arithmetic on the image size only, unrelated to the pixel data.
- Connected-component labelling and the selection of a bounding box by aspect ratio are not part of this model. The source only mentions them in commented-out calls (lines 219 and 228) and defines neither function.
- Floating point: the weights 0.299, 0.587 and 0.114, the divisions in `standard` and in the rescale, and `** 0.5` all compute in IEEE doubles in the source. The model computes on exact reals. A result can therefore differ where a double's rounding error moves a value across a .5 boundary of `round`.
- Texture.StdDev: the square root is a parameter. The model assumes only that it maps 0 to 0 and positive numbers to positive numbers. So the contract states the sign and the zero case of the standard deviation, not its exact value.
- Texture.StdDevImage: the source leaves the integer 0 in the border and stores floats inside. The model stores the real 0.0 in the border.
- Normalizer.ScaleAsWritten: the unreachable rescale branch is modelled only as the TypeError it would raise. That branch would also overwrite the caller's grid in place. Neither can happen, because the branch is never taken.
- Normalizer.ScaleTo0And255: returns a fresh grid. It does not overwrite its input the way the source's rescale branch would.
