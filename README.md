# Mandelbrot explorer: a verified model of its arithmetic core

The explorer draws the Mandelbrot set on an HTML canvas. Two trees of the repository
render it:

- The static tree (`static/js/`) works on the CPU.
- The gpu.js tree (`js/`) scores pixels, builds the histogram and colours pixels in
  gpu.js kernels.

Both keep a `MandelbrotRender` object with the logical rectangle on show (`min_x`,
`max_x`, `min_y`, `max_y`). Both map canvas pixels into that rectangle. Both zoom the
rectangle around a clicked pixel, by half when zooming in and by two when zooming out.
A frame is rendered in four steps:

1. Every pixel gets a divergence score, stored at raster index `x + y * width`. A point
   that never escapes scores exactly `MAX_ITERATIONS`. The smoothed score of a point that
   escapes on the first step can be negative: in the gpu.js tree, c = 100 scores about -0.73.
2. The scores are counted into a histogram of `Math.floor(score)` buckets.
3. The buckets below `MAX_ITERATIONS` are summed to a total.
4. Each pixel is coloured by the share of the total held by the buckets below its
   score. A palette turns that share into a colour, and the result is written as an
   RGBA quad into the frame's bytes.

The model has ten modules, one file each:

| module | what it models |
|---|---|
| `Raster` | Points, bounds, the pixel-to-point scaling, and the raster index with its bijection lemmas. |
| `Histogram` | Bucket counts over a score grid and over a sparse histogram. |
| `JsMath` | The gpu.js kernels of `js/util/math.js`: the escape loop, the histogram kernel and the total kernel. |
| `ScoreField` | The `generateView` loops and the `renderFrame` total loop. Both trees' loops compute the same result for non-negative canvas sizes: the static tree's compiled `asc` loops agree with the gpu.js tree's `<` loops there. |
| `ColorMath` | The linear blend and JavaScript's `% 1`. |
| `Hues` | The cumulative-frequency hue scan that both colour mappers run. |
| `StaticGraphics` | `setPixelData` and `interpolateColor` of `static/js/util/graphics.js`. |
| `JsGraphics` | The `scoreToColor` kernel of `js/util/graphics.js`. |
| `StaticMandelbrot` | The static tree's `MandelbrotRender` class. |
| `JsMandelbrot` | The gpu.js tree's `MandelbrotRender` class, including its cached viewport size. |

How JavaScript values are modelled:

- Coordinates, scores, hues and colour channels are `real`. The arithmetic is exact,
  not IEEE-754.
- Frame bytes are the newtype `byte`. Every write clamps the value and rounds it to
  the nearest byte, with ties going to the even byte, as a `Uint8ClampedArray` does.
- Errors the code raises are `Failure` results:
  - `new Array(-1)` for an empty raster raises a RangeError, modelled as `InvalidArrayLength`.
  - `createImageData` on an empty canvas raises, modelled as `ZeroSizeImage`.

## Model

| member | source | states |
|---|---|---|
| Raster.IndexIsRowMajor | static/js/mandelbrot.js:106 | The recursive raster index of pixel (x, y) equals `x + y * width`. |
| Raster.IndexInRange | static/js/mandelbrot.js:99-106 | Every pixel of a width x height raster has its index in `[0, width*height)`. |
| Raster.IndexInjective | static/js/mandelbrot.js:101-106 | Two pixels with the same index in a row of the given width are the same pixel. |
| Raster.IndexCovers | static/js/mandelbrot.js:101-106 | Every index below `width*height` is the index of the pixel `(i % width, i / width)`. So `x + y*width` is onto. |
| Histogram.CountInSplit | static/js/mandelbrot.js:107-108 | Counting buckets `[lo, hi)` is counting `[lo, mid)` plus counting `[mid, hi)`. |
| Histogram.CountInAll | static/js/mandelbrot.js:107-108 | When every score lies in `[lo, hi)`, the count of those buckets is the number of scores. |
| Histogram.CountInWitness | static/js/mandelbrot.js:107-108 | A positive bucket count has a score in the buckets as its witness. |
| Histogram.CountInPositive | static/js/mandelbrot.js:107-108 | A score in the buckets makes their count positive. |
| Histogram.CountInAtMostLength | static/js/mandelbrot.js:107-108 | A bucket count never exceeds the number of scores. |
| Histogram.GridCountSplit | js/util/math.js:80-93 | Counting a grid's buckets `[lo, hi)` is counting `[lo, mid)` plus counting `[mid, hi)`. |
| Histogram.GridCountAll | js/util/math.js:80-93 | When every cell lies in `[lo, hi)`, the grid count of those buckets is `width*height`. |
| Histogram.GridCountAtMostCells | js/util/math.js:80-93 | A grid count never exceeds `width*height`. |
| Histogram.GridCountPositive | js/util/math.js:80-93 | A grid count is positive exactly when some cell falls into the buckets. Both directions are stated. |
| Histogram.BucketSumCounts | static/js/mandelbrot.js:107-108 | Summing the histogram's buckets `[lo, hi)` gives the number of cells in those buckets. |
| Histogram.BucketSumMonotone | static/js/mandelbrot.js:60-63 | Summing more buckets never gives less. |
| Histogram.HistogramTotal | static/js/mandelbrot.js:97-110 | With all scores in `[0, top]`, the buckets `0..top` sum to `width*height`, and every bucket the histogram holds lies in `[0, top]`. |
| JsMath.EscapeFrom | js/util/math.js:29-34 | Searching from step n, the loop stops at a step e in `[n, MAX_ITERATIONS]`. No orbit point from n up to e escapes, and the one at e does unless e is the cap. |
| JsMath.EscapeTime | js/util/math.js:29-34 | The loop's exit count is at most `MAX_ITERATIONS`. If it is below the cap, the orbit point at exit has `x*x + y*y >= 0xF00` and no earlier one does. |
| JsMath.EscapeTimeUnique | js/util/math.js:29-34 | Any count with those exit properties is the escape time. |
| JsMath.OriginOrbit | js/util/math.js:21-35 | For `lx = ly = 0`, x and y stay 0 on every step. |
| JsMath.OriginNeverEscapes | js/util/math.js:21-35 | The origin runs the loop to the cap `MAX_ITERATIONS`. |
| JsMath.OrbitNext | js/util/math.js:30-33 | One loop round maps orbit point n to orbit point n + 1. |
| JsMath.OrbitOfTwoPlusTwoI | js/util/math.js:30-33 | The first four orbit points of c = 2 + 2i are 0, 2 + 2i, 2 + 10i and -94 + 42i. |
| JsMath.EscapeAtTwoPlusTwoI | js/util/math.js:29-34 | The loop leaves c = 2 + 2i after exactly 3 rounds. |
| JsMath.EscapeAtOneHundred | js/util/math.js:29-40 | c = 100 escapes at step 1, so its score is `2 - nu(100)`. With the log-log correction of about 2.73, that score is negative. |
| JsMath.ScoreDivergence | js/util/math.js:13-43 | The kernel samples `thread.x*x_scale + left_x`, `thread.y*y_scale + bottom_y`. It returns the sentinel `MAX_ITERATIONS` for a point that never escapes, and otherwise the smoothed `(iteration + 1) - nu` at the escape step. |
| JsMath.EscapeStep | js/util/math.js:29-34 | An orbit point that has not escaped below the cap leaves the escape time unchanged one step on. |
| JsMath.OriginScoresMax | js/util/math.js:21-43 | The origin's score is exactly the sentinel `MAX_ITERATIONS`, with no smoothing applied. |
| JsMath.ScoreOfExit | js/util/math.js:36-43 | At the loop's exit, the post-loop branch produces the point's smoothed score: the sentinel at the cap, and the smoothed count below it. |
| JsMath.ComputeHistogram | js/util/math.js:80-93 | Histogram entry b is the number of cells (i, n) with `floor(scores[i][n]) = b`, at most `width*height`. |
| JsMath.HistogramOutput | js/util/math.js:118-121 | The histogram kernel outputs exactly `MAX_ITERATIONS` entries. |
| JsMath.TotalScore | js/util/math.js:95-105 | The total kernel returns the sum of `histogram[0..MAX_ITERATIONS)`. |
| JsMath.PrefixSumMonotone | js/util/math.js:95-105 | Over non-negative entries, a longer prefix never sums to less. |
| JsMath.PrefixSumOfOutput | js/util/math.js:95-105 | Summing the first k histogram entries counts the cells whose bucket lies in `[0, k)`. |
| JsMath.TotalDropsInSetBucket | js/util/math.js:95-105 | The total counts the cells in buckets `[0, MAX_ITERATIONS)`. With all scores in `[0, MAX_ITERATIONS]`, it is `width*height` less the in-set cells. |
| ScoreField.ScoreGrid | static/js/mandelbrot.js:101-105 | The field is a width x height grid. Each cell holds the score of its pixel mapped through the scaling. |
| ScoreField.LastIndex | static/js/mandelbrot.js:99-106 | Only the last pixel of the raster is stored at index `width*height - 1`, the one index past the array's initial length. |
| ScoreField.EveryIndexWritten | static/js/mandelbrot.js:101-106 | When each pixel's index was written once, every index below `width*height` was written exactly once. |
| ScoreField.CountScore | static/js/mandelbrot.js:107-108 | The `!= null` test and the increment add the pixel's score to exactly its own bucket. |
| ScoreField.MarkWritten | static/js/mandelbrot.js:106 | Writing pixel (x, y) marks its own index and no other. |
| ScoreField.StartColumn | static/js/mandelbrot.js:101-102 | Entering a column keeps what is proved about the columns already done. |
| ScoreField.EndColumn | static/js/mandelbrot.js:101-102 | Leaving a column extends what is proved to that column. |
| ScoreField.GenerateView | static/js/mandelbrot.js:97-113 | It fails exactly for an empty raster, with the array-length error. Otherwise the scores hold exactly `width*height` entries: pixel (x, y)'s score sits at `x + y*width`, every index is written once, and the histogram counts every bucket of the field. The gpu.js tree's `generateView` (js/mandelbrot.js lines 81-101) is the same loop. |
| ScoreField.ScorePixel | static/js/mandelbrot.js:103-108 | One pass of the inner loop advances the proved state from pixel (x, y) to (x, y + 1). |
| ScoreField.PixelStep | static/js/mandelbrot.js:103-108 | The array, length, histogram and write counts after a pass satisfy the loop state one pixel on. |
| ScoreField.StoreStep | static/js/mandelbrot.js:106 | Storing pixel (x, y)'s score at `x + y*width` writes that index once more and no other. Afterwards every visited pixel, now including (x, y), holds its own score. |
| ScoreField.TotalScore | static/js/mandelbrot.js:60-63 | The truthy test skips missing and zero buckets, and the total is the sum of buckets `0..MAX_ITERATIONS-1`. The gpu.js tree's loop (js/mandelbrot.js lines 60-65) is the same. |
| ScoreField.TotalExcludesInSetBucket | static/js/mandelbrot.js:60-63 | The total counts the cells scoring below `MAX_ITERATIONS`. With all scores in `[0, MAX_ITERATIONS]`, it is `width*height - histogram[MAX_ITERATIONS]`. |
| ScoreField.ScoreBelowMaxMakesTotalPositive | static/js/mandelbrot.js:76-84 | Assume every score in the field lies in `[0, MAX_ITERATIONS]`, the static tree's assumed scorer range. Then any stored score other than the sentinel makes the total positive, so the hue division never divides by 0. |
| ScoreField.FieldTotalPositive | static/js/mandelbrot.js:53-63 | Take a view generated from a scorer whose scores lie in `[0, MAX_ITERATIONS]`. If any stored score is not the sentinel, the total of its histogram is positive. |
| ColorMath.MixEnds | static/js/util/graphics.js:16 | The blend gives the first channel at p = 0 and the second at p = 1. Blending a channel with itself gives it back. |
| ColorMath.MixBetween | static/js/util/graphics.js:16 | For p in `[0, 1]`, the blend lies between the two channels, whichever is larger. |
| ColorMath.FractionalPart | js/util/graphics.js:76 | `score % 1` lies in `[0, 1)` for a non-negative score and in `(-1, 0]` for a negative one. The truncated part plus the remainder is the score. |
| ColorMath.IntegerHasNoFraction | js/util/graphics.js:76 | An integral score has `% 1` equal to 0. |
| Hues.StepsBelow | static/js/mandelbrot.js:81 | `for (n = 0; n < score; n++)` runs k times: k is at least the score, and k - 1 lies below it. |
| Hues.LastCounted | js/util/graphics.js:42-49 | The last bucket below k that takes part: it takes part, and none after it does. |
| Hues.ScanSums | static/js/mandelbrot.js:79-86 | hue2 ends as the sum of what the counted buckets add. hue1 ends as the value hue2 had before its last increment, or 0. |
| Hues.ScanOrdered | static/js/mandelbrot.js:79-86 | When no counted bucket adds a negative amount, the scan ends with `0 <= hue1 <= hue2`. |
| Hues.NothingCountedScansZero | js/util/graphics.js:42-49 | When no bucket below k takes part, both hues end at 0. |
| StaticGraphics.ClampByte | static/js/util/graphics.js:9 | The stored byte is 0 at or below 0 and 255 at or above 255. In between, it is within 0.5 of the value. |
| StaticGraphics.ClampByteKeepsBytes | static/js/util/graphics.js:9 | A value that already is a byte is stored unchanged. |
| StaticGraphics.WithPixelQuad | static/js/util/graphics.js:6-11 | Writing a quad at a pixel inside the frame sets exactly bytes `4*index .. 4*index+3` to the stored channels and leaves every other byte unchanged. |
| StaticGraphics.SetPixelData | static/js/util/graphics.js:6-11 | `data[4*index + i]` gets channel i for each i below `rgba.length`. Writes past the ends are dropped, and every other byte is unchanged. |
| StaticGraphics.Interpolated | static/js/util/graphics.js:13-19 | The blend always has exactly 4 channels. |
| StaticGraphics.InterpolateColor | static/js/util/graphics.js:13-19 | The loop builds the 4-channel blend, channel by channel. |
| StaticGraphics.InterpolatedEnds | static/js/util/graphics.js:16 | `interpolateColor(a, b, 0) = a[0..4)`, `interpolateColor(a, b, 1) = b[0..4)`, and `interpolateColor(a, a, p) = a[0..4)`. |
| StaticGraphics.InterpolatedBetween | static/js/util/graphics.js:16 | For p in `[0, 1]`, each channel lies between the corresponding channels of the two colours. |
| JsGraphics.Palette | js/util/graphics.js:54-74 | Green is always 0. Red is 0 below the cutoff, and blue is 0 from the cutoff on. Blue, when lit, is `MAX_COLOR_VALUE*hue`. Hue 0 and the cutoff hue are both black. |
| JsGraphics.PaletteInRange | js/util/graphics.js:7-8 | For hues in `[0, 1]`, R and B lie in `[0, MAX_COLOR_VALUE]`, and the red ramp reaches `MAX_COLOR_VALUE` at hue 1. |
| JsGraphics.KernelCounted | js/util/graphics.js:45 | The scan looks at exactly k buckets: those with a positive entry take part. |
| JsGraphics.KernelAmounts | js/util/graphics.js:45-47 | There are exactly k amounts. A bucket that takes part adds `histogram[n] / totalScore`, and any other adds nothing. A non-zero total is needed only when some bucket below k takes part, because only then does the loop divide. |
| JsGraphics.ScanHues | js/util/graphics.js:42-49 | The hue loop, capped at `MAX_ITERATIONS` rounds, ends on the hue scan over the positive buckets below the score. |
| JsGraphics.HueChannels | js/util/graphics.js:54-74 | Each branch on a hue assigns the palette's channels. |
| JsGraphics.ScoreToColor | js/util/graphics.js:19-86 | A score of `MAX_ITERATIONS` gives (0, 0, 0), whatever the histogram holds. Any other score gives the blend by `score % 1` of the palettes of the two hues. Green is always 0. A zero total is accepted whenever no bucket below the score takes part. |
| JsGraphics.IntegerScoreShowsFirstHue | js/util/graphics.js:76-84 | For an integral score, the output is the first hue's palette colour, unblended. |
| JsGraphics.KernelHuesInRange | js/util/graphics.js:42-49 | With a non-negative histogram and a positive total from the total kernel, the scan ends with `0 <= hue1 <= hue2 <= 1`. hue1 is the value hue2 had before its last increment. |
| JsGraphics.CountedSumIsShare | js/util/graphics.js:42-49 | The scan's hue2 over the first k buckets is their share of the total. |
| JsGraphics.UncountedScoreIsBlack | js/util/graphics.js:42-84 | A non-sentinel score with no positive bucket below it outputs (0, 0, 0), whatever the total, even 0. |
| JsGraphics.NonPositiveScoreIsBlack | js/util/graphics.js:42-84 | A score of at most 0, such as the negative smoothed score of a point far outside the set, outputs (0, 0, 0) for any histogram and total. |
| JsGraphics.KernelTotalCoversCounted | js/util/math.js:94-105 | The total kernel's output meets the colour kernel's requirement. With non-negative entries, if any bucket below `MAX_ITERATIONS` is positive, the sum of the first `MAX_ITERATIONS` entries is positive. |
| StaticMandelbrot.ViewportSize | static/js/mandelbrot.js:130-132 | The size is never negative on either axis. For ordered bounds it is `max - min`. |
| StaticMandelbrot.PixelToPoint | static/js/mandelbrot.js:116-128 | Pixel (0, 0) maps to `(min_x, min_y)`. For ordered bounds, pixel `(canvas.width, canvas.height)` maps to `(max_x, max_y)`. |
| StaticMandelbrot.PixelToPointLinear | static/js/mandelbrot.js:116-128 | The map is linear on each axis: d pixels move the point by d times the size over the canvas size. |
| Raster.ToPointLinear | static/js/mandelbrot.js:116-128 | The scale-and-offset map is linear. Moving (dx, dy) pixels moves the point by dx and dy times the two scales. |
| StaticMandelbrot.Zoomed | static/js/mandelbrot.js:136-153 | The new rectangle is centred on `pixelToPoint(pixel)`. Its bounds are in order, and both sizes are halved when zooming in and doubled when zooming out. |
| StaticMandelbrot.ZoomInThenOutRestoresSize | static/js/mandelbrot.js:138-146 | Zooming in at one pixel and then out at any pixel restores the viewport size exactly. |
| StaticMandelbrot.ZoomCentresClickedPoint | static/js/mandelbrot.js:136-153 | After a zoom, the clicked point lies under the canvas's centre pixel. |
| StaticMandelbrot.StaticCounted | static/js/mandelbrot.js:82 | The scan looks at exactly k buckets: those the sparse histogram defines take part. |
| StaticMandelbrot.StaticAmounts | static/js/mandelbrot.js:84 | The scan looks at exactly k amounts, each `histogram[n] / totalScore`. |
| StaticMandelbrot.ScoreToColor | static/js/mandelbrot.js:75-93 | A score of `MAX_ITERATIONS` returns BLACK, whatever the histogram holds. Any other score returns the 4-channel blend by `score % 1` of the mapped colours of the two hues. |
| StaticMandelbrot.CountedSumIsBucketShare | static/js/mandelbrot.js:79-86 | The scan's hue2 over the first k buckets is their bucket sum over the total. |
| StaticMandelbrot.StaticHuesInRange | static/js/mandelbrot.js:79-86 | For a score below `MAX_ITERATIONS` and a positive total, the scan ends with `0 <= hue1 <= hue2 <= 1`. hue2 is the share held by the buckets below the score, and hue1 is its value before the last step. |
| StaticMandelbrot.MandelbrotRender.constructor | static/js/mandelbrot.js:10-24 | The renderer starts on the rectangle `[-2, 1] x [-1.3, 1.3]`. |
| StaticMandelbrot.MandelbrotRender.Zoom | static/js/mandelbrot.js:136-153 | All four bounds are replaced together with the zoomed rectangle. The canvas is unchanged. |
| StaticMandelbrot.PaintFrame | static/js/mandelbrot.js:67-69 | After the colouring loop, the four bytes of pixel i hold the clamped channels of `scoreToColor(scores[i])`, for every i. |
| StaticMandelbrot.MandelbrotRender.RenderFrame | static/js/mandelbrot.js:47-73 | An empty canvas raises. Otherwise the frame has one quad per stored score, and the view is `generateView` over `pixelToPoint`. The total is the bucket sum below `MAX_ITERATIONS`, positive wherever a pixel divides by it. Every pixel's quad holds its colour as bytes. |
| JsMandelbrot.JsPixelToPoint | js/mandelbrot.js:104-109 | As written: column 0 maps to `min_x`, and with a fresh cache and ordered bounds column `canvas.width` maps to `max_x`. Row 0 maps to `min_x`, not `min_y`. |
| JsMandelbrot.JsPixelToPointOffset | js/mandelbrot.js:104-108 | With a fresh cache, x agrees with the static tree's map, and y is off by exactly `min_x - min_y`. |
| JsMandelbrot.RowZeroSamplesOutsideInitialView | js/mandelbrot.js:107 | On the initial rectangle, row 0 samples y = -2, below the bottom bound -1.3 that the static map gives. |
| JsMandelbrot.JsZoomed | js/mandelbrot.js:113-131 | The new rectangle is centred on the as-written `pixelToPoint(pixel)`. Its extents are the cached size times the zoom factor. |
| JsMandelbrot.ZoomsDoNotCompoundWithoutRender | js/mandelbrot.js:113-131 | Two zooms in without a render leave the size at half the cached size, not a quarter. |
| JsMandelbrot.FreshCacheZoomMatchesStatic | js/mandelbrot.js:45-46 | A zoom right after a render scales the size exactly as the static tree's zoom does. |
| JsMandelbrot.MandelbrotRender.constructor | js/mandelbrot.js:11-23 | The renderer starts on the initial rectangle, with no size cached. |
| JsMandelbrot.MandelbrotRender.RenderFrame | js/mandelbrot.js:44-65 | The render caches `viewportWidth = abs(max_x - min_x)` and `viewportHeight = abs(max_y - min_y)` first. It then raises on an empty canvas. Otherwise the view is `generateView` over the as-written map, and the total is the bucket sum below `MAX_ITERATIONS`. The bounds are unchanged. |
| JsMandelbrot.MandelbrotRender.Zoom | js/mandelbrot.js:113-131 | The four bounds become the zoomed rectangle computed from the cached size. The cache and the canvas are unchanged. |

Facts about the code that the model keeps:

- Raster row 0 maps to `min_y` (to `min_x` in the gpu.js tree).
- The hue loop `n < score` runs `ceil(score)` rounds. hue1 ends as the value hue2 had before the last bucket that takes part.
- Both totals skip bucket `MAX_ITERATIONS`.
- The score array starts one entry short and grows to `width*height` on the last write.

## Left out

- Both `main.js` files are not part of this model. They are page bootstrapping.
- `render`, `onClick`, `getMouseCoord` and the canvas calls are left out. These are window-size canvas resizing, event handling, DOM geometry, and `getContext`, `fillText` and `putImageData`. The canvas size is a field the page sets.
- `_.defer`, `setTimeout` and the `rendering`/`rendered` events are left out. They are UI scheduling.
- The gpu.js plumbing is left out: `mathKernelFactory`, `outputKernelFactory`, `createKernel`, `setOutput` and `setGraphical`. `this.thread` indices are parameters, and `this.color` is a returned triple, the last call winning.
- The `DEBUG` branch of `scoreDivergence` is left out. It draws debugging colours, and `DEBUG` is false.
- JsMath.ScoreDivergence: the smoothing `log(log(zn)/log 2)/log 2` is the parameter `nu`, because Dafny has no logarithms. Its value is unconstrained. The gpu.js scores are not bounded by `[0, MAX_ITERATIONS]` in this model, and they do go below 0: for c = 100 the escape happens at step 1 and the score is about -0.73.
- The static tree's `math.scoreDivergence` is not part of this model, because `static/js/util/math.js` is absent. It is a scorer parameter assumed to return a real in `[0, MAX_ITERATIONS]`. That range is assumed for the static tree only.
- The static tree's `math.MAX_ITERATIONS` comes from `static/js/util/math.js`, which is absent. The model uses the gpu.js tree's value, 1000 (js/util/math.js), for both trees.
- The static tree's `graphics.BLACK` and `graphics.mapColor` are parameters. `static/js/util/graphics.js` defines neither, so as written those calls would fail.
- The gpu.js tree's `math.scoreDivergence`, `graphics.scoreToColor` and `graphics.setPixelData` are not exported by their modules. Because of that, JsMandelbrot.MandelbrotRender.RenderFrame takes the scorer as a parameter and stops before the colouring loop. It returns the view and the total that loop would read.
- IEEE-754 behaviour is left out: rounding, NaN and Infinity. Values are exact reals, and a byte written from NaN is not modelled.
- StaticMandelbrot.PixelToPoint and StaticMandelbrot.MandelbrotRender.Zoom require a non-empty canvas. With an empty one, `pixelToPoint` divides by zero, which is IEEE behaviour.
- JsMandelbrot.MandelbrotRender.Zoom requires a non-empty canvas and a cached size. Before the first render the cache is undefined and the arithmetic yields NaN.
- StaticMandelbrot.ScoreToColor requires a non-zero total for scores other than the sentinel, because dividing by a zero total is IEEE behaviour. Under the static tree's assumed scorer range, ScoreField.FieldTotalPositive shows that a rendered frame always meets this.
- JsGraphics.ScoreToColor requires a non-zero total only when a bucket below the score takes part, because that is when the kernel divides. JsGraphics.KernelTotalCoversCounted shows that the total kernel's output always meets this.
- StaticMandelbrot.MandelbrotRender.RenderFrame requires BLACK to have 4 channels and `mapColor` to return at least 4. These are the shapes `setPixelData` and `interpolateColor` read.
- JsGraphics.ScoreToColor: histogram entries and the total are integers, as the counting kernels produce them, not the floats gpu.js stores in textures.
- JsGraphics.ScanHues assumes gpu.js ends the hue loop after `loopMaxIterations` = `MAX_ITERATIONS` rounds (js/util/graphics.js:91).
- Arrays longer than 2^32 - 1, which raise a RangeError in JavaScript, are not modelled.

## Findings

| source | as written | input that shows it | evidently intended | confidence | as-written member | corrected member |
|---|---|---|---|---|---|---|
| js/mandelbrot.js:107 | `pixel[1] * (viewportHeight / canvas.height) + this.min_x` | On the initial rectangle, pixel row 0 samples y = -2. That is below the bottom bound -1.3, so the image is shifted down by `min_y - min_x` = 0.7. | Offset y by `min_y`, as the static tree does, so row 0 maps to `min_y`. | not executed | JsMandelbrot.RowZeroSamplesOutsideInitialView | StaticMandelbrot.PixelToPoint |

The gpu.js class keeps the as-written map so that its other properties are those of the
code. The corrected map, with its corner and linearity properties proved, is the one the
static renderer uses. JsMandelbrot.JsPixelToPointOffset states the exact difference
between the two maps for every input.
