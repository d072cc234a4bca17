/** static/js/mandelbrot.js: the `MandelbrotRender` class of the static tree. It holds
    the logical rectangle on show, maps canvas pixels into it, zooms it around a
    clicked pixel, and renders a frame: it scores every pixel, sums the histogram,
    colours each pixel by its score's rank in the histogram and writes the colour
    into the frame's bytes. */
module StaticMandelbrot {
  import opened Raster
  import opened Histogram
  import opened ScoreField
  import opened Hues
  import opened ColorMath
  import opened StaticGraphics
  import JsMath

  const INIT_MAX_X: real := 1.0
  const INIT_MIN_X: real := -2.0
  const INIT_MAX_Y: real := 1.3
  const INIT_MIN_Y: real := -1.3

  const ZOOM_INCREMENT: real := 0.5

  const INIT_BOUNDS: Bounds := Bounds(INIT_MIN_X, INIT_MAX_X, INIT_MIN_Y, INIT_MAX_Y)

  // ---------------------------------------------------------------- viewport

  datatype Size = Size(width: real, height: real)

  /** `getViewportSize()`: the extent of the rectangle along each axis, never
      negative, and the plain difference of the bounds when they are in order. */
  function ViewportSize(b: Bounds): (size: Size)
    ensures size.width >= 0.0 && size.height >= 0.0
    ensures b.minX <= b.maxX ==> size.width == b.maxX - b.minX
    ensures b.maxX <= b.minX ==> size.width == b.minX - b.maxX
    ensures b.minY <= b.maxY ==> size.height == b.maxY - b.minY
    ensures b.maxY <= b.minY ==> size.height == b.minY - b.maxY
  {
    Size(Abs(b.maxX - b.minX), Abs(b.maxY - b.minY))
  }

  /** The per-axis map `pixelToPoint` applies: a pixel step is the viewport size
      over the canvas size, and pixel 0 sits on the minimum bounds. */
  function PixelScaling(b: Bounds, canvasWidth: nat, canvasHeight: nat): Scaling
    requires canvasWidth > 0 && canvasHeight > 0
  {
    var size := ViewportSize(b);
    Scaling(size.width / canvasWidth as real, size.height / canvasHeight as real, b.minX, b.minY)
  }

  /** `pixelToPoint([px, py])`: pixel (0, 0) is the corner (min_x, min_y) and, for a
      rectangle whose bounds are in order, pixel (canvas.width, canvas.height) is the
      opposite corner (max_x, max_y). The y axis is not flipped. */
  function PixelToPoint(b: Bounds, canvasWidth: nat, canvasHeight: nat, px: real, py: real): (p: Point)
    requires canvasWidth > 0 && canvasHeight > 0
    ensures px == 0.0 ==> p.x == b.minX
    ensures py == 0.0 ==> p.y == b.minY
    ensures b.minX <= b.maxX && px == canvasWidth as real ==> p.x == b.maxX
    ensures b.minY <= b.maxY && py == canvasHeight as real ==> p.y == b.maxY
  {
    ToPoint(PixelScaling(b, canvasWidth, canvasHeight), px, py)
  }

  /** The map is linear on each axis: moving d pixels moves the point by d times
      the viewport size over the canvas size. */
  lemma PixelToPointLinear(b: Bounds, canvasWidth: nat, canvasHeight: nat, px: real, py: real, dx: real, dy: real)
    requires canvasWidth > 0 && canvasHeight > 0
    ensures PixelToPoint(b, canvasWidth, canvasHeight, px + dx, py + dy).x
            == PixelToPoint(b, canvasWidth, canvasHeight, px, py).x + dx * (ViewportSize(b).width / canvasWidth as real)
    ensures PixelToPoint(b, canvasWidth, canvasHeight, px + dx, py + dy).y
            == PixelToPoint(b, canvasWidth, canvasHeight, px, py).y + dy * (ViewportSize(b).height / canvasHeight as real)
  {
    ToPointLinear(PixelScaling(b, canvasWidth, canvasHeight), px, py, dx, dy);
  }

  /** The factor `zoom` scales the viewport size by: ZOOM_INCREMENT in, its inverse out. */
  function ZoomFactor(out: bool): real
  {
    if out then 1.0 / ZOOM_INCREMENT else ZOOM_INCREMENT
  }

  /** The rectangle `zoom(pixel, out)` leaves: centred on the point under the clicked
      pixel, with the old viewport size scaled by the zoom factor on both axes, and
      its bounds in order. */
  function Zoomed(b: Bounds, canvasWidth: nat, canvasHeight: nat, px: real, py: real, out: bool): (z: Bounds)
    requires canvasWidth > 0 && canvasHeight > 0
    ensures var p := PixelToPoint(b, canvasWidth, canvasHeight, px, py);
            (z.minX + z.maxX) / 2.0 == p.x && (z.minY + z.maxY) / 2.0 == p.y
    ensures z.minX <= z.maxX && z.minY <= z.maxY
    ensures ViewportSize(z) == Size(ViewportSize(b).width * ZoomFactor(out), ViewportSize(b).height * ZoomFactor(out))
  {
    var p := PixelToPoint(b, canvasWidth, canvasHeight, px, py);
    var size := ViewportSize(b);
    var width := size.width * ZoomFactor(out);
    var height := size.height * ZoomFactor(out);
    Bounds(p.x - width / 2.0, p.x + width / 2.0, p.y - height / 2.0, p.y + height / 2.0)
  }

  /** Zooming in at one pixel and then out at any pixel restores the viewport size:
      the first halves both extents and the second doubles them. */
  lemma ZoomInThenOutRestoresSize(b: Bounds, canvasWidth: nat, canvasHeight: nat,
                                  px: real, py: real, qx: real, qy: real)
    requires canvasWidth > 0 && canvasHeight > 0
    ensures var z := Zoomed(b, canvasWidth, canvasHeight, px, py, false);
            ViewportSize(Zoomed(z, canvasWidth, canvasHeight, qx, qy, true)) == ViewportSize(b)
  {
    var z := Zoomed(b, canvasWidth, canvasHeight, px, py, false);
    var size := ViewportSize(b);
    assert ViewportSize(Zoomed(z, canvasWidth, canvasHeight, qx, qy, true))
           == Size(size.width * ZOOM_INCREMENT * (1.0 / ZOOM_INCREMENT), size.height * ZOOM_INCREMENT * (1.0 / ZOOM_INCREMENT));
  }

  /** After a zoom the point that was clicked lies under the centre pixel of the canvas. */
  lemma ZoomCentresClickedPoint(b: Bounds, canvasWidth: nat, canvasHeight: nat, px: real, py: real, out: bool)
    requires canvasWidth > 0 && canvasHeight > 0
    ensures var z := Zoomed(b, canvasWidth, canvasHeight, px, py, out);
            PixelToPoint(z, canvasWidth, canvasHeight, canvasWidth as real / 2.0, canvasHeight as real / 2.0)
            == PixelToPoint(b, canvasWidth, canvasHeight, px, py)
  {
    var z := Zoomed(b, canvasWidth, canvasHeight, px, py, out);
    var p := PixelToPoint(b, canvasWidth, canvasHeight, px, py);
    var size := ViewportSize(z);
    var w := canvasWidth as real;
    var h := canvasHeight as real;
    assert w / 2.0 * (size.width / w) == size.width / 2.0;
    assert h / 2.0 * (size.height / h) == size.height / 2.0;
    assert z.minX == p.x - size.width / 2.0;
    assert z.minY == p.y - size.height / 2.0;
  }

  // ---------------------------------------------------------------- colouring

  /** Which buckets take part in the static hue scan: those the sparse histogram
      defines (`histogram[n] != null`). */
  function StaticCounted(histogram: map<int, nat>, k: nat): (counted: seq<bool>)
    ensures |counted| == k
  {
    seq(k, n requires 0 <= n => n in histogram)
  }

  /** What each bucket adds to the hue: `histogram[n] / totalScore`. */
  function StaticAmounts(histogram: map<int, nat>, totalScore: nat, k: nat): (amount: seq<real>)
    requires totalScore != 0
    ensures |amount| == k
  {
    seq(k, n requires 0 <= n => if n in histogram then histogram[n] as real / totalScore as real else 0.0)
  }

  /** The colour `scoreToColor` returns: BLACK for the in-set sentinel, otherwise the
      blend by `score % 1` of the palette colours of the hues the scan ends on. */
  function ColorFor(score: real, histogram: map<int, nat>, totalScore: nat,
                    black: seq<real>, mapColor: real -> seq<real>): seq<real>
    requires score != JsMath.MAX_ITERATIONS as real ==> totalScore != 0
    requires forall hue :: |mapColor(hue)| >= RGBA_LENGTH
  {
    if score == JsMath.MAX_ITERATIONS as real then black
    else
      var k := StepsBelow(score);
      var hues := Scan(StaticCounted(histogram, k), StaticAmounts(histogram, totalScore, k), k);
      Interpolated(mapColor(hues.hue1), mapColor(hues.hue2), FractionalPart(score))
  }

  /** `scoreToColor(score, histogram, totalScore)`. `graphics.BLACK` and
      `graphics.mapColor` are parameters: the static graphics module defines neither. */
  method ScoreToColor(score: real, histogram: map<int, nat>, totalScore: nat,
                      black: seq<real>, mapColor: real -> seq<real>)
    returns (rgba: seq<real>)
    requires score != JsMath.MAX_ITERATIONS as real ==> totalScore != 0
    requires forall hue :: |mapColor(hue)| >= RGBA_LENGTH
    ensures rgba == ColorFor(score, histogram, totalScore, black, mapColor)
    ensures score == JsMath.MAX_ITERATIONS as real ==> rgba == black
    ensures score != JsMath.MAX_ITERATIONS as real ==> |rgba| == RGBA_LENGTH
  {
    if score == JsMath.MAX_ITERATIONS as real {
      return black;
    } else {
      ghost var k := StepsBelow(score);
      ghost var counted := StaticCounted(histogram, k);
      ghost var amount := StaticAmounts(histogram, totalScore, k);
      var hue1 := 0.0;
      var hue2 := 0.0;
      var n := 0;
      while (n as real) < score
        invariant n <= k
        invariant HuePair(hue1, hue2) == Scan(counted, amount, n)
        decreases k - n
      {
        if n in histogram {
          hue1 := hue2;
          hue2 := hue2 + histogram[n] as real / totalScore as real;
        }
        n := n + 1;
      }

      var color1 := mapColor(hue1);
      var color2 := mapColor(hue2);

      rgba := InterpolateColor(color1, color2, FractionalPart(score));
    }
  }

  /** The scan's sum over buckets below k is their share of the total. */
  lemma {:induction false} CountedSumIsBucketShare(histogram: map<int, nat>, totalScore: nat, k: nat)
    requires totalScore != 0
    ensures CountedSum(StaticCounted(histogram, k), StaticAmounts(histogram, totalScore, k), k)
            == BucketSum(histogram, 0, k) as real / totalScore as real
  {
    if k > 0 {
      var counted, amount := StaticCounted(histogram, k), StaticAmounts(histogram, totalScore, k);
      var t := totalScore as real;
      CountedSumIsBucketShare(histogram, totalScore, k - 1);
      CountedSumPrefix(counted, amount, StaticCounted(histogram, k - 1), StaticAmounts(histogram, totalScore, k - 1), k - 1);
      var before := BucketSum(histogram, 0, k - 1) as real;
      var last := Tally(histogram, k - 1) as real;
      assert (if counted[k - 1] then amount[k - 1] else 0.0) == last / t;
      assert BucketSum(histogram, 0, k) as real == before + last;
      DivideSum(before, last, t);
    }
  }

  /** For a score below MAX_ITERATIONS and the positive total `renderFrame` computes,
      the scan ends with 0 <= hue1 <= hue2 <= 1: hue2 is the share of the total held by
      the buckets below the score, and hue1 the value hue2 had before its last step. */
  lemma StaticHuesInRange(score: real, histogram: map<int, nat>, totalScore: nat)
    requires score < JsMath.MAX_ITERATIONS as real
    requires totalScore == BucketSum(histogram, 0, JsMath.MAX_ITERATIONS) && totalScore > 0
    ensures var k := StepsBelow(score);
            var counted := StaticCounted(histogram, k);
            var amount := StaticAmounts(histogram, totalScore, k);
            var hues := Scan(counted, amount, k);
            && 0.0 <= hues.hue1 <= hues.hue2 <= 1.0
            && hues.hue2 == BucketSum(histogram, 0, k) as real / totalScore as real
            && var j := LastCounted(counted, k);
               hues.hue1 == if j == 0 then 0.0 else CountedSum(counted, amount, j - 1)
  {
    var k := StepsBelow(score);
    var counted := StaticCounted(histogram, k);
    var amount := StaticAmounts(histogram, totalScore, k);
    forall n | 0 <= n < k && counted[n]
      ensures amount[n] >= 0.0
    {
      assert amount[n] == histogram[n] as real / totalScore as real;
    }
    ScanOrdered(counted, amount, k);
    ScanSums(counted, amount, k);
    CountedSumIsBucketShare(histogram, totalScore, k);
    assert k <= JsMath.MAX_ITERATIONS;
    BucketSumMonotone(histogram, 0, k, JsMath.MAX_ITERATIONS);
    ShareAtMostOne(BucketSum(histogram, 0, k), totalScore);
  }

  /** The colouring loop of `renderFrame`: pixel i's colour goes to its quad. */
  method PaintFrame(frame: array<byte>, scores: seq<real>, histogram: map<int, nat>, totalScore: nat,
                    black: seq<real>, mapColor: real -> seq<real>)
    requires frame.Length == |scores| * RGBA_LENGTH
    requires forall i :: 0 <= i < |scores| && scores[i] != JsMath.MAX_ITERATIONS as real ==> totalScore != 0
    requires |black| == RGBA_LENGTH
    requires forall hue :: |mapColor(hue)| >= RGBA_LENGTH
    modifies frame
    ensures forall i, c :: 0 <= i < |scores| && 0 <= c < RGBA_LENGTH ==>
              frame[i * RGBA_LENGTH + c] == ClampByte(ColorFor(scores[i], histogram, totalScore, black, mapColor)[c])
  {
    var i := 0;
    while i < |scores|
      invariant i <= |scores|
      invariant forall j, c :: 0 <= j < i && 0 <= c < RGBA_LENGTH ==>
                  frame[j * RGBA_LENGTH + c] == ClampByte(ColorFor(scores[j], histogram, totalScore, black, mapColor)[c])
    {
      var color := ScoreToColor(scores[i], histogram, totalScore, black, mapColor);
      SetPixelData(frame, i, color);
      i := i + 1;
    }
  }

  // ---------------------------------------------------------------- renderer

  class MandelbrotRender {
    var minX: real
    var maxX: real
    var minY: real
    var maxY: real
    /** The canvas size in pixels, which the page sets from the window before each render. */
    var canvasWidth: nat
    var canvasHeight: nat

    function Viewport(): Bounds
      reads this
    {
      Bounds(minX, maxX, minY, maxY)
    }

    /** The constructor starts on the initial rectangle [-2, 1] x [-1.3, 1.3]. */
    constructor(canvasWidth: nat, canvasHeight: nat)
      ensures Viewport() == INIT_BOUNDS
      ensures this.canvasWidth == canvasWidth && this.canvasHeight == canvasHeight
    {
      this.maxX := INIT_MAX_X;
      this.maxY := INIT_MAX_Y;
      this.minX := INIT_MIN_X;
      this.minY := INIT_MIN_Y;
      this.canvasWidth := canvasWidth;
      this.canvasHeight := canvasHeight;
    }

    /** `zoom(pixel, out)`: replaces all four bounds together with the zoomed
        rectangle; the canvas size is left as it was. */
    method Zoom(px: real, py: real, out: bool)
      requires canvasWidth > 0 && canvasHeight > 0
      modifies this
      ensures canvasWidth == old(canvasWidth) && canvasHeight == old(canvasHeight)
      ensures Viewport() == Zoomed(old(Viewport()), canvasWidth, canvasHeight, px, py, out)
    {
      var p := PixelToPoint(Viewport(), canvasWidth, canvasHeight, px, py);
      var size := ViewportSize(Viewport());
      var width := size.width;
      var height := size.height;

      if out {
        width := width * (1.0 / ZOOM_INCREMENT);
        height := height * (1.0 / ZOOM_INCREMENT);
      } else {
        width := width * ZOOM_INCREMENT;
        height := height * ZOOM_INCREMENT;
      }

      minX := p.x - (width / 2.0);
      maxX := p.x + (width / 2.0);

      minY := p.y - (height / 2.0);
      maxY := p.y + (height / 2.0);
    }

    /** `renderFrame()` given the divergence scorer, whose scores lie in
        [0, MAX_ITERATIONS], and the two colour helpers `scoreToColor` calls. With an
        empty canvas `createImageData` raises before anything is scored. Otherwise the
        frame holds width * height RGBA quads, the view is what `generateView`
        returns for the pixels mapped by `pixelToPoint`, the total counts the buckets
        below MAX_ITERATIONS and is positive wherever a pixel needs it, and pixel i's
        quad is its score's colour, stored as bytes. */
    method RenderFrame(scorer: Point -> real, black: seq<real>, mapColor: real -> seq<real>)
      returns (r: Result<array<byte>>, ghost view: View, ghost totalScore: nat)
      requires forall p :: 0.0 <= scorer(p) <= JsMath.MAX_ITERATIONS as real
      requires |black| == RGBA_LENGTH
      requires forall hue :: |mapColor(hue)| >= RGBA_LENGTH
      ensures r.Failure? <==> canvasWidth == 0 || canvasHeight == 0
      ensures r.Failure? ==> r.error == ZeroSizeImage
      ensures r.Success? ==>
                && fresh(r.value)
                && IsViewOf(view, ScoreGrid(canvasWidth, canvasHeight, PixelScaling(Viewport(), canvasWidth, canvasHeight), scorer),
                            canvasWidth, canvasHeight)
                && totalScore == BucketSum(view.histogram, 0, JsMath.MAX_ITERATIONS)
                && r.value.Length == |view.scores| * RGBA_LENGTH
                && (forall i :: 0 <= i < |view.scores| && view.scores[i] != JsMath.MAX_ITERATIONS as real ==> totalScore != 0)
                && forall i, c :: 0 <= i < |view.scores| && 0 <= c < RGBA_LENGTH ==>
                     r.value[i * RGBA_LENGTH + c]
                     == ClampByte(ColorFor(view.scores[i], view.histogram, totalScore, black, mapColor)[c])
    {
      if canvasWidth == 0 || canvasHeight == 0 {
        return Failure(ZeroSizeImage), View(map[], []), 0;
      }
      var width, height := canvasWidth, canvasHeight;
      MulMonotone(0, height, width);
      var frame := new byte[width * height * RGBA_LENGTH];

      ghost var writes;
      var generated;
      generated, writes := GenerateView(width, height, PixelScaling(Viewport(), width, height), scorer);
      var histogram, scores := generated.value.histogram, generated.value.scores;
      view := generated.value;

      var total := TotalScore(histogram);
      totalScore := total;
      FieldTotalPositive(view, width, height, PixelScaling(Viewport(), width, height), scorer);

      PaintFrame(frame, scores, histogram, total, black, mapColor);
      r := Success(frame);
    }
  }
}
