/** js/mandelbrot.js: the `MandelbrotRender` class of the gpu.js tree. Unlike the static
    tree it caches the viewport size when a frame is rendered, and both `pixelToPoint`
    and `zoom` read that cache instead of the current bounds. Its `pixelToPoint` offsets
    the y coordinate by `min_x`, which this model keeps as written. */
module JsMandelbrot {
  import opened Raster
  import opened Histogram
  import opened ScoreField
  import StaticMandelbrot
  import JsMath

  const ZOOM_INCREMENT: real := 0.5

  /** `pixelToPoint([px, py])` as written: each axis scales by the cached viewport size
      over the canvas size, and both axes are offset by `min_x`. Pixel column 0 maps to
      min_x and, with a freshly cached width of ordered bounds, column canvas.width maps
      to max_x; pixel row 0 maps to min_x as well. */
  function JsPixelToPoint(b: Bounds, viewportWidth: real, viewportHeight: real,
                          canvasWidth: nat, canvasHeight: nat, px: real, py: real): (p: Point)
    requires canvasWidth > 0 && canvasHeight > 0
    ensures px == 0.0 ==> p.x == b.minX
    ensures py == 0.0 ==> p.y == b.minX
    ensures b.minX <= b.maxX && viewportWidth == b.maxX - b.minX && px == canvasWidth as real ==> p.x == b.maxX
    ensures py == canvasHeight as real ==> p.y == b.minX + viewportHeight
  {
    ToPoint(JsPixelScaling(b, viewportWidth, viewportHeight, canvasWidth, canvasHeight), px, py)
  }

  function JsPixelScaling(b: Bounds, viewportWidth: real, viewportHeight: real,
                          canvasWidth: nat, canvasHeight: nat): Scaling
    requires canvasWidth > 0 && canvasHeight > 0
  {
    Scaling(viewportWidth / canvasWidth as real, viewportHeight / canvasHeight as real, b.minX, b.minX)
  }

  /** With a fresh cache the x coordinate agrees with the static tree's `pixelToPoint`,
      and the y coordinate is off by exactly min_x - min_y. */
  lemma JsPixelToPointOffset(b: Bounds, canvasWidth: nat, canvasHeight: nat, px: real, py: real)
    requires canvasWidth > 0 && canvasHeight > 0
    ensures var size := StaticMandelbrot.ViewportSize(b);
            var p := JsPixelToPoint(b, size.width, size.height, canvasWidth, canvasHeight, px, py);
            var q := StaticMandelbrot.PixelToPoint(b, canvasWidth, canvasHeight, px, py);
            p.x == q.x && p.y == q.y + (b.minX - b.minY)
  {
  }

  /** On the initial rectangle the top pixel row samples y = -2, below the bottom
      bound -1.3, where the static tree's `pixelToPoint` samples y = -1.3. */
  lemma RowZeroSamplesOutsideInitialView(canvasWidth: nat, canvasHeight: nat, px: real)
    requires canvasWidth > 0 && canvasHeight > 0
    ensures var b := StaticMandelbrot.INIT_BOUNDS;
            var size := StaticMandelbrot.ViewportSize(b);
            && JsPixelToPoint(b, size.width, size.height, canvasWidth, canvasHeight, px, 0.0).y == -2.0
            && JsPixelToPoint(b, size.width, size.height, canvasWidth, canvasHeight, px, 0.0).y < b.minY
            && StaticMandelbrot.PixelToPoint(b, canvasWidth, canvasHeight, px, 0.0).y == b.minY
  {
  }

  /** The rectangle `zoom(pixel, out)` leaves: centred on the point under the pixel,
      with the cached size, not the current one, scaled by the zoom factor. */
  function JsZoomed(b: Bounds, viewportWidth: real, viewportHeight: real,
                    canvasWidth: nat, canvasHeight: nat, px: real, py: real, out: bool): (z: Bounds)
    requires canvasWidth > 0 && canvasHeight > 0
    ensures var p := JsPixelToPoint(b, viewportWidth, viewportHeight, canvasWidth, canvasHeight, px, py);
            (z.minX + z.maxX) / 2.0 == p.x && (z.minY + z.maxY) / 2.0 == p.y
    ensures z.maxX - z.minX == viewportWidth * StaticMandelbrot.ZoomFactor(out)
    ensures z.maxY - z.minY == viewportHeight * StaticMandelbrot.ZoomFactor(out)
  {
    var p := JsPixelToPoint(b, viewportWidth, viewportHeight, canvasWidth, canvasHeight, px, py);
    var width := viewportWidth * StaticMandelbrot.ZoomFactor(out);
    var height := viewportHeight * StaticMandelbrot.ZoomFactor(out);
    Bounds(p.x - width / 2.0, p.x + width / 2.0, p.y - height / 2.0, p.y + height / 2.0)
  }

  /** Without a render in between, a second zoom in does not compound: the size after
      two zooms is the size after one, because both read the same cached size. */
  lemma ZoomsDoNotCompoundWithoutRender(b: Bounds, viewportWidth: real, viewportHeight: real,
                                        canvasWidth: nat, canvasHeight: nat,
                                        px: real, py: real, qx: real, qy: real)
    requires canvasWidth > 0 && canvasHeight > 0
    requires viewportWidth >= 0.0 && viewportHeight >= 0.0
    ensures var once := JsZoomed(b, viewportWidth, viewportHeight, canvasWidth, canvasHeight, px, py, false);
            var twice := JsZoomed(once, viewportWidth, viewportHeight, canvasWidth, canvasHeight, qx, qy, false);
            StaticMandelbrot.ViewportSize(twice) == StaticMandelbrot.ViewportSize(once)
            == StaticMandelbrot.Size(ZOOM_INCREMENT * viewportWidth, ZOOM_INCREMENT * viewportHeight)
  {
  }

  /** A zoom right after a render, when the cache holds the current size, scales the
      size exactly as the static tree's `zoom` does. */
  lemma FreshCacheZoomMatchesStatic(b: Bounds, canvasWidth: nat, canvasHeight: nat, px: real, py: real, out: bool)
    requires canvasWidth > 0 && canvasHeight > 0
    ensures var size := StaticMandelbrot.ViewportSize(b);
            StaticMandelbrot.ViewportSize(JsZoomed(b, size.width, size.height, canvasWidth, canvasHeight, px, py, out))
            == StaticMandelbrot.ViewportSize(StaticMandelbrot.Zoomed(b, canvasWidth, canvasHeight, px, py, out))
  {
    var size := StaticMandelbrot.ViewportSize(b);
    var f := StaticMandelbrot.ZoomFactor(out);
    assert f > 0.0;
    var z := JsZoomed(b, size.width, size.height, canvasWidth, canvasHeight, px, py, out);
    assert z.maxX - z.minX == size.width * f >= 0.0;
    assert z.maxY - z.minY == size.height * f >= 0.0;
    assert StaticMandelbrot.ViewportSize(z) == StaticMandelbrot.Size(size.width * f, size.height * f);
  }

  /** What the frame's colouring loop consumes: the view and the histogram total. */
  datatype RenderedView = RenderedView(view: View, totalScore: nat)

  class MandelbrotRender {
    var minX: real
    var maxX: real
    var minY: real
    var maxY: real
    /** The size `renderFrame` caches; undefined until the first render. */
    var viewportWidth: real
    var viewportHeight: real
    var sizeCached: bool
    /** The canvas size in pixels, which the page sets from the window before each render. */
    var canvasWidth: nat
    var canvasHeight: nat

    function Viewport(): Bounds
      reads this
    {
      Bounds(minX, maxX, minY, maxY)
    }

    /** The constructor starts on the initial rectangle with no size cached yet. */
    constructor(canvasWidth: nat, canvasHeight: nat)
      ensures Viewport() == StaticMandelbrot.INIT_BOUNDS && !sizeCached
      ensures this.canvasWidth == canvasWidth && this.canvasHeight == canvasHeight
    {
      this.maxX := 1.0;
      this.maxY := 1.3;
      this.minX := -2.0;
      this.minY := -1.3;
      this.canvasWidth := canvasWidth;
      this.canvasHeight := canvasHeight;
      this.sizeCached := false;
    }

    /** `renderFrame()` up to the colouring loop, given the divergence scorer. It first
        caches the current viewport size, then (on a non-empty canvas) scores every
        pixel through the as-written `pixelToPoint` and sums the histogram buckets
        below MAX_ITERATIONS. With an empty canvas `createImageData` raises, after the
        cache has been refreshed. The bounds and canvas are left as they were. */
    method RenderFrame(scorer: Point -> real) returns (r: Result<RenderedView>)
      modifies this
      ensures Viewport() == old(Viewport())
      ensures canvasWidth == old(canvasWidth) && canvasHeight == old(canvasHeight)
      ensures sizeCached
      ensures viewportWidth == StaticMandelbrot.ViewportSize(Viewport()).width
      ensures viewportHeight == StaticMandelbrot.ViewportSize(Viewport()).height
      ensures r.Failure? <==> canvasWidth == 0 || canvasHeight == 0
      ensures r.Failure? ==> r.error == ZeroSizeImage
      ensures r.Success? ==>
                && canvasWidth > 0 && canvasHeight > 0
                && IsViewOf(r.value.view,
                            ScoreGrid(canvasWidth, canvasHeight,
                                      JsPixelScaling(Viewport(), viewportWidth, viewportHeight, canvasWidth, canvasHeight),
                                      scorer),
                            canvasWidth, canvasHeight)
                && r.value.totalScore == BucketSum(r.value.view.histogram, 0, JsMath.MAX_ITERATIONS)
    {
      viewportWidth := Abs(maxX - minX);
      viewportHeight := Abs(maxY - minY);
      sizeCached := true;

      if canvasWidth == 0 || canvasHeight == 0 {
        return Failure(ZeroSizeImage);
      }
      var width, height := canvasWidth, canvasHeight;
      MulMonotone(0, height, width);

      var generated, writes := GenerateView(width, height,
                                            JsPixelScaling(Viewport(), viewportWidth, viewportHeight, width, height),
                                            scorer);
      var total := TotalScore(generated.value.histogram);
      r := Success(RenderedView(generated.value, total));
    }

    /** `zoom(pixel, out)`: replaces the four bounds with the rectangle zoomed from the
        cached size; the cache itself and the canvas are left as they were. */
    method Zoom(px: real, py: real, out: bool)
      requires canvasWidth > 0 && canvasHeight > 0 && sizeCached
      modifies this
      ensures canvasWidth == old(canvasWidth) && canvasHeight == old(canvasHeight)
      ensures viewportWidth == old(viewportWidth) && viewportHeight == old(viewportHeight) && sizeCached
      ensures Viewport() == JsZoomed(old(Viewport()), viewportWidth, viewportHeight, canvasWidth, canvasHeight, px, py, out)
    {
      var p := JsPixelToPoint(Viewport(), viewportWidth, viewportHeight, canvasWidth, canvasHeight, px, py);
      var width := viewportWidth;
      var height := viewportHeight;

      if out {
        width := width * (1.0 / ZOOM_INCREMENT);
        height := height * (1.0 / ZOOM_INCREMENT);
      } else {
        width := width * ZOOM_INCREMENT;
        height := height * ZOOM_INCREMENT;
      }

      minX := p.x - (width / 2.0);
      maxX := p.x + (width / 2.0);

      minY := p.y - (height / 2.0);
      maxY := p.y + (height / 2.0);
    }
  }
}
