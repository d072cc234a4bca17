/** Raster geometry shared by both renderers and by the scoring kernel: logical points
    of the complex plane, the logical rectangle on show, the per-axis linear map from
    raster pixels to points, and the row-major raster index `x + y * width`. */
module Raster {

  /** A logical point of the complex plane, the source's `[x, y]` pair. */
  datatype Point = Point(x: real, y: real)

  /** The logical rectangle on show: the renderer's `min_x`, `max_x`, `min_y`, `max_y`. */
  datatype Bounds = Bounds(minX: real, maxX: real, minY: real, maxY: real)

  /** The linear map from a raster pixel to a logical point, one axis at a time:
      `px * xScale + left` and `py * yScale + bottom`. */
  datatype Scaling = Scaling(xScale: real, yScale: real, left: real, bottom: real)

  function ToPoint(s: Scaling, px: real, py: real): Point
  {
    Point(px * s.xScale + s.left, py * s.yScale + s.bottom)
  }

  /** The map is linear: moving (dx, dy) pixels moves the point by the scaled offsets. */
  lemma ToPointLinear(s: Scaling, px: real, py: real, dx: real, dy: real)
    ensures ToPoint(s, px + dx, py + dy).x == ToPoint(s, px, py).x + dx * s.xScale
    ensures ToPoint(s, px + dx, py + dy).y == ToPoint(s, px, py).y + dy * s.yScale
  {
    assert (px + dx) * s.xScale == px * s.xScale + dx * s.xScale;
    assert (py + dy) * s.yScale == py * s.yScale + dy * s.yScale;
  }

  function Abs(r: real): real
  {
    if r < 0.0 then -r else r
  }

  /** Raster index of pixel (x, y) in a row-major buffer of the given width: row y
      starts width places after row y - 1 (IndexIsRowMajor: `x + y * width`). */
  function Index(x: int, y: nat, width: int): int
  {
    if y == 0 then x else Index(x, y - 1, width) + width
  }

  lemma {:induction false} IndexIsRowMajor(x: int, y: nat, width: int)
    ensures Index(x, y, width) == x + y * width
  {
    if y > 0 {
      IndexIsRowMajor(x, y - 1, width);
    }
  }

  lemma MulMonotone(a: nat, b: nat, c: nat)
    ensures a <= b ==> a * c <= b * c
    ensures a < b ==> a * c + c <= b * c
  {
    if a < b {
      var d: nat := b - a - 1;
      assert d * c >= 0;
      assert b * c == a * c + d * c + c;
    }
  }

  /** Every pixel of a width x height grid has its index in [0, width * height). */
  lemma IndexInRange(x: nat, y: nat, width: nat, height: nat)
    requires x < width && y < height
    ensures 0 <= Index(x, y, width) < width * height
  {
    IndexIsRowMajor(x, y, width);
    MulMonotone(y, height, width);
    assert height * width == width * height;
  }

  /** IndexInRange for every pixel of the grid at once. */
  lemma IndexInRangeAll(width: nat, height: nat)
    ensures forall x, y :: 0 <= x < width && 0 <= y < height ==> 0 <= Index(x, y, width) < width * height
  {
    forall x, y | 0 <= x < width && 0 <= y < height
      ensures 0 <= Index(x, y, width) < width * height
    {
      IndexInRange(x, y, width, height);
    }
  }

  /** Two pixels of the same row width with the same index are the same pixel. */
  lemma IndexInjective(x1: nat, y1: nat, x2: nat, y2: nat, width: nat)
    requires x1 < width && x2 < width
    requires Index(x1, y1, width) == Index(x2, y2, width)
    ensures x1 == x2 && y1 == y2
  {
    IndexIsRowMajor(x1, y1, width);
    IndexIsRowMajor(x2, y2, width);
    MulMonotone(y1, y2, width);
    MulMonotone(y2, y1, width);
  }

  /** Every index in [0, width * height) is the index of a pixel of the grid. */
  lemma IndexCovers(i: nat, width: nat, height: nat)
    requires i < width * height
    ensures width > 0 && i % width < width && i / width < height
    ensures Index(i % width, i / width, width) == i
  {
    MulMonotone(width, 0, height);
    assert width > 0;
    var q, r := i / width, i % width;
    assert i == q * width + r;
    MulMonotone(height, q, width);
    assert height * width == width * height;
    IndexIsRowMajor(r, q, width);
  }
}
