/** The score field both renderers compute: `generateView` samples every pixel of a
    width x height raster, stores its score at the row-major index `x + y * width` and
    counts `Math.floor(score)` into a sparse histogram; `renderFrame` then sums the
    histogram buckets below MAX_ITERATIONS. The static tree's compiled `asc` loops and
    the gpu.js tree's `<` loops compute the same result for non-negative canvas sizes;
    the trees differ in the pixel-to-point scaling, which is a parameter here, as is
    the divergence scorer. */
module ScoreField {
  import opened Raster
  import opened Histogram
  import JsMath

  /** The exceptions the rendering path can raise. `new Array(n)` with a negative
      length raises a RangeError; `createImageData` with a zero dimension raises an
      IndexSizeError. */
  datatype Error = InvalidArrayLength | ZeroSizeImage

  datatype Result<T> = Success(value: T) | Failure(error: Error)

  /** What `generateView` returns: `[histogram, scores]`. */
  datatype View = View(histogram: map<int, nat>, scores: seq<real>)

  /** The score of every pixel, column by column: grid[x][y] scores pixel (x, y). */
  function ScoreGrid(width: nat, height: nat, s: Scaling, scorer: Point -> real): (g: seq<seq<real>>)
    ensures |g| == width && IsGrid(g, width, height)
    ensures forall x :: 0 <= x < width ==> |g[x]| == height
  {
    seq(width, x => seq(height, y => scorer(ToPoint(s, x as real, y as real))))
  }

  /** Pixel (i, j) has been visited once the column loop is at (x, y). */
  predicate Visited(i: nat, j: nat, x: nat, y: nat)
  {
    i < x || (i == x && j < y)
  }

  /** The last pixel of the raster is the only one stored at index width * height - 1. */
  lemma LastIndex(x: nat, y: nat, width: nat, height: nat)
    requires x < width && y < height
    ensures Index(x, y, width) == width * height - 1 <==> x == width - 1 && y == height - 1
  {
    assert Index(width - 1, height - 1, width) == width * height - 1 by {
      IndexIsRowMajor(width - 1, height - 1, width);
      assert (height - 1) * width == height * width - width;
    }
    if Index(x, y, width) == width * height - 1 {
      IndexInjective(x, y, width - 1, height - 1, width);
    }
  }

  /** A count per raster index that is 1 at every pixel's index is 1 everywhere. */
  lemma EveryIndexWritten(writes: seq<nat>, width: nat, height: nat)
    requires |writes| == width * height
    requires forall i, j :: 0 <= i < width && 0 <= j < height ==>
               0 <= Index(i, j, width) < |writes| && writes[Index(i, j, width)] == 1
    ensures forall k :: 0 <= k < |writes| ==> writes[k] == 1
  {
    forall k | 0 <= k < |writes|
      ensures writes[k] == 1
    {
      IndexCovers(k, width, height);
    }
  }

  /** Counting the score of pixel (x, y) into the histogram of the pixels visited
      before it gives the histogram of the pixels up to it. */
  lemma CountScore(h: map<int, nat>, h': map<int, nat>, grid: seq<seq<real>>, x: nat, y: nat, height: nat)
    requires IsGrid(grid, x + 1, height) && y < height
    requires forall b :: Tally(h, b) == GridCount(grid, x, height, b, b + 1) + CountIn(grid[x][..y], b, b + 1)
    requires var bucket := Bucket(grid[x][y]);
             h' == if bucket in h then h[bucket := h[bucket] + 1] else h[bucket := 1]
    ensures forall b :: Tally(h', b) == GridCount(grid, x, height, b, b + 1) + CountIn(grid[x][..y + 1], b, b + 1)
  {
    var column := grid[x][..y + 1];
    assert column[..y] == grid[x][..y];
    assert column[y] == grid[x][y];
    forall b
      ensures Tally(h', b) == GridCount(grid, x, height, b, b + 1) + CountIn(column, b, b + 1)
    {
      assert CountIn(column, b, b + 1)
             == CountIn(grid[x][..y], b, b + 1) + (if b <= Bucket(grid[x][y]) < b + 1 then 1 else 0);
      if b == Bucket(grid[x][y]) {
        assert Tally(h', b) == Tally(h, b) + 1;
      } else {
        assert Tally(h', b) == Tally(h, b);
      }
    }
  }

  /** Counting one more write at the index of pixel (x, y) moves the visit frontier
      past (x, y): no other pixel shares that index. */
  lemma MarkWritten(writes: seq<nat>, x: nat, y: nat, width: nat, height: nat)
    requires x < width && y < height && |writes| == width * height
    requires forall i, j :: 0 <= i < width && 0 <= j < height ==>
               0 <= Index(i, j, width) < width * height
               && writes[Index(i, j, width)] == if Visited(i, j, x, y) then 1 else 0
    ensures var k := Index(x, y, width);
            forall i, j :: 0 <= i < width && 0 <= j < height ==>
              writes[k := writes[k] + 1][Index(i, j, width)] == if Visited(i, j, x, y + 1) then 1 else 0
  {
    forall i, j | 0 <= i < width && 0 <= j < height && Index(i, j, width) == Index(x, y, width)
      ensures i == x && j == y
    {
      IndexInjective(i, j, x, y, width);
    }
  }

  lemma NonEmptyRaster(width: nat, height: nat)
    requires width * height != 0
    ensures 0 < width && 0 < height
  {
  }

  /** The state of `generateView` once the columns before x are scored: every pixel
      of those columns has been written once, at its own index, and counted into the
      histogram; no other index has been written; the array still has the length
      `width * height - 1` it was created with unless its last index was written. */
  ghost predicate Columns(grid: seq<seq<real>>, width: nat, height: nat, x: nat,
                          a: seq<real>, length: int, histogram: map<int, nat>, writes: seq<nat>)
    requires IsGrid(grid, width, height) && x <= width
  {
    && |a| == width * height == |writes|
    && length == (if x == width then width * height else width * height - 1)
    && (forall i, j :: 0 <= i < width && 0 <= j < height ==>
          && 0 <= Index(i, j, width) < width * height
          && writes[Index(i, j, width)] == (if i < x then 1 else 0)
          && (i < x ==> a[Index(i, j, width)] == grid[i][j]))
    && (forall b :: b in histogram ==> histogram[b] > 0)
    && (forall b :: Tally(histogram, b) == GridCount(grid, x, height, b, b + 1))
  }

  /** The state of `generateView`'s inner loop at pixel (x, y): as Columns, with the
      pixels (x, 0) .. (x, y - 1) of column x scored as well. */
  ghost predicate Frontier(grid: seq<seq<real>>, width: nat, height: nat, x: nat, y: nat,
                           a: seq<real>, length: int, histogram: map<int, nat>, writes: seq<nat>)
    requires IsGrid(grid, width, height) && x < width && y <= height && |grid[x]| == height
  {
    && |a| == width * height == |writes|
    && length == (if x == width - 1 && y == height then width * height else width * height - 1)
    && Stored(grid, width, height, x, y, a, writes)
    && (forall b :: b in histogram ==> histogram[b] > 0)
    && (forall b :: Tally(histogram, b) == GridCount(grid, x, height, b, b + 1) + CountIn(grid[x][..y], b, b + 1))
  }

  /** The score array and write counts at the inner loop's pixel (x, y): every visited
      pixel's index was written once and holds its score, every other index was not written. */
  ghost predicate Stored(grid: seq<seq<real>>, width: nat, height: nat, x: nat, y: nat,
                         a: seq<real>, writes: seq<nat>)
    requires IsGrid(grid, width, height) && |a| == width * height == |writes|
  {
    forall i, j :: 0 <= i < width && 0 <= j < height ==>
      && 0 <= Index(i, j, width) < width * height
      && writes[Index(i, j, width)] == (if Visited(i, j, x, y) then 1 else 0)
      && (Visited(i, j, x, y) ==> a[Index(i, j, width)] == grid[i][j])
  }

  /** Storing pixel (x, y)'s score moves Stored from (x, y) to (x, y + 1). */
  lemma StoreStep(grid: seq<seq<real>>, width: nat, height: nat, x: nat, y: nat,
                  a: seq<real>, writes: seq<nat>, a': seq<real>, writes': seq<nat>)
    requires IsGrid(grid, width, height) && x < width && y < height
    requires |a| == width * height == |writes|
    requires Stored(grid, width, height, x, y, a, writes)
    requires var k := Index(x, y, width);
             && 0 <= k < |a|
             && a' == a[k := grid[x][y]]
             && writes' == writes[k := writes[k] + 1]
    ensures Stored(grid, width, height, x, y + 1, a', writes')
  {
    var k := Index(x, y, width);
    MarkWritten(writes, x, y, width, height);
    forall i, j | 0 <= i < width && 0 <= j < height && Visited(i, j, x, y + 1)
      ensures a'[Index(i, j, width)] == grid[i][j]
    {
      if Index(i, j, width) == k {
        IndexInjective(i, j, x, y, width);
      }
    }
  }

  lemma StartColumn(grid: seq<seq<real>>, width: nat, height: nat, x: nat,
                    a: seq<real>, length: int, histogram: map<int, nat>, writes: seq<nat>)
    requires IsGrid(grid, width, height) && x < width && 0 < height && |grid[x]| == height
    requires Columns(grid, width, height, x, a, length, histogram, writes)
    ensures Frontier(grid, width, height, x, 0, a, length, histogram, writes)
  {
    assert grid[x][..0] == [];
  }

  lemma EndColumn(grid: seq<seq<real>>, width: nat, height: nat, x: nat,
                  a: seq<real>, length: int, histogram: map<int, nat>, writes: seq<nat>)
    requires IsGrid(grid, width, height) && x < width && |grid[x]| == height
    requires Frontier(grid, width, height, x, height, a, length, histogram, writes)
    ensures Columns(grid, width, height, x + 1, a, length, histogram, writes)
  {
    assert grid[x][..height] == grid[x];
  }

  /** view is what `generateView` returns for the field grid: a score array of
      exactly width * height entries holding the score of pixel (x, y) at index
      `x + y * width`, and the histogram of the field. */
  ghost predicate IsViewOf(view: View, grid: seq<seq<real>>, width: nat, height: nat)
    requires IsGrid(grid, width, height)
  {
    && |view.scores| == width * height
    && (forall x, y :: 0 <= x < width && 0 <= y < height ==>
          0 <= Index(x, y, width) < |view.scores| && view.scores[Index(x, y, width)] == grid[x][y])
    && IsHistogramOf(view.histogram, grid, width, height)
  }

  /** `generateView(width, height)`: the score array holds the score of pixel (x, y)
      at index `x + y * width`, every index below width * height is written exactly
      once, the array's length grows from the `width * height - 1` it is created with
      to exactly width * height, and the histogram counts every bucket of the field.
      With an empty raster, `new Array(-1)` raises a RangeError. */
  method GenerateView(width: nat, height: nat, s: Scaling, scorer: Point -> real)
    returns (r: Result<View>, ghost writes: seq<nat>)
    ensures r.Failure? <==> width * height == 0
    ensures r.Failure? ==> r.error == InvalidArrayLength
    ensures r.Success? ==>
              && IsViewOf(r.value, ScoreGrid(width, height, s, scorer), width, height)
              && |writes| == width * height
              && forall k :: 0 <= k < |writes| ==> writes[k] == 1
  {
    if width * height == 0 {
      return Failure(InvalidArrayLength), [];
    }
    NonEmptyRaster(width, height);
    ghost var grid := ScoreGrid(width, height, s, scorer);
    var histogram: map<int, nat> := map[];
    var scores := new real[width * height];
    var length := width * height - 1;
    writes := seq(width * height, k => 0);
    IndexInRangeAll(width, height);

    var x := 0;
    while x < width
      invariant x <= width
      invariant Columns(grid, width, height, x, scores[..], length, histogram, writes)
    {
      StartColumn(grid, width, height, x, scores[..], length, histogram, writes);
      var y := 0;
      while y < height
        invariant y <= height
        invariant Frontier(grid, width, height, x, y, scores[..], length, histogram, writes)
      {
        length, histogram, writes := ScorePixel(x, y, width, height, s, scorer, scores, length, histogram, writes, grid);
        y := y + 1;
      }
      EndColumn(grid, width, height, x, scores[..], length, histogram, writes);
      x := x + 1;
    }
    EveryIndexWritten(writes, width, height);
    r := Success(View(histogram, scores[..length]));
  }

  /** One pass of the inner loop's body: scores pixel (x, y), stores the score at
      index `x + y * width` (growing the length when that index is past the end) and
      counts `Math.floor(score)` into the histogram. */
  method ScorePixel(x: nat, y: nat, width: nat, height: nat, s: Scaling, scorer: Point -> real,
                    scores: array<real>, length: int, histogram: map<int, nat>,
                    ghost writes: seq<nat>, ghost grid: seq<seq<real>>)
    returns (length': int, histogram': map<int, nat>, ghost writes': seq<nat>)
    modifies scores
    requires x < width && y < height && grid == ScoreGrid(width, height, s, scorer)
    requires Frontier(grid, width, height, x, y, scores[..], length, histogram, writes)
    ensures Frontier(grid, width, height, x, y + 1, scores[..], length', histogram', writes')
  {
    ghost var before := scores[..];
    var point := ToPoint(s, x as real, y as real);
    var score := scorer(point);
    var k := Index(x, y, width);
    IndexInRange(x, y, width, height);
    scores[k] := score;
    assert scores[..] == before[k := score];
    length' := length;
    if k >= length' {
      length' := k + 1;
    }
    writes' := writes[k := writes[k] + 1];

    var bucket := Bucket(score);
    if bucket in histogram {
      histogram' := histogram[bucket := histogram[bucket] + 1];
    } else {
      histogram' := histogram[bucket := 1];
    }
    PixelStep(grid, width, height, x, y, before, length, histogram, writes, score, scores[..], length', histogram', writes');
  }

  /** Scoring pixel (x, y) moves the inner loop's state from (x, y) to (x, y + 1). */
  lemma PixelStep(grid: seq<seq<real>>, width: nat, height: nat, x: nat, y: nat,
                  a: seq<real>, length: int, histogram: map<int, nat>, writes: seq<nat>, score: real,
                  a': seq<real>, length': int, histogram': map<int, nat>, writes': seq<nat>)
    requires IsGrid(grid, width, height) && x < width && y < height && |grid[x]| == height
    requires Frontier(grid, width, height, x, y, a, length, histogram, writes)
    requires score == grid[x][y]
    requires var k := Index(x, y, width);
             && 0 <= k < |a|
             && a' == a[k := score]
             && length' == (if k >= length then k + 1 else length)
             && writes' == writes[k := writes[k] + 1]
    requires var bucket := Bucket(score);
             histogram' == if bucket in histogram then histogram[bucket := histogram[bucket] + 1]
                           else histogram[bucket := 1]
    ensures Frontier(grid, width, height, x, y + 1, a', length', histogram', writes')
  {
    LastIndex(x, y, width, height);
    assert length' == (if x == width - 1 && y + 1 == height then width * height else width * height - 1);
    StoreStep(grid, width, height, x, y, a, writes, a', writes');
    CountScore(histogram, histogram', grid, x, y, height);
  }

  /** The `totalScore` loop of `renderFrame`: the sum of the buckets 0 .. MAX_ITERATIONS-1,
      a missing or zero bucket adding nothing. */
  method TotalScore(histogram: map<int, nat>) returns (total: nat)
    ensures total == BucketSum(histogram, 0, JsMath.MAX_ITERATIONS)
  {
    total := 0;
    var i := 0;
    while i < JsMath.MAX_ITERATIONS
      invariant i <= JsMath.MAX_ITERATIONS
      invariant total == BucketSum(histogram, 0, i)
    {
      if i in histogram && histogram[i] != 0 {
        total := total + histogram[i];
      }
      i := i + 1;
    }
  }

  /** The total of a field's histogram counts the cells scoring below MAX_ITERATIONS;
      when every score lies in [0, MAX_ITERATIONS] that is every cell but the in-set
      ones, whose bucket MAX_ITERATIONS the loop never reaches. */
  lemma TotalExcludesInSetBucket(h: map<int, nat>, grid: seq<seq<real>>, width: nat, height: nat)
    requires IsGrid(grid, width, height) && IsHistogramOf(h, grid, width, height)
    ensures BucketSum(h, 0, JsMath.MAX_ITERATIONS) == GridCount(grid, width, height, 0, JsMath.MAX_ITERATIONS)
    ensures (forall i, n :: 0 <= i < width && 0 <= n < height ==> 0.0 <= grid[i][n] <= JsMath.MAX_ITERATIONS as real)
            ==> BucketSum(h, 0, JsMath.MAX_ITERATIONS) == width * height - Tally(h, JsMath.MAX_ITERATIONS)
  {
    BucketSumCounts(h, grid, width, height, 0, JsMath.MAX_ITERATIONS);
    if forall i, n :: 0 <= i < width && 0 <= n < height ==> 0.0 <= grid[i][n] <= JsMath.MAX_ITERATIONS as real {
      HistogramTotal(h, grid, width, height, JsMath.MAX_ITERATIONS);
      BucketSumCounts(h, grid, width, height, 0, JsMath.MAX_ITERATIONS + 1);
      GridCountSplit(grid, width, height, 0, JsMath.MAX_ITERATIONS, JsMath.MAX_ITERATIONS + 1);
    }
  }

  /** In a field whose scores lie in [0, MAX_ITERATIONS], any stored score other than
      the in-set sentinel lands in a bucket the total counts, so the total is positive. */
  lemma ScoreBelowMaxMakesTotalPositive(view: View, grid: seq<seq<real>>, width: nat, height: nat, i: nat)
    requires IsGrid(grid, width, height) && IsViewOf(view, grid, width, height)
    requires forall x, y :: 0 <= x < width && 0 <= y < height ==> 0.0 <= grid[x][y] <= JsMath.MAX_ITERATIONS as real
    requires i < |view.scores| && view.scores[i] != JsMath.MAX_ITERATIONS as real
    ensures BucketSum(view.histogram, 0, JsMath.MAX_ITERATIONS) > 0
  {
    IndexCovers(i, width, height);
    var x, y := i % width, i / width;
    assert view.scores[Index(x, y, width)] == grid[x][y];
    assert 0 <= Bucket(grid[x][y]) < JsMath.MAX_ITERATIONS;
    GridCountPositive(grid, width, height, 0, JsMath.MAX_ITERATIONS);
    TotalExcludesInSetBucket(view.histogram, grid, width, height);
  }

  /** With a scorer whose scores lie in [0, MAX_ITERATIONS], every stored score other
      than the sentinel makes the total of the field's histogram positive. */
  lemma FieldTotalPositive(view: View, width: nat, height: nat, s: Scaling, scorer: Point -> real)
    requires forall p :: 0.0 <= scorer(p) <= JsMath.MAX_ITERATIONS as real
    requires IsViewOf(view, ScoreGrid(width, height, s, scorer), width, height)
    ensures forall i :: 0 <= i < |view.scores| && view.scores[i] != JsMath.MAX_ITERATIONS as real ==>
              BucketSum(view.histogram, 0, JsMath.MAX_ITERATIONS) > 0
  {
    var grid := ScoreGrid(width, height, s, scorer);
    forall x, y | 0 <= x < width && 0 <= y < height
      ensures 0.0 <= grid[x][y] <= JsMath.MAX_ITERATIONS as real
    {
      assert grid[x][y] == scorer(ToPoint(s, x as real, y as real));
    }
    forall i | 0 <= i < |view.scores| && view.scores[i] != JsMath.MAX_ITERATIONS as real
      ensures BucketSum(view.histogram, 0, JsMath.MAX_ITERATIONS) > 0
    {
      ScoreBelowMaxMakesTotalPositive(view, grid, width, height, i);
    }
  }
}
