/** The gpu.js kernels of js/util/math.js: the escape-time divergence scorer, the
    per-bucket histogram kernel and the total-score kernel. A kernel's `this.thread`
    indices are parameters here. */
module JsMath {
  import opened Raster
  import opened Histogram

  /** Iteration cap; a point that has not escaped after this many steps scores it exactly. */
  const MAX_ITERATIONS: nat := 1000

  /** The escape test `x*x + y*y < 0xF00`. */
  const ESCAPE_RADIUS_SQUARED: real := 3840.0

  /** One step of z := z^2 + c, as the loop computes `tx` and `y`. */
  function Step(z: Point, c: Point): Point
  {
    Point(z.x * z.x - z.y * z.y + c.x, 2.0 * z.x * z.y + c.y)
  }

  /** z_n of the orbit of 0 under z := z^2 + c. */
  function Orbit(c: Point, n: nat): Point
  {
    if n == 0 then Point(0.0, 0.0) else Step(Orbit(c, n - 1), c)
  }

  predicate Escaped(z: Point)
  {
    z.x * z.x + z.y * z.y >= ESCAPE_RADIUS_SQUARED
  }

  /** The first n' >= n whose orbit point has escaped, or the cap when none below it has. */
  function EscapeFrom(c: Point, n: nat): (e: nat)
    requires n <= MAX_ITERATIONS
    ensures n <= e <= MAX_ITERATIONS
    ensures e < MAX_ITERATIONS ==> Escaped(Orbit(c, e))
    ensures forall j :: n <= j < e ==> !Escaped(Orbit(c, j))
    decreases MAX_ITERATIONS - n
  {
    if n == MAX_ITERATIONS || Escaped(Orbit(c, n)) then n else EscapeFrom(c, n + 1)
  }

  /** The escape time of c: the first orbit index that escapes, or MAX_ITERATIONS. */
  function EscapeTime(c: Point): (e: nat)
    ensures e <= MAX_ITERATIONS
    ensures e < MAX_ITERATIONS ==> Escaped(Orbit(c, e))
    ensures forall j :: 0 <= j < e ==> !Escaped(Orbit(c, j))
  {
    EscapeFrom(c, 0)
  }

  /** The escape time is the only index with those three properties. */
  lemma EscapeTimeUnique(c: Point, n: nat)
    requires n <= MAX_ITERATIONS
    requires n < MAX_ITERATIONS ==> Escaped(Orbit(c, n))
    requires forall j :: 0 <= j < n ==> !Escaped(Orbit(c, j))
    ensures n == EscapeTime(c)
  {
  }

  /** The orbit of the origin stays at the origin. */
  lemma {:induction false} OriginOrbit(n: nat)
    ensures Orbit(Point(0.0, 0.0), n) == Point(0.0, 0.0)
  {
    if n > 0 {
      OriginOrbit(n - 1);
    }
  }

  /** The origin never escapes: its escape time is the sentinel MAX_ITERATIONS. */
  lemma OriginNeverEscapes(c: Point)
    requires c == Point(0.0, 0.0)
    ensures EscapeTime(c) == MAX_ITERATIONS
  {
    var e := EscapeTime(c);
    if e < MAX_ITERATIONS {
      OriginOrbit(e);
    }
  }

  /** The orbit point after z_n is Step(z_n, c). */
  lemma OrbitNext(c: Point, n: nat, m: nat, z: Point)
    requires Orbit(c, n) == z && m == n + 1
    ensures Orbit(c, m) == Step(z, c)
  {
  }

  /** The first orbit points of c = 2 + 2i, with the indices as parameters so that the
      orbit is unfolded one step at a time. */
  lemma OrbitOfTwoPlusTwoI(c: Point, k0: nat, k1: nat, k2: nat, k3: nat)
    requires c == Point(2.0, 2.0) && k0 == 0 && k1 == 1 && k2 == 2 && k3 == 3
    ensures Orbit(c, k0) == Point(0.0, 0.0) && Orbit(c, k1) == Point(2.0, 2.0)
    ensures Orbit(c, k2) == Point(2.0, 10.0) && Orbit(c, k3) == Point(-94.0, 42.0)
  {
    OrbitNext(c, k0, k1, Point(0.0, 0.0));
    OrbitNext(c, k1, k2, Point(2.0, 2.0));
    OrbitNext(c, k2, k3, Point(2.0, 10.0));
  }

  /** c = 2 + 2i leaves the escape radius at its third step: |z_3|^2 = 10600. */
  lemma EscapeAtTwoPlusTwoI(c: Point)
    requires c == Point(2.0, 2.0)
    ensures EscapeTime(c) == 3
  {
    OrbitOfTwoPlusTwoI(c, 0, 1, 2, 3);
    assert !Escaped(Point(0.0, 0.0)) && !Escaped(Point(2.0, 2.0)) && !Escaped(Point(2.0, 10.0));
    assert Escaped(Point(-94.0, 42.0));
    forall j | 0 <= j < 3
      ensures !Escaped(Orbit(c, j))
    {
      if j == 0 { } else if j == 1 { } else { assert j == 2; }
    }
    EscapeTimeUnique(c, 3);
  }

  /** c = 100 leaves the escape radius at its first step (|z_1|^2 = 10000), so its score
      is 2 - nu(100): the log-log correction log2(log2 100), about 2.73, makes it negative. */
  lemma EscapeAtOneHundred(c: Point, nu: Point -> real)
    requires c == Point(100.0, 0.0)
    ensures EscapeTime(c) == 1
    ensures SmoothScore(c, nu) == 2.0 - nu(Point(100.0, 0.0))
  {
    OrbitNext(c, 0, 1, Point(0.0, 0.0));
    assert Escaped(Point(100.0, 0.0));
    EscapeTimeUnique(c, 1);
  }

  /** The score a point gets: the sentinel when it never escaped, otherwise the
      smoothed count `(iteration + 1) - nu`, nu being the log-log correction of the
      escaped orbit point. */
  function SmoothScore(c: Point, nu: Point -> real): real
  {
    var n := EscapeTime(c);
    if n < MAX_ITERATIONS then (n + 1) as real - nu(Orbit(c, n)) else MAX_ITERATIONS as real
  }

  /** The `scoreDivergence` kernel for thread (threadX, threadY). The smoothing term
      `log(log(zn) / log 2) / log 2` is the parameter nu. */
  method ScoreDivergence(xScale: real, yScale: real, leftX: real, bottomY: real,
                         threadX: int, threadY: int, nu: Point -> real)
    returns (score: real)
    ensures var c := ToPoint(Scaling(xScale, yScale, leftX, bottomY), threadX as real, threadY as real);
            score == SmoothScore(c, nu)
  {
    var lx := threadX as real * xScale + leftX;
    var ly := threadY as real * yScale + bottomY;
    ghost var c := ToPoint(Scaling(xScale, yScale, leftX, bottomY), threadX as real, threadY as real);
    assert c == Point(lx, ly);

    var x := 0.0;
    var y := 0.0;
    var iteration: nat := 0;

    while !Escaped(Point(x, y)) && iteration < MAX_ITERATIONS
      invariant iteration <= MAX_ITERATIONS
      invariant Point(x, y) == Orbit(c, iteration)
      invariant EscapeFrom(c, iteration) == EscapeTime(c)
      decreases MAX_ITERATIONS - iteration
    {
      ghost var z := Point(x, y);
      EscapeStep(c, iteration);
      var next := Step(Point(x, y), Point(lx, ly));
      x, y := next.x, next.y;
      OrbitNext(c, iteration, iteration + 1, z);
      iteration := iteration + 1;
    }

    if iteration < MAX_ITERATIONS {
      score := (iteration + 1) as real - nu(Point(x, y));
    } else {
      score := MAX_ITERATIONS as real;
    }
    ScoreOfExit(c, nu, iteration, Point(x, y), score);
  }

  /** Stepping past an orbit point that has not escaped leaves the escape time unchanged. */
  lemma EscapeStep(c: Point, n: nat)
    requires n < MAX_ITERATIONS && !Escaped(Orbit(c, n))
    ensures EscapeFrom(c, n) == EscapeFrom(c, n + 1)
  {
  }

  /** The origin scores the in-set sentinel whatever the smoothing term. */
  lemma OriginScoresMax(c: Point, nu: Point -> real)
    requires c == Point(0.0, 0.0)
    ensures SmoothScore(c, nu) == MAX_ITERATIONS as real
  {
    OriginNeverEscapes(c);
  }

  /** Where the kernel's loop stops is the escape time, so its score is SmoothScore. */
  lemma ScoreOfExit(c: Point, nu: Point -> real, n: nat, z: Point, score: real)
    requires n <= MAX_ITERATIONS && EscapeFrom(c, n) == EscapeTime(c) && Orbit(c, n) == z
    requires n < MAX_ITERATIONS ==> Escaped(z) && score == (n + 1) as real - nu(z)
    requires n == MAX_ITERATIONS ==> score == MAX_ITERATIONS as real
    ensures score == SmoothScore(c, nu)
  {
  }

  /** The `computeHistogram` kernel for thread threadX: the number of cells whose
      `Math.floor` equals threadX. */
  method ComputeHistogram(scores: seq<seq<real>>, width: nat, height: nat, threadX: int)
    returns (entry: nat)
    requires IsGrid(scores, width, height)
    ensures entry == GridCount(scores, width, height, threadX, threadX + 1)
    ensures entry <= width * height
  {
    entry := 0;
    var i := 0;
    while i < width
      invariant i <= width
      invariant entry == GridCount(scores, i, height, threadX, threadX + 1)
    {
      var n := 0;
      while n < height
        invariant n <= height
        invariant entry == GridCount(scores, i, height, threadX, threadX + 1)
                           + CountIn(scores[i][..n], threadX, threadX + 1)
      {
        var score := Bucket(scores[i][n]);
        assert scores[i][..n + 1][..n] == scores[i][..n];
        if score == threadX {
          entry := entry + 1;
        }
        n := n + 1;
      }
      assert scores[i][..n] == scores[i][..height];
      i := i + 1;
    }
    GridCountAtMostCells(scores, width, height, threadX, threadX + 1);
  }

  /** The whole output of the histogram kernel, one entry per thread 0 .. MAX_ITERATIONS-1. */
  function HistogramOutput(scores: seq<seq<real>>, width: nat, height: nat): (h: seq<nat>)
    requires IsGrid(scores, width, height)
    ensures |h| == MAX_ITERATIONS
  {
    seq(MAX_ITERATIONS, b => GridCount(scores, width, height, b, b + 1))
  }

  /** The sum of histogram[0 .. k-1]. */
  function PrefixSum(histogram: seq<int>, k: nat): int
    requires k <= |histogram|
  {
    if k == 0 then 0 else PrefixSum(histogram, k - 1) + histogram[k - 1]
  }

  /** The `totalScore` kernel: the sum of the first MAX_ITERATIONS histogram entries. */
  method TotalScore(histogram: seq<int>) returns (total: int)
    requires |histogram| >= MAX_ITERATIONS
    ensures total == PrefixSum(histogram, MAX_ITERATIONS)
  {
    total := 0;
    var i := 0;
    while i < MAX_ITERATIONS
      invariant i <= MAX_ITERATIONS
      invariant total == PrefixSum(histogram, i)
    {
      total := total + histogram[i];
      i := i + 1;
    }
  }

  /** Over non-negative entries a longer prefix never sums to less. */
  lemma {:induction false} PrefixSumMonotone(histogram: seq<int>, j: nat, k: nat)
    requires j <= k <= |histogram|
    requires forall n :: 0 <= n < |histogram| ==> histogram[n] >= 0
    ensures PrefixSum(histogram, j) <= PrefixSum(histogram, k)
    decreases k - j
  {
    if j < k {
      PrefixSumMonotone(histogram, j, k - 1);
    }
  }

  /** The total kernel's output over the histogram kernel's output counts the cells
      whose bucket lies in [0, k). */
  lemma {:induction false} PrefixSumOfOutput(scores: seq<seq<real>>, width: nat, height: nat, k: nat)
    requires IsGrid(scores, width, height)
    requires k <= MAX_ITERATIONS
    ensures PrefixSum(HistogramOutput(scores, width, height), k) == GridCount(scores, width, height, 0, k)
  {
    if k == 0 {
      GridCountEmptyRange(scores, width, height, 0);
    } else {
      PrefixSumOfOutput(scores, width, height, k - 1);
      GridCountSplit(scores, width, height, 0, k - 1, k);
    }
  }

  /** The total kernel over the histogram kernel's output counts the cells whose bucket
      lies in [0, MAX_ITERATIONS): the in-set bucket MAX_ITERATIONS is not among the
      kernel's outputs, so when every score lies in [0, MAX_ITERATIONS] the total is the
      cell count less the in-set cells. */
  lemma TotalDropsInSetBucket(scores: seq<seq<real>>, width: nat, height: nat)
    requires IsGrid(scores, width, height)
    ensures PrefixSum(HistogramOutput(scores, width, height), MAX_ITERATIONS)
            == GridCount(scores, width, height, 0, MAX_ITERATIONS)
    ensures (forall i, n :: 0 <= i < width && 0 <= n < height ==> 0.0 <= scores[i][n] <= MAX_ITERATIONS as real)
            ==> PrefixSum(HistogramOutput(scores, width, height), MAX_ITERATIONS)
                == width * height - GridCount(scores, width, height, MAX_ITERATIONS, MAX_ITERATIONS + 1)
  {
    PrefixSumOfOutput(scores, width, height, MAX_ITERATIONS);
    if forall i, n :: 0 <= i < width && 0 <= n < height ==> 0.0 <= scores[i][n] <= MAX_ITERATIONS as real {
      GridCountAll(scores, width, height, 0, MAX_ITERATIONS + 1);
      GridCountSplit(scores, width, height, 0, MAX_ITERATIONS, MAX_ITERATIONS + 1);
    }
  }
}
