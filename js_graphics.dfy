/** The `scoreToColor` kernel of js/util/graphics.js: the colour of one pixel from its
    score, the histogram kernel's output and the total-score kernel's output. The
    kernel's `this.thread` indices are parameters, and its `this.color(r, g, b)`
    output is the returned triple (the last call wins). */
module JsGraphics {
  import opened ColorMath
  import opened Hues
  import JsMath

  const MAX_COLOR_VALUE: real := 1.0
  const INTENSITY_CUTOFF: real := 0.85
  const HIGH_INTENSITY_WEIGHT: real := 1.0 / (1.0 - INTENSITY_CUTOFF)

  datatype Rgb = Rgb(r: real, g: real, b: real)

  /** The two-branch palette: blue for hues below the cutoff, red from it on, never
      green and never both; blue grows with the hue, and red starts from black. */
  function Palette(hue: real): (c: Rgb)
    ensures c.g == 0.0
    ensures hue < INTENSITY_CUTOFF ==> c.r == 0.0
    ensures hue >= INTENSITY_CUTOFF ==> c.b == 0.0
    ensures c.b == MAX_COLOR_VALUE * hue || c.b == 0.0
    ensures hue == INTENSITY_CUTOFF ==> c == Rgb(0.0, 0.0, 0.0)
    ensures hue == 0.0 ==> c == Rgb(0.0, 0.0, 0.0)
  {
    if hue < INTENSITY_CUTOFF then Rgb(0.0, 0.0, MAX_COLOR_VALUE * hue)
    else Rgb(MAX_COLOR_VALUE * (hue - INTENSITY_CUTOFF) * HIGH_INTENSITY_WEIGHT, 0.0, 0.0)
  }

  /** For hues in [0, 1] every channel of the palette lies in [0, MAX_COLOR_VALUE]:
      the red ramp reaches exactly MAX_COLOR_VALUE at hue 1. */
  lemma PaletteInRange(hue: real)
    requires 0.0 <= hue <= 1.0
    ensures 0.0 <= Palette(hue).r <= MAX_COLOR_VALUE
    ensures 0.0 <= Palette(hue).b <= MAX_COLOR_VALUE
    ensures hue == 1.0 ==> Palette(hue).r == MAX_COLOR_VALUE
  {
    assert HIGH_INTENSITY_WEIGHT * (1.0 - INTENSITY_CUTOFF) == 1.0;
    if hue >= INTENSITY_CUTOFF {
      assert 0.0 <= (hue - INTENSITY_CUTOFF) * HIGH_INTENSITY_WEIGHT <= (1.0 - INTENSITY_CUTOFF) * HIGH_INTENSITY_WEIGHT;
    }
  }

  /** Which buckets take part in the kernel's hue scan: those with a positive entry
      (an index past the end of the histogram reads as undefined, which is not > 0). */
  function KernelCounted(histogram: seq<int>, k: nat): (counted: seq<bool>)
    ensures |counted| == k
  {
    seq(k, n requires 0 <= n => n < |histogram| && histogram[n] > 0)
  }

  /** Whether some bucket below k takes part in the scan, that is, whether the hue loop
      divides by the total at all. */
  predicate AnyCounted(histogram: seq<int>, k: nat)
  {
    exists n :: 0 <= n < k && n < |histogram| && histogram[n] > 0
  }

  /** What each bucket adds to the kernel's hue: `histogram[n] as real / totalScore as real`
      for a bucket that takes part, nothing for one that does not. The loop divides only
      inside its `histogram[n] > 0` branch, so only then must the total be non-zero. */
  function KernelAmounts(histogram: seq<int>, totalScore: int, k: nat): (amount: seq<real>)
    requires AnyCounted(histogram, k) ==> totalScore != 0
    ensures |amount| == k
    ensures forall n :: 0 <= n < k && !KernelCounted(histogram, k)[n] ==> amount[n] == 0.0
  {
    seq(k, n requires 0 <= n < k =>
             if n < |histogram| && histogram[n] > 0 then histogram[n] as real / totalScore as real else 0.0)
  }

  /** gpu.js runs the hue loop at most `loopMaxIterations` = MAX_ITERATIONS times. */
  function KernelSteps(score: real): nat
  {
    if StepsBelow(score) < JsMath.MAX_ITERATIONS then StepsBelow(score) else JsMath.MAX_ITERATIONS
  }

  /** The colour the kernel outputs for a score: black for an in-set point, otherwise
      the blend of the palette colours of the two hues by `score % 1`. */
  function KernelColor(score: real, histogram: seq<int>, totalScore: int): Rgb
    requires score != JsMath.MAX_ITERATIONS as real && AnyCounted(histogram, KernelSteps(score)) ==> totalScore != 0
  {
    if score == JsMath.MAX_ITERATIONS as real then Rgb(0.0, 0.0, 0.0)
    else
      var k := KernelSteps(score);
      var hues := Scan(KernelCounted(histogram, k), KernelAmounts(histogram, totalScore, k), k);
      var c1 := Palette(hues.hue1);
      var c2 := Palette(hues.hue2);
      var p := FractionalPart(score);
      Rgb(Mix(c1.r, c2.r, p), Mix(c1.g, c2.g, p), Mix(c1.b, c2.b, p))
  }

  /** The kernel's hue loop, `for (let n = 0; n < score; n++)`, cut off after
      MAX_ITERATIONS rounds. */
  method ScanHues(score: real, totalScore: int, histogram: seq<int>) returns (hue1: real, hue2: real)
    requires AnyCounted(histogram, KernelSteps(score)) ==> totalScore != 0
    ensures var k := KernelSteps(score);
            HuePair(hue1, hue2) == Scan(KernelCounted(histogram, k), KernelAmounts(histogram, totalScore, k), k)
  {
    ghost var k := KernelSteps(score);
    ghost var counted := KernelCounted(histogram, k);
    ghost var amount := KernelAmounts(histogram, totalScore, k);
    hue1, hue2 := 0.0, 0.0;
    var n := 0;
    while n < JsMath.MAX_ITERATIONS && (n as real) < score
      invariant n <= k
      invariant HuePair(hue1, hue2) == Scan(counted, amount, n)
    {
      if n < |histogram| && histogram[n] > 0 {
        hue1 := hue2;
        hue2 := hue2 + histogram[n] as real / totalScore as real;
      }
      n := n + 1;
    }
  }

  /** The kernel's branch from a hue to its three channels, written out once for
      hue1 and once for hue2 in the kernel. */
  method HueChannels(hue: real) returns (R: real, G: real, B: real)
    ensures Rgb(R, G, B) == Palette(hue)
  {
    R, G, B := 0.0, 0.0, 0.0;
    if hue < INTENSITY_CUTOFF {
      B := MAX_COLOR_VALUE * hue;
    } else {
      R := MAX_COLOR_VALUE * (hue - INTENSITY_CUTOFF) * HIGH_INTENSITY_WEIGHT;
    }
  }

  /** The `scoreToColor` kernel for thread (threadX, threadY). */
  method ScoreToColor(scores: seq<seq<real>>, totalScoreBox: seq<int>, histogram: seq<int>,
                      threadX: nat, threadY: nat)
    returns (color: Rgb)
    requires threadY < |scores| && threadX < |scores[threadY]| && 1 <= |totalScoreBox|
    requires var score := scores[threadY][threadX];
             score != JsMath.MAX_ITERATIONS as real && AnyCounted(histogram, KernelSteps(score)) ==> totalScoreBox[0] != 0
    ensures color == KernelColor(scores[threadY][threadX], histogram, totalScoreBox[0])
    ensures scores[threadY][threadX] == JsMath.MAX_ITERATIONS as real ==> color == Rgb(0.0, 0.0, 0.0)
    ensures color.g == 0.0
  {
    var score := scores[threadY][threadX];
    var totalScore := totalScoreBox[0];

    color := Rgb(1.0, 0.75, 0.25);

    if score == JsMath.MAX_ITERATIONS as real {
      color := Rgb(0.0, 0.0, 0.0);
    } else {
      var hue1, hue2 := ScanHues(score, totalScore, histogram);

      var R1, G1, B1 := HueChannels(hue1);
      var R2, G2, B2 := HueChannels(hue2);

      var proportion := FractionalPart(score);

      color := Rgb(Mix(R1, R2, proportion), Mix(G1, G2, proportion), Mix(B1, B2, proportion));
    }
  }

  /** An integral score shows the first hue's palette colour unblended. */
  lemma IntegerScoreShowsFirstHue(score: int, histogram: seq<int>, totalScore: int)
    requires score != JsMath.MAX_ITERATIONS
    requires AnyCounted(histogram, KernelSteps(score as real)) ==> totalScore != 0
    ensures var k := KernelSteps(score as real);
            KernelColor(score as real, histogram, totalScore)
            == Palette(Scan(KernelCounted(histogram, k), KernelAmounts(histogram, totalScore, k), k).hue1)
  {
    IntegerHasNoFraction(score);
    var k := KernelSteps(score as real);
    var hues := Scan(KernelCounted(histogram, k), KernelAmounts(histogram, totalScore, k), k);
    var c1 := Palette(hues.hue1);
    var c2 := Palette(hues.hue2);
    MixEnds(c1.r, c2.r, 0.0);
    MixEnds(c1.g, c2.g, 0.0);
    MixEnds(c1.b, c2.b, 0.0);
  }

  /** With a histogram of non-negative entries whose first MAX_ITERATIONS entries sum
      to a positive total (what the total-score kernel outputs), the hue scan ends with
      0 <= hue1 <= hue2 <= 1, and hue1 is the value hue2 had before its last increment. */
  lemma KernelHuesInRange(score: real, histogram: seq<int>, totalScore: int)
    requires |histogram| >= JsMath.MAX_ITERATIONS
    requires forall n :: 0 <= n < |histogram| ==> histogram[n] >= 0
    requires totalScore == JsMath.PrefixSum(histogram, JsMath.MAX_ITERATIONS) && totalScore > 0
    ensures var k := KernelSteps(score);
            var hues := Scan(KernelCounted(histogram, k), KernelAmounts(histogram, totalScore, k), k);
            && 0.0 <= hues.hue1 <= hues.hue2 <= 1.0
            && hues.hue2 == CountedSum(KernelCounted(histogram, k), KernelAmounts(histogram, totalScore, k), k)
            && var j := LastCounted(KernelCounted(histogram, k), k);
               hues.hue1 == if j == 0 then 0.0
                            else CountedSum(KernelCounted(histogram, k), KernelAmounts(histogram, totalScore, k), j - 1)
  {
    var k := KernelSteps(score);
    var counted := KernelCounted(histogram, k);
    var amount := KernelAmounts(histogram, totalScore, k);
    forall n | 0 <= n < k && counted[n]
      ensures amount[n] >= 0.0
    {
      assert amount[n] == histogram[n] as real / totalScore as real;
    }
    ScanOrdered(counted, amount, k);
    ScanSums(counted, amount, k);
    CountedSumIsShare(histogram, totalScore, k);
    JsMath.PrefixSumMonotone(histogram, k, JsMath.MAX_ITERATIONS);
    ShareAtMostOne(JsMath.PrefixSum(histogram, k), totalScore);
  }

  /** The scan's sum over buckets below k is their share of the total. */
  lemma {:induction false} CountedSumIsShare(histogram: seq<int>, totalScore: int, k: nat)
    requires k <= |histogram| && totalScore > 0
    requires forall n :: 0 <= n < |histogram| ==> histogram[n] >= 0
    ensures CountedSum(KernelCounted(histogram, k), KernelAmounts(histogram, totalScore, k), k)
            == JsMath.PrefixSum(histogram, k) as real / totalScore as real
  {
    if k > 0 {
      var counted := KernelCounted(histogram, k);
      var amount := KernelAmounts(histogram, totalScore, k);
      CountedSumIsShare(histogram, totalScore, k - 1);
      CountedSumPrefix(counted, amount, KernelCounted(histogram, k - 1), KernelAmounts(histogram, totalScore, k - 1), k - 1);
      DivideSum(JsMath.PrefixSum(histogram, k - 1) as real, histogram[k - 1] as real, totalScore as real);
    }
  }

  /** A score below the sentinel for which no bucket below it holds a count outputs
      black, whatever the total: the hue loop adds nothing and both hues stay 0. */
  lemma UncountedScoreIsBlack(score: real, histogram: seq<int>, totalScore: int)
    requires score != JsMath.MAX_ITERATIONS as real && !AnyCounted(histogram, KernelSteps(score))
    ensures KernelColor(score, histogram, totalScore) == Rgb(0.0, 0.0, 0.0)
  {
    var k := KernelSteps(score);
    var counted := KernelCounted(histogram, k);
    NothingCountedScansZero(counted, KernelAmounts(histogram, totalScore, k), k);
    var p := FractionalPart(score);
    MixEnds(0.0, 0.0, p);
  }

  /** A score of at most 0, which a point far outside the set gets from the smoothing,
      runs the hue loop zero times and outputs black for any histogram and total. */
  lemma NonPositiveScoreIsBlack(score: real, histogram: seq<int>, totalScore: int)
    requires score <= 0.0
    ensures KernelColor(score, histogram, totalScore) == Rgb(0.0, 0.0, 0.0)
  {
    assert KernelSteps(score) == 0;
    UncountedScoreIsBlack(score, histogram, totalScore);
  }

  /** The total kernel's output meets the colour kernel's demand: when some bucket below
      MAX_ITERATIONS takes part, the sum of the first MAX_ITERATIONS entries of a
      non-negative histogram is positive. */
  lemma KernelTotalCoversCounted(histogram: seq<int>, k: nat)
    requires |histogram| >= JsMath.MAX_ITERATIONS && k <= JsMath.MAX_ITERATIONS
    requires forall n :: 0 <= n < |histogram| ==> histogram[n] >= 0
    ensures AnyCounted(histogram, k) ==> JsMath.PrefixSum(histogram, JsMath.MAX_ITERATIONS) > 0
  {
    if AnyCounted(histogram, k) {
      var n :| 0 <= n < k && n < |histogram| && histogram[n] > 0;
      JsMath.PrefixSumMonotone(histogram, 0, n);
      JsMath.PrefixSumMonotone(histogram, n + 1, JsMath.MAX_ITERATIONS);
    }
  }
}
