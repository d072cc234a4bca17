/** Histograms of divergence scores. A score falls into the bucket `Math.floor(score)`.
    Scores are laid out as a width x height grid of columns, `scores[i][n]` with
    i < width and n < height, which is the order both the renderers' `generateView`
    loops and the `computeHistogram` kernel visit them in. A histogram maps each bucket
    that occurs to its number of scores: the renderers' sparse `histogram` array, where
    a bucket nobody hit stays undefined. */
module Histogram {

  /** The bucket of a score: `Math.floor(score)`. */
  function Bucket(score: real): int
  {
    score.Floor
  }

  /** How many scores of s fall into the buckets lo .. hi-1. */
  function CountIn(s: seq<real>, lo: int, hi: int): nat
  {
    if s == [] then 0
    else CountIn(s[..|s| - 1], lo, hi) + (if lo <= Bucket(s[|s| - 1]) < hi then 1 else 0)
  }

  lemma {:induction false} CountInAtMostLength(s: seq<real>, lo: int, hi: int)
    ensures CountIn(s, lo, hi) <= |s|
  {
    if s != [] {
      CountInAtMostLength(s[..|s| - 1], lo, hi);
    }
  }

  /** Counting a bucket range split in two gives the sum of the two counts. */
  lemma {:induction false} CountInSplit(s: seq<real>, lo: int, mid: int, hi: int)
    requires lo <= mid <= hi
    ensures CountIn(s, lo, hi) == CountIn(s, lo, mid) + CountIn(s, mid, hi)
  {
    if s != [] {
      CountInSplit(s[..|s| - 1], lo, mid, hi);
    }
  }

  lemma {:induction false} CountInEmptyRange(s: seq<real>, b: int)
    ensures CountIn(s, b, b) == 0
  {
    if s != [] {
      CountInEmptyRange(s[..|s| - 1], b);
    }
  }

  /** When every score lies in the bucket range, all of them are counted. */
  lemma {:induction false} CountInAll(s: seq<real>, lo: int, hi: int)
    requires forall i :: 0 <= i < |s| ==> lo <= Bucket(s[i]) < hi
    ensures CountIn(s, lo, hi) == |s|
  {
    if s != [] {
      CountInAll(s[..|s| - 1], lo, hi);
    }
  }

  /** A positive count is witnessed by a score in the bucket range. */
  lemma {:induction false} CountInWitness(s: seq<real>, lo: int, hi: int)
    requires CountIn(s, lo, hi) > 0
    ensures exists i :: 0 <= i < |s| && lo <= Bucket(s[i]) < hi
  {
    var t := s[..|s| - 1];
    if !(lo <= Bucket(s[|s| - 1]) < hi) {
      CountInWitness(t, lo, hi);
      var i :| 0 <= i < |t| && lo <= Bucket(t[i]) < hi;
      assert s[i] == t[i];
    }
  }

  /** A score in the bucket range makes the count positive. */
  lemma {:induction false} CountInPositive(s: seq<real>, i: nat, lo: int, hi: int)
    requires i < |s| && lo <= Bucket(s[i]) < hi
    ensures CountIn(s, lo, hi) > 0
  {
    if i < |s| - 1 {
      CountInPositive(s[..|s| - 1], i, lo, hi);
    }
  }

  /** A width x height score grid addressed `scores[i][n]`, i < width, n < height. */
  predicate IsGrid(scores: seq<seq<real>>, width: nat, height: nat)
  {
    width <= |scores| && forall i :: 0 <= i < width ==> height <= |scores[i]|
  }

  /** The cells of the grid whose bucket lies in lo .. hi-1. */
  function GridCount(scores: seq<seq<real>>, width: nat, height: nat, lo: int, hi: int): nat
    requires IsGrid(scores, width, height)
  {
    if width == 0 then 0
    else GridCount(scores, width - 1, height, lo, hi) + CountIn(scores[width - 1][..height], lo, hi)
  }

  lemma {:induction false} GridCountAtMostCells(scores: seq<seq<real>>, width: nat, height: nat, lo: int, hi: int)
    requires IsGrid(scores, width, height)
    ensures GridCount(scores, width, height, lo, hi) <= width * height
  {
    if width > 0 {
      GridCountAtMostCells(scores, width - 1, height, lo, hi);
      CountInAtMostLength(scores[width - 1][..height], lo, hi);
      assert (width - 1) * height + height == width * height;
    }
  }

  /** Counting a bucket range split in two gives the sum of the two counts. */
  lemma {:induction false} GridCountSplit(scores: seq<seq<real>>, width: nat, height: nat, lo: int, mid: int, hi: int)
    requires IsGrid(scores, width, height)
    requires lo <= mid <= hi
    ensures GridCount(scores, width, height, lo, hi)
            == GridCount(scores, width, height, lo, mid) + GridCount(scores, width, height, mid, hi)
  {
    if width > 0 {
      GridCountSplit(scores, width - 1, height, lo, mid, hi);
      CountInSplit(scores[width - 1][..height], lo, mid, hi);
    }
  }

  lemma {:induction false} GridCountEmptyRange(scores: seq<seq<real>>, width: nat, height: nat, b: int)
    requires IsGrid(scores, width, height)
    ensures GridCount(scores, width, height, b, b) == 0
  {
    if width > 0 {
      GridCountEmptyRange(scores, width - 1, height, b);
      CountInEmptyRange(scores[width - 1][..height], b);
    }
  }

  /** When every cell lies in the bucket range, all width * height cells are counted. */
  lemma {:induction false} GridCountAll(scores: seq<seq<real>>, width: nat, height: nat, lo: int, hi: int)
    requires IsGrid(scores, width, height)
    requires forall i, n :: 0 <= i < width && 0 <= n < height ==> lo <= Bucket(scores[i][n]) < hi
    ensures GridCount(scores, width, height, lo, hi) == width * height
  {
    if width > 0 {
      GridCountAll(scores, width - 1, height, lo, hi);
      var column := scores[width - 1][..height];
      assert forall n :: 0 <= n < |column| ==> column[n] == scores[width - 1][n];
      CountInAll(column, lo, hi);
      assert (width - 1) * height + height == width * height;
    }
  }

  /** A positive grid count is witnessed by a cell in the bucket range, and a cell in
      the bucket range makes the count positive. */
  lemma {:induction false} GridCountPositive(scores: seq<seq<real>>, width: nat, height: nat, lo: int, hi: int)
    requires IsGrid(scores, width, height)
    ensures GridCount(scores, width, height, lo, hi) > 0
            <==> exists i, n :: 0 <= i < width && 0 <= n < height && lo <= Bucket(scores[i][n]) < hi
  {
    if width > 0 {
      GridCountPositive(scores, width - 1, height, lo, hi);
      var last := scores[width - 1];
      var column := last[..height];
      if CountIn(column, lo, hi) > 0 {
        CountInWitness(column, lo, hi);
        var n :| 0 <= n < |column| && lo <= Bucket(column[n]) < hi;
        assert lo <= Bucket(scores[width - 1][n]) < hi;
      }
      if exists n :: 0 <= n < height && lo <= Bucket(last[n]) < hi {
        var n :| 0 <= n < height && lo <= Bucket(last[n]) < hi;
        assert column[n] == last[n];
        CountInPositive(column, n, lo, hi);
      }
    }
  }

  /** The count of bucket b held by a histogram, 0 for a bucket it does not hold. */
  function Tally(h: map<int, nat>, b: int): nat
  {
    if b in h then h[b] else 0
  }

  /** The sum of the counts of buckets lo .. hi-1. */
  function BucketSum(h: map<int, nat>, lo: int, hi: int): nat
    decreases hi - lo
  {
    if hi <= lo then 0 else BucketSum(h, lo, hi - 1) + Tally(h, hi - 1)
  }

  /** h is the histogram of the grid: it holds exactly the buckets that occur, each
      with the number of cells in it. */
  ghost predicate IsHistogramOf(h: map<int, nat>, scores: seq<seq<real>>, width: nat, height: nat)
    requires IsGrid(scores, width, height)
  {
    (forall b :: b in h ==> h[b] > 0)
    && forall b :: Tally(h, b) == GridCount(scores, width, height, b, b + 1)
  }

  /** Summing a histogram's buckets lo .. hi-1 counts the cells in those buckets. */
  lemma {:induction false} BucketSumCounts(h: map<int, nat>, scores: seq<seq<real>>, width: nat, height: nat,
                                           lo: int, hi: int)
    requires IsGrid(scores, width, height) && IsHistogramOf(h, scores, width, height)
    requires lo <= hi
    ensures BucketSum(h, lo, hi) == GridCount(scores, width, height, lo, hi)
    decreases hi - lo
  {
    if lo == hi {
      GridCountEmptyRange(scores, width, height, lo);
    } else {
      BucketSumCounts(h, scores, width, height, lo, hi - 1);
      GridCountSplit(scores, width, height, lo, hi - 1, hi);
    }
  }

  /** Summing more buckets never gives less. */
  lemma {:induction false} BucketSumMonotone(h: map<int, nat>, lo: int, mid: int, hi: int)
    requires mid <= hi
    ensures BucketSum(h, lo, mid) <= BucketSum(h, lo, hi)
    decreases hi - mid
  {
    if mid < hi {
      BucketSumMonotone(h, lo, mid, hi - 1);
    }
  }

  /** When every score lies in [0, top], the histogram's buckets 0 .. top hold all
      width * height cells, and every bucket it holds lies in [0, top]. */
  lemma HistogramTotal(h: map<int, nat>, scores: seq<seq<real>>, width: nat, height: nat, top: nat)
    requires IsGrid(scores, width, height) && IsHistogramOf(h, scores, width, height)
    requires forall i, n :: 0 <= i < width && 0 <= n < height ==> 0.0 <= scores[i][n] <= top as real
    ensures BucketSum(h, 0, top + 1) == width * height
    ensures forall b :: b in h ==> 0 <= b <= top
  {
    BucketSumCounts(h, scores, width, height, 0, top + 1);
    GridCountAll(scores, width, height, 0, top + 1);
    forall b | b in h
      ensures 0 <= b <= top
    {
      assert Tally(h, b) > 0;
      GridCountPositive(scores, width, height, b, b + 1);
    }
  }
}
