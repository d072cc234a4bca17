/** The cumulative-frequency hue scan both colour mappers run for a score below
    MAX_ITERATIONS:

      hue1 = hue2 = 0; for n = 0 while n < score: if bucket n takes part,
      hue1 = hue2 and hue2 += histogram[n] / totalScore.

    The renderers differ in which buckets take part (a defined entry in the static
    tree, a positive entry in the kernel) and the kernel caps the loop; each passes
    which buckets take part and what each adds as sequences. */
module Hues {

  /** How often `for (let n = 0; n < score; n++)` runs: the naturals below score. */
  function StepsBelow(score: real): (k: nat)
    ensures score <= k as real
    ensures k > 0 ==> (k - 1) as real < score
  {
    if score <= 0.0 then 0 else -((-score).Floor)
  }

  datatype HuePair = HuePair(hue1: real, hue2: real)

  /** The hues once buckets 0 .. k-1 have been scanned. */
  function Scan(counted: seq<bool>, amount: seq<real>, k: nat): HuePair
    requires k <= |counted| && k <= |amount|
  {
    if k == 0 then HuePair(0.0, 0.0)
    else
      var p := Scan(counted, amount, k - 1);
      if counted[k - 1] then HuePair(p.hue2, p.hue2 + amount[k - 1]) else p
  }

  /** What the buckets below k that take part add up to. */
  function CountedSum(counted: seq<bool>, amount: seq<real>, k: nat): real
    requires k <= |counted| && k <= |amount|
  {
    if k == 0 then 0.0
    else CountedSum(counted, amount, k - 1) + (if counted[k - 1] then amount[k - 1] else 0.0)
  }

  /** One past the last bucket below k that takes part, 0 when none does. */
  function LastCounted(counted: seq<bool>, k: nat): (j: nat)
    requires k <= |counted|
    ensures j <= k
    ensures j > 0 ==> counted[j - 1]
    ensures forall n :: j <= n < k ==> !counted[n]
  {
    if k == 0 then 0 else if counted[k - 1] then k else LastCounted(counted, k - 1)
  }

  /** hue2 is the sum of what the scanned buckets add; hue1 is the value hue2 had
      before its last increment, 0 when nothing was added. */
  lemma {:induction false} ScanSums(counted: seq<bool>, amount: seq<real>, k: nat)
    requires k <= |counted| && k <= |amount|
    ensures Scan(counted, amount, k).hue2 == CountedSum(counted, amount, k)
    ensures var j := LastCounted(counted, k);
            Scan(counted, amount, k).hue1 == if j == 0 then 0.0 else CountedSum(counted, amount, j - 1)
  {
    if k > 0 {
      ScanSums(counted, amount, k - 1);
    }
  }

  /** With no bucket adding a negative amount, the scan ends with 0 <= hue1 <= hue2. */
  lemma {:induction false} ScanOrdered(counted: seq<bool>, amount: seq<real>, k: nat)
    requires k <= |counted| && k <= |amount|
    requires forall n :: 0 <= n < k && counted[n] ==> amount[n] >= 0.0
    ensures 0.0 <= Scan(counted, amount, k).hue1 <= Scan(counted, amount, k).hue2
  {
    if k > 0 {
      ScanOrdered(counted, amount, k - 1);
    }
  }

  /** When no bucket below k takes part, the scan leaves both hues at 0. */
  lemma {:induction false} NothingCountedScansZero(counted: seq<bool>, amount: seq<real>, k: nat)
    requires k <= |counted| && k <= |amount|
    requires forall n :: 0 <= n < k ==> !counted[n]
    ensures Scan(counted, amount, k) == HuePair(0.0, 0.0)
  {
    if k > 0 {
      NothingCountedScansZero(counted, amount, k - 1);
    }
  }

  /** CountedSum only looks at the first k entries. */
  lemma {:induction false} CountedSumPrefix(counted: seq<bool>, amount: seq<real>,
                                            counted': seq<bool>, amount': seq<real>, k: nat)
    requires k <= |counted| && k <= |amount| && k <= |counted'| && k <= |amount'|
    requires counted[..k] == counted'[..k] && amount[..k] == amount'[..k]
    ensures CountedSum(counted, amount, k) == CountedSum(counted', amount', k)
  {
    if k > 0 {
      assert counted[k - 1] == counted[..k][k - 1];
      assert counted'[k - 1] == counted'[..k][k - 1];
      assert amount[k - 1] == amount[..k][k - 1];
      assert amount'[k - 1] == amount'[..k][k - 1];
      assert counted[..k - 1] == counted[..k][..k - 1];
      assert counted'[..k - 1] == counted'[..k][..k - 1];
      assert amount[..k - 1] == amount[..k][..k - 1];
      assert amount'[..k - 1] == amount'[..k][..k - 1];
      CountedSumPrefix(counted, amount, counted', amount', k - 1);
    }
  }

  /** A part of a positive total is at most a whole share of it. */
  lemma ShareAtMostOne(part: int, total: int)
    requires 0 < total && part <= total
    ensures part as real / total as real <= 1.0
  {
    assert part as real <= total as real;
  }

  /** Shares of a total add up. */
  lemma DivideSum(a: real, b: real, t: real)
    requires t != 0.0
    ensures (a + b) / t == a / t + b / t
  {
    var q, r := a / t, b / t;
    assert q * t == a && r * t == b;
    assert (q + r) * t == a + b;
  }
}
