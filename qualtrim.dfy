/** The quality trimmer (`qual_trim`), the running-sum heuristic of cutadapt
    over Phred+33 quality bytes.

    From the 3' end, the scan adds `threshold - q` for each byte `q` until the
    running sum goes negative; the cut is placed at the rightmost position
    where the suffix sum reaches its maximum (a strict new maximum when
    scanning inward), and at the read's end when no suffix sum is positive.
    The 5' end is the mirror image over prefix sums. Below, the scan's result
    is specified without the scan: `BackReach` is where the scan stops and
    `BackBest` is the rightmost maximum of the suffix sums from there on. */
module QualTrim {
  import opened Bytes

  // ---------------------------------------------------------------------
  // 3' end: suffix sums

  /** Sum of `t - qual[k]` for `i <= k < |qual|`. */
  function BackSum(qual: seq<byte>, t: int, i: nat): int
    requires i <= |qual|
    decreases |qual| - i
  {
    if i == |qual| then 0 else (t - qual[i]) + BackSum(qual, t, i + 1)
  }

  /** The lowest index the 3' scan reaches when it has already reached `i`:
      it stops just above the first index (going down) whose suffix sum is
      negative. */
  function BackReach(qual: seq<byte>, t: int, i: nat): (r: nat)
    requires i <= |qual|
    ensures r <= i
    decreases i
  {
    if i == 0 || BackSum(qual, t, i - 1) < 0 then i else BackReach(qual, t, i - 1)
  }

  /** The rightmost index in `[lo, |qual|]` where the suffix sum is largest
      (`|qual|` itself stands for the empty suffix, whose sum is 0). */
  function BackBest(qual: seq<byte>, t: int, lo: nat): (r: nat)
    requires lo <= |qual|
    ensures lo <= r <= |qual|
    decreases |qual| - lo
  {
    if lo == |qual| then |qual|
    else
      var b := BackBest(qual, t, lo + 1);
      if BackSum(qual, t, lo) > BackSum(qual, t, b) then lo else b
  }

  /** Where the 3' scan with per-byte threshold `t` cuts the read. */
  function BackCut(qual: seq<byte>, t: int): (stop: nat)
    ensures stop <= |qual|
    ensures stop < |qual| ==> BackSum(qual, t, stop) > 0
  {
    BackBestIsRightmostMax(qual, t, BackReach(qual, t, |qual|));
    BackBest(qual, t, BackReach(qual, t, |qual|))
  }

  // ---------------------------------------------------------------------
  // 5' end: prefix sums

  /** Sum of `t - qual[k]` for `0 <= k < p`. */
  function FrontSum(qual: seq<byte>, t: int, p: nat): int
    requires p <= |qual|
  {
    if p == 0 then 0 else FrontSum(qual, t, p - 1) + (t - qual[p - 1])
  }

  /** The longest prefix the 5' scan gets through when it has already got
      through the first `p` bytes. */
  function FrontReach(qual: seq<byte>, t: int, p: nat): (r: nat)
    requires p <= |qual|
    ensures p <= r <= |qual|
    decreases |qual| - p
  {
    if p == |qual| || FrontSum(qual, t, p + 1) < 0 then p else FrontReach(qual, t, p + 1)
  }

  /** The leftmost prefix length in `[0, hi]` whose prefix sum is largest. */
  function FrontBest(qual: seq<byte>, t: int, hi: nat): (r: nat)
    requires hi <= |qual|
    ensures r <= hi
  {
    if hi == 0 then 0
    else
      var b := FrontBest(qual, t, hi - 1);
      if FrontSum(qual, t, hi) > FrontSum(qual, t, b) then hi else b
  }

  /** Where the 5' scan with per-byte threshold `t` cuts the read. */
  function FrontCut(qual: seq<byte>, t: int): (start: nat)
    ensures start <= |qual|
    ensures start > 0 ==> FrontSum(qual, t, start) > 0
  {
    FrontBestIsLeftmostMax(qual, t, FrontReach(qual, t, 0));
    FrontBest(qual, t, FrontReach(qual, t, 0))
  }

  // ---------------------------------------------------------------------
  // The trimmer

  /** A degenerate interval collapses to `(0, 0)`. */
  function Interval(start: nat, stop: nat): (r: (nat, nat))
    ensures r == (0, 0) || r.0 < r.1
    ensures r.0 < r.1 ==> r == (start, stop)
  {
    if start >= stop then (0, 0) else (start, stop)
  }

  /** `qual_trim` as written: the 5' threshold is `cut_front + 33 + 33`,
      because the offset is added once when `cut_front` is rebound and once
      more inside the running sum. */
  function QualTrimAsWritten(qual: seq<byte>, cutFront: int, cutBack: int): (r: (nat, nat))
    ensures r == (0, 0) || r.0 < r.1 <= |qual|
    ensures cutFront <= 0 ==> r.0 == 0
  {
    var start := if cutFront > 0 then FrontCut(qual, cutFront + QUAL_BASE + QUAL_BASE) else 0;
    Interval(start, BackCut(qual, cutBack + QUAL_BASE))
  }

  /** `qual_trim` with the 5' threshold `cut_front + 33` that the 3' end
      uses. With the 5' trim switched off it is the code as written. */
  function QualTrimFixed(qual: seq<byte>, cutFront: int, cutBack: int): (r: (nat, nat))
    ensures r == (0, 0) || r.0 < r.1 <= |qual|
    ensures cutFront <= 0 ==> r.0 == 0
    ensures cutFront <= 0 ==> r == QualTrimAsWritten(qual, cutFront, cutBack)
  {
    var start := if cutFront > 0 then FrontCut(qual, cutFront + QUAL_BASE) else 0;
    Interval(start, BackCut(qual, cutBack + QUAL_BASE))
  }

  /** The two scans of `qual_trim`, as written. */
  method QualTrim(qual: seq<byte>, cutFront: int, cutBack: int) returns (start: nat, stop: nat)
    ensures (start, stop) == QualTrimAsWritten(qual, cutFront, cutBack)
  {
    var n := |qual|;
    start := 0;
    var s := 0;
    var maxQual := 0;
    if cutFront > 0 {
      var cutFront' := cutFront + QUAL_BASE;
      ghost var t := cutFront' + QUAL_BASE;
      var i := 0;
      while i < n
        invariant 0 <= i <= n
        invariant s == FrontSum(qual, t, i)
        invariant FrontReach(qual, t, 0) == FrontReach(qual, t, i)
        invariant start == FrontBest(qual, t, i) && maxQual == FrontSum(qual, t, start)
      {
        s := s + ((cutFront' + QUAL_BASE) - qual[i]);
        if s < 0 {
          break;
        }
        if s > maxQual {
          maxQual := s;
          start := i + 1;
        }
        i := i + 1;
      }
    }
    stop := n;
    maxQual := 0;
    s := 0;
    var cutBack' := cutBack + QUAL_BASE;
    var i := n;
    while i > 0
      invariant 0 <= i <= n
      invariant s == BackSum(qual, cutBack', i)
      invariant BackReach(qual, cutBack', n) == BackReach(qual, cutBack', i)
      invariant stop == BackBest(qual, cutBack', i) && maxQual == BackSum(qual, cutBack', stop)
    {
      s := s + (cutBack' - qual[i - 1]);
      if s < 0 {
        break;
      }
      if s > maxQual {
        maxQual := s;
        stop := i - 1;
      }
      i := i - 1;
    }
    if start >= stop {
      start, stop := 0, 0;
    }
  }

  // ---------------------------------------------------------------------
  // Properties

  /** The 3' scan passes only non-negative suffix sums and stops at a
      negative one (or at the read's start). */
  lemma {:induction false} BackReachStops(qual: seq<byte>, t: int, i: nat)
    requires i <= |qual|
    ensures var r := BackReach(qual, t, i);
            (r == 0 || BackSum(qual, t, r - 1) < 0) &&
            forall j :: r <= j < i ==> BackSum(qual, t, j) >= 0
    decreases i
  {
    if i > 0 && BackSum(qual, t, i - 1) >= 0 {
      BackReachStops(qual, t, i - 1);
    }
  }

  /** `BackBest` is the rightmost maximum of the suffix sums on `[lo, |qual|]`. */
  lemma {:induction false} BackBestIsRightmostMax(qual: seq<byte>, t: int, lo: nat)
    requires lo <= |qual|
    ensures var r := BackBest(qual, t, lo);
            (forall j :: lo <= j <= |qual| ==> BackSum(qual, t, j) <= BackSum(qual, t, r)) &&
            (forall j :: r < j <= |qual| ==> BackSum(qual, t, j) < BackSum(qual, t, r))
    decreases |qual| - lo
  {
    if lo < |qual| {
      BackBestIsRightmostMax(qual, t, lo + 1);
    }
  }

  /** The 5' scan passes only non-negative prefix sums and stops before a
      negative one (or at the read's end). */
  lemma {:induction false} FrontReachStops(qual: seq<byte>, t: int, p: nat)
    requires p <= |qual|
    ensures var r := FrontReach(qual, t, p);
            (r == |qual| || FrontSum(qual, t, r + 1) < 0) &&
            forall k :: p < k <= r ==> FrontSum(qual, t, k) >= 0
    decreases |qual| - p
  {
    if p < |qual| && FrontSum(qual, t, p + 1) >= 0 {
      FrontReachStops(qual, t, p + 1);
    }
  }

  /** `FrontBest` is the leftmost maximum of the prefix sums on `[0, hi]`. */
  lemma {:induction false} FrontBestIsLeftmostMax(qual: seq<byte>, t: int, hi: nat)
    requires hi <= |qual|
    ensures var r := FrontBest(qual, t, hi);
            (forall k :: 0 <= k <= hi ==> FrontSum(qual, t, k) <= FrontSum(qual, t, r)) &&
            (forall k :: 0 <= k < r ==> FrontSum(qual, t, k) < FrontSum(qual, t, r))
  {
    if hi > 0 {
      FrontBestIsLeftmostMax(qual, t, hi - 1);
    }
  }

  lemma {:induction false} BackSumNonPositive(qual: seq<byte>, t: int, i: nat)
    requires i <= |qual|
    requires forall j :: 0 <= j < |qual| ==> qual[j] >= t
    ensures BackSum(qual, t, i) <= 0
    decreases |qual| - i
  {
    if i < |qual| {
      BackSumNonPositive(qual, t, i + 1);
    }
  }

  lemma {:induction false} FrontSumNonPositive(qual: seq<byte>, t: int, p: nat)
    requires p <= |qual|
    requires forall j :: 0 <= j < |qual| ==> qual[j] >= t
    ensures FrontSum(qual, t, p) <= 0
  {
    if p > 0 {
      FrontSumNonPositive(qual, t, p - 1);
    }
  }

  /** Every suffix that starts further left has a strictly larger sum when
      every byte is below the threshold. */
  lemma {:induction false} BackSumDecreasing(qual: seq<byte>, t: int, i: nat, j: nat)
    requires i < j <= |qual|
    requires forall k :: 0 <= k < |qual| ==> qual[k] < t
    ensures BackSum(qual, t, i) > BackSum(qual, t, j)
    decreases j - i
  {
    if i + 1 < j {
      BackSumDecreasing(qual, t, i + 1, j);
    }
  }

  /** With every byte at or above `cut_back + 33` and the 5' trim off, the
      whole read is kept. */
  lemma AllHighKeepsAll(qual: seq<byte>, cutFront: int, cutBack: int)
    requires cutFront <= 0
    requires forall j :: 0 <= j < |qual| ==> qual[j] >= cutBack + QUAL_BASE
    ensures QualTrimAsWritten(qual, cutFront, cutBack) == (0, |qual|)
  {
    var t := cutBack + QUAL_BASE;
    var stop := BackCut(qual, t);
    if stop < |qual| {
      BackSumNonPositive(qual, t, stop);
    }
  }

  /** With every byte below `cut_back + 33` nothing is kept. */
  lemma AllLowDropsAll(qual: seq<byte>, cutFront: int, cutBack: int)
    requires forall j :: 0 <= j < |qual| ==> qual[j] < cutBack + QUAL_BASE
    ensures QualTrimAsWritten(qual, cutFront, cutBack) == (0, 0)
  {
    var t := cutBack + QUAL_BASE;
    var n := |qual|;
    var reach := BackReach(qual, t, n);
    BackReachStops(qual, t, n);
    if reach > 0 {
      BackSumDecreasing(qual, t, reach - 1, n);
    }
    var stop := BackBest(qual, t, reach);
    BackBestIsRightmostMax(qual, t, reach);
    if stop > 0 {
      BackSumDecreasing(qual, t, 0, stop);
    }
  }

  /** Suffix sums under a larger threshold grow by the difference times the
      suffix length. */
  lemma {:induction false} BackSumShift(qual: seq<byte>, t1: int, t2: int, i: nat)
    requires i <= |qual|
    ensures BackSum(qual, t2, i) == BackSum(qual, t1, i) + (t2 - t1) * (|qual| - i)
    decreases |qual| - i
  {
    if i < |qual| {
      BackSumShift(qual, t1, t2, i + 1);
    }
  }

  lemma NonNegProduct(d: int, k: int)
    requires d >= 0 && k >= 0
    ensures d * k >= 0
  {
  }

  lemma ScaledGap(d: int, k1: int, k2: int)
    requires d >= 0 && k1 <= k2
    ensures d * k1 <= d * k2
  {
    assert d * k2 - d * k1 == d * (k2 - k1);
    NonNegProduct(d, k2 - k1);
  }

  /** Raising the 3' threshold lets the scan reach at least as far. */
  lemma BackReachMonotone(qual: seq<byte>, t1: int, t2: int)
    requires t1 <= t2
    ensures BackReach(qual, t2, |qual|) <= BackReach(qual, t1, |qual|)
  {
    var n := |qual|;
    var r1, r2 := BackReach(qual, t1, n), BackReach(qual, t2, n);
    BackReachStops(qual, t1, n);
    BackReachStops(qual, t2, n);
    if r2 > r1 {
      BackSumShift(qual, t1, t2, r2 - 1);
      NonNegProduct(t2 - t1, n - (r2 - 1));
      assert false;
    }
  }

  /** Raising the 3' threshold never moves the cut to the right. */
  lemma BackCutMonotone(qual: seq<byte>, t1: int, t2: int)
    requires t1 <= t2
    ensures BackCut(qual, t2) <= BackCut(qual, t1)
  {
    var n := |qual|;
    var r1, r2 := BackReach(qual, t1, n), BackReach(qual, t2, n);
    BackReachMonotone(qual, t1, t2);
    var b1, b2 := BackBest(qual, t1, r1), BackBest(qual, t2, r2);
    BackBestIsRightmostMax(qual, t1, r1);
    BackBestIsRightmostMax(qual, t2, r2);
    if b2 > b1 {
      // b2 lies right of the old cut, b1 inside the new scan's range
      assert BackSum(qual, t1, b2) < BackSum(qual, t1, b1);
      assert BackSum(qual, t2, b1) <= BackSum(qual, t2, b2);
      BackSumShift(qual, t1, t2, b1);
      BackSumShift(qual, t1, t2, b2);
      ScaledGap(t2 - t1, n - b2, n - b1);
      assert false;
    }
  }

  /** Raising the quality cutoff never lengthens the kept interval (with the
      5' trim off, as the record compactor calls it). */
  lemma QualTrimMonotone(qual: seq<byte>, cutFront: int, cut1: int, cut2: int)
    requires cutFront <= 0 && cut1 <= cut2
    ensures var (s1, e1) := QualTrimAsWritten(qual, cutFront, cut1);
            var (s2, e2) := QualTrimAsWritten(qual, cutFront, cut2);
            e2 - s2 <= e1 - s1
  {
    BackCutMonotone(qual, cut1 + QUAL_BASE, cut2 + QUAL_BASE);
  }

  /** As written, a single base of quality 40 (`I`, byte 73) with both
      cutoffs at 20 is dropped entirely: the 5' scan compares it with
      threshold 86 instead of 53. The fixed trimmer keeps it. */
  lemma FrontThresholdDoubled()
    ensures QualTrimAsWritten([73], 20, 20) == (0, 0)
    ensures QualTrimFixed([73], 20, 20) == (0, 1)
  {
    var q: seq<byte> := [73];
    assert FrontSum(q, 86, 1) == 13;
    assert FrontReach(q, 86, 0) == 1;
    assert FrontBest(q, 86, 1) == 1;
    assert BackSum(q, 53, 0) == -20;
    assert BackReach(q, 53, 1) == 1;
    assert FrontSum(q, 53, 1) == -20;
    assert FrontReach(q, 53, 0) == 0;
  }

  /** Fixed trimmer: a non-empty read whose every byte meets both cutoffs is
      kept whole. */
  lemma FixedKeepsHighQuality(qual: seq<byte>, cutFront: int, cutBack: int)
    requires |qual| > 0
    requires forall j :: 0 <= j < |qual| ==> qual[j] >= cutFront + QUAL_BASE
    requires forall j :: 0 <= j < |qual| ==> qual[j] >= cutBack + QUAL_BASE
    ensures QualTrimFixed(qual, cutFront, cutBack) == (0, |qual|)
  {
    var tb := cutBack + QUAL_BASE;
    var stop := BackCut(qual, tb);
    if stop < |qual| {
      BackSumNonPositive(qual, tb, stop);
    }
    if cutFront > 0 {
      var tf := cutFront + QUAL_BASE;
      var start := FrontCut(qual, tf);
      if start > 0 {
        FrontSumNonPositive(qual, tf, start);
      }
    }
  }
}
