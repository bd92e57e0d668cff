/** The bounded-mismatch adaptor matcher (`naive_matching`).

    With `n` the adaptor length and `m` the read length, the candidates are
    the offsets `i < FullLimit` where the whole adaptor fits (compared over
    `n` bytes), then the tail offsets `FullLimit <= i <= m - min_ltrs` where
    only `read[i..m)` is compared with `adaptor[0..m-i)`. The mismatch budget
    starts at `n * (1 - min_frac)` and shrinks by `1 - min_frac` per tail
    offset; `1 - min_frac` is the exact fraction `dNum / dDen` here. The
    result is the first candidate within its budget, or `m`. */
module Matching {
  import opened Bytes

  /** Number of `j < len` with `read[i + j] != adaptor[j]`. */
  function Mismatches(adaptor: seq<byte>, read: seq<byte>, i: nat, len: nat): nat
    requires len <= |adaptor| && i + len <= |read|
  {
    if len == 0 then 0
    else Mismatches(adaptor, read, i, len - 1) + (if read[i + len - 1] != adaptor[len - 1] then 1 else 0)
  }

  /** `i_lim1`: the first offset past the full-length candidates. */
  function FullLimit(n: nat, m: nat): nat
  {
    if n > m then 0 else m + 1 - n
  }

  /** One past the last candidate offset (full or tail). */
  function CandidateLimit(n: nat, m: nat, minLtrs: nat): (r: nat)
    requires minLtrs <= m + 1
    ensures r <= m + 1
  {
    Max(FullLimit(n, m), m + 1 - minLtrs)
  }

  predicate IsCandidate(n: nat, m: nat, minLtrs: nat, i: nat)
    requires minLtrs <= m + 1
  {
    i < CandidateLimit(n, m, minLtrs)
  }

  /** Number of bytes compared at offset `i`. */
  function Window(n: nat, m: nat, i: nat): (w: nat)
    requires i <= m
    ensures w <= n && i + w <= m
  {
    if i < FullLimit(n, m) then n else m - i
  }

  /** `d as usize` for a non-negative `d = num / den`, saturating at 0. */
  function Truncate(num: int, den: nat): nat
    requires den > 0
  {
    if num < 0 then 0 else num / den
  }

  /** The budget at offset `i`: `n * delta` for full candidates and
      `(n - k) * delta` at the `k`-th tail candidate. */
  function BudgetAt(n: nat, m: nat, i: nat, dNum: nat, dDen: nat): nat
    requires dDen > 0
  {
    var steps := if i < FullLimit(n, m) then 0 else i - FullLimit(n, m) + 1;
    Truncate((n - steps) * dNum, dDen)
  }

  /** The candidate at `i` stays within its budget over its window. */
  predicate Passes(adaptor: seq<byte>, read: seq<byte>, i: nat, dNum: nat, dDen: nat)
    requires dDen > 0 && i <= |read|
  {
    Mismatches(adaptor, read, i, Window(|adaptor|, |read|, i))
      <= BudgetAt(|adaptor|, |read|, i, dNum, dDen)
  }

  /** The first passing candidate at or after `i`, or the read length. */
  function FirstPass(adaptor: seq<byte>, read: seq<byte>, dNum: nat, dDen: nat, minLtrs: nat, i: nat): (r: nat)
    requires dDen > 0 && minLtrs <= |read| + 1
    requires i <= CandidateLimit(|adaptor|, |read|, minLtrs)
    ensures r <= |read|
    ensures r < |read| ==> i <= r && IsCandidate(|adaptor|, |read|, minLtrs, r) && Passes(adaptor, read, r, dNum, dDen)
    ensures forall j :: i <= j < r && IsCandidate(|adaptor|, |read|, minLtrs, j) ==> !Passes(adaptor, read, j, dNum, dDen)
    decreases CandidateLimit(|adaptor|, |read|, minLtrs) - i
  {
    if i == CandidateLimit(|adaptor|, |read|, minLtrs) then |read|
    else if Passes(adaptor, read, i, dNum, dDen) then i
    else FirstPass(adaptor, read, dNum, dDen, minLtrs, i + 1)
  }

  /** What `naive_matching` returns: the earliest candidate within budget,
      or the read length when there is none. */
  function NaiveMatchSpec(adaptor: seq<byte>, read: seq<byte>, dNum: nat, dDen: nat, minLtrs: nat): (r: nat)
    requires dDen > 0 && minLtrs <= |read| + 1
    ensures r <= |read|
    ensures r < |read| ==> IsCandidate(|adaptor|, |read|, minLtrs, r) && Passes(adaptor, read, r, dNum, dDen)
    ensures forall j: nat :: j < r && IsCandidate(|adaptor|, |read|, minLtrs, j) ==> !Passes(adaptor, read, j, dNum, dDen)
  {
    FirstPass(adaptor, read, dNum, dDen, minLtrs, 0)
  }

  lemma {:induction false} MismatchesMonotone(adaptor: seq<byte>, read: seq<byte>, i: nat, j: nat, len: nat)
    requires j <= len <= |adaptor| && i + len <= |read|
    ensures Mismatches(adaptor, read, i, j) <= Mismatches(adaptor, read, i, len)
    decreases len - j
  {
    if j < len {
      MismatchesMonotone(adaptor, read, i, j, len - 1);
    }
  }

  /** No mismatch exactly when the compared bytes agree. */
  lemma {:induction false} MismatchesZero(adaptor: seq<byte>, read: seq<byte>, i: nat, len: nat)
    requires len <= |adaptor| && i + len <= |read|
    ensures Mismatches(adaptor, read, i, len) == 0 <==> read[i..i + len] == adaptor[..len]
  {
    if len > 0 {
      MismatchesZero(adaptor, read, i, len - 1);
      assert read[i..i + len] == read[i..i + len - 1] + [read[i + len - 1]];
      assert adaptor[..len] == adaptor[..len - 1] + [adaptor[len - 1]];
    }
  }

  /** The inner `while` of `naive_matching`: count mismatches over the
      first `len` positions at offset `i`, giving up once the count exceeds
      `budget`. */
  method CountWithin(adaptor: seq<byte>, read: seq<byte>, i: nat, len: nat, budget: nat) returns (d: nat)
    requires len <= |adaptor| && i + len <= |read|
    ensures (d <= budget) <==> (Mismatches(adaptor, read, i, len) <= budget)
    ensures d <= budget ==> d == Mismatches(adaptor, read, i, len)
    ensures d > budget ==> 0 < len
  {
    d := 0;
    var j := 0;
    while d <= budget && j < len
      invariant 0 <= j <= len
      invariant d == Mismatches(adaptor, read, i, j) && d <= j
    {
      if read[i + j] != adaptor[j] {
        d := d + 1;
      }
      j := j + 1;
    }
    MismatchesMonotone(adaptor, read, i, j, len);
  }

  /** `k * delta`, scaled by `dDen`. */
  function Scaled(k: int, dNum: nat): int
  {
    k * dNum
  }

  /** One tail step of the budget: `d_max - delta` is the budget
      numerator at the tail offset `i`. */
  lemma TailBudget(n: nat, m: nat, i: nat, dNum: nat, dDen: nat, dMax: int)
    requires dDen > 0 && FullLimit(n, m) <= i && dMax == Scaled(n - (i - FullLimit(n, m)), dNum)
    ensures dMax - dNum == Scaled(n - (i + 1 - FullLimit(n, m)), dNum)
    ensures Truncate(dMax - dNum, dDen) == BudgetAt(n, m, i, dNum, dDen)
  {
  }

  /** One candidate of the scan: it is the answer if it passes, and
      otherwise the answer lies further on. */
  lemma PassStep(adaptor: seq<byte>, read: seq<byte>, dNum: nat, dDen: nat, minLtrs: nat, i: nat)
    requires dDen > 0 && minLtrs <= |read| + 1
    requires i < CandidateLimit(|adaptor|, |read|, minLtrs)
    ensures Passes(adaptor, read, i, dNum, dDen) ==> FirstPass(adaptor, read, dNum, dDen, minLtrs, i) == i
    ensures !Passes(adaptor, read, i, dNum, dDen) ==>
            FirstPass(adaptor, read, dNum, dDen, minLtrs, i) == FirstPass(adaptor, read, dNum, dDen, minLtrs, i + 1)
  {
  }

  /** `naive_matching`: the scan over the full-length candidates, then,
      if none passes, the scan over the tail candidates with the shrinking
      budget. */
  method NaiveMatching(adaptor: seq<byte>, read: seq<byte>, dNum: nat, dDen: nat, minLtrs: nat) returns (pos: nat)
    requires dDen > 0
    requires minLtrs <= |read| + 1
    ensures pos == NaiveMatchSpec(adaptor, read, dNum, dDen, minLtrs)
  {
    var dMax: int := |adaptor| * dNum;  // d_max, scaled by dDen
    var hit;
    pos, hit := FullScan(adaptor, read, dNum, dDen, minLtrs, dMax);
    if !hit {
      pos := TailScan(adaptor, read, dNum, dDen, minLtrs, dMax);
    }
  }

  /** The first loop of `naive_matching`: the offsets where the whole
      adaptor fits, each against the full budget `d_max`. */
  method FullScan(adaptor: seq<byte>, read: seq<byte>, dNum: nat, dDen: nat, minLtrs: nat, dMax: int)
    returns (i: nat, hit: bool)
    requires dDen > 0 && minLtrs <= |read| + 1
    requires dMax == |adaptor| * dNum
    ensures hit ==> i == NaiveMatchSpec(adaptor, read, dNum, dDen, minLtrs)
    ensures !hit ==> 0 < |adaptor| && i == FullLimit(|adaptor|, |read|) &&
                     NaiveMatchSpec(adaptor, read, dNum, dDen, minLtrs) == FirstPass(adaptor, read, dNum, dDen, minLtrs, i)
  {
    var n := |adaptor|;
    var m := |read|;
    var iLim1 := if n > m then 0 else m + 1 - n;
    i := 0;
    while i < iLim1
      invariant 0 <= i <= iLim1
      invariant n == 0 ==> i == 0  // an empty adaptor matches at once
      invariant NaiveMatchSpec(adaptor, read, dNum, dDen, minLtrs)
             == FirstPass(adaptor, read, dNum, dDen, minLtrs, i)
    {
      var budget := Truncate(dMax, dDen);
      assert budget == BudgetAt(n, m, i, dNum, dDen) && Window(n, m, i) == n;
      var d := CountWithin(adaptor, read, i, n, budget);
      PassStep(adaptor, read, dNum, dDen, minLtrs, i);
      if d <= budget {
        return i, true;
      }
      i := i + 1;
    }
    hit := false;
  }

  /** The second loop of `naive_matching`: the tail offsets from
      `FullLimit` on, comparing `read[i..m)` with the adaptor's prefix while
      the budget shrinks by `delta` per offset. */
  method TailScan(adaptor: seq<byte>, read: seq<byte>, dNum: nat, dDen: nat, minLtrs: nat, dMax0: int)
    returns (pos: nat)
    requires dDen > 0 && minLtrs <= |read| + 1
    requires 0 < |adaptor| && dMax0 == Scaled(|adaptor|, dNum)
    requires NaiveMatchSpec(adaptor, read, dNum, dDen, minLtrs)
          == FirstPass(adaptor, read, dNum, dDen, minLtrs, FullLimit(|adaptor|, |read|))
    ensures pos == NaiveMatchSpec(adaptor, read, dNum, dDen, minLtrs)
  {
    var n := |adaptor|;
    var m := |read|;
    var iLim1 := if n > m then 0 else m + 1 - n;
    var iLim2 := m + 1 - minLtrs;
    var jLim: nat := m - iLim1;
    var dMax := dMax0;
    var i := iLim1;
    while i < iLim2
      invariant iLim1 <= i <= Max(iLim1, iLim2)
      invariant i + jLim == m
      invariant dMax == Scaled(n - (i - iLim1), dNum)
      invariant NaiveMatchSpec(adaptor, read, dNum, dDen, minLtrs)
             == FirstPass(adaptor, read, dNum, dDen, minLtrs, i)
    {
      TailBudget(n, m, i, dNum, dDen, dMax);
      dMax := dMax - dNum;
      var budget := Truncate(dMax, dDen);
      assert Window(n, m, i) == jLim;
      var d := CountWithin(adaptor, read, i, jLim, budget);
      PassStep(adaptor, read, dNum, dDen, minLtrs, i);
      if d <= budget {
        return i;
      }
      jLim := jLim - 1;
      i := i + 1;
    }
    return m;
  }

  // ---------------------------------------------------------------------
  // Properties

  /** An exact occurrence of the whole adaptor at `i` is found at `i` or
      earlier, whatever the budget. */
  lemma ExactOccurrenceFound(adaptor: seq<byte>, read: seq<byte>, dNum: nat, dDen: nat, minLtrs: nat, i: nat)
    requires dDen > 0 && minLtrs <= |read| + 1
    requires i + |adaptor| <= |read| && read[i..i + |adaptor|] == adaptor
    ensures NaiveMatchSpec(adaptor, read, dNum, dDen, minLtrs) <= i
  {
    var n, m := |adaptor|, |read|;
    assert adaptor[..n] == adaptor;
    MismatchesZero(adaptor, read, i, n);
    assert i < FullLimit(n, m) && Window(n, m, i) == n;
    assert Passes(adaptor, read, i, dNum, dDen);
  }

  /** A read whose tail `read[i..m)` is an adaptor prefix of at least
      `min_ltrs` bytes is cut at `i` or earlier, whatever the budget. */
  lemma TailOccurrenceFound(adaptor: seq<byte>, read: seq<byte>, dNum: nat, dDen: nat, minLtrs: nat, i: nat)
    requires dDen > 0
    requires i <= |read| && |read| - i >= minLtrs && |read| - i <= |adaptor|
    requires read[i..] == adaptor[..|read| - i]
    ensures NaiveMatchSpec(adaptor, read, dNum, dDen, minLtrs) <= i
  {
    var n, m := |adaptor|, |read|;
    assert Window(n, m, i) == m - i;
    assert read[i..i + (m - i)] == read[i..];
    MismatchesZero(adaptor, read, i, m - i);
    assert Passes(adaptor, read, i, dNum, dDen);
    assert IsCandidate(n, m, minLtrs, i);
  }

  /** With `min_frac = 1` (no tolerance) a candidate passes exactly when
      its window matches the adaptor prefix. */
  lemma NoToleranceMeansExact(adaptor: seq<byte>, read: seq<byte>, dDen: nat, i: nat)
    requires dDen > 0 && i <= |read|
    ensures var w := Window(|adaptor|, |read|, i);
            Passes(adaptor, read, i, 0, dDen) <==> read[i..i + w] == adaptor[..w]
  {
    MismatchesZero(adaptor, read, i, Window(|adaptor|, |read|, i));
  }

  lemma MismatchAt(adaptor: seq<byte>, read: seq<byte>, i: nat, len: nat, j: nat)
    requires len <= |adaptor| && i + len <= |read|
    requires j < len && read[i + j] != adaptor[j]
    ensures Mismatches(adaptor, read, i, len) > 0
  {
    MismatchesZero(adaptor, read, i, len);
    assert read[i..i + len][j] != adaptor[..len][j];
  }

  /** The default adaptor `AGATCGGAAGAGC` appended to `ACGT`, with
      `min_frac = 1` and minimum overlap 1, is cut at offset 4. */
  lemma DefaultAdaptorAfterFourBases()
    ensures var A, C, G, T := 65, 67, 71, 84;
            var adaptor: seq<byte> := [A, G, A, T, C, G, G, A, A, G, A, G, C];
            NaiveMatchSpec(adaptor, [A, C, G, T] + adaptor, 0, 1, 1) == 4
  {
    var A, C, G, T := 65, 67, 71, 84;
    var adaptor: seq<byte> := [A, G, A, T, C, G, G, A, A, G, A, G, C];
    var read := [A, C, G, T] + adaptor;
    assert read[4..4 + |adaptor|] == adaptor;
    ExactOccurrenceFound(adaptor, read, 0, 1, 1, 4);
    var r := NaiveMatchSpec(adaptor, read, 0, 1, 1);
    assert FullLimit(13, 17) == 5;
    MismatchAt(adaptor, read, 0, 13, 1);
    MismatchAt(adaptor, read, 1, 13, 0);
    MismatchAt(adaptor, read, 2, 13, 0);
    MismatchAt(adaptor, read, 3, 13, 0);
    assert !Passes(adaptor, read, 0, 0, 1) && !Passes(adaptor, read, 1, 0, 1);
    assert !Passes(adaptor, read, 2, 0, 1) && !Passes(adaptor, read, 3, 0, 1);
    assert IsCandidate(13, 17, 1, 0) && IsCandidate(13, 17, 1, 1);
    assert IsCandidate(13, 17, 1, 2) && IsCandidate(13, 17, 1, 3);
  }

  /** At the default settings (a 13-base adaptor, `min_frac = 0.9`) the
      10-base tail overlap of a 20-base read gets a budget of 1 when
      `1 - min_frac` is the ratio 1/10, and 0 when it is the exact binary
      value of `1 - 0.9`, 900719925474099 / 2^53; the 11-base overlap gets
      1 under both. */
  lemma DefaultTailBudgets()
    ensures Window(13, 20, 10) == 10 && Window(13, 20, 9) == 11
    ensures BudgetAt(13, 20, 10, 1, 10) == 1
    ensures BudgetAt(13, 20, 10, 900719925474099, 9007199254740992) == 0
    ensures BudgetAt(13, 20, 9, 900719925474099, 9007199254740992) == 1
  {
    assert FullLimit(13, 20) == 8;
  }
}
