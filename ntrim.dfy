/** The ambiguity trimmer: the first and one-past-the-last position of a
    base other than `N` (`trim_n_ends`). */
module NTrim {
  import opened Bytes

  predicate NotN(b: byte) { b != BASE_N }

  /** `trim_n_ends`: `(start, stop)` with `start` the first non-`N` index and
      `stop` one past the last one; each falls back to 0 when there is none. */
  function TrimNEnds(read: seq<byte>): (r: (nat, nat))
    ensures r.0 <= r.1 <= |read|
    ensures (forall j :: 0 <= j < |read| ==> read[j] != BASE_N) ==> r == (0, |read|)
    ensures r.1 == 0 <==> forall j :: 0 <= j < |read| ==> read[j] == BASE_N
    ensures r.1 == 0 ==> r == (0, 0)
    ensures r.1 > 0 ==> r.0 < r.1
    ensures r.1 > 0 ==> read[r.0] != BASE_N && read[r.1 - 1] != BASE_N
    ensures forall j :: 0 <= j < r.0 ==> read[j] == BASE_N
    ensures forall j :: r.1 <= j < |read| ==> read[j] == BASE_N
  {
    var first := Position(read, NotN);
    var last := RPosition(read, NotN);
    (match first case Some(x) => x case None => 0,
     match last case Some(x) => x + 1 case None => 0)
  }

  /** Trimming a read that was already trimmed keeps all of it. */
  lemma TrimNEndsIdempotent(read: seq<byte>)
    ensures var (start, stop) := TrimNEnds(read);
            TrimNEnds(read[start..stop]) == (0, stop - start)
  {
    var (start, stop) := TrimNEnds(read);
    var kept := read[start..stop];
    if stop > 0 {
      assert kept[0] == read[start] && kept[|kept| - 1] == read[stop - 1];
      assert kept[0] != BASE_N && kept[|kept| - 1] != BASE_N;
    }
  }

  /** `stop` of a prefix never exceeds the prefix length, and a prefix that
      keeps every non-`N` base has the same `stop`. */
  lemma TrimNEndsPrefix(read: seq<byte>, k: nat)
    requires k <= |read|
    ensures TrimNEnds(read[..k]).1 <= k
    ensures TrimNEnds(read).1 <= k ==> TrimNEnds(read[..k]).1 == TrimNEnds(read).1
  {
    var stop := TrimNEnds(read).1;
    var p := read[..k];
    var pstop := TrimNEnds(p).1;
    if stop <= k {
      if stop == 0 {
        assert forall j :: 0 <= j < |p| ==> p[j] == read[j];
      } else {
        // the last non-N base of `read` is in the prefix, and nothing after it is
        assert p[stop - 1] == read[stop - 1];
        assert pstop >= stop;
        assert pstop > 0 ==> read[pstop - 1] == p[pstop - 1];
      }
    }
  }
}
