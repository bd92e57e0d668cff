/** The per-record trimmer `FQRec::process`: it intersects the quality, `N`
    and adaptor bounds of a record's read and rewrites the record, in the
    buffer it was read into, as the name up to its first space, the kept
    bases, a bare `+` line and the kept quality bytes. */
module Compact {
  import opened Bytes
  import opened NTrim
  import opened QualTrim
  import opened Matching
  import opened Records

  /** The trimming parameters handed to every record: the adaptor, the
      quality cutoff, the tolerated mismatch fraction `1 - min_frac` as the
      exact ratio `dNum / dDen`, and the minimum adaptor overlap. */
  datatype Params = Params(adaptor: seq<byte>, cutoff: byte, dNum: nat, dDen: nat, minLtrs: nat)

  /** The four lines of a record, without their line ends. */
  datatype Lines = Lines(name: seq<byte>, read: seq<byte>, plus: seq<byte>, qual: seq<byte>)

  /** `get_next_record` finds a record that ends exactly at the end of `R`. */
  predicate Complete(R: seq<byte>)
  {
    |R| < USIZE_MAX && RecordAt(R, |R|, 0).e == |R|
  }

  /** The line bodies of a complete record, cut at the offsets that
      `get_next_record` reports. */
  function LinesOf(R: seq<byte>): Lines
    requires Complete(R)
  {
    RecordAtFramed(R, |R|, 0);
    var rec := RecordAt(R, |R|, 0);
    Lines(R[..rec.r - 1], R[rec.r..rec.o - 1], R[rec.o..rec.q - 1], R[rec.q..rec.e - 1])
  }

  /** The bytes of a record with these lines. */
  function Print(l: Lines): seq<byte>
  {
    Record4(l.name, l.read, l.plus, l.qual)
  }

  predicate Bodies(l: Lines)
  {
    LineBody(l.name) && LineBody(l.read) && LineBody(l.plus) && LineBody(l.qual)
  }

  /** Parsing a complete record and printing its lines gives it back. */
  lemma PrintLinesOf(R: seq<byte>)
    requires Complete(R)
    ensures Bodies(LinesOf(R)) && Print(LinesOf(R)) == R
  {
    var rec := RecordAt(R, |R|, 0);
    RecordAtFramed(R, |R|, 0);
    var l := LinesOf(R);
    assert l == Lines(R[..rec.r - 1], R[rec.r..rec.o - 1], R[rec.o..rec.q - 1], R[rec.q..rec.e - 1]);
    FramedIsRecord4(R, rec);
  }

  /** Printing lines without line ends and parsing the result gives them
      back. */
  lemma LinesOfPrint(l: Lines)
    requires Bodies(l) && |Print(l)| < USIZE_MAX
    ensures Complete(Print(l)) && LinesOf(Print(l)) == l
  {
    var out := Print(l);
    var r := |l.name| + 1;
    var o := r + |l.read| + 1;
    var q := o + |l.plus| + 1;
    Record4Parses(l.name, l.read, l.plus, l.qual);
    Record4Lines(l.name, l.read, l.plus, l.qual);
    LinesBack(out, l, FQRec(0, r, o, q, |out|));
  }

  /** Bytes whose record offsets cut out the four lines of `l` parse back
      to `l`. */
  lemma LinesBack(out: seq<byte>, l: Lines, rec: FQRec)
    requires |out| < USIZE_MAX && RecordAt(out, |out|, 0) == rec && rec.e == |out|
    requires out[..rec.r - 1] == l.name && out[rec.r..rec.o - 1] == l.read
    requires out[rec.o..rec.q - 1] == l.plus && out[rec.q..rec.e - 1] == l.qual
    ensures Complete(out) && LinesOf(out) == l
  {
    LinesOfAt(out, rec);
  }

  /** The lines of a complete record, from the offsets found in it. */
  lemma LinesOfAt(R: seq<byte>, rec: FQRec)
    requires |R| < USIZE_MAX && RecordAt(R, |R|, 0) == rec && rec.e == |R|
    ensures Complete(R) && LinesOf(R) == Lines(R[..rec.r - 1], R[rec.r..rec.o - 1], R[rec.o..rec.q - 1], R[rec.q..rec.e - 1])
  {
    RecordAtFramed(R, |R|, 0);
  }

  /** A record `process` can rewrite in place: it is complete, its
      separator line is not empty (a FASTQ separator starts with `+`), and
      its quality line is at least as long as its read. */
  predicate WellFormed(R: seq<byte>)
  {
    Complete(R) && |LinesOf(R).plus| > 0 && |LinesOf(R).read| <= |LinesOf(R).qual|
  }

  /** The quality bytes `process` reads: `seqlen` bytes from the start of
      the quality line. */
  function QualOf(l: Lines): (ql: seq<byte>)
    requires |l.read| <= |l.qual|
    ensures |ql| == |l.read|
  {
    l.qual[..|l.read|]
  }

  /** The read cut at the quality stop and at the `N` stop: the part of the
      read the adaptor is searched in. */
  function SearchLen(sq: seq<byte>, ql: seq<byte>, cutoff: byte): (len: nat)
    requires |ql| == |sq|
    ensures len <= |sq|
  {
    Min(QualTrimFixed(ql, 0, cutoff as int).1, TrimNEnds(sq).1)
  }

  /** The parameters suit the record: a ratio, and a minimum overlap that
      does not exceed the searched length plus one (beyond it
      `m + 1 - min_ltrs` in `naive_matching` underflows). */
  predicate Fits(l: Lines, p: Params)
  {
    |l.read| <= |l.qual| && p.dDen > 0 &&
    p.minLtrs <= SearchLen(l.read, QualOf(l), p.cutoff) + 1
  }

  predicate Processable(R: seq<byte>, p: Params)
  {
    WellFormed(R) && Fits(LinesOf(R), p)
  }

  /** The kept interval `[start, stop)` of a read with quality bytes `ql`:
      the quality and `N` stops are intersected, the adaptor is searched in
      what is left and cut off, the `N`s at the new end are trimmed again,
      and `start` is the larger of the two starts, capped at `stop`. */
  function Bounds(sq: seq<byte>, ql: seq<byte>, p: Params): (b: (nat, nat))
    requires |ql| == |sq| && p.dDen > 0
    requires p.minLtrs <= SearchLen(sq, ql, p.cutoff) + 1
    ensures b.0 <= b.1 <= SearchLen(sq, ql, p.cutoff) <= |sq|
  {
    var q := QualTrimFixed(ql, 0, p.cutoff as int);
    var nt := TrimNEnds(sq);
    var stop1 := Min(q.1, nt.1);
    var adaptorStart := NaiveMatchSpec(p.adaptor, sq[..stop1], p.dNum, p.dDen, p.minLtrs);
    var stop2 := Min(stop1, adaptorStart);
    var stop := Min(stop2, TrimNEnds(sq[..stop2]).1);
    (Min(Max(q.0, nt.0), stop), stop)
  }

  // ---------------------------------------------------------------------
  // The kept interval

  /** The kept interval lies inside the quality interval, the `N` interval
      and before the adaptor match; its ends are bases other than `N`, it
      starts at the first such base, and only `N`s lie between its end and
      the quality, `N` and adaptor limit, so it is cut no shorter than
      needed. */
  lemma BoundsSpec(sq: seq<byte>, ql: seq<byte>, p: Params)
    requires |ql| == |sq| && p.dDen > 0
    requires p.minLtrs <= SearchLen(sq, ql, p.cutoff) + 1
    ensures var start, stop := Bounds(sq, ql, p).0, Bounds(sq, ql, p).1;
            var len := SearchLen(sq, ql, p.cutoff);
            stop <= QualTrimFixed(ql, 0, p.cutoff as int).1 && stop <= TrimNEnds(sq).1 &&
            stop <= NaiveMatchSpec(p.adaptor, sq[..len], p.dNum, p.dDen, p.minLtrs) &&
            (stop > 0 ==> sq[stop - 1] != BASE_N) &&
            (start < stop ==> start == TrimNEnds(sq).0 && sq[start] != BASE_N)
    ensures var len := SearchLen(sq, ql, p.cutoff);
            var lim := Min(len, NaiveMatchSpec(p.adaptor, sq[..len], p.dNum, p.dDen, p.minLtrs));
            forall j :: Bounds(sq, ql, p).1 <= j < lim ==> sq[j] == BASE_N
  {
    var len := SearchLen(sq, ql, p.cutoff);
    var stop2 := Min(len, NaiveMatchSpec(p.adaptor, sq[..len], p.dNum, p.dDen, p.minLtrs));
    TrimNEndsPrefix(sq, stop2);
    var t := TrimNEnds(sq[..stop2]).1;
    if t > 0 {
      assert sq[..stop2][t - 1] == sq[t - 1];
    }
    assert Bounds(sq, ql, p).1 == Min(stop2, t);
    forall j | Bounds(sq, ql, p).1 <= j < stop2
      ensures sq[j] == BASE_N
    {
      assert sq[..stop2][j] == sq[j];
    }
  }

  /** A read with no `N`, no quality byte below the cutoff and no passing
      adaptor candidate is kept whole. */
  lemma BoundsCleanRead(sq: seq<byte>, ql: seq<byte>, p: Params)
    requires |ql| == |sq| && p.dDen > 0 && p.minLtrs <= |sq| + 1
    requires forall j :: 0 <= j < |sq| ==> sq[j] != BASE_N
    requires forall j :: 0 <= j < |ql| ==> ql[j] >= p.cutoff as int + QUAL_BASE
    requires forall i: nat :: i < |sq| && IsCandidate(|p.adaptor|, |sq|, p.minLtrs, i) ==>
               !Passes(p.adaptor, sq, i, p.dNum, p.dDen)
    ensures SearchLen(sq, ql, p.cutoff) == |sq|
    ensures Bounds(sq, ql, p) == (0, |sq|)
  {
    AllHighKeepsAll(ql, 0, p.cutoff as int);
    assert sq[..|sq|] == sq;
    var a := NaiveMatchSpec(p.adaptor, sq, p.dNum, p.dDen, p.minLtrs);
    assert a == |sq|;
  }

  /** A read whose quality bytes are all below the cutoff is dropped. */
  lemma BoundsLowQuality(sq: seq<byte>, ql: seq<byte>, p: Params)
    requires |ql| == |sq| && p.dDen > 0 && p.minLtrs <= 1
    requires forall j :: 0 <= j < |ql| ==> ql[j] < p.cutoff as int + QUAL_BASE
    ensures SearchLen(sq, ql, p.cutoff) == 0
    ensures Bounds(sq, ql, p) == (0, 0)
  {
    AllLowDropsAll(ql, 0, p.cutoff as int);
  }

  /** An exact copy of the adaptor in the searched part of the read cuts the
      read at or before it. */
  lemma BoundsAdaptorCut(sq: seq<byte>, ql: seq<byte>, p: Params, i: nat)
    requires |ql| == |sq| && p.dDen > 0
    requires p.minLtrs <= SearchLen(sq, ql, p.cutoff) + 1
    requires i + |p.adaptor| <= SearchLen(sq, ql, p.cutoff)
    requires sq[i..i + |p.adaptor|] == p.adaptor
    ensures Bounds(sq, ql, p).1 <= i
  {
    var len := SearchLen(sq, ql, p.cutoff);
    assert sq[..len][i..i + |p.adaptor|] == sq[i..i + |p.adaptor|];
    ExactOccurrenceFound(p.adaptor, sq[..len], p.dNum, p.dDen, p.minLtrs, i);
    BoundsSpec(sq, ql, p);
  }

  /** A searched part that ends in an adaptor prefix of at least `min_ltrs`
      bases is cut at or before that prefix. */
  lemma BoundsAdaptorTail(sq: seq<byte>, ql: seq<byte>, p: Params, i: nat)
    requires |ql| == |sq| && p.dDen > 0
    requires p.minLtrs <= SearchLen(sq, ql, p.cutoff) + 1
    requires i <= SearchLen(sq, ql, p.cutoff)
    requires SearchLen(sq, ql, p.cutoff) - i >= p.minLtrs
    requires SearchLen(sq, ql, p.cutoff) - i <= |p.adaptor|
    requires sq[i..SearchLen(sq, ql, p.cutoff)] == p.adaptor[..SearchLen(sq, ql, p.cutoff) - i]
    ensures Bounds(sq, ql, p).1 <= i
  {
    var len := SearchLen(sq, ql, p.cutoff);
    assert sq[..len][i..] == sq[i..len];
    TailOccurrenceFound(p.adaptor, sq[..len], p.dNum, p.dDen, p.minLtrs, i);
    BoundsSpec(sq, ql, p);
  }

  // ---------------------------------------------------------------------
  // The rewritten record

  predicate IsSpace(b: byte) { b == SPACE }

  /** Where the read name ends: at the first space of the name line, or at
      its end. */
  function NameEnd(name: seq<byte>): (k: nat)
    ensures k <= |name|
    ensures k < |name| ==> name[k] == SPACE
    ensures forall j :: 0 <= j < k ==> name[j] != SPACE
  {
    match Position(name, IsSpace)
    case Some(x) => x
    case None => |name|
  }

  /** The lines `process` writes back: the name up to its first space, the
      kept bases, a bare `+`, and the quality bytes at the kept positions. */
  function Trim(l: Lines, p: Params): Lines
    requires Fits(l, p)
  {
    var ql := QualOf(l);
    var b := Bounds(l.read, ql, p);
    Lines(l.name[..NameEnd(l.name)], l.read[b.0..b.1], [PLUS], ql[b.0..b.1])
  }

  /** The rewritten record. */
  function Rewrite(R: seq<byte>, p: Params): seq<byte>
    requires Processable(R, p)
  {
    Print(Trim(LinesOf(R), p))
  }

  /** A stretch of a line body is a line body. */
  lemma BodySlice(xs: seq<byte>, a: nat, b: nat)
    requires LineBody(xs) && a <= b <= |xs|
    ensures LineBody(xs[a..b])
  {
    forall j | 0 <= j < b - a ensures xs[a..b][j] != NL {
      assert xs[a..b][j] == xs[a + j];
    }
  }

  /** The trimmed lines are again line bodies; the separator becomes a lone
      `+`, the quality line as long as the read line, and the record no
      longer than before when the separator line was not empty. */
  lemma TrimKeepsBodies(l: Lines, p: Params)
    requires Bodies(l) && Fits(l, p)
    ensures var t := Trim(l, p);
            Bodies(t) && t.plus == [PLUS] && |t.read| == |t.qual| <= |l.read|
    ensures |l.plus| > 0 ==> |Print(Trim(l, p))| <= |Print(l)|
  {
    var b := Bounds(l.read, QualOf(l), p);
    CutBodies(l, NameEnd(l.name), b.0, b.1);
  }

  /** Cutting the name at `k` and the read and its quality bytes to
      `[lo, hi)` keeps line bodies and shortens the record. */
  lemma CutBodies(l: Lines, k: nat, lo: nat, hi: nat)
    requires Bodies(l) && k <= |l.name| && lo <= hi <= |l.read| <= |l.qual|
    ensures var t := Lines(l.name[..k], l.read[lo..hi], [PLUS], l.qual[..|l.read|][lo..hi]);
            Bodies(t) && |t.read| == |t.qual| <= |l.read|
    ensures |l.plus| > 0 ==>
            |Print(Lines(l.name[..k], l.read[lo..hi], [PLUS], l.qual[..|l.read|][lo..hi]))| <= |Print(l)|
  {
    var ql := l.qual[..|l.read|];
    BodySlice(l.name, 0, k);
    BodySlice(l.read, lo, hi);
    BodySlice(l.qual, 0, |l.read|);
    BodySlice(ql, lo, hi);
    assert l.name[0..k] == l.name[..k];
  }

  /** The rewritten record is again a well-formed record, no longer than
      the original, and parsing it gives the trimmed lines. */
  lemma RewriteIsRecord(R: seq<byte>, p: Params)
    requires Processable(R, p)
    ensures WellFormed(Rewrite(R, p)) && |Rewrite(R, p)| <= |R|
    ensures LinesOf(Rewrite(R, p)) == Trim(LinesOf(R), p)
  {
    var l := LinesOf(R);
    PrintLinesOf(R);
    TrimKeepsBodies(l, p);
    LinesOfPrint(Trim(l, p));
  }
}
