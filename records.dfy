/** The record locator: `next_line`, `get_next_record` and the loop of
    `process_reads` that collects the complete records of a filled buffer.
    A record is five offsets into the buffer (`FQRec`); `usize::MAX` stands
    for "no further line end before `filled`" and propagates through the
    chained `next_line` calls. */
module Records {
  import opened Bytes

  /** Start of the name line, of the sequence line, of the `+` line, of the
      quality line, and the end of the record. */
  datatype FQRec = FQRec(n: nat, r: nat, o: nat, q: nat, e: nat)

  predicate NoNewline(s: seq<byte>, lo: nat, hi: nat)
    requires lo <= hi <= |s|
  {
    forall k :: lo <= k < hi ==> s[k] != NL
  }

  /** `rec` spans four complete lines of `s`: each of `r`, `o`, `q`, `e` is
      one past a line end, and there is no other line end in `[n, e)`. */
  predicate Framed(s: seq<byte>, rec: FQRec)
  {
    rec.n < rec.r < rec.o < rec.q < rec.e <= |s| &&
    s[rec.r - 1] == NL && s[rec.o - 1] == NL && s[rec.q - 1] == NL && s[rec.e - 1] == NL &&
    NoNewline(s, rec.n, rec.r - 1) && NoNewline(s, rec.r, rec.o - 1) &&
    NoNewline(s, rec.o, rec.q - 1) && NoNewline(s, rec.q, rec.e - 1)
  }

  /** `next_line`: one past the first line end in `[offset, filled)`, or
      `usize::MAX` when there is none. */
  function LineAfter(s: seq<byte>, filled: nat, offset: nat): (p: nat)
    requires filled <= |s| < USIZE_MAX
    ensures p == USIZE_MAX || (offset < p <= filled && s[p - 1] == NL)
    decreases if offset <= filled then filled - offset else 0
  {
    if offset >= filled then USIZE_MAX
    else if s[offset] == NL then offset + 1
    else LineAfter(s, filled, offset + 1)
  }

  /** `next_line` skips no line end: before the one it finds there is none,
      and when it finds none there is none up to `filled`. */
  lemma {:induction false} LineAfterFirst(s: seq<byte>, filled: nat, offset: nat)
    requires filled <= |s| < USIZE_MAX
    ensures var p := LineAfter(s, filled, offset);
            (p == USIZE_MAX ==> forall k :: offset <= k < filled ==> s[k] != NL) &&
            (p != USIZE_MAX ==> NoNewline(s, offset, p - 1))
    decreases if offset <= filled then filled - offset else 0
  {
    if offset < filled && s[offset] != NL {
      LineAfterFirst(s, filled, offset + 1);
    }
  }

  /** The loop of `next_line`. */
  method NextLine(buf: array<byte>, filled: nat, offset: nat) returns (p: nat)
    requires filled <= buf.Length < USIZE_MAX
    ensures p == LineAfter(buf[..], filled, offset)
  {
    var i := offset;
    while i < filled
      invariant offset <= i
      invariant LineAfter(buf[..], filled, offset) == LineAfter(buf[..], filled, i)
    {
      if buf[i] == NL {
        return i + 1;
      }
      i := i + 1;
    }
    return USIZE_MAX;
  }

  /** The record that `get_next_record` finds at `n`: four chained line ends. */
  function RecordAt(s: seq<byte>, filled: nat, n: nat): (rec: FQRec)
    requires filled <= |s| < USIZE_MAX
    ensures rec.n == n
    ensures rec.e != USIZE_MAX ==> rec.q < rec.e <= filled
  {
    var r := LineAfter(s, filled, n);
    var o := LineAfter(s, filled, r);
    var q := LineAfter(s, filled, o);
    var e := LineAfter(s, filled, q);
    FQRec(n, r, o, q, e)
  }

  /** A complete record found by `get_next_record` is framed. */
  lemma RecordAtFramed(s: seq<byte>, filled: nat, n: nat)
    requires filled <= |s| < USIZE_MAX
    ensures var rec := RecordAt(s, filled, n);
            rec.e != USIZE_MAX ==> Framed(s, rec) && rec.e <= filled
  {
    var rec := RecordAt(s, filled, n);
    LineAfterFirst(s, filled, n);
    LineAfterFirst(s, filled, rec.r);
    LineAfterFirst(s, filled, rec.o);
    LineAfterFirst(s, filled, rec.q);
  }

  /** `get_next_record`: the record at `cursor`; the cursor moves to its end
      only when the record is complete. */
  method GetNextRecord(buf: array<byte>, cursor: nat, filled: nat) returns (rec: FQRec, cursor': nat)
    requires filled <= buf.Length < USIZE_MAX
    ensures rec == RecordAt(buf[..], filled, cursor)
    ensures rec.e != USIZE_MAX ==> Framed(buf[..], rec) && rec.e <= filled && cursor' == rec.e
    ensures rec.e == USIZE_MAX ==> cursor' == cursor
  {
    RecordAtFramed(buf[..], filled, cursor);
    var n := cursor;
    var r := NextLine(buf, filled, n);
    var o := NextLine(buf, filled, r);
    var q := NextLine(buf, filled, o);
    var e := NextLine(buf, filled, q);
    cursor' := cursor;
    if e != USIZE_MAX {
      cursor' := e;
    }
    rec := FQRec(n, r, o, q, e);
  }

  // ---------------------------------------------------------------------
  // Runs of records and the split of a byte stream into records

  /** `recs` are framed records of `s` laid end to end from `from` to `to`. */
  predicate Consecutive(s: seq<byte>, recs: seq<FQRec>, from: nat, to: nat)
  {
    (|recs| == 0 ==> from == to) &&
    (|recs| > 0 ==> recs[0].n == from && recs[|recs| - 1].e == to) &&
    (forall k {:trigger Framed(s, recs[k])} :: 0 <= k < |recs| ==> Framed(s, recs[k])) &&
    (forall k :: 0 <= k < |recs| - 1 ==> recs[k + 1].n == recs[k].e)
  }

  predicate InBounds(s: seq<byte>, recs: seq<FQRec>)
  {
    forall k :: 0 <= k < |recs| ==> recs[k].n <= recs[k].e <= |s|
  }

  /** The bytes of each record, in order. */
  function Chunks(s: seq<byte>, recs: seq<FQRec>): (parts: seq<seq<byte>>)
    requires InBounds(s, recs)
    ensures |parts| == |recs|
    ensures forall k {:trigger parts[k]} :: 0 <= k < |recs| ==> parts[k] == s[recs[k].n..recs[k].e]
  {
    if recs == [] then [] else [s[recs[0].n..recs[0].e]] + Chunks(s, recs[1..])
  }

  /** The complete records of a byte stream, in order; a trailing partial
      record is not among them. */
  function Split(s: seq<byte>): (parts: seq<seq<byte>>)
    requires |s| < USIZE_MAX
    decreases |s|
  {
    var e := RecordAt(s, |s|, 0).e;
    if e == USIZE_MAX then [] else [s[..e]] + Split(s[e..])
  }

  /** What is left after the last complete record. */
  function Leftover(s: seq<byte>): (rest: seq<byte>)
    requires |s| < USIZE_MAX
    ensures |rest| <= |s|
    decreases |s|
  {
    var e := RecordAt(s, |s|, 0).e;
    if e == USIZE_MAX then s else Leftover(s[e..])
  }

  /** Number of line ends in `s[lo..hi)`. */
  function NewlineCount(s: seq<byte>, lo: nat, hi: nat): nat
    requires lo <= hi <= |s|
    decreases hi - lo
  {
    if lo == hi then 0 else (if s[lo] == NL then 1 else 0) + NewlineCount(s, lo + 1, hi)
  }

  // ---------------------------------------------------------------------
  // Properties

  /** A line end at `p - 1` with none before it in `[offset, p - 1)` is what
      `next_line` finds. */
  lemma {:induction false} LineAfterUnique(s: seq<byte>, filled: nat, offset: nat, p: nat)
    requires filled <= |s| < USIZE_MAX
    requires offset < p <= filled && s[p - 1] == NL && NoNewline(s, offset, p - 1)
    ensures LineAfter(s, filled, offset) == p
    decreases p - offset
  {
    if offset < p - 1 {
      LineAfterUnique(s, filled, offset + 1, p);
    }
  }

  /** A framed record is what `get_next_record` finds at its start, for any
      `filled` that covers it. */
  lemma FramedIsRecordAt(s: seq<byte>, filled: nat, rec: FQRec)
    requires filled <= |s| < USIZE_MAX
    requires Framed(s, rec) && rec.e <= filled
    ensures RecordAt(s, filled, rec.n) == rec
  {
    LineAfterUnique(s, filled, rec.n, rec.r);
    LineAfterUnique(s, filled, rec.r, rec.o);
    LineAfterUnique(s, filled, rec.o, rec.q);
    LineAfterUnique(s, filled, rec.q, rec.e);
  }

  predicate Ordered(rec: FQRec)
  {
    rec.n < rec.r < rec.o < rec.q < rec.e
  }

  function Rebase(rec: FQRec, lo: nat): FQRec
    requires lo <= rec.n && Ordered(rec)
  {
    FQRec(rec.n - lo, rec.r - lo, rec.o - lo, rec.q - lo, rec.e - lo)
  }

  lemma NoNewlineSlice(s: seq<byte>, lo: nat, hi: nat, a: nat, b: nat, a': nat, b': nat)
    requires lo <= a <= b <= hi <= |s| && a' == a - lo && b' == b - lo
    ensures NoNewline(s, a, b) <==> NoNewline(s[lo..hi], a', b')
  {
    var t := s[lo..hi];
    assert forall k :: a' <= k < b' ==> t[k] == s[k + lo];
    if NoNewline(t, a', b') {
      forall k | a <= k < b ensures s[k] != NL {
        assert s[k] == t[k - lo];
      }
    }
  }

  /** Framing is a property of the record's own bytes. */
  lemma FramedSlice(s: seq<byte>, lo: nat, hi: nat, rec: FQRec)
    requires Ordered(rec) && lo <= rec.n && rec.e <= hi <= |s|
    ensures Framed(s, rec) <==> Framed(s[lo..hi], Rebase(rec, lo))
  {
    var t := s[lo..hi];
    var rel := Rebase(rec, lo);
    assert t[rel.r - 1] == s[rec.r - 1] && t[rel.o - 1] == s[rec.o - 1];
    assert t[rel.q - 1] == s[rec.q - 1] && t[rel.e - 1] == s[rec.e - 1];
    NoNewlineSlice(s, lo, hi, rec.n, rec.r - 1, rel.n, rel.r - 1);
    NoNewlineSlice(s, lo, hi, rec.r, rec.o - 1, rel.r, rel.o - 1);
    NoNewlineSlice(s, lo, hi, rec.o, rec.q - 1, rel.o, rel.q - 1);
    NoNewlineSlice(s, lo, hi, rec.q, rec.e - 1, rel.q, rel.e - 1);
  }

  /** The first record of `s[lo..hi)` is the record of `s` at `lo`. */
  lemma RecordAtSlice(s: seq<byte>, lo: nat, hi: nat)
    requires lo <= hi <= |s| < USIZE_MAX
    ensures var rel := RecordAt(s[lo..hi], hi - lo, 0);
            var abs := RecordAt(s, hi, lo);
            (abs.e == USIZE_MAX <==> rel.e == USIZE_MAX) &&
            (abs.e != USIZE_MAX ==> Rebase(abs, lo) == rel)
  {
    var t := s[lo..hi];
    var rel := RecordAt(t, hi - lo, 0);
    var abs := RecordAt(s, hi, lo);
    RecordAtFramed(s, hi, lo);
    RecordAtFramed(t, hi - lo, 0);
    if abs.e != USIZE_MAX {
      SliceKeepsRecord(s, lo, hi, abs);
    } else if rel.e != USIZE_MAX {
      SliceRecordBack(s, lo, hi, rel);
      assert false;
    }
  }

  /** A record framed in `s` from `lo` is framed in `s[lo..hi)` from 0. */
  lemma SliceKeepsRecord(s: seq<byte>, lo: nat, hi: nat, abs: FQRec)
    requires lo <= hi <= |s| < USIZE_MAX
    requires Framed(s, abs) && abs.n == lo && abs.e <= hi
    ensures RecordAt(s[lo..hi], hi - lo, 0) == Rebase(abs, lo)
  {
    FramedSlice(s, lo, hi, abs);
    FramedIsRecordAt(s[lo..hi], hi - lo, Rebase(abs, lo));
  }

  /** A record framed in `s[lo..hi)` from 0 is found in `s` from `lo`. */
  lemma SliceRecordBack(s: seq<byte>, lo: nat, hi: nat, rel: FQRec)
    requires lo <= hi <= |s| < USIZE_MAX
    requires Framed(s[lo..hi], rel) && rel.n == 0 && rel.e <= hi - lo
    ensures RecordAt(s, hi, lo).e != USIZE_MAX
  {
    var back := FQRec(rel.n + lo, rel.r + lo, rel.o + lo, rel.q + lo, rel.e + lo);
    assert Rebase(back, lo) == rel;
    FramedSlice(s, lo, hi, back);
    FramedIsRecordAt(s, hi, back);
  }

  lemma {:induction false} ChunksAppend(s: seq<byte>, recs: seq<FQRec>, rec: FQRec)
    requires InBounds(s, recs) && rec.n <= rec.e <= |s|
    ensures InBounds(s, recs + [rec])
    ensures Chunks(s, recs + [rec]) == Chunks(s, recs) + [s[rec.n..rec.e]]
  {
    var both := Chunks(s, recs + [rec]);
    assert |both| == |recs| + 1;
    assert forall k :: 0 <= k < |recs| ==> both[k] == s[recs[k].n..recs[k].e];
  }

  /** The first record of a run is framed, and the others run on from its
      end. */
  lemma ConsecutiveTail(s: seq<byte>, recs: seq<FQRec>, from: nat, to: nat)
    requires Consecutive(s, recs, from, to) && |recs| > 0
    ensures Framed(s, recs[0]) && Consecutive(s, recs[1..], recs[0].e, to)
  {
    var tail := recs[1..];
    assert Framed(s, recs[0]);
    forall k | 0 <= k < |tail| ensures Framed(s, tail[k]) {
      assert tail[k] == recs[k + 1];
      assert Framed(s, recs[k + 1]);
    }
  }

  /** Consecutive records tile the bytes between their ends. */
  lemma {:induction false} ConsecutiveTiles(s: seq<byte>, recs: seq<FQRec>, from: nat, to: nat)
    requires Consecutive(s, recs, from, to) && from <= |s|
    ensures InBounds(s, recs) && from <= to <= |s|
    ensures Flatten(Chunks(s, recs)) == s[from..to]
    decreases |recs|
  {
    if |recs| > 0 {
      var tail := recs[1..];
      ConsecutiveTail(s, recs, from, to);
      ConsecutiveTiles(s, tail, recs[0].e, to);
      assert Chunks(s, recs)[1..] == Chunks(s, tail);
      assert s[from..to] == s[from..recs[0].e] + s[recs[0].e..to];
    }
  }

  /** Appending the framed record that starts where a run ends extends it. */
  lemma ConsecutiveAppend(s: seq<byte>, recs: seq<FQRec>, from: nat, to: nat, rec: FQRec)
    requires Consecutive(s, recs, from, to) && Framed(s, rec) && rec.n == to
    ensures Consecutive(s, recs + [rec], from, rec.e)
  {
    var all := recs + [rec];
    forall k | 0 <= k < |all| ensures Framed(s, all[k]) {
      if k < |recs| {
        assert all[k] == recs[k];
      }
    }
    forall k | 0 <= k < |all| - 1 ensures all[k + 1].n == all[k].e {
      assert all[k] == recs[k];
    }
  }

  lemma SliceOfSlice(s: seq<byte>, lo: nat, hi: nat, k: nat)
    requires lo <= lo + k <= hi <= |s|
    ensures s[lo..hi][..k] == s[lo..lo + k] && s[lo..hi][k..] == s[lo + k..hi]
  {
  }

  /** No complete record at `to`: nothing from `to` on splits. */
  lemma SplitEmptyAt(s: seq<byte>, to: nat, filled: nat)
    requires to <= filled <= |s| < USIZE_MAX
    requires RecordAt(s, filled, to).e == USIZE_MAX
    ensures Split(s[to..filled]) == []
  {
    RecordAtSlice(s, to, filled);
    SplitStep(s[to..filled]);
  }

  /** A complete first record: it is the first part of the split. */
  lemma SplitFirst(t: seq<byte>, e: nat, head: seq<byte>, rest: seq<byte>)
    requires |t| < USIZE_MAX
    requires RecordAt(t, |t|, 0).e == e != USIZE_MAX
    requires head == t[..e] && rest == t[e..]
    ensures Split(t) == [head] + Split(rest)
  {
    SplitStep(t);
  }

  /** Where a framed record at `from` ends, seen from `from`. */
  lemma FramedEndSlice(s: seq<byte>, from: nat, filled: nat, rec: FQRec)
    requires Framed(s, rec) && rec.n == from && rec.e <= filled <= |s| < USIZE_MAX
    ensures RecordAt(s[from..filled], filled - from, 0).e == rec.e - from
  {
    FramedIsRecordAt(s, filled, rec);
    RecordAtSlice(s, from, filled);
  }

  /** A framed record at `from`: it is the first part of the split from `from`. */
  lemma SplitAt(s: seq<byte>, from: nat, filled: nat, rec: FQRec)
    requires Framed(s, rec) && rec.n == from && rec.e <= filled <= |s| < USIZE_MAX
    ensures Split(s[from..filled]) == [s[from..rec.e]] + Split(s[rec.e..filled])
  {
    FramedEndSlice(s, from, filled, rec);
    SplitSlices(s, from, rec.e, filled);
  }

  /** A complete record from `from` to `e` is the first part of the split
      of `s[from..filled)`. */
  lemma SplitSlices(s: seq<byte>, from: nat, e: nat, filled: nat)
    requires from < e <= filled <= |s| < USIZE_MAX
    requires RecordAt(s[from..filled], filled - from, 0).e == e - from
    ensures Split(s[from..filled]) == [s[from..e]] + Split(s[e..filled])
  {
    var t, k := s[from..filled], e - from;
    SliceOfSlice(s, from, filled, k);
    SplitFirst(t, k, s[from..e], s[e..filled]);
  }

  /** A run of records from `from` after which no complete record starts is
      the split of the bytes from `from` to `filled`. */
  lemma {:induction false} ConsecutiveSplit(s: seq<byte>, recs: seq<FQRec>, from: nat, to: nat, filled: nat)
    requires Consecutive(s, recs, from, to) && from <= to <= filled <= |s| < USIZE_MAX
    requires RecordAt(s, filled, to).e == USIZE_MAX
    ensures InBounds(s, recs) && Chunks(s, recs) == Split(s[from..filled])
    decreases |recs|
  {
    ConsecutiveTiles(s, recs, from, to);
    if |recs| == 0 {
      SplitEmptyAt(s, to, filled);
    } else {
      var rec, tail := recs[0], recs[1..];
      ConsecutiveTail(s, recs, from, to);
      ConsecutiveTiles(s, tail, rec.e, to);
      ConsecutiveSplit(s, tail, rec.e, to, filled);
      SplitAt(s, from, filled, rec);
      assert Chunks(s, recs) == [s[from..rec.e]] + Chunks(s, tail);
    }
  }

  /** The collection loop of `process_reads`: records are taken from the
      cursor on, end to end, until no complete record is left. */
  method CollectRecords(buf: array<byte>, cursor: nat, filled: nat) returns (recs: seq<FQRec>, cursor': nat)
    requires cursor <= filled <= buf.Length < USIZE_MAX
    ensures cursor <= cursor' <= filled
    ensures Consecutive(buf[..], recs, cursor, cursor')
    ensures RecordAt(buf[..], filled, cursor').e == USIZE_MAX
    ensures InBounds(buf[..], recs) && Chunks(buf[..], recs) == Split(buf[cursor..filled])
  {
    recs := [];
    cursor' := cursor;
    while true
      invariant cursor <= cursor' <= filled
      invariant Consecutive(buf[..], recs, cursor, cursor')
      decreases filled - cursor'
    {
      var fq, next := GetNextRecord(buf, cursor', filled);
      if fq.e == USIZE_MAX {
        break;
      }
      ConsecutiveAppend(buf[..], recs, cursor, cursor', fq);
      recs := recs + [fq];
      cursor' := next;
    }
    ConsecutiveSplit(buf[..], recs, cursor, cursor', filled);
  }

  /** The collected records end exactly where the stream's complete records
      do: the split of the window is the collected records followed by
      nothing. */
  lemma {:induction false} SplitIncomplete(s: seq<byte>)
    requires |s| < USIZE_MAX
    requires RecordAt(s, |s|, 0).e == USIZE_MAX
    ensures Split(s) == [] && Leftover(s) == s
  {
  }

  /** One step of `Split` and `Leftover`. */
  lemma SplitStep(s: seq<byte>)
    requires |s| < USIZE_MAX
    ensures var e := RecordAt(s, |s|, 0).e;
            (e == USIZE_MAX ==> Split(s) == [] && Leftover(s) == s) &&
            (e != USIZE_MAX ==> e <= |s| && Split(s) == [s[..e]] + Split(s[e..]) &&
                                Leftover(s) == Leftover(s[e..]))
  {
  }

  /** The leftover holds no complete record. */
  lemma {:induction false} LeftoverIncomplete(s: seq<byte>)
    requires |s| < USIZE_MAX
    ensures var rest := Leftover(s); RecordAt(rest, |rest|, 0).e == USIZE_MAX
    decreases |s|
  {
    SplitStep(s);
    var e := RecordAt(s, |s|, 0).e;
    if e != USIZE_MAX {
      LeftoverIncomplete(s[e..]);
    }
  }

  /** Every byte is either in a complete record or in the leftover. */
  lemma {:induction false} SplitTiles(s: seq<byte>)
    requires |s| < USIZE_MAX
    ensures Flatten(Split(s)) + Leftover(s) == s
    decreases |s|
  {
    SplitStep(s);
    var e := RecordAt(s, |s|, 0).e;
    if e != USIZE_MAX {
      var head, tail := s[..e], s[e..];
      SplitTiles(tail);
      TilesCons(s, head, tail, Split(s), Split(tail), Leftover(s));
    }
  }

  /** A first part followed by parts that tile the rest tile the whole. */
  lemma TilesCons(s: seq<byte>, head: seq<byte>, tail: seq<byte>, parts: seq<seq<byte>>,
                  rest: seq<seq<byte>>, left: seq<byte>)
    requires s == head + tail && parts == [head] + rest && Flatten(rest) + left == tail
    ensures Flatten(parts) + left == s
  {
    assert parts[1..] == rest;
  }

  /** Framing survives appending bytes. */
  lemma FramedExtend(a: seq<byte>, b: seq<byte>, rec: FQRec)
    requires Framed(a, rec)
    ensures Framed(a + b, rec)
  {
    assert (a + b)[0..|a|] == a;
    FramedSlice(a + b, 0, |a|, rec);
    assert Rebase(rec, 0) == rec;
  }

  /** The first complete record of `a` stays the first record of `a + b`. */
  lemma SplitExtendFirst(a: seq<byte>, b: seq<byte>)
    requires |a + b| < USIZE_MAX
    requires RecordAt(a, |a|, 0).e != USIZE_MAX
    ensures var e := RecordAt(a, |a|, 0).e;
            e <= |a| && Split(a + b) == [a[..e]] + Split(a[e..] + b)
  {
    var e := RecordAt(a, |a|, 0).e;
    var ab := a + b;
    FirstExtends(a, b);
    assert ab[..e] == a[..e];
    assert ab[e..] == a[e..] + b;
    SplitFirst(ab, e, a[..e], a[e..] + b);
  }

  /** Appending bytes keeps the first complete record where it is. */
  lemma FirstExtends(a: seq<byte>, b: seq<byte>)
    requires |a + b| < USIZE_MAX
    requires RecordAt(a, |a|, 0).e != USIZE_MAX
    ensures RecordAt(a + b, |a + b|, 0) == RecordAt(a, |a|, 0)
  {
    var rec := RecordAt(a, |a|, 0);
    RecordAtFramed(a, |a|, 0);
    FramedExtend(a, b, rec);
    FramedIsRecordAt(a + b, |a + b|, rec);
  }

  /** After a complete first record ending at `e`, the leftover is that of
      the rest. */
  lemma LeftoverFirst(t: seq<byte>, e: nat, rest: seq<byte>)
    requires |t| < USIZE_MAX
    requires RecordAt(t, |t|, 0).e == e != USIZE_MAX && rest == t[e..]
    ensures Leftover(t) == Leftover(rest)
  {
    SplitStep(t);
  }

  /** The first complete record of `a` is dropped from the leftover of
      `a + b` as well. */
  lemma LeftoverExtendFirst(a: seq<byte>, b: seq<byte>)
    requires |a + b| < USIZE_MAX
    requires RecordAt(a, |a|, 0).e != USIZE_MAX
    ensures var e := RecordAt(a, |a|, 0).e;
            e <= |a| && Leftover(a + b) == Leftover(a[e..] + b)
  {
    var e := RecordAt(a, |a|, 0).e;
    var ab := a + b;
    FirstExtends(a, b);
    assert ab[e..] == a[e..] + b;
    LeftoverFirst(ab, e, ab[e..]);
  }

  /** Associativity of `+`, proved apart from its callers, whose large
      contexts make the extensionality step run out of resource. */
  lemma ConcatAssoc<T>(x: seq<T>, y: seq<T>, z: seq<T>)
    ensures (x + y) + z == x + (y + z)
  {
  }

  /** Splitting a stream that starts with complete records: those records
      come first, then the records of the rest. */
  lemma {:induction false} SplitAppend(a: seq<byte>, b: seq<byte>)
    requires |a + b| < USIZE_MAX
    requires Leftover(a) == []
    ensures Split(a + b) == Split(a) + Split(b)
    decreases |a|
  {
    if |a| == 0 {
      assert a + b == b;
      assert Split(a) == [] by { SplitStep(a); }
    } else {
      var e := RecordAt(a, |a|, 0).e;
      assert e != USIZE_MAX && e <= |a| by { SplitStep(a); }
      var head, tail := a[..e], a[e..];
      assert Split(a) == [head] + Split(tail) && Leftover(tail) == [] by { SplitStep(a); }
      assert Split(a + b) == [head] + Split(tail + b) by { SplitExtendFirst(a, b); }
      SplitAppend(tail, b);
      ConcatAssoc([head], Split(tail), Split(b));
    }
  }

  /** `next_line` finds nothing exactly when there is no line end left. */
  lemma {:induction false} LineAfterCount(s: seq<byte>, filled: nat, offset: nat)
    requires offset <= filled <= |s| < USIZE_MAX
    ensures var p := LineAfter(s, filled, offset);
            (p == USIZE_MAX <==> NewlineCount(s, offset, filled) == 0) &&
            (p != USIZE_MAX ==> NewlineCount(s, offset, filled) == 1 + NewlineCount(s, p, filled))
    decreases filled - offset
  {
    if offset < filled && s[offset] != NL {
      LineAfterCount(s, filled, offset + 1);
    }
  }

  /** `get_next_record` fails exactly when fewer than four line ends are
      left between the cursor and `filled`. */
  lemma IncompleteIffFewerThanFourLines(s: seq<byte>, filled: nat, n: nat)
    requires n <= filled <= |s| < USIZE_MAX
    ensures RecordAt(s, filled, n).e == USIZE_MAX <==> NewlineCount(s, n, filled) < 4
  {
    var rec := RecordAt(s, filled, n);
    LineAfterCount(s, filled, n);
    if rec.r != USIZE_MAX {
      LineAfterCount(s, filled, rec.r);
      if rec.o != USIZE_MAX {
        LineAfterCount(s, filled, rec.o);
        if rec.q != USIZE_MAX {
          LineAfterCount(s, filled, rec.q);
        }
      }
    }
  }

  // ---------------------------------------------------------------------
  // Printing a record from its four lines

  /** No line end in `xs`: it can be the body of a line. */
  predicate LineBody(xs: seq<byte>)
  {
    forall j :: 0 <= j < |xs| ==> xs[j] != NL
  }

  /** The bytes of a record whose four lines have these bodies. */
  function Record4(name: seq<byte>, read: seq<byte>, plus: seq<byte>, qual: seq<byte>): (out: seq<byte>)
    ensures |out| == |name| + |read| + |plus| + |qual| + 4
  {
    name + [NL] + read + [NL] + plus + [NL] + qual + [NL]
  }

  /** A printed record is framed, and `get_next_record` finds exactly its
      four lines. */
  lemma Record4Parses(name: seq<byte>, read: seq<byte>, plus: seq<byte>, qual: seq<byte>)
    requires LineBody(name) && LineBody(read) && LineBody(plus) && LineBody(qual)
    requires |Record4(name, read, plus, qual)| < USIZE_MAX
    ensures var out := Record4(name, read, plus, qual);
            var rec := FQRec(0, |name| + 1, |name| + |read| + 2, |name| + |read| + |plus| + 3, |out|);
            Framed(out, rec) && RecordAt(out, |out|, 0) == rec
  {
    var out := Record4(name, read, plus, qual);
    var r := |name| + 1;
    var o := r + |read| + 1;
    var q := o + |plus| + 1;
    var rec := FQRec(0, r, o, q, |out|);
    assert out[r - 1] == NL && out[o - 1] == NL && out[q - 1] == NL && out[|out| - 1] == NL;
    forall j | 0 <= j < r - 1 ensures out[j] != NL {
      assert out[j] == name[j];
    }
    forall j | r <= j < o - 1 ensures out[j] != NL {
      assert out[j] == read[j - r];
    }
    forall j | o <= j < q - 1 ensures out[j] != NL {
      assert out[j] == plus[j - o];
    }
    forall j | q <= j < |out| - 1 ensures out[j] != NL {
      assert out[j] == qual[j - q];
    }
    assert Framed(out, rec);
    FramedIsRecordAt(out, |out|, rec);
  }

  /** The read and quality lines of a printed record are where
      `get_next_record` puts them. */
  lemma Record4Lines(name: seq<byte>, read: seq<byte>, plus: seq<byte>, qual: seq<byte>)
    ensures var out := Record4(name, read, plus, qual);
            var r := |name| + 1;
            var o := r + |read| + 1;
            var q := o + |plus| + 1;
            out[..r - 1] == name && out[r..o - 1] == read && out[o..q - 1] == plus &&
            out[q..|out| - 1] == qual
  {
  }

  /** A stretch without line ends is a line body. */
  lemma NoNewlineBody(s: seq<byte>, lo: nat, hi: nat, a: nat, b: nat)
    requires lo <= a <= b <= hi <= |s| && NoNewline(s, lo, hi)
    ensures LineBody(s[a..b])
  {
    var t := s[a..b];
    forall j | 0 <= j < |t| ensures t[j] != NL {
      assert t[j] == s[a + j];
    }
  }

  /** A framed record is the print of its four line bodies. */
  lemma FramedIsRecord4(R: seq<byte>, rec: FQRec)
    requires Framed(R, rec) && rec.n == 0 && rec.e == |R|
    ensures R == Record4(R[..rec.r - 1], R[rec.r..rec.o - 1], R[rec.o..rec.q - 1], R[rec.q..rec.e - 1])
    ensures LineBody(R[..rec.r - 1]) && LineBody(R[rec.r..rec.o - 1])
    ensures LineBody(R[rec.o..rec.q - 1]) && LineBody(R[rec.q..rec.e - 1])
  {
    var out := Record4(R[..rec.r - 1], R[rec.r..rec.o - 1], R[rec.o..rec.q - 1], R[rec.q..rec.e - 1]);
    assert |out| == |R|;
    forall j | 0 <= j < |R| ensures out[j] == R[j] {
      if j < rec.r - 1 {
      } else if j < rec.r {
      } else if j < rec.o - 1 {
      } else if j < rec.o {
      } else if j < rec.q - 1 {
      } else if j < rec.q {
      } else if j < rec.e - 1 {
      }
    }
  }
}
