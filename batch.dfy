/** One filled buffer's worth of records: the loop that rewrites every
    collected record in place (the `par_iter_mut().for_each(process)` of
    `process_reads`, run here one record after the other) and the loop that
    writes the records out. Each record is rewritten within its own span, so
    the order in which records are processed does not matter. */
module Batch {
  import opened Bytes
  import opened Records
  import opened Compact
  import InPlace

  /** Every part is a record `process` can rewrite with `p`. */
  predicate AllProcessable(parts: seq<seq<byte>>, p: Params)
  {
    forall k {:trigger Processable(parts[k], p)} :: 0 <= k < |parts| ==> Processable(parts[k], p)
  }

  /** Each part rewritten on its own, in order. */
  function RewriteAll(parts: seq<seq<byte>>, p: Params): (out: seq<seq<byte>>)
    requires AllProcessable(parts, p)
    ensures |out| == |parts|
    ensures forall k {:trigger out[k]} :: 0 <= k < |parts| ==> out[k] == Rewrite(parts[k], p)
  {
    if parts == [] then [] else [Rewrite(parts[0], p)] + RewriteAll(parts[1..], p)
  }

  /** A byte stream whose complete records can all be rewritten. */
  predicate StreamOk(s: seq<byte>, p: Params)
  {
    |s| < USIZE_MAX && AllProcessable(Split(s), p)
  }

  /** What the engine writes for a byte stream: every complete record,
      rewritten, in order. */
  function Emit(s: seq<byte>, p: Params): seq<byte>
    requires StreamOk(s, p)
  {
    Flatten(RewriteAll(Split(s), p))
  }

  // ---------------------------------------------------------------------
  // Splitting concatenations

  /** The records of `a + b` are those of `a` followed by those of what `a`
      leaves over followed by `b`. */
  lemma {:induction false} SplitConcat(a: seq<byte>, b: seq<byte>)
    requires |a + b| < USIZE_MAX
    ensures |Leftover(a) + b| < USIZE_MAX
    ensures Split(a + b) == Split(a) + Split(Leftover(a) + b)
    ensures Leftover(a + b) == Leftover(Leftover(a) + b)
    decreases |a|
  {
    SplitStep(a);
    var e := RecordAt(a, |a|, 0).e;
    if e != USIZE_MAX {
      var head, tail := a[..e], a[e..];
      SplitExtendFirst(a, b);
      LeftoverExtendFirst(a, b);
      SplitConcat(tail, b);
      ConcatAssoc([head], Split(tail), Split(Leftover(tail) + b));
    }
  }

  /** A complete record splits into itself, with nothing left over. */
  lemma SplitComplete(R: seq<byte>)
    requires Complete(R)
    ensures Split(R) == [R] && Leftover(R) == []
  {
    SplitStep(R);
    assert R[..|R|] == R;
    SplitStep(R[|R|..]);
  }

  /** The first record of a stream, cut out, is complete. */
  lemma FirstComplete(s: seq<byte>)
    requires |s| < USIZE_MAX && RecordAt(s, |s|, 0).e != USIZE_MAX
    ensures var e := RecordAt(s, |s|, 0).e; e <= |s| && Complete(s[..e])
  {
    var rec := RecordAt(s, |s|, 0);
    RecordAtFramed(s, |s|, 0);
    SliceKeepsRecord(s, 0, rec.e, rec);
    assert s[0..rec.e] == s[..rec.e] && Rebase(rec, 0).e == rec.e;
  }

  /** Every part of the split of a stream is a complete record. */
  lemma {:induction false} SplitPartsComplete(s: seq<byte>)
    requires |s| < USIZE_MAX
    ensures forall k :: 0 <= k < |Split(s)| ==> Complete(Split(s)[k])
    decreases |s|
  {
    SplitStep(s);
    var e := RecordAt(s, |s|, 0).e;
    if e != USIZE_MAX {
      FirstComplete(s);
      var rest := Split(s[e..]);
      SplitPartsComplete(s[e..]);
      assert Split(s) == [s[..e]] + rest;
      forall k | 0 <= k < |Split(s)| ensures Complete(Split(s)[k]) {
        if k > 0 {
          assert Split(s)[k] == rest[k - 1];
        }
      }
    }
  }

  /** Complete records laid end to end split back into those records. */
  lemma {:induction false} SplitFlatten(parts: seq<seq<byte>>)
    requires forall k :: 0 <= k < |parts| ==> Complete(parts[k])
    requires |Flatten(parts)| < USIZE_MAX
    ensures Split(Flatten(parts)) == parts && Leftover(Flatten(parts)) == []
  {
    if parts == [] {
      SplitStep([]);
    } else {
      var head, tl := parts[0], parts[1..];
      var rest := Flatten(tl);
      assert Flatten(parts) == head + rest;
      CompleteTail(parts);
      SplitFlatten(tl);
      SplitCons(head, rest);
      assert parts == [head] + tl;
    }
  }

  lemma CompleteTail(parts: seq<seq<byte>>)
    requires |parts| > 0 && forall k :: 0 <= k < |parts| ==> Complete(parts[k])
    ensures Complete(parts[0]) && forall k :: 0 <= k < |parts[1..]| ==> Complete(parts[1..][k])
  {
    var tl := parts[1..];
    forall k | 0 <= k < |tl| ensures Complete(tl[k]) {
      assert tl[k] == parts[k + 1];
    }
  }

  /** A complete record followed by more bytes: it is the first part of
      the split, and the rest splits on its own. */
  lemma SplitCons(head: seq<byte>, rest: seq<byte>)
    requires Complete(head) && |head + rest| < USIZE_MAX
    ensures Split(head + rest) == [head] + Split(rest)
    ensures Leftover(head + rest) == Leftover(rest)
  {
    SplitComplete(head);
    SplitConcat(head, rest);
    assert [] + rest == rest;
  }

  /** What the engine writes is a FASTQ stream again: it splits into exactly
      the rewritten records, with no partial record at its end. */
  lemma EmitSplitsBack(s: seq<byte>, p: Params)
    requires StreamOk(s, p)
    ensures |Emit(s, p)| <= |s|
    ensures Split(Emit(s, p)) == RewriteAll(Split(s), p) && Leftover(Emit(s, p)) == []
  {
    var parts := Split(s);
    var out := RewriteAll(parts, p);
    forall k | 0 <= k < |out| ensures Complete(out[k]) {
      RewriteIsRecord(parts[k], p);
    }
    RewrittenShorter(parts, p);
    SplitTiles(s);
    SplitFlatten(out);
  }

  /** Rewriting never lengthens the stream. */
  lemma {:induction false} RewrittenShorter(parts: seq<seq<byte>>, p: Params)
    requires AllProcessable(parts, p)
    ensures |Flatten(RewriteAll(parts, p))| <= |Flatten(parts)|
  {
    if parts != [] {
      var head, tl := parts[0], parts[1..];
      assert AllProcessable(tl, p) by {
        forall k | 0 <= k < |tl| ensures Processable(tl[k], p) {
          assert tl[k] == parts[k + 1];
        }
      }
      var out := RewriteAll(parts, p);
      assert out[0] == Rewrite(head, p) && out[1..] == RewriteAll(tl, p);
      RewriteShorter(head, p);
      RewrittenShorter(tl, p);
    }
  }

  /** A rewritten record is no longer than the original. */
  lemma RewriteShorter(R: seq<byte>, p: Params)
    requires Processable(R, p)
    ensures |Rewrite(R, p)| <= |R|
  {
    RewriteIsRecord(R, p);
  }

  lemma AllProcessableConcat(x: seq<seq<byte>>, y: seq<seq<byte>>, p: Params)
    requires AllProcessable(x + y, p)
    ensures AllProcessable(x, p) && AllProcessable(y, p)
  {
    forall k | 0 <= k < |x| ensures Processable(x[k], p) {
      assert x[k] == (x + y)[k];
    }
    forall k | 0 <= k < |y| ensures Processable(y[k], p) {
      assert y[k] == (x + y)[|x| + k];
    }
  }

  lemma {:induction false} RewriteAllConcat(x: seq<seq<byte>>, y: seq<seq<byte>>, p: Params)
    requires AllProcessable(x, p) && AllProcessable(y, p) && AllProcessable(x + y, p)
    ensures RewriteAll(x + y, p) == RewriteAll(x, p) + RewriteAll(y, p)
  {
    if x == [] {
      assert x + y == y;
    } else {
      assert (x + y)[1..] == x[1..] + y;
      assert AllProcessable(x[1..], p) by {
        forall k | 0 <= k < |x| - 1 ensures Processable(x[1..][k], p) {
          assert x[1..][k] == x[k + 1];
        }
      }
      RewriteAllConcat(x[1..], y, p);
      var head := Rewrite(x[0], p);
      assert (x + y)[0] == x[0];
      assert RewriteAll(x + y, p) == [head] + RewriteAll(x[1..] + y, p);
      assert RewriteAll(x, p) == [head] + RewriteAll(x[1..], p);
      ConcatAssoc([head], RewriteAll(x[1..], p), RewriteAll(y, p));
    }
  }

  /** The output of a concatenation is that of its first piece followed by
      that of what the first piece leaves over followed by the second. */
  lemma EmitConcat(a: seq<byte>, b: seq<byte>, p: Params)
    requires StreamOk(a + b, p)
    ensures StreamOk(a, p) && StreamOk(Leftover(a) + b, p)
    ensures Emit(a + b, p) == Emit(a, p) + Emit(Leftover(a) + b, p)
  {
    SplitConcat(a, b);
    var x, y := Split(a), Split(Leftover(a) + b);
    AllProcessableConcat(x, y, p);
    RewriteAllConcat(x, y, p);
    FlattenAppend(RewriteAll(x, p), RewriteAll(y, p));
  }

  /** The bytes after the last complete record are never written: the
      output of a stream is that of its complete records alone. */
  lemma EmitIgnoresLeftover(s: seq<byte>, p: Params)
    requires StreamOk(s, p)
    ensures StreamOk(Flatten(Split(s)), p)
    ensures Emit(s, p) == Emit(Flatten(Split(s)), p)
  {
    var parts := Split(s);
    SplitTiles(s);
    SplitPartsComplete(s);
    SplitFlatten(parts);
  }

  // ---------------------------------------------------------------------
  // The buffer loops

  /** Equal suffixes from `pos` on keep a record framed there, and its
      bytes. */
  lemma FramedSuffix(S: seq<byte>, T: seq<byte>, pos: nat, rec: FQRec)
    requires |S| == |T| && pos <= rec.n && pos <= |S| && S[pos..] == T[pos..]
    requires Framed(S, rec)
    ensures Framed(T, rec) && T[rec.n..rec.e] == S[rec.n..rec.e]
  {
    forall k | pos <= k < |S| ensures T[k] == S[k] {
      assert T[k] == T[pos..][k - pos] && S[k] == S[pos..][k - pos];
    }
    assert T[rec.n..rec.e] == S[rec.n..rec.e];
  }

  /** The first `|done|` records have been rewritten: record `j` keeps its
      start, ends no later than before and by `pos`, and holds `outs[j]`. */
  ghost predicate Rewritten(T: seq<byte>, recs: seq<FQRec>, done: seq<FQRec>, outs: seq<seq<byte>>, pos: nat)
  {
    |done| == |outs| <= |recs| && pos <= |T| &&
    (forall j :: 0 <= j < |done| ==>
       done[j].n == recs[j].n && done[j].n <= done[j].e <= recs[j].e && done[j].e <= pos) &&
    (forall j :: 0 <= j < |done| ==> T[done[j].n..done[j].e] == outs[j])
  }

  /** The record loop's state: records before `pos` rewritten, and the
      bytes before `from` and from `pos` on still those of `S`. */
  ghost predicate Progress(T: seq<byte>, S: seq<byte>, recs: seq<FQRec>, from: nat,
                           done: seq<FQRec>, outs: seq<seq<byte>>, pos: nat)
  {
    |T| == |S| && from <= pos <= |S| && T[..from] == S[..from] && T[pos..] == S[pos..] &&
    Rewritten(T, recs, done, outs, pos)
  }

  /** Rewriting the next record, which starts at `pos`, keeps the earlier
      ones: they all end by `pos`, and nothing before it changed. */
  lemma RewrittenStep(T: seq<byte>, U: seq<byte>, recs: seq<FQRec>, done: seq<FQRec>,
                      outs: seq<seq<byte>>, pos: nat, rec': FQRec, out: seq<byte>, pos': nat)
    requires Rewritten(T, recs, done, outs, pos) && |done| < |recs|
    requires pos == recs[|done|].n == rec'.n <= rec'.e <= recs[|done|].e <= pos' <= |U|
    requires |T| == |U| && U[..pos] == T[..pos] && U[rec'.n..rec'.e] == out
    ensures Rewritten(U, recs, done + [rec'], outs + [out], pos')
  {
    var done', outs' := done + [rec'], outs + [out];
    forall j | 0 <= j < |done'| ensures U[done'[j].n..done'[j].e] == outs'[j] {
      if j < |done| {
        PrefixSlice(T, U, pos, done[j].n, done[j].e);
      }
    }
  }

  lemma PrefixSlice(T: seq<byte>, U: seq<byte>, pos: nat, a: nat, b: nat)
    requires a <= b <= pos <= |T| && pos <= |U| && T[..pos] == U[..pos]
    ensures T[a..b] == U[a..b]
  {
    forall k | a <= k < b ensures T[k] == U[k] {
      assert T[k] == T[..pos][k] && U[k] == U[..pos][k];
    }
  }

  /** Prefix facts, proved apart from the record loop for the same reason
      as `ConcatAssoc`. */
  lemma PrefixExtend<T>(all: seq<T>, i: nat)
    requires i < |all|
    ensures all[..i] + [all[i]] == all[..i + 1]
  {
  }

  lemma PrefixWhole<T>(all: seq<T>, i: nat)
    requires i == |all|
    ensures all[..i] == all
  {
  }

  /** All records rewritten, read back. */
  lemma RewrittenChunks(T: seq<byte>, recs: seq<FQRec>, done: seq<FQRec>, outs: seq<seq<byte>>, pos: nat)
    requires Rewritten(T, recs, done, outs, pos) && |done| == |recs|
    ensures |done| == |recs| && InBounds(T, done) && Chunks(T, done) == outs
    ensures forall k :: 0 <= k < |recs| ==> done[k].n == recs[k].n && done[k].e <= recs[k].e
  {
  }

  /** Record `i` of a run: rewritable, and what it is rewritten to. */
  lemma PartAt(S: seq<byte>, recs: seq<FQRec>, p: Params, all: seq<seq<byte>>, i: nat)
    requires InBounds(S, recs) && AllProcessable(Chunks(S, recs), p) && i < |recs|
    requires all == RewriteAll(Chunks(S, recs), p)
    ensures Processable(S[recs[i].n..recs[i].e], p) && all[i] == Rewrite(S[recs[i].n..recs[i].e], p)
  {
  }

  /** Record `i` of a run: framed, and ending where the next one starts. */
  lemma ConsecutiveAt(S: seq<byte>, recs: seq<FQRec>, from: nat, to: nat, i: nat)
    requires Consecutive(S, recs, from, to) && i < |recs|
    ensures Framed(S, recs[i])
    ensures recs[i].e == if i + 1 < |recs| then recs[i + 1].n else to
  {
  }

  /** One step of the record loop: the suffix from the next record on, and
      the prefix before the first record, are still the original bytes. */
  lemma StepFrame(S: seq<byte>, T: seq<byte>, U: seq<byte>, from: nat, pos: nat, e': nat, e: nat)
    requires from <= pos <= e' <= e <= |S| == |T| == |U|
    requires T[..from] == S[..from] && T[pos..] == S[pos..]
    requires U[..pos] == T[..pos] && U[e'..] == T[e'..]
    ensures U[..from] == S[..from] && U[e..] == S[e..]
  {
    assert U[..from] == U[..pos][..from] && T[..from] == T[..pos][..from];
    assert U[e..] == U[e'..][e - e'..] && T[e..] == T[e'..][e - e'..];
    assert T[e..] == T[pos..][e - pos..] && S[e..] == S[pos..][e - pos..];
  }

  /** Where the record loop stands before record `i`. */
  function Start(recs: seq<FQRec>, i: nat, to: nat): nat
  {
    if i < |recs| then recs[i].n else to
  }

  /** One turn of the record loop: record `i` is rewritten in place to
      `all[i]`; the records before it keep their bytes, and the bytes before
      `from` and from the record's old end on are still those of `S`. */
  method RewriteNext(buf: array<byte>, ghost S: seq<byte>, recs: seq<FQRec>, from: nat, to: nat, i: nat,
                     ghost done: seq<FQRec>, ghost parts: seq<seq<byte>>, ghost all: seq<seq<byte>>,
                     p: Params)
    returns (rec': FQRec)
    requires buf.Length == |S| < USIZE_MAX && i < |recs| && |done| == i
    requires Consecutive(S, recs, from, to) && InBounds(S, recs) && parts == Chunks(S, recs)
    requires AllProcessable(parts, p) && all == RewriteAll(parts, p)
    requires Progress(buf[..], S, recs, from, done, all[..i], Start(recs, i, to))
    modifies buf
    ensures Progress(buf[..], S, recs, from, done + [rec'], all[..i + 1], Start(recs, i + 1, to))
  {
    var rec := recs[i];
    ConsecutiveAt(S, recs, from, to, i);
    PartAt(S, recs, p, all, i);
    ghost var pos := rec.n;
    ghost var T: seq<byte> := buf[..];
    FramedSuffix(S, T, pos, rec);
    rec' := InPlace.Process(buf, rec, p);
    ghost var U: seq<byte> := buf[..];
    RewrittenStep(T, U, recs, done, all[..i], pos, rec', all[i], rec.e);
    StepFrame(S, T, U, from, pos, rec'.e, rec.e);
    PrefixExtend(all, i);
  }

  /** The turns of the record loop, from the first record to the last. */
  method RewriteEach(buf: array<byte>, ghost S: seq<byte>, recs: seq<FQRec>, from: nat, to: nat,
                     ghost parts: seq<seq<byte>>, ghost all: seq<seq<byte>>, p: Params)
    returns (recs': seq<FQRec>)
    requires buf.Length == |S| < USIZE_MAX && from <= |S|
    requires Consecutive(S, recs, from, to) && InBounds(S, recs) && parts == Chunks(S, recs)
    requires AllProcessable(parts, p) && all == RewriteAll(parts, p)
    requires buf[..] == S
    modifies buf
    ensures |recs'| == |recs| && Progress(buf[..], S, recs, from, recs', all[..|recs|], to)
  {
    recs' := [];
    var i := 0;
    while i < |recs|
      invariant 0 <= i <= |recs| && |recs'| == i
      invariant Progress(buf[..], S, recs, from, recs', all[..i], Start(recs, i, to))
    {
      var rec' := RewriteNext(buf, S, recs, from, to, i, recs', parts, all, p);
      recs' := recs' + [rec'];
      i := i + 1;
    }
  }

  /** The record loop: each collected record is rewritten in place, from the
      first to the last. Record `k` keeps its start and ends no later than
      before, its bytes become the rewrite of its old bytes, and no byte
      before the first record or after the last changes. */
  method ProcessAll(buf: array<byte>, recs: seq<FQRec>, from: nat, to: nat, p: Params)
    returns (recs': seq<FQRec>)
    requires buf.Length < USIZE_MAX && from <= buf.Length
    requires Consecutive(buf[..], recs, from, to) && InBounds(buf[..], recs)
    requires AllProcessable(Chunks(buf[..], recs), p)
    modifies buf
    ensures |recs'| == |recs| && InBounds(buf[..], recs')
    ensures forall k :: 0 <= k < |recs| ==> recs'[k].n == recs[k].n && recs'[k].e <= recs[k].e
    ensures Chunks(buf[..], recs') == RewriteAll(old(Chunks(buf[..], recs)), p)
    ensures buf[..from] == old(buf[..from]) && buf[to..] == old(buf[to..])
  {
    ghost var S: seq<byte> := buf[..];
    ghost var parts := Chunks(S, recs);
    ghost var all := RewriteAll(parts, p);
    recs' := RewriteEach(buf, S, recs, from, to, parts, all, p);
    PrefixWhole(all, |recs|);
    RewrittenChunks(buf[..], recs, recs', all, to);
  }

  /** The write loop: the records' bytes, one after the other. */
  method WriteAll(buf: array<byte>, recs: seq<FQRec>) returns (out: seq<byte>)
    requires InBounds(buf[..], recs)
    ensures out == Flatten(Chunks(buf[..], recs))
  {
    out := [];
    var i := 0;
    while i < |recs|
      invariant 0 <= i <= |recs| && InBounds(buf[..], recs[..i])
      invariant out == Flatten(Chunks(buf[..], recs[..i]))
    {
      var rec := recs[i];
      ChunksAppend(buf[..], recs[..i], rec);
      assert recs[..i + 1] == recs[..i] + [rec];
      FlattenAppend(Chunks(buf[..], recs[..i]), [buf[rec.n..rec.e]]);
      out := out + buf[rec.n..rec.e];
      i := i + 1;
    }
    assert recs[..i] == recs;
  }
}
