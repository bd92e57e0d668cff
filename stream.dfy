/** The buffer loop of `process_reads`: slide the unused bytes to the front
    (`shift`), fill the rest of the buffer from the reader, collect, rewrite
    and write the complete records, and stop after a read that leaves the
    buffer not full. The reader is the sequence of chunks its reads hand
    out, and the writer is the sequence of bytes written so far. */
module Stream {
  import opened Bytes
  import opened Records
  import opened Compact
  import opened Batch

  /** `shift`: the bytes of `[cursor, filled)` are copied to the front, one
      by one from the left; bytes from the new fill mark on are untouched. */
  method Shift(buf: array<byte>, cursor: nat, filled: nat) returns (cursor': nat, filled': nat)
    requires cursor <= filled <= buf.Length
    modifies buf
    ensures cursor' == 0 && filled' == filled - cursor
    ensures buf[..filled'] == old(buf[cursor..filled])
    ensures buf[filled'..] == old(buf[filled'..])
  {
    var j: nat := 0;
    var i := cursor;
    while i < filled
      invariant cursor <= i <= filled && j == i - cursor
      invariant forall k :: 0 <= k < j ==> buf[k] == old(buf[cursor + k])
      invariant forall k :: j <= k < buf.Length ==> buf[k] == old(buf[k])
    {
      buf[j] := buf[i];
      j := j + 1;
      i := i + 1;
    }
    filled' := j;
    cursor' := 0;
  }

  /** The input still to be read, as the chunks the reader's calls hand
      out: a call returns as much of the current chunk as fits. */
  datatype Reader = Reader(chunks: seq<seq<byte>>)

  function Remaining(rd: Reader): seq<byte>
  {
    Flatten(rd.chunks)
  }

  /** `reader.read(&mut buf[filled..])` with `space` bytes of room: the
      bytes read, and the reader after the call. */
  function Read(rd: Reader, space: nat): (res: (seq<byte>, Reader))
    ensures |res.0| <= space
    ensures res.0 + Remaining(res.1) == Remaining(rd)
    ensures |rd.chunks| <= 1 ==> |res.1.chunks| <= 1 && (|res.0| < space ==> Remaining(res.1) == [])
  {
    if rd.chunks == [] || space == 0 then ([], rd)
    else
      var c := rd.chunks[0];
      assert rd.chunks == [c] + rd.chunks[1..];
      if |c| <= space then (c, Reader(rd.chunks[1..]))
      else
        assert Remaining(Reader([c[space..]] + rd.chunks[1..])) == c[space..] + Remaining(Reader(rd.chunks[1..]));
        assert c == c[..space] + c[space..];
        (c[..space], Reader([c[space..]] + rd.chunks[1..]))
  }

  /** The bytes a read hands out land at the fill mark. */
  method Fill(buf: array<byte>, filled: nat, got: seq<byte>)
    requires filled + |got| <= buf.Length
    modifies buf
    ensures buf[..filled + |got|] == old(buf[..filled]) + got
  {
    forall k | 0 <= k < |got| {
      buf[filled + k] := got[k];
    }
    assert buf[..filled + |got|] == old(buf[..filled]) + got;
  }

  /** The loop of `process_reads`, from `pending` unused bytes at the front
      of a buffer of `size` bytes, for at most `fuel` turns: what it writes,
      and whether it stopped by itself. Each turn reads into the free room,
      writes every complete record of the window, keeps what is left over,
      and stops when the window did not fill the buffer. */
  ghost function Run(pending: seq<byte>, rd: Reader, size: nat, p: Params, fuel: nat): (r: (seq<byte>, bool))
    requires |pending| <= size && StreamOk(pending + Remaining(rd), p)
    decreases fuel, 0
  {
    if fuel == 0 then ([], false) else RunTurn(pending, rd, size, p, fuel - 1)
  }

  /** One turn of `Run`, with `fuel'` turns left after it. */
  ghost function RunTurn(pending: seq<byte>, rd: Reader, size: nat, p: Params, fuel': nat): (r: (seq<byte>, bool))
    requires |pending| <= size && StreamOk(pending + Remaining(rd), p)
    decreases fuel', 1
  {
    var res := Read(rd, size - |pending|);
    var window := pending + res.0;
    ReadWindow(pending, rd, res.0, res.1, window, p);
    if |window| < size then (Emit(window, p), true)
    else
      var rest := Run(Leftover(window), res.1, size, p, fuel');
      (Emit(window, p) + rest.0, rest.1)
  }

  /** The window of a turn and what it leaves over suit the parameters,
      and together with the rest of the input they make up the input. */
  lemma ReadWindow(pending: seq<byte>, rd: Reader, got: seq<byte>, rd': Reader, window: seq<byte>, p: Params)
    requires StreamOk(pending + Remaining(rd), p)
    requires got + Remaining(rd') == Remaining(rd) && window == pending + got
    ensures pending + Remaining(rd) == window + Remaining(rd')
    ensures StreamOk(window, p) && StreamOk(Leftover(window) + Remaining(rd'), p)
    ensures Emit(pending + Remaining(rd), p) == Emit(window, p) + Emit(Leftover(window) + Remaining(rd'), p)
    ensures |Leftover(window)| <= |window|
  {
    ConcatAssoc(pending, got, Remaining(rd'));
    EmitConcat(window, Remaining(rd'), p);
  }

  /** One turn of `Run`, unfolded, with `fuel'` turns left after it. */
  lemma RunStep(pending: seq<byte>, rd: Reader, size: nat, p: Params, fuel: nat,
                got: seq<byte>, rd': Reader, window: seq<byte>, fuel': nat)
    requires |pending| <= size && StreamOk(pending + Remaining(rd), p) && fuel == fuel' + 1
    requires (got, rd') == Read(rd, size - |pending|) && window == pending + got
    ensures |window| <= size && StreamOk(window, p)
    ensures |Leftover(window)| <= size && StreamOk(Leftover(window) + Remaining(rd'), p)
    ensures |window| < size ==> Run(pending, rd, size, p, fuel) == (Emit(window, p), true)
    ensures |window| >= size ==>
              Run(pending, rd, size, p, fuel) ==
                (Emit(window, p) + Run(Leftover(window), rd', size, p, fuel').0,
                 Run(Leftover(window), rd', size, p, fuel').1)
  {
    ReadWindow(pending, rd, got, rd', window, p);
    assert Run(pending, rd, size, p, fuel) == RunTurn(pending, rd, size, p, fuel');
  }

  /** What a buffer holds after the record loop: the complete records of
      the window are gone from the front, and what is left over is the tail
      after the last of them. */
  lemma LeftoverAfterRun(s: seq<byte>, recs: seq<FQRec>, to: nat, filled: nat)
    requires Consecutive(s, recs, 0, to) && to <= filled <= |s| < USIZE_MAX
    requires RecordAt(s, filled, to).e == USIZE_MAX
    ensures Leftover(s[..filled]) == s[to..filled]
  {
    var w := s[..filled];
    ConsecutiveSplit(s, recs, 0, to, filled);
    ConsecutiveTiles(s, recs, 0, to);
    assert s[0..filled] == w;
    SplitTiles(w);
    assert w == s[0..to] + s[to..filled];
    assert Leftover(w) == (s[0..to] + Leftover(w))[to..];
  }

  /** The first half of a turn: the unused bytes go to the front, and a
      read fills the room after them. */
  method Refill(buf: array<byte>, cursor: nat, filled: nat, rd: Reader)
    returns (filled': nat, got: seq<byte>, rd': Reader)
    requires cursor <= filled <= buf.Length
    modifies buf
    ensures (got, rd') == Read(rd, buf.Length - (filled - cursor))
    ensures filled' == filled - cursor + |got| <= buf.Length
    ensures buf[..filled'] == old(buf[cursor..filled]) + got
  {
    ghost var pending := buf[cursor..filled];
    var c, f := Shift(buf, cursor, filled);
    ghost var shifted := buf[..f];
    assert shifted == pending;
    var res := Read(rd, buf.Length - f);
    got, rd' := res.0, res.1;
    Fill(buf, f, got);
    filled' := f + |got|;
    assert buf[..filled'] == shifted + got;
  }

  /** The records collected from the front of a buffer are the complete
      records of the window `s[..filled]`, and the bytes after the last of
      them are its leftover. */
  lemma WindowRecords(s: seq<byte>, recs: seq<FQRec>, to: nat, filled: nat, window: seq<byte>)
    requires to <= filled <= |s| < USIZE_MAX && window == s[..filled]
    requires Consecutive(s, recs, 0, to) && RecordAt(s, filled, to).e == USIZE_MAX
    requires InBounds(s, recs) && Chunks(s, recs) == Split(s[0..filled])
    ensures Chunks(s, recs) == Split(window) && Leftover(window) == s[to..filled]
  {
    assert s[0..filled] == window;
    LeftoverAfterRun(s, recs, to, filled);
  }

  /** Bytes at and after `to` that a step leaves alone. */
  lemma SuffixSlice(T: seq<byte>, U: seq<byte>, to: nat, hi: nat)
    requires to <= hi <= |T| == |U| && T[to..] == U[to..]
    ensures T[to..hi] == U[to..hi]
  {
    assert T[to..hi] == T[to..][..hi - to];
    assert U[to..hi] == U[to..][..hi - to];
  }

  /** The collected records are rewritten in place and written out, in
      order; the bytes after them are left alone. */
  method RewriteRecords(buf: array<byte>, recs: seq<FQRec>, to: nat, p: Params) returns (chunk: seq<byte>)
    requires to <= buf.Length < USIZE_MAX
    requires Consecutive(buf[..], recs, 0, to) && InBounds(buf[..], recs)
    requires AllProcessable(Chunks(buf[..], recs), p)
    modifies buf
    ensures chunk == Flatten(RewriteAll(old(Chunks(buf[..], recs)), p))
    ensures buf[to..] == old(buf[to..])
  {
    var recs' := ProcessAll(buf, recs, 0, to, p);
    chunk := WriteAll(buf, recs');
  }

  /** The second half of a turn: every complete record of the window
      `buf[..filled]` is rewritten in place and written out, and the cursor
      is left at the start of what is left over. */
  method Drain(buf: array<byte>, filled: nat, ghost window: seq<byte>, p: Params)
    returns (cursor': nat, chunk: seq<byte>)
    requires filled <= buf.Length < USIZE_MAX
    requires window == buf[..filled] && StreamOk(window, p)
    modifies buf
    ensures chunk == Emit(window, p)
    ensures cursor' <= filled && buf[cursor'..filled] == Leftover(window)
  {
    var recs;
    recs, cursor' := CollectRecords(buf, 0, filled);
    ghost var B: seq<byte> := buf[..];
    WindowRecords(B, recs, cursor', filled, window);
    chunk := RewriteRecords(buf, recs, cursor', p);
    SuffixSlice(buf[..], B, cursor', filled);
  }

  /** What `process_reads` writes for `input`, over a buffer of `size`
      bytes and at most `fuel` turns, and whether its loop ended. */
  ghost function Output(input: Reader, size: nat, p: Params, fuel: nat): (seq<byte>, bool)
    requires StreamOk(Remaining(input), p)
  {
    assert [] + Remaining(input) == Remaining(input);
    Run([], input, size, p, fuel)
  }

  /** The loop of `process_reads` after some turns: the bytes written so
      far followed by what the remaining turns write make up `total`. */
  ghost predicate Loop(total: (seq<byte>, bool), out: seq<byte>, pending: seq<byte>, rd: Reader,
                       size: nat, p: Params, fuel: nat)
  {
    |pending| <= size && StreamOk(pending + Remaining(rd), p) &&
    total == (out + Run(pending, rd, size, p, fuel).0, Run(pending, rd, size, p, fuel).1)
  }

  /** A turn that leaves the buffer not full ends the loop with everything
      written. */
  lemma LoopEnd(total: (seq<byte>, bool), out: seq<byte>, pending: seq<byte>, rd: Reader,
                size: nat, p: Params, fuel: nat, got: seq<byte>, rd': Reader, window: seq<byte>)
    requires Loop(total, out, pending, rd, size, p, fuel) && fuel > 0
    requires (got, rd') == Read(rd, size - |pending|) && window == pending + got
    requires |window| < size && StreamOk(window, p)
    ensures total == (out + Emit(window, p), true)
  {
    RunStep(pending, rd, size, p, fuel, got, rd', window, fuel - 1);
  }

  /** A turn that fills the buffer keeps the loop's account: what it writes
      joins the output, and what is left over is pending for the next. */
  lemma LoopOn(total: (seq<byte>, bool), out: seq<byte>, pending: seq<byte>, rd: Reader,
               size: nat, p: Params, fuel: nat, got: seq<byte>, rd': Reader, window: seq<byte>,
               out': seq<byte>, left: seq<byte>, fuel': nat)
    requires Loop(total, out, pending, rd, size, p, fuel) && fuel == fuel' + 1
    requires (got, rd') == Read(rd, size - |pending|) && window == pending + got
    requires |window| >= size && StreamOk(window, p)
    requires out' == out + Emit(window, p) && left == Leftover(window)
    ensures Loop(total, out', left, rd', size, p, fuel')
  {
    RunStep(pending, rd, size, p, fuel, got, rd', window, fuel');
    ghost var whole := Run(pending, rd, size, p, fuel);
    ghost var rest := Run(left, rd', size, p, fuel');
    Account(total, out, out', Emit(window, p), whole, rest);
  }

  /** The bookkeeping of a turn: what was written, then what the turn
      writes, then what the rest of the turns write. */
  lemma Account(total: (seq<byte>, bool), out: seq<byte>, out': seq<byte>, chunk: seq<byte>,
                whole: (seq<byte>, bool), rest: (seq<byte>, bool))
    requires total == (out + whole.0, whole.1) && whole == (chunk + rest.0, rest.1)
    requires out' == out + chunk
    ensures total == (out' + rest.0, rest.1)
  {
    ConcatAssoc(out, chunk, rest.0);
  }

  /** The loop starts with nothing written and nothing pending. */
  lemma LoopStart(input: Reader, size: nat, p: Params, fuel: nat)
    requires StreamOk(Remaining(input), p)
    ensures Loop(Output(input, size, p, fuel), [], [], input, size, p, fuel)
  {
    assert [] + Remaining(input) == Remaining(input);
    assert [] + Run([], input, size, p, fuel).0 == Run([], input, size, p, fuel).0;
  }

  /** A loop that runs out of turns has written everything it will. */
  lemma LoopDone(total: (seq<byte>, bool), out: seq<byte>, pending: seq<byte>, rd: Reader,
                 size: nat, p: Params)
    requires Loop(total, out, pending, rd, size, p, 0)
    ensures total == (out, false)
  {
    assert out + [] == out;
  }

  /** One turn of the loop of `process_reads`: shift, read, then rewrite
      and write every complete record of the window. A turn whose window
      does not fill the buffer is the last. */
  method Turn(buf: array<byte>, size: nat, cursor: nat, filled: nat, rd: Reader, p: Params,
              ghost total: (seq<byte>, bool), out: seq<byte>, fuel: nat)
    returns (cursor': nat, filled': nat, rd': Reader, out': seq<byte>, fuel': nat)
    requires buf.Length == size < USIZE_MAX && cursor <= filled <= size && fuel > 0
    requires Loop(total, out, buf[cursor..filled], rd, size, p, fuel)
    modifies buf
    ensures cursor' <= filled' <= size && fuel' == fuel - 1
    ensures filled' < size ==> total == (out', true)
    ensures filled' >= size ==> Loop(total, out', buf[cursor'..filled'], rd', size, p, fuel')
  {
    ghost var pending := buf[cursor..filled];
    var got;
    filled', got, rd' := Refill(buf, cursor, filled, rd);
    ghost var window := pending + got;
    RunStep(pending, rd, size, p, fuel, got, rd', window, fuel - 1);
    var chunk;
    cursor', chunk := Drain(buf, filled', window, p);
    out' := out + chunk;
    fuel' := fuel - 1;
    if filled' < size {
      LoopEnd(total, out, pending, rd, size, p, fuel, got, rd', window);
    } else {
      LoopOn(total, out, pending, rd, size, p, fuel, got, rd', window, out', buf[cursor'..filled'], fuel');
    }
  }

  /** `process_reads` for at most `fuel` turns of its loop, over a buffer
      of `size` bytes: what it writes, and whether the loop ended. */
  method ProcessReads(size: nat, reader: Reader, p: Params, fuel: nat) returns (out: seq<byte>, finished: bool)
    requires size < USIZE_MAX && StreamOk(Remaining(reader), p)
    ensures (out, finished) == Output(reader, size, p, fuel)
  {
    var buf := new byte[size](_ => 0);
    var cursor: nat, filled: nat := 0, 0;
    var rd := reader;
    out, finished := [], false;
    var turns := fuel;
    ghost var total := Output(reader, size, p, fuel);
    LoopStart(reader, size, p, fuel);
    assert buf[cursor..filled] == [];
    while turns > 0
      invariant cursor <= filled <= size
      invariant buf.Length == size
      invariant Loop(total, out, buf[cursor..filled], rd, size, p, turns)
    {
      cursor, filled, rd, out, turns := Turn(buf, size, cursor, filled, rd, p, total, out, turns);
      if filled < size {
        finished := true;
        return;
      }
    }
    LoopDone(total, out, buf[cursor..filled], rd, size, p);
  }

  // ---------------------------------------------------------------------
  // What the loop writes

  /** With a reader whose reads fill the buffer until the input runs out
      (a single chunk), the loop, once it stops, has written every complete
      record of the input, rewritten, in order; a trailing partial record
      is not written. */
  lemma {:induction false} RunFullReads(pending: seq<byte>, rd: Reader, size: nat, p: Params, fuel: nat)
    requires |pending| <= size && StreamOk(pending + Remaining(rd), p) && |rd.chunks| <= 1
    ensures Run(pending, rd, size, p, fuel).1 ==>
              Run(pending, rd, size, p, fuel).0 == Emit(pending + Remaining(rd), p)
    decreases fuel, 1
  {
    if fuel > 0 {
      var res := Read(rd, size - |pending|);
      var window := pending + res.0;
      if |window| < size {
        RunStep(pending, rd, size, p, fuel, res.0, res.1, window, fuel - 1);
        assert Remaining(res.1) == [];
        assert pending + Remaining(rd) == window;
      } else {
        FullReadsOn(pending, rd, size, p, fuel, res.0, res.1, window, fuel - 1);
      }
    }
  }

  /** A turn of `RunFullReads` that fills the buffer: it writes the records
      of its window, and the turns after it, by induction, the rest. */
  lemma {:induction false} FullReadsOn(pending: seq<byte>, rd: Reader, size: nat, p: Params, fuel: nat,
                                       got: seq<byte>, rd': Reader, window: seq<byte>, fuel': nat)
    requires |pending| <= size && StreamOk(pending + Remaining(rd), p) && fuel == fuel' + 1
    requires (got, rd') == Read(rd, size - |pending|) && window == pending + got
    requires |window| >= size && |rd'.chunks| <= 1
    ensures Run(pending, rd, size, p, fuel).1 ==>
              Run(pending, rd, size, p, fuel).0 == Emit(pending + Remaining(rd), p)
    decreases fuel, 0
  {
    var left := Leftover(window);
    RunStep(pending, rd, size, p, fuel, got, rd', window, fuel');
    ghost var whole := Run(pending, rd, size, p, fuel);
    ghost var rest := Run(left, rd', size, p, fuel');
    RunFullReads(left, rd', size, p, fuel');
    ReadWindow(pending, rd, got, rd', window, p);
    Compose(whole, rest, Emit(window, p), Emit(left + Remaining(rd'), p), Emit(pending + Remaining(rd), p));
  }

  /** A turn's output followed by the rest's, when the rest's output is all
      of what is left. */
  lemma Compose(whole: (seq<byte>, bool), rest: (seq<byte>, bool), chunk: seq<byte>,
                later: seq<byte>, all: seq<byte>)
    requires whole == (chunk + rest.0, rest.1) && (rest.1 ==> rest.0 == later)
    requires all == chunk + later
    ensures whole.1 ==> whole.0 == all
  {
  }

  /** A buffer filled with a partial record keeps the loop turning without
      writing anything: the reads get no room, and no record is found. */
  lemma {:induction false} RunSpins(pending: seq<byte>, rd: Reader, size: nat, p: Params, fuel: nat)
    requires |pending| == size && StreamOk(pending + Remaining(rd), p)
    requires RecordAt(pending, |pending|, 0).e == USIZE_MAX
    ensures Run(pending, rd, size, p, fuel) == ([], false)
    decreases fuel
  {
    if fuel > 0 {
      var fuel': nat := fuel - 1;
      assert Read(rd, size - |pending|) == ([], rd);
      assert pending + [] == pending;
      RunStep(pending, rd, size, p, fuel, [], rd, pending, fuel');
      SplitStep(pending);
      assert Emit(pending, p) == [] by {
        assert Split(pending) == [];
        assert RewriteAll([], p) == [];
      }
      RunSpins(pending, rd, size, p, fuel');
      assert Emit(pending, p) + [] == [];
    }
  }

  /** A record longer than the buffer: with reads that fill the buffer until
      the input runs out, the first `size` bytes of what is left hold no
      complete record, so the first read fills the buffer with a partial
      record and the loop spins from there on, writing nothing. */
  lemma {:induction false} LongRecordSpins(pending: seq<byte>, rd: Reader, size: nat, p: Params, fuel: nat)
    requires |pending| <= size && StreamOk(pending + Remaining(rd), p) && |rd.chunks| <= 1
    requires size <= |pending + Remaining(rd)|
    requires RecordAt((pending + Remaining(rd))[..size], size, 0).e == USIZE_MAX
    ensures Run(pending, rd, size, p, fuel) == ([], false)
  {
    if fuel > 0 {
      var fuel': nat := fuel - 1;
      var res := Read(rd, size - |pending|);
      var got, rd' := res.0, res.1;
      var window := pending + got;
      assert pending + Remaining(rd) == window + Remaining(rd');
      assert |got| == size - |pending|;
      assert window == (pending + Remaining(rd))[..size];
      RunStep(pending, rd, size, p, fuel, got, rd', window, fuel');
      SplitIncomplete(window);
      assert Emit(window, p) == [] by {
        assert RewriteAll([], p) == [];
      }
      RunSpins(window, rd', size, p, fuel');
      assert Emit(window, p) + [] == [];
    }
  }
}
