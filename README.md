# adapto-rs FASTQ record engine, in Dafny

A model of the record engine of adapto-rs (`src/lib.rs`), a FASTQ adaptor
and quality trimmer. The engine reads FASTQ text into a fixed-size byte
buffer and finds the complete four-line records in it. It trims each
record's read in place and writes the trimmed records out. It then slides
the unused tail to the front of the buffer and reads again.

What is modelled, one Dafny module per part of the engine:

- `Bytes`: the byte type, the byte values the engine looks for (`\n`,
  space, `+`, `N`, the Phred+33 offset), the `usize::MAX` sentinel, and
  `position`/`rposition`.
- `NTrim`: `trim_n_ends`, the first and one-past-the-last base other than
  `N`.
- `QualTrim`: `qual_trim`, the cutadapt running-sum quality trimmer.
  - Each of its two loops is a method proved equal to a specification
    function: how far the running sum reaches (`BackReach`, `FrontReach`),
    and where within that reach the sum is largest (`BackBest`,
    `FrontBest`).
  - The 5′ scan is modelled both as written and corrected (see Findings).
- `Matching`: `naive_matching`, the bounded-mismatch adaptor search.
  - `1 - min_frac` is the exact ratio `dNum / dDen`.
  - The budget at a candidate is `(n - k) * dNum / dDen`, truncated
    toward zero. `k` is the number of tail steps taken, and the budget
    saturates at 0 as `as usize` does.
  - The method's two loops are proved to return the earliest candidate
    within its budget (`NaiveMatchSpec`).
- `Records`: the record offsets `FQRec` (`n`, `r`, `o`, `q`, `e`),
  `next_line`, `get_next_record`, and the collection loop of
  `process_reads`.
  - A byte stream splits into its complete records (`Split`) and a partial
    tail (`Leftover`).
- `Compact`: what `FQRec::process` computes, on values.
  - The four lines of a record (`LinesOf`) and their print (`Print`).
  - The kept interval (`Bounds`): the quality, `N` and adaptor stops
    intersected, then `N`s trimmed again.
  - The rewritten record (`Rewrite`): the name up to its first space, the
    kept bases, a bare `+` line, and the kept quality bytes.
- `InPlace`: `FQRec::process` as it runs on the buffer.
  - The buffer is an `array<byte>`.
  - `ptr::copy` is a move between possibly overlapping ranges.
  - `Process` is proved to leave `Rewrite` of the old record bytes in
    `[n, e')`. It also leaves every byte outside that span unchanged,
    including the bytes of `[e', e)`.
- `Batch`: the rewrite of every collected record of one filled buffer, and
  the write of the records.
  - `par_iter_mut` becomes a sequential loop. This is sound because each
    record is rewritten within its own span.
  - `Emit(s)` is what the engine writes for a byte stream `s`: every
    complete record, rewritten, in order.
- `Stream`: `shift` and the loop of `process_reads`.
  - The reader is a sequence of chunks: a read returns as much of the
    current chunk as fits.
  - The writer is the byte sequence written so far.
  - `ProcessReads` is proved to write exactly `Output`, the turn-by-turn
    specification `Run`.
  - `Run` is related to `Emit` by `RunFullReads`. With a reader that fills
    the buffer until the input runs out, a loop that stops has written the
    rewritten complete records of the whole input.
  - A buffer that is full and holds no complete record keeps the loop
    turning with nothing written (`RunSpins`).
  - A record longer than the buffer leads to that state
    (`LongRecordSpins`). When the first `size` bytes still to be
    processed hold no complete record, the first read fills the buffer
    with a partial record, and the loop spins from there on.

The source's comments promise more than its code does; the model follows
the code:

- The comment at src/lib.rs:220-221 says the name ends at the first space,
  tab or newline, but the code looks for a space (`b' '`) only
  (src/lib.rs:223).
- The comment at src/lib.rs:278 says malformed records should be detected
  there, but the only check, that a record starts with `@`, is a
  `debug_assert!` (src/lib.rs:286). The model does not require it.
- Writes stay inside a record's own span only when the name has a space
  (see Findings).

## Model

| member | source | states |
|---|---|---|
| Bytes.Position | src/lib.rs:84-87 | `None` exactly when no byte satisfies the predicate; otherwise the first index that does |
| Bytes.RPosition | src/lib.rs:88-91 | `None` exactly when no byte satisfies the predicate; otherwise the last index that does |
| NTrim.TrimNEnds | src/lib.rs:82-93 | `start <= stop <= len`; `(0, len)` on a read without `N`; `(0, 0)` exactly when every byte is `N`; otherwise `read[start]` and `read[stop-1]` are not `N` and every byte before `start` and from `stop` on is `N` |
| NTrim.TrimNEndsIdempotent | src/lib.rs:82-93 | trimming the kept part again keeps all of it |
| NTrim.TrimNEndsPrefix | src/lib.rs:202-203 | the stop of a prefix is within the prefix, and equals the whole read's stop when the prefix keeps its last non-`N` base |
| QualTrim.BackCut | src/lib.rs:122-135 | the 3′ cut is within the read; where it cuts, the sum of the dropped suffix is positive |
| QualTrim.FrontCut | src/lib.rs:108-120 | the 5′ cut is within the read; where it cuts, the sum of the dropped prefix is positive |
| QualTrim.Interval | src/lib.rs:136-138 | the result is `(0, 0)` or a non-empty interval; a non-empty interval is returned unchanged |
| QualTrim.QualTrimAsWritten | src/lib.rs:97-140 | the result is `(0, 0)` or `start < stop <= n`; with `cut_front <= 0`, `start` is 0 |
| QualTrim.QualTrimFixed | src/lib.rs:108-120 | the same bounds as the as-written trimmer, and equal to it whenever `cut_front <= 0` |
| QualTrim.QualTrim | src/lib.rs:97-140 | the two loops return `QualTrimAsWritten`: where each running sum stops and where it is largest |
| QualTrim.BackReachStops | src/lib.rs:126-130 | the 3′ scan passes only non-negative suffix sums, and stops at the read's start or where a sum goes negative |
| QualTrim.BackBestIsRightmostMax | src/lib.rs:131-134 | the 3′ cut is the rightmost maximum of the suffix sums (a strict `>` keeps the first maximum found going down) |
| QualTrim.FrontReachStops | src/lib.rs:110-114 | the 5′ scan passes only non-negative prefix sums, and stops at the read's end or where a sum goes negative |
| QualTrim.FrontBestIsLeftmostMax | src/lib.rs:115-118 | the 5′ cut is the leftmost maximum of the prefix sums |
| QualTrim.AllHighKeepsAll | src/lib.rs:122-139 | every byte at or above `cut_back + 33`, with `cut_front <= 0`: `(0, n)` |
| QualTrim.AllLowDropsAll | src/lib.rs:122-139 | every byte below `cut_back + 33`: `(0, 0)` |
| QualTrim.BackCutMonotone | src/lib.rs:122-135 | a higher 3′ threshold never moves the cut to the right |
| QualTrim.QualTrimMonotone | src/lib.rs:122-139 | with `cut_front <= 0` (as `process` passes it), a higher `cut_back` never lengthens the kept interval |
| QualTrim.FrontThresholdDoubled | src/lib.rs:109-111 | as written, one base of quality 40 with both cutoffs 20 is dropped; the fixed trimmer keeps it |
| QualTrim.FixedKeepsHighQuality | src/lib.rs:108-120 | fixed trimmer: a non-empty read whose bytes meet both cutoffs is kept whole |
| Matching.FirstPass | src/lib.rs:47-77 | the first candidate at or after `i` within its budget, or `m`; no earlier candidate in that range passes |
| Matching.NaiveMatchSpec | src/lib.rs:39-79 | result `<= m`; below `m` it is a candidate within its budget; every earlier candidate exceeds its own budget |
| Matching.MismatchesZero | src/lib.rs:50-56 | no mismatch exactly when the compared window equals the adaptor prefix |
| Matching.CountWithin | src/lib.rs:48-56 | the inner loop's count is within the budget exactly when the mismatch count is, and is that count then |
| Matching.TailBudget | src/lib.rs:64 | subtracting `delta` at each tail step leaves the budget of the next shorter overlap |
| Matching.FullScan | src/lib.rs:44-59 | the first loop returns the answer when a full-length candidate passes; otherwise it stops at `i_lim1` with the answer still ahead |
| Matching.TailScan | src/lib.rs:61-78 | the second loop, from `i_lim1`, returns the earliest passing tail candidate or `m` |
| Matching.NaiveMatching | src/lib.rs:39-79 | returns `NaiveMatchSpec`: the earliest candidate within its budget, or `m` |
| Matching.ExactOccurrenceFound | src/lib.rs:47-58 | an exact copy of the adaptor at `i` gives a result `<= i`, for any budget |
| Matching.TailOccurrenceFound | src/lib.rs:61-77 | a read tail from `i` equal to an adaptor prefix of at least `min_ltrs` bytes gives a result `<= i`, for any budget |
| Matching.NoToleranceMeansExact | src/lib.rs:42-56 | with `min_frac = 1`, a candidate passes exactly when its window matches the adaptor prefix |
| Matching.DefaultAdaptorAfterFourBases | src/lib.rs:39-79 | the default adaptor after `ACGT`, with `min_frac = 1`, is found at offset 4 |
| Matching.DefaultTailBudgets | src/lib.rs:42-46 | at the defaults, the 10-base tail overlap gets budget 1 under the ratio 1/10 and 0 under the binary value of `1 - 0.9`; the 11-base overlap gets 1 under both |
| Records.LineAfter | src/lib.rs:267-274 | `usize::MAX`, or one past a line end inside `(offset, filled]` |
| Records.LineAfterFirst | src/lib.rs:267-274 | the line end found is the first one after `offset`; `usize::MAX` means there is none before `filled` |
| Records.LineAfterUnique | src/lib.rs:267-274 | a line end with none before it is exactly what `next_line` finds |
| Records.NextLine | src/lib.rs:267-274 | the loop returns `LineAfter` |
| Records.RecordAt | src/lib.rs:277-289 | the record starts at `n`; when complete, `q < e <= filled` |
| Records.RecordAtFramed | src/lib.rs:277-289 | a complete record is framed: `n < r < o < q < e`, with line ends at `r-1`, `o-1`, `q-1`, `e-1` and none elsewhere |
| Records.GetNextRecord | src/lib.rs:277-289 | returns `RecordAt`; on success the record is framed, `e <= filled` and the cursor moves to `e`; otherwise the cursor is unchanged |
| Records.FramedIsRecordAt | src/lib.rs:277-289 | a framed record is what `get_next_record` finds at its start |
| Records.IncompleteIffFewerThanFourLines | src/lib.rs:277-289 | the locator fails exactly when fewer than four line ends remain before `filled` |
| Records.RecordAtSlice | src/lib.rs:277-289 | the record found in a slice from its start is the record found in the whole buffer, shifted |
| Records.CollectRecords | src/lib.rs:314-321 | the records run end to end from the cursor, with no complete record after them, and their bytes are the split of `[cursor, filled)` |
| Records.ConsecutiveSplit | src/lib.rs:315-321 | a run of records after which none starts is exactly the split of the bytes |
| Records.SplitTiles | src/lib.rs:315-321 | the complete records and the leftover put back together give the stream |
| Records.LeftoverIncomplete | src/lib.rs:315-321 | the leftover holds no complete record |
| Records.SplitAppend | src/lib.rs:306-321 | a stream without leftover followed by more bytes splits into both splits |
| Records.Record4Parses | src/lib.rs:277-289 | four line bodies, printed, are found by `get_next_record` at exactly their line ends |
| Records.FramedIsRecord4 | src/lib.rs:277-289 | a framed record is the print of its four line bodies |
| Compact.PrintLinesOf | src/lib.rs:277-289 | parsing a complete record and printing its lines gives it back |
| Compact.LinesOfPrint | src/lib.rs:277-289 | printing four line bodies and parsing the result gives them back |
| Compact.Bounds | src/lib.rs:186-204 | `start <= stop <=` the searched length `<= seqlen` |
| Compact.BoundsSpec | src/lib.rs:191-204 | `stop` is within the quality stop, the `N` stop and the adaptor match, and ends on a base other than `N`; only `N`s lie between `stop` and the smallest of those limits, so `stop` is exactly the last non-`N` end below them; a non-empty interval starts at the first base other than `N` |
| Compact.BoundsCleanRead | src/lib.rs:191-204 | no `N`, no low-quality byte and no passing adaptor candidate: the whole read is kept |
| Compact.BoundsLowQuality | src/lib.rs:191-204 | every quality byte below the cutoff: nothing is kept |
| Compact.BoundsAdaptorCut | src/lib.rs:198-201 | an exact adaptor in the searched part cuts the read at or before it |
| Compact.BoundsAdaptorTail | src/lib.rs:198-201 | a searched part ending in an adaptor prefix of at least `min_ltrs` bytes is cut at or before it |
| Compact.NameEnd | src/lib.rs:222-226 | the index of the first space of the name, or its length; no space before it |
| Compact.TrimKeepsBodies | src/lib.rs:227-258 | the rewritten lines have no line end in them, the separator is a bare `+`, and the record does not grow |
| Compact.RewriteIsRecord | src/lib.rs:178-260 | the rewritten record is again a well-formed record, no longer than before, whose lines are the trimmed lines |
| InPlace.MoveBytes | src/lib.rs:232 | `ptr::copy`: the destination holds the old source bytes, and nothing else changes, even when the ranges overlap |
| InPlace.KeptInterval | src/lib.rs:186-204 | the bounds computed by calling the trimmers and the matcher are `Bounds` |
| InPlace.NameCursorEndsName | src/lib.rs:222-226 | the corrected cursor is `n` plus the name's first space (or the name line's end), inside the name line |
| InPlace.NameCursorAsWrittenOverruns | src/lib.rs:222-226 | as written, a name without a space puts the cursor at `n + r`, not at the name's line end, and past `e` when `n + r >= e` |
| InPlace.NameCursorAsWrittenExample | src/lib.rs:222-226 | for the second of two copies of a short record, the as-written cursor is 25, past its end at 22, while the corrected cursor is 13 |
| InPlace.RecordInBuffer | src/lib.rs:186-193 | `seqlen` bytes from `r` and from `q` are the read line and its quality bytes, and lie inside the record |
| InPlace.StoreLayout | src/lib.rs:227-258 | the stores and moves from the name cursor leave the computed layout and end at `c + 2*len + 5` |
| InPlace.WriteBack | src/lib.rs:227-258 | the buffer from `n` holds name part, `\n`, kept read, `\n+\n`, kept quality, `\n`; nothing before `n` or after the new end changes |
| InPlace.RewriteFromBuffer | src/lib.rs:186-258 | the offsets fit inside the record, and the bytes `process` writes are `Rewrite` of the record |
| InPlace.Plan | src/lib.rs:186-226 | the cursor, the read and quality starts and the kept length fit inside the record, and lay out `Rewrite` of the record |
| InPlace.Process | src/lib.rs:178-260 | only `e` changes, with `n < e' <= e`; `[n, e')` holds `Rewrite` of the old record; nothing before `n` or from `e'` on changes |
| Batch.RewriteAll | src/lib.rs:324-325 | one rewritten record per record, in order |
| Batch.SplitConcat | src/lib.rs:306-321 | the records of `a + b` are those of `a` followed by those of `a`'s leftover plus `b` |
| Batch.SplitFlatten | src/lib.rs:315-321 | complete records laid end to end split back into exactly those records |
| Batch.EmitSplitsBack | src/lib.rs:315-331 | the output is a FASTQ stream again: it splits into the rewritten records with nothing left over, and is no longer than the input |
| Batch.RewrittenShorter | src/lib.rs:324-325 | rewriting never lengthens the records |
| Batch.EmitConcat | src/lib.rs:306-337 | the output for `a + b` is the output for `a`, then the output for `a`'s leftover plus `b` |
| Batch.EmitIgnoresLeftover | src/lib.rs:315-331 | a trailing partial record adds nothing to the output |
| Batch.RewriteNext | src/lib.rs:324-325 | one turn of the record loop rewrites record `i` and keeps the earlier ones |
| Batch.RewriteEach | src/lib.rs:324-325 | every collected record is rewritten in its own span |
| Batch.ProcessAll | src/lib.rs:324-325 | the records keep their starts and do not grow; their bytes are the rewritten old bytes; nothing outside `[from, to)` changes |
| Batch.WriteAll | src/lib.rs:331 | the bytes written are the records' bytes, one after the other |
| Stream.Shift | src/lib.rs:142-150 | `cursor' = 0`, `filled' = filled - cursor`; the front holds the old `[cursor, filled)`; bytes from `filled'` on are unchanged |
| Stream.Read | src/lib.rs:311 | a read returns at most the free room and takes its bytes from the front of the input; with a single chunk, a short read means the input is exhausted |
| Stream.Fill | src/lib.rs:311 | the bytes read land at the fill mark, after the kept bytes |
| Stream.Refill | src/lib.rs:308-311 | after shift and read, the buffer starts with the old unused bytes followed by what was read |
| Stream.RewriteRecords | src/lib.rs:324-331 | the records are rewritten and written as the rewritten old records, in order |
| Stream.Drain | src/lib.rs:313-331 | a turn writes `Emit` of the window and leaves the cursor at its leftover |
| Stream.RunStep | src/lib.rs:306-337 | one turn: a short window ends the loop having written its records; a full one writes them and goes on with the leftover |
| Stream.Turn | src/lib.rs:306-337 | one turn of the loop keeps the account of what has been and will be written, and ends the loop exactly when the buffer is not full |
| Stream.ProcessReads | src/lib.rs:291-337 | writes exactly `Output`: what the turns of the loop write, and whether it stopped by itself |
| Stream.RunFullReads | src/lib.rs:306-337 | with reads that fill the buffer, a loop that stops has written every complete record of the input, rewritten, in order, and no partial record |
| Stream.RunSpins | src/lib.rs:306-337 | a full buffer holding no complete record: the loop writes nothing and never stops |
| Stream.LongRecordSpins | src/lib.rs:306-337 | with reads that fill the buffer, input whose first `size` unprocessed bytes hold no complete record makes the loop write nothing and never stop |

## Left out

- `remove_adaptors` (src/lib.rs:342-374) and all of src/main.rs: compressed I/O through htslib, a thread pool, argument parsing and file probing. These are foreign calls and configuration; src/main.rs is not part of this model.
- `reader.read` and `writer.write` (src/lib.rs:311, 262): I/O. The reader is a sequence of chunks and the writer an appended byte sequence. Read and write errors are not modelled.
- Batch.WriteAll: every record is appended to the output whole.
  - The source calls `Write::write` (src/lib.rs:262), not `write_all`, and drops the count it returns, so a short write silently loses the rest of a record.
  - The model assumes every write is complete. The same holds for `Stream.RewriteRecords`, `Stream.ProcessReads` and the promise of `Stream.RunFullReads` that every complete record is written.
- `par_iter_mut` (src/lib.rs:324-325): concurrency. Records are rewritten one after the other. Each rewrite is proved to change only its own span.
- The `Display` implementation of `FQRec` (src/lib.rs:167-175): formatting only.
- Matching.NaiveMatching: `1 - min_frac` is an exact ratio `dNum / dDen >= 0`, not `f64`.
  - The rounding changes budgets at the default settings, not only in corner cases.
  - With a 13-base adaptor and `min_frac = 0.9`, `f64` gives the 10-base tail overlap a budget of `0.9999999999999997 as usize = 0`, while the ratio 1/10 gives 1.
  - Taking `dNum / dDen` as the exact binary value of `1 - 0.9`, 900719925474099 / 2^53, gives budget 0 from the 10-base overlap on, as `f64` does at these defaults (`Matching.DefaultTailBudgets`).
  - The repeated subtraction of `d_delta` is otherwise not modelled.
  - `min_frac > 1` (a negative `d_delta`) is not covered.
- Matching.NaiveMatching: requires `min_ltrs <= m + 1`. Beyond that, `m + 1 - min_ltrs` (src/lib.rs:61) underflows in the source.
  - A debug build panics there.
  - A release build wraps, so the tail loop (src/lib.rs:63-77) runs on to `i = m`, where `j_lim` is 0 and the window always passes: the search then behaves as with `min_ltrs = 1`.
  - For example, `--min-overlap 3` with the default 13-base adaptor and `min_frac = 0.9` gives a searched part of one base a `d_max` of about 1.2 at offset 0, so a budget of 1, and the read is cut to nothing.
  - The model covers neither behaviour.
- QualTrim.QualTrim: the running sums are unbounded integers, so `i32` overflow on reads of millions of bytes is not modelled.
- Records.GetNextRecord: the `debug_assert!` that a record starts with `@` is not modelled. It is compiled out in release builds.
- InPlace.Process: requires a well-formed FASTQ record.
  - The separator line is not empty.
  - The quality line is at least as long as the read.
  - `min_ltrs` is at most the searched length plus one.
  - A `min_ltrs` too large underflows `m + 1 - min_ltrs` (src/lib.rs:61): a debug build panics, and a release build searches as with `min_ltrs = 1` (see `Matching.NaiveMatching` above).
  - A quality line shorter than the read makes the source panic only when the slice at src/lib.rs:191 runs past the end of the buffer (below).
  - The source does not check the first two conditions.
  - Empty separator line. Write `c` for the name cursor, `L` for the read length (so `q = r + L + 2`) and `len = stop - start`.
    - The `\n` stored at src/lib.rs:244 goes to `c + len + 3`.
    - It lands on the first quality byte still to be copied, `q + start`, only when `c = r - 1`, `start = 0` and `stop = L`. Only then does the final store at src/lib.rs:255, at `c + 2*len + 4`, reach `e`, the first byte of the next record, when the quality line has `L` bytes.
    - `c = r - 1` is the corrected cursor for a name without a space. For such a name the source's own cursor is `n + r`, the overrun listed under Findings.
    - When the name has a space (`c <= r - 2`), the source rewrites such a record correctly inside its own span.
  - Quality line shorter than the read.
    - The slice at src/lib.rs:191 takes `seqlen` bytes from `q`, which run into the next record. It panics only past the end of the buffer.
    - When the kept interval reaches past the quality line, the copy at src/lib.rs:251 puts those bytes in the output.
  - Records breaking either condition are not FASTQ, so the model excludes them rather than modelling these cases.
- InPlace.Process: uses the corrected name cursor. The as-written cursor is modelled on its own (`InPlace.NameCursorAsWritten`) and shown to leave the record (Findings).
- Stream.ProcessReads: the loop runs for at most `fuel` turns, and a run that has not stopped reports so. A spinning loop is therefore shown as one that writes nothing within any number of turns, not as non-termination.
- Stream.RunFullReads: relates the loop to `Emit` only for a reader whose reads fill the buffer until the input runs out (a single chunk). With shorter reads the source stops early, and `Run` models that turn by turn.

## Findings

| source | as written | input that shows it | evidently intended | confidence | as-written member | corrected member |
|---|---|---|---|---|---|---|
| src/lib.rs:109-111 | the 5′ threshold adds the Phred offset twice: `cut_front + 33` is rebound, then `+ 33` again in the running sum | one base of quality 40 (byte 73), `cut_front = cut_back = 20`: the as-written result is `(0, 0)` | threshold `cut_front + 33`, as at the 3′ end, giving `(0, 1)` | not executed | QualTrim.QualTrimAsWritten, QualTrim.FrontThresholdDoubled | QualTrim.QualTrimFixed, QualTrim.FixedKeepsHighQuality |
| src/lib.rs:222-226 | a name line without a space gives the cursor `n + r` (the absolute `r` added to `n`) | the record `@a`/`AC`/`+`/`II` twice in one buffer: for the second one (`n = 11`, `e = 22`) the cursor is 25, past the record's end | the name line's own line end, `n` plus the name's length, 13 here | not executed | InPlace.NameCursorAsWritten, InPlace.NameCursorAsWrittenOverruns, InPlace.NameCursorAsWrittenExample | InPlace.NameCursor, InPlace.NameCursorEndsName |
