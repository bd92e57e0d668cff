/** `FQRec::process` as it runs: the bounds are computed from the record's
    bytes in the buffer, and the rewritten record is written over the
    original one, from its start, with byte stores and `ptr::copy`. */
module InPlace {
  import opened Bytes
  import opened NTrim
  import opened QualTrim
  import opened Matching
  import opened Records
  import opened Compact

  /** The bytes of `s` after `len` bytes are copied from `src` to `dst`,
      reading all of them before writing any. */
  ghost function Moved(s: seq<byte>, src: nat, dst: nat, len: nat): (t: seq<byte>)
    requires src + len <= |s| && dst + len <= |s|
    ensures |t| == |s|
    ensures forall k :: 0 <= k < |s| ==> t[k] == if dst <= k < dst + len then s[k - dst + src] else s[k]
  {
    seq(|s|, k requires 0 <= k < |s| => if dst <= k < dst + len then s[k - dst + src] else s[k])
  }

  /** `ptr::copy`: moves `len` bytes from `src` to `dst`; the two ranges
      may overlap. */
  method MoveBytes(buf: array<byte>, src: nat, dst: nat, len: nat)
    requires src + len <= buf.Length && dst + len <= buf.Length
    modifies buf
    ensures buf[..] == Moved(old(buf[..]), src, dst, len)
  {
    if dst <= src {
      var i: nat := 0;
      while i < len
        invariant i <= len
        invariant forall k :: 0 <= k < buf.Length ==>
                    buf[k] == if dst <= k < dst + i then old(buf[k - dst + src]) else old(buf[k])
      {
        buf[dst + i] := buf[src + i];
        i := i + 1;
      }
    } else {
      var i: nat := len;
      while i > 0
        invariant i <= len
        invariant forall k :: 0 <= k < buf.Length ==>
                    buf[k] == if dst + i <= k < dst + len then old(buf[k - dst + src]) else old(buf[k])
      {
        i := i - 1;
        buf[dst + i] := buf[src + i];
      }
    }
    assert buf[..] == Moved(old(buf[..]), src, dst, len);
  }

  /** The lines of a record framed from the start to the end of `t`. */
  lemma LinesOfFramed(t: seq<byte>, rel: FQRec)
    requires Framed(t, rel) && rel.n == 0 && rel.e == |t| < USIZE_MAX
    ensures Complete(t)
    ensures LinesOf(t) == Lines(t[..rel.r - 1], t[rel.r..rel.o - 1], t[rel.o..rel.q - 1], t[rel.q..rel.e - 1])
  {
    FramedIsRecordAt(t, |t|, rel);
  }

  /** The lines of a framed record, cut out of the buffer it lies in. */
  lemma LinesAt(s: seq<byte>, rec: FQRec)
    requires Framed(s, rec) && |s| < USIZE_MAX
    ensures Complete(s[rec.n..rec.e])
    ensures LinesOf(s[rec.n..rec.e]) ==
            Lines(s[rec.n..rec.r - 1], s[rec.r..rec.o - 1], s[rec.o..rec.q - 1], s[rec.q..rec.e - 1])
  {
    var t := s[rec.n..rec.e];
    var rel := Rebase(rec, rec.n);
    assert Framed(t, rel) by {
      FramedSlice(s, rec.n, rec.e, rec);
    }
    LinesOfFramed(t, rel);
    RebasedSlices(s, rec, t, rel);
    var lt := Lines(t[..rel.r - 1], t[rel.r..rel.o - 1], t[rel.o..rel.q - 1], t[rel.q..rel.e - 1]);
    assert LinesOf(t) == lt;
    assert lt == Lines(s[rec.n..rec.r - 1], s[rec.r..rec.o - 1], s[rec.o..rec.q - 1], s[rec.q..rec.e - 1]);
  }

  /** The lines of a record, cut out of a slice starting at the record or
      out of the whole sequence. */
  lemma RebasedSlices(s: seq<byte>, rec: FQRec, t: seq<byte>, rel: FQRec)
    requires Ordered(rec) && rec.e <= |s| && t == s[rec.n..rec.e] && rel == Rebase(rec, rec.n)
    ensures t[..rel.r - 1] == s[rec.n..rec.r - 1] && t[rel.r..rel.o - 1] == s[rec.r..rec.o - 1] &&
            t[rel.o..rel.q - 1] == s[rec.o..rec.q - 1] && t[rel.q..rel.e - 1] == s[rec.q..rec.e - 1]
  {
    assert t[..rel.r - 1] == t[0..rel.r - 1];
    SubSlice(s, rec.n, rec.e, 0, rel.r - 1, rec.n, rec.r - 1);
    SubSlice(s, rec.n, rec.e, rel.r, rel.o - 1, rec.r, rec.o - 1);
    SubSlice(s, rec.n, rec.e, rel.o, rel.q - 1, rec.o, rec.q - 1);
    SubSlice(s, rec.n, rec.e, rel.q, rel.e - 1, rec.q, rec.e - 1);
  }

  /** A stretch of a slice is a stretch of the sequence, at absolute
      offsets `x` and `y`. */
  lemma SubSlice(s: seq<byte>, lo: nat, hi: nat, a: nat, b: nat, x: nat, y: nat)
    requires lo <= hi <= |s| && a <= b <= hi - lo && x == lo + a && y == lo + b
    ensures s[lo..hi][a..b] == s[x..y]
  {
    forall j | 0 <= j < b - a ensures s[lo..hi][a..b][j] == s[x + j] {
    }
  }

  // ---------------------------------------------------------------------
  // The name cursor

  /** Where `process` writes the line end after the read name, as written:
      `n` plus the index of the first space in the name line (its line end
      included), or `n + r` when the line has no space. */
  function NameCursorAsWritten(rec: FQRec, line: seq<byte>): nat
  {
    rec.n + match Position(line, IsSpace) case Some(x) => x case None => rec.r
  }

  /** The evidently intended cursor: the line end of the name line itself
      when the name has no space. */
  function NameCursor(rec: FQRec, line: seq<byte>): nat
    requires |line| > 0
  {
    rec.n + match Position(line, IsSpace) case Some(x) => x case None => |line| - 1
  }

  /** The intended cursor ends the name at its first space, inside the name
      line. */
  lemma NameCursorEndsName(s: seq<byte>, rec: FQRec)
    requires Framed(s, rec)
    ensures NameCursor(rec, s[rec.n..rec.r]) == rec.n + NameEnd(s[rec.n..rec.r - 1]) < rec.r
  {
    var line, name := s[rec.n..rec.r], s[rec.n..rec.r - 1];
    assert line[|line| - 1] == NL;
    assert forall j :: 0 <= j < |name| ==> name[j] == line[j];
    var k := NameEnd(name);
    if k < |name| {
      assert line[k] == SPACE;
    } else {
      assert forall j :: 0 <= j < |line| ==> line[j] != SPACE;
    }
  }

  /** As written, a name line without a space puts the cursor at `n + r`:
      past the name line, and past the whole record once the record starts
      at or after `e - r`. */
  lemma NameCursorAsWrittenOverruns(s: seq<byte>, rec: FQRec)
    requires Framed(s, rec)
    requires forall j :: rec.n <= j < rec.r ==> s[j] != SPACE
    ensures NameCursorAsWritten(rec, s[rec.n..rec.r]) == rec.n + rec.r >= rec.r
    ensures NameCursorAsWritten(rec, s[rec.n..rec.r]) != NameCursor(rec, s[rec.n..rec.r])
    ensures rec.n + rec.r >= rec.e ==> NameCursorAsWritten(rec, s[rec.n..rec.r]) >= rec.e
  {
    var line := s[rec.n..rec.r];
    assert forall j :: 0 <= j < |line| ==> line[j] == s[rec.n + j];
  }

  /** Two copies of the record `@a`, `AC`, `+`, `II`: for the second one,
      at byte 11, the cursor as written is 25, beyond the record's end at
      22, where the intended cursor is 13, the line end after `@a`. */
  lemma NameCursorAsWrittenExample()
    ensures var one: seq<byte> := [AT, 97, NL, 65, 67, NL, PLUS, NL, 73, 73, NL];
            var s := one + one;
            var rec := FQRec(11, 14, 17, 19, 22);
            Framed(s, rec) && RecordAt(s, |s|, 11) == rec &&
            NameCursorAsWritten(rec, s[11..14]) == 25 && NameCursor(rec, s[11..14]) == 13
  {
    var one: seq<byte> := [AT, 97, NL, 65, 67, NL, PLUS, NL, 73, 73, NL];
    var s := one + one;
    var rec := FQRec(11, 14, 17, 19, 22);
    assert Framed(s, rec);
    FramedIsRecordAt(s, |s|, rec);
    assert s[11..14] == [AT, 97, NL];
  }

  // ---------------------------------------------------------------------
  // The rewrite in place

  /** The kept interval of a read `sq` with quality bytes `ql`, computed
      as `process` does: quality trim, `N` trim, adaptor search in what is
      left, `N` trim again. */
  method KeptInterval(sq: seq<byte>, ql: seq<byte>, p: Params) returns (start: nat, stop: nat)
    requires |ql| == |sq| && p.dDen > 0
    requires p.minLtrs <= SearchLen(sq, ql, p.cutoff) + 1
    ensures (start, stop) == Bounds(sq, ql, p)
  {
    var qstart, qstop := QualTrim.QualTrim(ql, 0, p.cutoff as int);
    var nt := TrimNEnds(sq);
    stop := Min(qstop, nt.1);
    var adaptorStart := NaiveMatching(p.adaptor, sq[..stop], p.dNum, p.dDen, p.minLtrs);
    stop := Min(stop, adaptorStart);
    var nt2 := TrimNEnds(sq[..stop]);
    stop := Min(stop, nt2.1);
    start := Min(Max(qstart, nt.0), stop);
  }

  /** The buffer after the stores and moves of `process` from the name
      cursor `c` on: a line end at `c`, `len` bytes from `rs` moved after
      it, a line end, `+` and a line end, `len` bytes from `qs`, a final
      line end. */
  ghost function Layout(S: seq<byte>, c: nat, rs: nat, qs: nat, len: nat): seq<byte>
    requires c + 2 * len + 5 <= |S| && rs + len <= |S| && qs + len <= |S|
  {
    var f := c + 1 + len;
    var g := f + 3;
    var s1 := Moved(S[c := NL], rs, c + 1, len);
    var s2 := s1[f := NL][f + 1 := PLUS][f + 2 := NL];
    Moved(s2, qs, g, len)[g + len := NL]
  }

  /** Outside the rewritten part the layout keeps the old bytes. */
  lemma LayoutKeeps(S: seq<byte>, c: nat, rs: nat, qs: nat, len: nat, k: nat)
    requires c < rs && rs + len <= |S| && c + len + 4 <= qs && qs + len < |S|
    requires k < c || c + 2 * len + 5 <= k < |S|
    ensures Layout(S, c, rs, qs, len)[k] == S[k]
  {
  }

  /** The line ends and the `+` that `process` stores. */
  lemma LayoutMarks(S: seq<byte>, c: nat, rs: nat, qs: nat, len: nat, k: nat)
    requires c < rs && rs + len <= |S| && c + len + 4 <= qs && qs + len < |S|
    requires k == c || k == c + 1 + len || k == c + 2 + len || k == c + 3 + len || k == c + 4 + 2 * len
    ensures Layout(S, c, rs, qs, len)[k] == if k == c + 2 + len then PLUS else NL
  {
  }

  /** The moved read bytes, which the first move takes from `rs` before
      anything at or beyond `rs` is written. */
  lemma LayoutRead(S: seq<byte>, c: nat, rs: nat, qs: nat, len: nat, k: nat)
    requires c < rs && rs + len <= |S| && c + len + 4 <= qs && qs + len < |S|
    requires c + 1 <= k < c + 1 + len
    ensures Layout(S, c, rs, qs, len)[k] == S[k - (c + 1) + rs]
  {
    var s0 := S[c := NL];
    var s1 := Moved(s0, rs, c + 1, len);
    assert s1[k] == s0[k - (c + 1) + rs];
  }

  /** The moved quality bytes, which the second move takes from `qs`,
      beyond everything written before it. */
  lemma LayoutQual(S: seq<byte>, c: nat, rs: nat, qs: nat, len: nat, k: nat)
    requires c < rs && rs + len <= |S| && c + len + 4 <= qs && qs + len < |S|
    requires c + 4 + len <= k < c + 4 + 2 * len
    ensures Layout(S, c, rs, qs, len)[k] == S[k - (c + 4 + len) + qs]
  {
    var f, g := c + 1 + len, c + 4 + len;
    var s0 := S[c := NL];
    var s1 := Moved(s0, rs, c + 1, len);
    var s2 := s1[f := NL][f + 1 := PLUS][f + 2 := NL];
    var x := k - g + qs;
    assert Moved(s2, qs, g, len)[k] == s2[x];
    assert s2[x] == s1[x] == s0[x] == S[x];
  }

  /** Where the moves read only bytes not yet written, the layout is the
      rewritten record between `n` and its new end and the original bytes
      elsewhere. */
  lemma LayoutSlices(S: seq<byte>, n: nat, c: nat, rs: nat, qs: nat, len: nat)
    requires n <= c < rs && rs + len <= |S|
    requires c + len + 4 <= qs && qs + len < |S|
    ensures var L, e := Layout(S, c, rs, qs, len), c + 2 * len + 5;
            L[..n] == S[..n] && L[e..] == S[e..] &&
            L[n..e] == S[n..c] + [NL] + S[rs..rs + len] + [NL] + [PLUS] + [NL] + S[qs..qs + len] + [NL]
  {
    LayoutMiddle(S, n, c, rs, qs, len);
    LayoutOutside(S, n, c, rs, qs, len);
  }

  /** Between `n` and the new end the layout is the rewritten record. */
  lemma LayoutMiddle(S: seq<byte>, n: nat, c: nat, rs: nat, qs: nat, len: nat)
    requires n <= c < rs && rs + len <= |S|
    requires c + len + 4 <= qs && qs + len < |S|
    ensures var L, e := Layout(S, c, rs, qs, len), c + 2 * len + 5;
            L[n..e] == S[n..c] + [NL] + S[rs..rs + len] + [NL] + [PLUS] + [NL] + S[qs..qs + len] + [NL]
  {
    var f, h := c + 1 + len, c + 4 + 2 * len;
    LayoutName(S, n, c, rs, qs, len);
    LayoutReadRun(S, c, rs, qs, len);
    LayoutQualRun(S, c, rs, qs, len);
    LayoutMarks(S, c, rs, qs, len, c);
    LayoutMarks(S, c, rs, qs, len, f);
    LayoutMarks(S, c, rs, qs, len, f + 1);
    LayoutMarks(S, c, rs, qs, len, f + 2);
    LayoutMarks(S, c, rs, qs, len, h);
    RecordShape(Layout(S, c, rs, qs, len), S, n, c, rs, qs, len);
  }

  /** Bytes laid out as `process` leaves them, read as one record. */
  lemma RecordShape(L: seq<byte>, S: seq<byte>, n: nat, c: nat, rs: nat, qs: nat, len: nat)
    requires |L| == |S| && n <= c && rs + len <= |S| && qs + len <= |S| && c + 2 * len + 5 <= |L|
    requires L[n..c] == S[n..c] && L[c] == NL
    requires L[c + 1..c + 1 + len] == S[rs..rs + len]
    requires L[c + 1 + len] == NL && L[c + 2 + len] == PLUS && L[c + 3 + len] == NL
    requires L[c + 4 + len..c + 4 + 2 * len] == S[qs..qs + len] && L[c + 4 + 2 * len] == NL
    ensures L[n..c + 2 * len + 5] ==
            S[n..c] + [NL] + S[rs..rs + len] + [NL] + [PLUS] + [NL] + S[qs..qs + len] + [NL]
  {
    EightPieces(L, n, c, c + 1 + len, c + 4 + len, c + 4 + 2 * len);
  }

  /** `s[n..h + 1)` cut at the marks of a rewritten record. */
  lemma EightPieces(s: seq<byte>, n: nat, c: nat, f: nat, g: nat, h: nat)
    requires n <= c < f && f + 3 == g <= h < |s|
    ensures s[n..h + 1] == s[n..c] + [s[c]] + s[c + 1..f] + [s[f]] + [s[f + 1]] + [s[f + 2]] + s[g..h] + [s[h]]
  {
  }

  /** The name before the cursor is left as it was. */
  lemma LayoutName(S: seq<byte>, n: nat, c: nat, rs: nat, qs: nat, len: nat)
    requires n <= c < rs && rs + len <= |S| && c + len + 4 <= qs && qs + len < |S|
    ensures Layout(S, c, rs, qs, len)[n..c] == S[n..c]
  {
    var L := Layout(S, c, rs, qs, len);
    forall k | n <= k < c ensures L[k] == S[k] {
      LayoutKeeps(S, c, rs, qs, len, k);
    }
  }

  /** The read bytes, moved up behind the cursor. */
  lemma LayoutReadRun(S: seq<byte>, c: nat, rs: nat, qs: nat, len: nat)
    requires c < rs && rs + len <= |S| && c + len + 4 <= qs && qs + len < |S|
    ensures Layout(S, c, rs, qs, len)[c + 1..c + 1 + len] == S[rs..rs + len]
  {
    var L, d := Layout(S, c, rs, qs, len), c + 1;
    forall k | d <= k < d + len ensures L[k] == S[k - d + rs] {
      LayoutRead(S, c, rs, qs, len, k);
    }
  }

  /** The quality bytes, moved up behind the separator line. */
  lemma LayoutQualRun(S: seq<byte>, c: nat, rs: nat, qs: nat, len: nat)
    requires c < rs && rs + len <= |S| && c + len + 4 <= qs && qs + len < |S|
    ensures Layout(S, c, rs, qs, len)[c + 4 + len..c + 4 + 2 * len] == S[qs..qs + len]
  {
    var L, g := Layout(S, c, rs, qs, len), c + 4 + len;
    forall k | g <= k < g + len ensures L[k] == S[k - g + qs] {
      LayoutQual(S, c, rs, qs, len, k);
    }
  }

  /** Before `n` and from the new end on, the layout keeps the old bytes. */
  lemma LayoutOutside(S: seq<byte>, n: nat, c: nat, rs: nat, qs: nat, len: nat)
    requires n <= c < rs && rs + len <= |S|
    requires c + len + 4 <= qs && qs + len < |S|
    ensures var L, e := Layout(S, c, rs, qs, len), c + 2 * len + 5;
            L[..n] == S[..n] && L[e..] == S[e..]
  {
    var L, e := Layout(S, c, rs, qs, len), c + 2 * len + 5;
    forall k | 0 <= k < n ensures L[k] == S[k] {
      LayoutKeeps(S, c, rs, qs, len, k);
    }
    assert L[..n] == S[..n];
    forall k | e <= k < |S| ensures L[k] == S[k] {
      LayoutKeeps(S, c, rs, qs, len, k);
    }
    assert L[e..] == S[e..];
  }

  /** The first half of the stores and moves: the newline ending the name,
      the read moved up behind it, and the separator line. */
  method StoreRead(buf: array<byte>, c: nat, rs: nat, len: nat)
    requires c < rs && rs + len <= buf.Length && c + len + 3 < buf.Length
    modifies buf
    ensures var f := c + 1 + len;
            buf[..] == Moved(old(buf[..])[c := NL], rs, c + 1, len)[f := NL][f + 1 := PLUS][f + 2 := NL]
  {
    ghost var S: seq<byte> := buf[..];
    buf[c] := NL;
    assert buf[..] == S[c := NL];
    MoveBytes(buf, rs, c + 1, len);
    ghost var s1: seq<byte> := buf[..];
    var f := c + 1 + len;
    buf[f] := NL;
    buf[f + 1] := PLUS;
    buf[f + 2] := NL;
    assert buf[..] == s1[f := NL][f + 1 := PLUS][f + 2 := NL];
  }

  /** The second half: the quality bytes moved up to `g` and the closing
      newline. */
  method StoreQual(buf: array<byte>, qs: nat, g: nat, len: nat)
    requires g <= qs && qs + len < buf.Length
    modifies buf
    ensures buf[..] == Moved(old(buf[..]), qs, g, len)[g + len := NL]
  {
    MoveBytes(buf, qs, g, len);
    ghost var s3: seq<byte> := buf[..];
    buf[g + len] := NL;
    assert buf[..] == s3[g + len := NL];
  }

  /** The stores and moves of `process` from the name cursor `c` on, as
      the layout of the old buffer. */
  method StoreLayout(buf: array<byte>, c: nat, rs: nat, qs: nat, len: nat) returns (e: nat)
    requires c < rs && rs + len <= buf.Length
    requires c + len + 4 <= qs && qs + len < buf.Length
    modifies buf
    ensures e == c + 2 * len + 5
    ensures buf[..] == Layout(old(buf[..]), c, rs, qs, len)
  {
    StoreRead(buf, c, rs, len);
    var g := c + len + 4;
    StoreQual(buf, qs, g, len);
    e := g + len + 1;
  }

  /** The stores and moves of `process` from the name cursor `c` on. Every
      move reads bytes at or beyond the cursor, which are still the
      original ones. */
  method WriteBack(buf: array<byte>, n: nat, c: nat, rs: nat, qs: nat, len: nat) returns (e: nat)
    requires n <= c < rs && rs + len <= buf.Length
    requires c + len + 4 <= qs && qs + len < buf.Length
    modifies buf
    ensures e == c + 2 * len + 5 <= buf.Length
    ensures buf[..n] == old(buf[..n]) && buf[e..] == old(buf[e..])
    ensures buf[n..e] == old(buf[n..c]) + [NL] + old(buf[rs..rs + len]) + [NL] + [PLUS] + [NL] +
                         old(buf[qs..qs + len]) + [NL]
  {
    ghost var S: seq<byte> := buf[..];
    e := StoreLayout(buf, c, rs, qs, len);
    LayoutSlices(S, n, c, rs, qs, len);
  }

  /** The parameters suit read bytes `sq` and quality bytes `ql` of the
      same length. */
  predicate Searchable(sq: seq<byte>, ql: seq<byte>, p: Params)
  {
    |ql| == |sq| && p.dDen > 0 && p.minLtrs <= SearchLen(sq, ql, p.cutoff) + 1
  }

  /** The read and quality bytes `process` slices out of the buffer
      (`seqlen` bytes from `r` and from `q`) are the record's read line and
      its quality bytes, and the parameters suit them. */
  lemma RecordInBuffer(S: seq<byte>, rec: FQRec, p: Params, seqlen: nat)
    requires |S| < USIZE_MAX && Framed(S, rec) && Processable(S[rec.n..rec.e], p)
    requires seqlen == rec.o - rec.r - 1
    ensures rec.o + 1 < rec.q && rec.q + seqlen < rec.e
    ensures S[rec.r..rec.r + seqlen] == LinesOf(S[rec.n..rec.e]).read
    ensures S[rec.q..rec.q + seqlen] == QualOf(LinesOf(S[rec.n..rec.e]))
    ensures Searchable(S[rec.r..rec.r + seqlen], S[rec.q..rec.q + seqlen], p)
  {
    LinesAt(S, rec);
    ReadAndQual(S, rec, seqlen, LinesOf(S[rec.n..rec.e]));
  }

  lemma SameSlice(s: seq<byte>, a: nat, b: nat, b': nat)
    requires a <= b <= |s| && b == b'
    ensures s[a..b] == s[a..b']
  {
  }

  /** `seqlen` bytes from `r` and from `q` are the read line and the
      quality bytes of the record's lines `l`. */
  lemma ReadAndQual(S: seq<byte>, rec: FQRec, seqlen: nat, l: Lines)
    requires rec.r <= rec.o - 1 <= |S| && rec.q <= rec.e - 1 <= |S| && seqlen == rec.o - rec.r - 1
    requires l.read == S[rec.r..rec.o - 1] && l.qual == S[rec.q..rec.e - 1] && |l.read| <= |l.qual|
    ensures S[rec.r..rec.r + seqlen] == l.read && S[rec.q..rec.q + seqlen] == QualOf(l)
  {
    assert rec.r + seqlen == rec.o - 1;
    assert QualOf(l) == S[rec.q..rec.e - 1][..seqlen];
  }

  /** What `process` writes, in terms of the original buffer `S`: the name
      up to the cursor, a line end, the kept bases, a bare separator line,
      the kept quality bytes and a line end, which is the rewritten record.
      The cursor and the two moves satisfy what `WriteBack` needs, and the
      new record ends no later than the old one. */
  lemma RewriteFromBuffer(S: seq<byte>, rec: FQRec, p: Params, seqlen: nat, sq: seq<byte>, ql: seq<byte>,
                          start: nat, stop: nat, c: nat, rs: nat, qs: nat, len: nat)
    requires |S| < USIZE_MAX && Framed(S, rec) && Processable(S[rec.n..rec.e], p)
    requires seqlen == rec.o - rec.r - 1 && rec.q + seqlen <= |S|
    requires sq == S[rec.r..rec.r + seqlen] && ql == S[rec.q..rec.q + seqlen]
    requires Searchable(sq, ql, p) && (start, stop) == Bounds(sq, ql, p)
    requires c == NameCursor(rec, S[rec.n..rec.r])
    requires rs == rec.r + start && qs == rec.q + start && len == stop - start
    ensures rec.n <= c < rs && rs + len <= |S|
    ensures c + len + 4 <= qs && qs + len < |S|
    ensures c + 2 * len + 5 <= rec.e
    ensures Rewrite(S[rec.n..rec.e], p) ==
            S[rec.n..c] + [NL] + S[rs..rs + len] + [NL] + [PLUS] + [NL] + S[qs..qs + len] + [NL]
  {
    NameCursorEndsName(S, rec);
    LinesAt(S, rec);
    RecordInBuffer(S, rec, p, seqlen);
    var l := LinesOf(S[rec.n..rec.e]);
    var k := NameEnd(l.name);
    assert Rewrite(S[rec.n..rec.e], p) ==
           Record4(l.name[..k], l.read[start..stop], [PLUS], QualOf(l)[start..stop]);
    Pieces(S, rec, seqlen, start, stop, c, k, l.name, l.read, QualOf(l), rs, qs, len);
  }

  /** The kept pieces of the name, read and quality lines, at their offsets
      in the buffer. */
  lemma Pieces(S: seq<byte>, rec: FQRec, seqlen: nat, start: nat, stop: nat, c: nat, k: nat,
               name: seq<byte>, sq: seq<byte>, ql: seq<byte>, rs: nat, qs: nat, len: nat)
    requires rec.n <= rec.r - 1 && rec.r + seqlen <= |S| && rec.q + seqlen <= |S|
    requires name == S[rec.n..rec.r - 1] && k <= |name| && c == rec.n + k
    requires sq == S[rec.r..rec.r + seqlen] && ql == S[rec.q..rec.q + seqlen] && start <= stop <= seqlen
    requires rs == rec.r + start && qs == rec.q + start && len == stop - start
    ensures name[..k] == S[rec.n..c]
    ensures sq[start..stop] == S[rs..rs + len]
    ensures ql[start..stop] == S[qs..qs + len]
  {
    assert name[..k] == name[0..k];
    SubSlice(S, rec.n, rec.r - 1, 0, k, rec.n, c);
    SubSlice(S, rec.r, rec.r + seqlen, start, stop, rs, rs + len);
    SubSlice(S, rec.q, rec.q + seqlen, start, stop, qs, qs + len);
  }

  /** `FQRec::process`: computes the kept interval of the record's read
      from its bytes in the buffer and writes the rewritten record over the
      original one, from `n` on. Only `e` of the record changes, and no
      byte outside the rewritten record does. */
  method Process(buf: array<byte>, rec: FQRec, p: Params) returns (rec': FQRec)
    requires buf.Length < USIZE_MAX && Framed(buf[..], rec)
    requires Processable(buf[rec.n..rec.e], p)
    modifies buf
    ensures rec' == FQRec(rec.n, rec.r, rec.o, rec.q, rec'.e) && rec.n < rec'.e <= rec.e
    ensures buf[rec.n..rec'.e] == Rewrite(old(buf[rec.n..rec.e]), p)
    ensures buf[..rec.n] == old(buf[..rec.n]) && buf[rec'.e..] == old(buf[rec'.e..])
  {
    var c, rs, qs, len := Plan(buf[..], rec, p);
    var e := WriteBack(buf, rec.n, c, rs, qs, len);
    rec' := FQRec(rec.n, rec.r, rec.o, rec.q, e);
  }

  /** What `process` computes before it stores anything: the name cursor
      `c`, where the kept read bytes (`rs`) and quality bytes (`qs`) start,
      and how many are kept (`len`); moving them as `WriteBack` does yields
      the rewritten record. */
  method Plan(S: seq<byte>, rec: FQRec, p: Params) returns (c: nat, rs: nat, qs: nat, len: nat)
    requires |S| < USIZE_MAX && Framed(S, rec)
    requires Processable(S[rec.n..rec.e], p)
    ensures rec.n <= c < rs && rs + len <= |S|
    ensures c + len + 4 <= qs && qs + len < |S|
    ensures c + 2 * len + 5 <= rec.e
    ensures Rewrite(S[rec.n..rec.e], p) ==
            S[rec.n..c] + [NL] + S[rs..rs + len] + [NL] + [PLUS] + [NL] + S[qs..qs + len] + [NL]
  {
    var seqlen := if rec.r < rec.o then rec.o - rec.r - 1 else 0;
    RecordInBuffer(S, rec, p, seqlen);
    var sq, ql := S[rec.r..rec.r + seqlen], S[rec.q..rec.q + seqlen];
    var start, stop := KeptInterval(sq, ql, p);
    c := NameCursor(rec, S[rec.n..rec.r]);
    rs, qs, len := rec.r + start, rec.q + start, stop - start;
    RewriteFromBuffer(S, rec, p, seqlen, sq, ql, start, stop, c, rs, qs, len);
  }

}
