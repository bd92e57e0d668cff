/** Bytes, the byte values the FASTQ engine looks at, and the two iterator
    searches (`position`, `rposition`) it uses on byte slices. */
module Bytes {

  /** An unsigned 8-bit value (Rust `u8`). */
  type byte = x: int | 0 <= x < 256

  const NL: byte := 10          // b'\n'
  const SPACE: byte := 32       // b' '
  const PLUS: byte := 43        // b'+'
  const AT: byte := 64          // b'@'
  const BASE_N: byte := 78      // b'N', the ambiguous base
  const QUAL_BASE: int := 33    // Phred+33 offset of quality bytes

  /** `usize::MAX`, the "no newline found" sentinel of the record locator. */
  const USIZE_MAX: nat := 0xFFFF_FFFF_FFFF_FFFF

  datatype Option<T> = None | Some(value: T)

  /** `s.iter().position(p)`: the index of the first byte satisfying `p`. */
  function Position(s: seq<byte>, p: byte -> bool): (r: Option<nat>)
    ensures r.None? <==> forall j :: 0 <= j < |s| ==> !p(s[j])
    ensures r.Some? ==> r.value < |s| && p(s[r.value])
    ensures r.Some? ==> forall j :: 0 <= j < r.value ==> !p(s[j])
  {
    if |s| == 0 then None
    else if p(s[0]) then Some(0)
    else match Position(s[1..], p)
      case None => None
      case Some(k) => Some(k + 1)
  }

  /** `s.iter().rposition(p)`: the index of the last byte satisfying `p`. */
  function RPosition(s: seq<byte>, p: byte -> bool): (r: Option<nat>)
    ensures r.None? <==> forall j :: 0 <= j < |s| ==> !p(s[j])
    ensures r.Some? ==> r.value < |s| && p(s[r.value])
    ensures r.Some? ==> forall j :: r.value < j < |s| ==> !p(s[j])
  {
    if |s| == 0 then None
    else if p(s[|s| - 1]) then Some(|s| - 1)
    else RPosition(s[..|s| - 1], p)
  }

  /** Concatenation of a sequence of byte strings, in order. */
  function Flatten(parts: seq<seq<byte>>): (r: seq<byte>)
    ensures parts == [] ==> r == []
  {
    if parts == [] then [] else parts[0] + Flatten(parts[1..])
  }

  lemma {:induction false} FlattenAppend(a: seq<seq<byte>>, b: seq<seq<byte>>)
    ensures Flatten(a + b) == Flatten(a) + Flatten(b)
  {
    if a == [] {
      assert a + b == b;
    } else {
      assert (a + b)[1..] == a[1..] + b;
      FlattenAppend(a[1..], b);
    }
  }

  function Min(a: int, b: int): int { if a <= b then a else b }
  function Max(a: int, b: int): int { if a >= b then a else b }
}
