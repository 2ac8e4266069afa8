/** Bytes, byte strings and the constants of the C environment. */
module Bytes {
  type byte = b: int | 0 <= b < 256
  type bytes = seq<byte>

  datatype Option<+T> = None | Some(value: T)

  /** A byte string as the C interfaces pass it: a pointer, possibly null, and a length. */
  datatype Span = Null(len: nat) | Of(text: bytes)

  function TextOf(s: Span): bytes {
    if s.Of? then s.text else []
  }

  /** A null pointer stands for an empty string only if its length is 0. */
  predicate Usable(s: Span) {
    s.Null? ==> s.len == 0
  }

  const LF: byte := 10
  const CR: byte := 13
  const SPACE: byte := 32
  const COLON: byte := 58

  /** Largest value of a 64-bit size_t. */
  const SIZE_MAX: nat := 0xFFFF_FFFF_FFFF_FFFF

  predicate IsDigit(b: byte) {
    48 <= b <= 57
  }

  /** The bytes of an ASCII text. */
  function Ascii(s: string): bytes
    requires forall i :: 0 <= i < |s| ==> (s[i] as int) < 128
  {
    seq(|s|, i requires 0 <= i < |s| => s[i] as int)
  }

  /** Everything in the list, in order, joined into one byte string. */
  function Concat(parts: seq<bytes>): bytes {
    if parts == [] then [] else Concat(parts[..|parts| - 1]) + parts[|parts| - 1]
  }

  lemma {:induction false} ConcatAppend(a: seq<bytes>, b: seq<bytes>)
    ensures Concat(a + b) == Concat(a) + Concat(b)
  {
    if b == [] {
      assert a + b == a;
    } else {
      var n := |b| - 1;
      ConcatAppend(a, b[..n]);
      assert (a + b)[..|a + b| - 1] == a + b[..n];
    }
  }

  /** A slice of a slice. */
  lemma SubSlice<T>(s: seq<T>, i: nat, e: nat, x: nat, y: nat)
    requires i <= e <= |s| && x <= y <= e - i
    ensures s[i..e][x..y] == s[i + x..i + y]
  {
    forall k | 0 <= k < y - x
      ensures s[i..e][x..y][k] == s[i + x..i + y][k]
    {
    }
  }

  // --- what stands where ----------------------------------------------------------------------------------

  /** The items `s` stand in the buffer at `pos`. */
  ghost predicate At<T>(buf: seq<T>, pos: nat, s: seq<T>) {
    pos + |s| <= |buf| && buf[pos..pos + |s|] == s
  }

  lemma AtSplit<T>(buf: seq<T>, pos: nat, a: seq<T>, b: seq<T>)
    ensures At(buf, pos, a + b) <==> At(buf, pos, a) && At(buf, pos + |a|, b)
  {
    if pos + |a| + |b| <= |buf| {
      var s := buf[pos..pos + |a| + |b|];
      assert s == buf[pos..pos + |a|] + buf[pos + |a|..pos + |a| + |b|];
      assert At(buf, pos, a + b) ==> s[..|a|] == a && s[|a|..] == b;
    }
  }

  lemma AtFirst<T>(buf: seq<T>, pos: nat, s: seq<T>)
    requires At(buf, pos, s) && s != []
    ensures pos < |buf| && buf[pos] == s[0] && At(buf, pos + 1, s[1..])
  {
    assert s == [s[0]] + s[1..];
    AtSplit(buf, pos, [s[0]], s[1..]);
  }

  lemma AtIs<T>(buf: seq<T>, pos: nat, s: seq<T>)
    requires At(buf, pos, s)
    ensures pos + |s| <= |buf| && buf[pos..pos + |s|] == s
  {
  }

  lemma AtAll<T>(buf: seq<T>)
    ensures At(buf, 0, buf)
  {
  }
}
