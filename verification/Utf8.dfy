/**
 UTF-8 as the event-stream parser handles it: the syntax of section 4 of RFC 3629, the decoder's own
 acceptance test (lead-byte ranges plus a code-point check), and the decoding of a whole stream.
 */
module Utf8 {
  import opened Bytes

  /** U+FFFD, the replacement character. */
  const REPLACEMENT: bytes := [0xEF, 0xBF, 0xBD]

  predicate IsTail(b: byte) {
    0x80 <= b <= 0xBF
  }

  predicate AllTails(s: bytes) {
    forall i :: 0 <= i < |s| ==> IsTail(s[i])
  }

  /** `UTF8-char` of RFC 3629 section 4. */
  predicate IsUtf8Char(s: bytes) {
    || (|s| == 1 && s[0] <= 0x7F)
    || (|s| == 2 && 0xC2 <= s[0] <= 0xDF && IsTail(s[1]))
    || (|s| == 3 && IsTail(s[2]) &&
        (|| (s[0] == 0xE0 && 0xA0 <= s[1] <= 0xBF)
         || (0xE1 <= s[0] <= 0xEC && IsTail(s[1]))
         || (s[0] == 0xED && 0x80 <= s[1] <= 0x9F)
         || (0xEE <= s[0] <= 0xEF && IsTail(s[1]))))
    || (|s| == 4 && IsTail(s[2]) && IsTail(s[3]) &&
        (|| (s[0] == 0xF0 && 0x90 <= s[1] <= 0xBF)
         || (0xF1 <= s[0] <= 0xF3 && IsTail(s[1]))
         || (s[0] == 0xF4 && 0x80 <= s[1] <= 0x8F)))
  }

  /** Length announced by a lead byte; 0 when the byte cannot start a character. */
  function LeadLength(b: byte): (n: nat)
    ensures n <= 4
  {
    if b <= 0x7F then 1
    else if 0xC2 <= b <= 0xDF then 2
    else if 0xE0 <= b <= 0xEF then 3
    else if 0xF0 <= b <= 0xF4 then 4
    else 0
  }

  /** `UTF8-octets` of RFC 3629 section 4: a sequence of characters. */
  predicate ValidUtf8(s: bytes) {
    s == [] ||
    var n := LeadLength(s[0]);
    0 < n <= |s| && IsUtf8Char(s[..n]) && ValidUtf8(s[n..])
  }

  /** The value the decoder assembles from the payload bits. */
  function CodePoint(s: bytes): nat
    requires 2 <= |s| <= 4
  {
    var s0: int, s1: int := s[0], s[1];
    if |s| == 2 then (s0 % 32) * 64 + s1 % 64
    else
      var s2: int := s[2];
      if |s| == 3 then (s0 % 16) * 4096 + (s1 % 64) * 64 + s2 % 64
      else
        var s3: int := s[3];
        (s0 % 8) * 262144 + (s1 % 64) * 4096 + (s2 % 64) * 64 + s3 % 64
  }

  /** The decoder's test of a completed multi-byte sequence. */
  predicate SequenceValid(s: bytes) {
    2 <= |s| <= 4 &&
    var min := if |s| == 2 then 0x80 else if |s| == 3 then 0x800 else 0x10000;
    var code := CodePoint(s);
    min <= code <= 0x10FFFF && !(0xD800 <= code <= 0xDFFF)
  }

  /** Lead-byte ranges plus the code-point test accept exactly the characters of RFC 3629. */
  lemma AcceptedExactlyUtf8Char(s: bytes)
    requires 2 <= |s| && LeadLength(s[0]) == |s| && AllTails(s[1..])
    ensures SequenceValid(s) <==> IsUtf8Char(s)
  {
    assert IsTail(s[1..][0]);
    if |s| >= 3 { assert IsTail(s[1..][1]); }
    if |s| == 4 { assert IsTail(s[1..][2]); }
  }

  lemma CharShape(s: bytes)
    requires IsUtf8Char(s)
    ensures LeadLength(s[0]) == |s| && AllTails(s[1..])
    ensures |s| >= 2 ==> SequenceValid(s)
  {
    if |s| >= 2 { AcceptedExactlyUtf8Char(s); }
  }

  lemma {:induction false} ValidConcat(a: bytes, b: bytes)
    requires ValidUtf8(a) && ValidUtf8(b)
    ensures ValidUtf8(a + b)
    decreases |a|
  {
    hide IsUtf8Char, LeadLength;
    if a == [] {
      assert a + b == b;
    } else {
      var n := LeadLength(a[0]);
      ValidConcat(a[n..], b);
      assert (a + b)[..n] == a[..n] && (a + b)[n..] == a[n..] + b;
    }
  }

  lemma ValidChar(s: bytes)
    requires IsUtf8Char(s)
    ensures ValidUtf8(s)
  {
    CharShape(s);
    assert s[..|s|] == s && s[|s|..] == [];
  }

  /** How far the tail bytes after a lead reach, counting from `k` and stopping at `n` or the end. */
  function TailReach(s: bytes, k: nat, n: nat): (r: nat)
    requires k <= |s| && k <= n
    ensures k <= r <= n && r <= |s| && AllTails(s[k..r])
    ensures r < n && r < |s| ==> !IsTail(s[r])
    decreases |s| - k
  {
    if k < n && k < |s| && IsTail(s[k]) then
      var r := TailReach(s, k + 1, n);
      assert s[k..r] == [s[k]] + s[k + 1..r];
      r
    else k
  }

  /**
   What a byte stream decodes to, re-encoded as UTF-8. Each malformed piece gives one U+FFFD; a sequence
   that is still unfinished at the very end gives nothing (no later byte has settled it yet).
   */
  function Decode(s: bytes): bytes
    decreases |s|
  {
    if s == [] then []
    else
      var n := LeadLength(s[0]);
      if n == 0 then REPLACEMENT + Decode(s[1..])
      else if n == 1 then [s[0]] + Decode(s[1..])
      else
        var k := TailReach(s, 1, n);
        if k == n then
          (if SequenceValid(s[..n]) then s[..n] else REPLACEMENT) + Decode(s[n..])
        else if k == |s| then []
        else REPLACEMENT + Decode(s[k..])
  }

  /** Whatever the input bytes, the decoded stream is valid UTF-8. */
  lemma {:induction false} DecodeIsValid(s: bytes)
    ensures ValidUtf8(Decode(s))
    decreases |s|
  {
    if s != [] {
      var n := LeadLength(s[0]);
      ValidChar(REPLACEMENT);
      if n == 0 {
        DecodeIsValid(s[1..]);
        ValidConcat(REPLACEMENT, Decode(s[1..]));
      } else if n == 1 {
        DecodeIsValid(s[1..]);
        ValidChar([s[0]]);
        ValidConcat([s[0]], Decode(s[1..]));
      } else {
        var k := TailReach(s, 1, n);
        if k == n {
          DecodeIsValid(s[n..]);
          assert s[..n][1..] == s[1..n];
          AcceptedExactlyUtf8Char(s[..n]);
          var c := if SequenceValid(s[..n]) then s[..n] else REPLACEMENT;
          ValidChar(c);
          ValidConcat(c, Decode(s[n..]));
        } else if k < |s| {
          DecodeIsValid(s[k..]);
          ValidConcat(REPLACEMENT, Decode(s[k..]));
        }
      }
    }
  }

  /** Valid UTF-8 passes through unchanged. */
  lemma {:induction false} DecodeKeepsValid(s: bytes)
    requires ValidUtf8(s)
    ensures Decode(s) == s
    decreases |s|
  {
    hide SequenceValid;
    if s != [] {
      var n := LeadLength(s[0]);
      DecodeKeepsValid(s[n..]);
      CharShape(s[..n]);
      if n >= 2 {
        assert s[..n][1..] == s[1..n];
        TailReachThrough(s, 1, n, n);
      }
      assert s == s[..n] + s[n..];
    }
  }

  // --- one byte at a time ---------------------------------------------------------------------------

  /** A multi-byte sequence that has started and still expects tail bytes. */
  predicate Unfinished(pend: bytes) {
    pend != [] && |pend| < LeadLength(pend[0]) && AllTails(pend[1..])
  }

  /** What one more byte makes the decoder emit, and the bytes it then still holds back. */
  datatype Fed = Fed(out: bytes, pend: bytes)

  function Start(b: byte): Fed {
    var n := LeadLength(b);
    if n == 0 then Fed(REPLACEMENT, [])
    else if n == 1 then Fed([b], [])
    else Fed([], [b])
  }

  function Feed(pend: bytes, b: byte): Fed
    requires pend == [] || Unfinished(pend)
  {
    if pend == [] then Start(b)
    else if !IsTail(b) then Fed(REPLACEMENT + Start(b).out, Start(b).pend)
    else if |pend| + 1 < LeadLength(pend[0]) then Fed([], pend + [b])
    else Fed(if SequenceValid(pend + [b]) then pend + [b] else REPLACEMENT, [])
  }

  /** Output of the decoder: characters, and no end of line. */
  predicate Harmless(out: bytes) {
    ValidUtf8(out) && forall i :: 0 <= i < |out| ==> out[i] != LF && out[i] != CR
  }

  lemma HarmlessBasics(b: byte)
    ensures Harmless([]) && Harmless(REPLACEMENT)
    ensures b <= 0x7F ==> ValidUtf8([b])
  {
    ValidChar(REPLACEMENT);
    if b <= 0x7F { ValidChar([b]); }
  }

  lemma StartShape(b: byte)
    ensures var f := Start(b); (f.pend == [] || Unfinished(f.pend)) && ValidUtf8(f.out)
    ensures b != LF && b != CR ==> Harmless(Start(b).out)
  {
    hide ValidUtf8;
    HarmlessBasics(b);
  }

  lemma CompletedShape(s: bytes)
    requires 2 <= |s| && LeadLength(s[0]) == |s| && AllTails(s[1..])
    ensures Harmless(if SequenceValid(s) then s else REPLACEMENT)
  {
    hide SequenceValid, ValidUtf8, IsUtf8Char;
    AcceptedExactlyUtf8Char(s);
    HarmlessBasics(s[0]);
    if SequenceValid(s) { ValidChar(s); }
    forall i | 0 <= i < |s|
      ensures s[i] != LF && s[i] != CR
    {
      if i > 0 { assert IsTail(s[1..][i - 1]); }
    }
  }

  lemma FeedShape(pend: bytes, b: byte)
    requires pend == [] || Unfinished(pend)
    ensures var f := Feed(pend, b); f.pend == [] || Unfinished(f.pend)
    ensures ValidUtf8(Feed(pend, b).out)
    ensures b != LF && b != CR ==>
      forall i :: 0 <= i < |Feed(pend, b).out| ==> Feed(pend, b).out[i] != LF && Feed(pend, b).out[i] != CR
  {
    hide SequenceValid, ValidUtf8, IsUtf8Char, Start;
    StartShape(b);
    HarmlessBasics(b);
    if pend == [] {
    } else if !IsTail(b) {
      ValidConcat(REPLACEMENT, Start(b).out);
    } else {
      var s := pend + [b];
      assert s[1..] == pend[1..] + [b];
      if |s| == LeadLength(s[0]) {
        CompletedShape(s);
      }
    }
  }

  lemma {:induction false} TailReachThrough(s: bytes, k: nat, m: nat, n: nat)
    requires k <= m <= |s| && m <= n && AllTails(s[k..m])
    ensures TailReach(s, k, n) == TailReach(s, m, n)
    decreases m - k
  {
    if k < m {
      assert s[k..m][0] == s[k];
      assert s[k..m][1..] == s[k + 1..m];
      TailReachThrough(s, k + 1, m, n);
    }
  }

  lemma DecodeStart(b: byte, rest: bytes)
    ensures Decode([b] + rest) == Start(b).out + Decode(Start(b).pend + rest)
  {
    assert ([b] + rest)[1..] == rest;
    assert [] + rest == rest;
  }

  lemma DecodeFeedBroken(pend: bytes, b: byte, rest: bytes)
    requires Unfinished(pend) && !IsTail(b)
    ensures Decode(pend + ([b] + rest)) == REPLACEMENT + Decode([b] + rest)
  {
    var s := pend + ([b] + rest);
    assert s[1..|pend|] == pend[1..];
    TailReachThrough(s, 1, |pend|, LeadLength(pend[0]));
    assert s[|pend|] == b;
    assert s[|pend|..] == [b] + rest;
  }

  lemma DecodeFeedLast(pend: bytes, b: byte, rest: bytes)
    requires Unfinished(pend) && IsTail(b) && |pend| + 1 == LeadLength(pend[0])
    ensures Decode(pend + ([b] + rest)) == Feed(pend, b).out + Decode(rest)
  {
    var s := pend + ([b] + rest);
    var n := LeadLength(pend[0]);
    assert s[..n] == pend + [b] && s[n..] == rest;
    assert s[1..n] == pend[1..] + [b];
    TailReachThrough(s, 1, n, n);
  }

  /** Decoding a stream is decoding it byte by byte. */
  lemma DecodeFeed(pend: bytes, b: byte, rest: bytes)
    requires pend == [] || Unfinished(pend)
    ensures var f := Feed(pend, b); Decode(pend + ([b] + rest)) == f.out + Decode(f.pend + rest)
  {
    hide Start, LeadLength, IsTail;
    if pend == [] {
      assert pend + ([b] + rest) == [b] + rest;
      DecodeStart(b, rest);
    } else if !IsTail(b) {
      DecodeFeedBroken(pend, b, rest);
      DecodeStart(b, rest);
    } else if |pend| + 1 < LeadLength(pend[0]) {
      assert pend + ([b] + rest) == (pend + [b]) + rest;
      assert Feed(pend, b) == Fed([], pend + [b]);
    } else {
      DecodeFeedLast(pend, b, rest);
      assert [] + rest == rest;
    }
  }

  /** Decoding neither hides a line feed at the front nor invents one. */
  lemma DecodeFront(s: bytes)
    requires s != []
    ensures s[0] == LF ==> Decode(s) == [LF] + Decode(s[1..])
    ensures s[0] != LF ==> Decode(s) == [] || Decode(s)[0] != LF
  {
  }
}
