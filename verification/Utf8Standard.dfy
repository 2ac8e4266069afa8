/**
 The UTF-8 decoder of the Encoding Standard (section 8.1.1) beside the one of the event-stream parser. They differ
 exactly on a lead byte followed by a tail byte that cannot follow this lead: the standard gives up at once and
 decodes the tail byte again, the parser collects the whole sequence and then replaces it by a single U+FFFD.
 */
module Utf8Standard {
  import opened Bytes
  import opened Utf8

  /** The bytes that may follow a lead: all tail bytes, but for four leads. */
  predicate MayFollow(lead: byte, b: byte) {
    && IsTail(b)
    && (lead == 0xE0 ==> 0xA0 <= b) && (lead == 0xED ==> b <= 0x9F)
    && (lead == 0xF0 ==> 0x90 <= b) && (lead == 0xF4 ==> b <= 0x8F)
  }

  /** How many of the bytes belong to the sequence that the first one starts. */
  function Accepted(s: bytes, n: nat): (k: nat)
    requires s != [] && n >= 2
    ensures 1 <= k <= n && k <= |s|
  {
    if |s| > 1 && MayFollow(s[0], s[1]) then TailReach(s, 2, n) else 1
  }

  /**
   The standard's decoder, re-encoded as UTF-8, as long as more input may follow: on a byte that does not
   continue the sequence it emits one U+FFFD and decodes again from that byte.
   */
  function StdDecode(s: bytes): bytes
    decreases |s|
  {
    if s == [] then []
    else
      var n := LeadLength(s[0]);
      if n == 0 then REPLACEMENT + StdDecode(s[1..])
      else if n == 1 then [s[0]] + StdDecode(s[1..])
      else
        var k := Accepted(s, n);
        if k == n then s[..n] + StdDecode(s[n..])
        else if k == |s| then []
        else REPLACEMENT + StdDecode(s[k..])
  }

  /** A lead followed by a tail byte that may not follow it. */
  predicate Clash(s: bytes, i: nat)
    requires i + 1 < |s|
  {
    LeadLength(s[i]) >= 2 && IsTail(s[i + 1]) && !MayFollow(s[i], s[i + 1])
  }

  predicate NoClash(s: bytes) {
    forall i :: 0 <= i < |s| - 1 ==> !Clash(s, i)
  }

  /** A clash spelled out. */
  lemma ClashMeans(s: bytes, i: nat)
    requires i + 1 < |s|
    ensures Clash(s, i) <==>
      || (s[i] == 0xE0 && 0x80 <= s[i + 1] < 0xA0) || (s[i] == 0xED && 0x9F < s[i + 1] <= 0xBF)
      || (s[i] == 0xF0 && 0x80 <= s[i + 1] < 0x90) || (s[i] == 0xF4 && 0x8F < s[i + 1] <= 0xBF)
  {
  }

  lemma NoClashTail(s: bytes, k: nat)
    requires NoClash(s) && k <= |s|
    ensures NoClash(s[k..])
  {
    forall i | 0 <= i < |s[k..]| - 1
      ensures !Clash(s[k..], i)
    {
      assert !Clash(s, k + i);
    }
  }

  /** Clashes are in the rest, or at the front. */
  lemma NoClashFront(s: bytes, k: nat)
    requires 1 <= k <= |s| && NoClash(s[k..]) && AllTails(s[1..k])
    requires |s| > 1 ==> !Clash(s, 0)
    ensures NoClash(s)
  {
    forall i | 0 <= i < |s| - 1
      ensures !Clash(s, i)
    {
      if i >= k {
        assert !Clash(s[k..], i - k);
      } else if i > 0 {
        assert IsTail(s[1..k][i - 1]);
      }
    }
  }

  /** A complete sequence without a clash passes the parser's test. */
  lemma SequencePasses(s: bytes)
    requires 2 <= |s| && LeadLength(s[0]) == |s| && MayFollow(s[0], s[1]) && AllTails(s[1..])
    ensures SequenceValid(s)
  {
    hide SequenceValid;
    AcceptedExactlyUtf8Char(s);
    assert IsTail(s[1..][0]);
    if |s| >= 3 { assert IsTail(s[1..][1]); }
    if |s| == 4 { assert IsTail(s[1..][2]); }
  }

  /** A complete sequence with a clash does not. */
  lemma SequenceFails(s: bytes)
    requires 2 <= |s| && LeadLength(s[0]) == |s| && Clash(s, 0) && AllTails(s[1..])
    ensures !SequenceValid(s)
  {
    hide SequenceValid;
    AcceptedExactlyUtf8Char(s);
  }

  /** Tail bytes out of place are replaced one by one. */
  lemma {:induction false} TailsAlone(s: bytes, k: nat)
    requires k <= |s| && AllTails(s[..k])
    ensures |StdDecode(s)| == 3 * k + |StdDecode(s[k..])|
    decreases k
  {
    if k > 0 {
      assert IsTail(s[..k][0]);
      assert AllTails(s[1..][..k - 1]) by {
        assert s[1..][..k - 1] == s[..k][1..];
      }
      TailsAlone(s[1..], k - 1);
      assert s[1..][k - 1..] == s[k..];
    } else {
      assert s[k..] == s;
    }
  }

  /** One round of the parser's decoder from a lead: what is emitted, and how much is consumed. */
  lemma LeadRound(s: bytes)
    requires s != [] && LeadLength(s[0]) >= 2
    ensures var n := LeadLength(s[0]); var k := TailReach(s, 1, n);
      Decode(s) ==
        if k == n then (if SequenceValid(s[..n]) then s[..n] else REPLACEMENT) + Decode(s[n..])
        else if k == |s| then [] else REPLACEMENT + Decode(s[k..])
  {
  }

  /** Without a clash at the front both take the same round. */
  lemma SameRound(s: bytes)
    requires s != [] && LeadLength(s[0]) >= 2 && (|s| > 1 ==> !Clash(s, 0))
    ensures var n := LeadLength(s[0]); var k := TailReach(s, 1, n);
      && Accepted(s, n) == k && (k == n ==> SequenceValid(s[..n]))
  {
    hide SequenceValid;
    var n := LeadLength(s[0]);
    if TailReach(s, 1, n) == n {
      assert s[..n][1..] == s[1..n];
      SequencePasses(s[..n]);
    }
  }

  /** With a clash at the front the standard's decoder emits more. */
  lemma ClashRound(s: bytes)
    requires |s| > 1 && Clash(s, 0)
    ensures var k := TailReach(s, 1, LeadLength(s[0]));
      && 2 <= k <= |s| && |StdDecode(s)| == 3 * k + |StdDecode(s[k..])|
      && |Decode(s)| <= 3 + |Decode(s[k..])|
  {
    hide SequenceValid;
    var n := LeadLength(s[0]);
    var k := TailReach(s, 1, n);
    LeadRound(s);
    if k == n {
      assert s[..n][1..] == s[1..n];
      assert Clash(s[..n], 0);
      SequenceFails(s[..n]);
    }
    assert Accepted(s, n) == 1;
    assert s[1..][..k - 1] == s[1..k] && s[1..][k - 1..] == s[k..];
    TailsAlone(s[1..], k - 1);
  }

  /**
   Main result. The two decoders agree on a byte stream exactly when it has no clash; otherwise the standard's
   emits more.
   */
  lemma {:induction false} DecodersAgreeExactly(s: bytes)
    ensures Decode(s) == StdDecode(s) <==> NoClash(s)
    ensures |Decode(s)| <= |StdDecode(s)| && (!NoClash(s) ==> |Decode(s)| < |StdDecode(s)|)
    decreases |s|
  {
    hide SequenceValid, NoClash, Accepted;
    if s == [] {
      NoClashNothing();
    } else {
      var n := LeadLength(s[0]);
      var k := if n < 2 then 1 else TailReach(s, 1, n);
      DecodersAgreeExactly(s[k..]);
      if n >= 2 && |s| > 1 && Clash(s, 0) {
        ClashRound(s);
        ClashIsOne(s);
      } else {
        if n >= 2 {
          LeadRound(s);
          SameRound(s);
        }
        SameClashes(s, k);
      }
    }
  }

  lemma NoClashNothing()
    ensures NoClash([])
  {
  }

  lemma ClashIsOne(s: bytes)
    requires |s| > 1 && Clash(s, 0)
    ensures !NoClash(s)
  {
  }

  lemma SameClashes(s: bytes, k: nat)
    requires 1 <= k <= |s| && AllTails(s[1..k]) && (|s| > 1 ==> !Clash(s, 0))
    ensures NoClash(s) <==> NoClash(s[k..])
  {
    if NoClash(s) {
      NoClashTail(s, k);
    }
    if NoClash(s[k..]) {
      NoClashFront(s, k);
    }
  }

  /** An input on which they differ: an overlong sequence of three bytes. */
  lemma OverlongDiffers()
    ensures Decode([0xE0, 0x80, 0x80]) == REPLACEMENT
    ensures StdDecode([0xE0, 0x80, 0x80]) == REPLACEMENT + REPLACEMENT + REPLACEMENT
  {
    var s: bytes := [0xE0, 0x80, 0x80];
    assert s[1..] == [0x80, 0x80] && s[1..][1..] == [0x80] && s[1..][1..][1..] == [];
    assert TailReach(s, 1, 3) == 3 by {
      assert TailReach(s, 3, 3) == 3 && TailReach(s, 2, 3) == 3;
    }
    assert s[..3] == s && s[3..] == [];
    assert !SequenceValid(s);
    assert StdDecode([0x80]) == REPLACEMENT + StdDecode([]) == REPLACEMENT;
    assert StdDecode([0x80, 0x80]) == REPLACEMENT + StdDecode([0x80]);
    assert StdDecode(s) == REPLACEMENT + StdDecode([0x80, 0x80]);
  }

  /** Well-formed UTF-8 has no clash. */
  lemma ValidHasNoClash(s: bytes)
    requires ValidUtf8(s)
    ensures NoClash(s) && StdDecode(s) == s
  {
    hide Decode, StdDecode, ValidUtf8, NoClash;
    ValidNoClash(s);
    DecodersAgreeExactly(s);
    DecodeKeepsValid(s);
  }

  lemma {:induction false} ValidNoClash(s: bytes)
    requires ValidUtf8(s)
    ensures NoClash(s)
    decreases |s|
  {
    hide NoClash;
    if s == [] {
      NoClashNothing();
    } else {
      var n := LeadLength(s[0]);
      ValidNoClash(s[n..]);
      CharShape(s[..n]);
      assert s[..n][1..] == s[1..n];
      SameClashes(s, n);
    }
  }
}
