/**
 The parser against the standard's own decoder: they read a stream alike when no lead byte in it is followed by a
 tail byte that may not follow it, and for the payload of an event exactly then.
 */
module SseStandard {
  import opened Bytes
  import opened Utf8
  import opened Utf8Standard
  import opened EventStream
  import opened SseMachine
  import opened SseRefinement
  import opened SseWriter
  import opened SseRoundTrip

  // --- whole streams --------------------------------------------------------------------------------------

  /** The standard's reading of a whole byte stream. */
  function StandardReading(cfg: Config, stream: bytes): Outcome {
    Interpret(cfg, NO_FIELDS, [], SplitLines(StdDecode(StripBom(stream))))
  }

  /** A byte order mark makes no difference. */
  lemma BomHasNoClash(s: bytes)
    ensures NoClash(s) <==> NoClash(StripBom(s))
  {
    if BOM <= s {
      var t := s[3..];
      assert s[..3] == BOM && s[0] == 0xEF && s[1] == 0xBB && s[2] == 0xBF;
      if NoClash(s) {
        NoClashTail(s, 3);
      } else {
        var i :| 0 <= i < |s| - 1 && Clash(s, i);
        ClashMeans(s, i);
        assert Clash(t, i - 3);
      }
    }
  }

  /** Without a clash the parser's reading of a stream is the standard's. */
  lemma ReadingIsStandard(cfg: Config, stream: bytes)
    requires NoClash(stream)
    ensures InterpretStream(cfg, stream) == StandardReading(cfg, stream)
  {
    hide Interpret, NoClash, Decode, StdDecode, StripBom, SplitLines;
    BomHasNoClash(stream);
    DecodersAgreeExactly(StripBom(stream));
  }

  /**
   Main result. Without a memory budget and for every answering host, the calls made to the embedding program (and
   their arguments), the last event id, the retry time and the final error of a fresh parser are those of the
   standard's reading of the stream under the same line and frame limits, when the stream has no clash.
   */
  lemma RefinesStandard(cfg: Config, stream: bytes)
    requires cfg.maxBuffer == 0 && NoClash(stream)
    ensures var t := Run(cfg, INIT, stream); SeenOf(t.core, t.status) == SeenIn(StandardReading(cfg, stream))
  {
    hide Run, InterpretStream, StandardReading, NoClash;
    RefinesReading(cfg, stream);
    ReadingIsStandard(cfg, stream);
  }

  // --- payloads -------------------------------------------------------------------------------------------

  const BLANK: bytes := [LF, LF]

  /** A stream of one event with this payload. */
  function PayloadText(s: bytes): bytes {
    DATA_PREFIX + s + BLANK
  }

  lemma BlankDecodes()
    ensures Decode(BLANK) == BLANK && StdDecode(BLANK) == BLANK
  {
    assert BLANK[1..] == [LF] && [LF][1..] == [];
    assert Decode([LF]) == [LF] && StdDecode([LF]) == [LF];
  }

  lemma {:induction false} AsciiPrefix(a: bytes, s: bytes)
    requires forall i :: 0 <= i < |a| ==> a[i] <= 0x7F
    ensures Decode(a + s) == a + Decode(s) && StdDecode(a + s) == a + StdDecode(s)
    decreases |a|
  {
    if a == [] {
      assert a + s == s;
    } else {
      assert (a + s)[1..] == a[1..] + s;
      AsciiPrefix(a[1..], s);
    }
  }

  /** A piece of decoded text before the rest of it. */
  lemma OnePiece(p: bytes, d: bytes)
    requires NoEol(p) && NoEol(d)
    ensures NoEol(p + d) && p + (d + BLANK) == (p + d) + BLANK
  {
  }

  lemma PieceOf(s: bytes, k: nat)
    requires k <= |s|
    ensures (s + BLANK)[k..] == s[k..] + BLANK && (s + BLANK)[..k] == s[..k]
  {
  }

  /** Sequences end in front of the end of line. */
  lemma ReachStops(s: bytes, n: nat)
    requires s != [] && n >= 2
    ensures TailReach(s + BLANK, 1, n) <= |s| && Accepted(s + BLANK, n) <= |s|
  {
    var t := s + BLANK;
    assert t[|s|] == LF;
    var k := TailReach(t, 1, n);
    assert forall i :: 1 <= i < k ==> t[1..k][i - 1] == t[i];
    if |t| > 1 && MayFollow(t[0], t[1]) {
      var j := TailReach(t, 2, n);
      assert forall i :: 2 <= i < j ==> t[2..j][i - 2] == t[i];
    }
  }

  /** What the parser's decoder makes of a payload. */
  lemma {:induction false} PayloadDecodes(s: bytes) returns (d: bytes)
    requires NoEol(s)
    ensures NoEol(d) && Decode(s + BLANK) == d + BLANK
    decreases |s|
  {
    hide SequenceValid;
    BlankDecodes();
    if s == [] {
      d := [];
      assert s + BLANK == BLANK && d + BLANK == BLANK;
    } else {
      var t, n := s + BLANK, LeadLength(s[0]);
      if n >= 2 {
        ReachStops(s, n);
        LeadRound(t);
      }
      var k := if n < 2 then 1 else TailReach(t, 1, n);
      d := PayloadDecodes(s[k..]);
      PieceOf(s, k);
      var p := if n == 1 || (n >= 2 && k == n && SequenceValid(t[..n])) then s[..k] else REPLACEMENT;
      OnePiece(p, d);
      d := p + d;
    }
  }

  /** And what the standard's makes of it. */
  lemma {:induction false} PayloadStdDecodes(s: bytes) returns (d: bytes)
    requires NoEol(s)
    ensures NoEol(d) && StdDecode(s + BLANK) == d + BLANK
    decreases |s|
  {
    BlankDecodes();
    if s == [] {
      d := [];
      assert s + BLANK == BLANK && d + BLANK == BLANK;
    } else {
      var t, n := s + BLANK, LeadLength(s[0]);
      if n >= 2 { ReachStops(s, n); }
      var k := if n < 2 then 1 else Accepted(t, n);
      d := PayloadStdDecodes(s[k..]);
      PieceOf(s, k);
      var p := if n == 1 || (n >= 2 && k == n) then s[..k] else REPLACEMENT;
      OnePiece(p, d);
      d := p + d;
    }
  }

  lemma PayloadHasNoClash(s: bytes)
    ensures NoClash(s + BLANK) <==> NoClash(s)
  {
    var t := s + BLANK;
    if NoClash(t) {
      forall i | 0 <= i < |s| - 1
        ensures !Clash(s, i)
      {
        assert !Clash(t, i);
      }
    }
    if NoClash(s) {
      forall i | 0 <= i < |t| - 1
        ensures !Clash(t, i)
      {
        if i < |s| - 1 {
          assert !Clash(s, i);
        } else {
          assert t[i + 1] == LF;
        }
      }
    }
  }

  /** The text of an event whose data is one line is read as that event. */
  lemma OneLineReads(cfg: Config, d: bytes)
    requires Patient(cfg) && cfg.maxLine == 0 && cfg.maxFrame == 0 && NoEol(d)
    ensures Read(cfg, NO_FIELDS, [], DATA_PREFIX + (d + BLANK)) == Outcome(NO_FIELDS, [Frame, Event(d, MESSAGE, [])], Ok)
  {
    hide Read;
    OneLine(d);
    SentReads(cfg, [], d, [], []);
    assert EventText([], d) + [] == DATA_PREFIX + (d + BLANK);
    assert [] + ItemCalls(Sent([], d)) == [Frame, Event(d, MESSAGE, [])];
    ReadsNothing(cfg, [Frame, Event(d, MESSAGE, [])]);
  }

  lemma OneLine(d: bytes)
    requires NoEol(d)
    ensures EventText([], d) == DATA_PREFIX + (d + BLANK) && ContentStatus(Limits(0, 0), [], d) == Ok && CR !in d
  {
    FirstIndexIs(d, LF, |d|);
    assert d[..|d|] == d;
    assert DataLines(d) == [d];
    assert [d][1..] == [];
    assert LinesText([d]) == DATA_PREFIX + d + [LF] + [];
    assert EventText([], d) == [] + (DATA_PREFIX + d + [LF] + []) + [LF];
    assert LinesStatus(Limits(0, 0), []) == Ok && LinesStatus(Limits(0, 0), [d]) == Ok;
  }

  lemma ReadsNothing(cfg: Config, trace: seq<Callback>)
    requires cfg.maxLine == 0
    ensures Read(cfg, NO_FIELDS, trace, []) == Outcome(NO_FIELDS, trace, Ok)
  {
  }

  /**
   Main result, exact. Without limits, an event with any payload is read as the standard reads it exactly when the
   payload has no clash.
   */
  lemma PayloadReadsExactly(cfg: Config, s: bytes)
    requires Patient(cfg) && cfg.maxLine == 0 && cfg.maxFrame == 0 && NoEol(s)
    ensures var t := Run(cfg, INIT, PayloadText(s));
      SeenOf(t.core, t.status) == SeenIn(StandardReading(cfg, PayloadText(s))) <==> NoClash(s)
  {
    hide Run, Interpret, SplitLines, Decode, StdDecode, NoClash;
    var text := PayloadText(s);
    RefinesReading(cfg, text);
    assert text == DATA_PREFIX + (s + BLANK);
    AsciiPrefix(DATA_PREFIX, s + BLANK);
    assert text[0] == DATA_PREFIX[0] && StripBom(text) == text;
    var d := PayloadDecodes(s);
    var e := PayloadStdDecodes(s);
    OneLineReads(cfg, d);
    OneLineReads(cfg, e);
    DecodersAgreeExactly(s + BLANK);
    PayloadHasNoClash(s);
    assert d + BLANK == e + BLANK <==> d == e by {
      assert (d + BLANK)[..|d + BLANK| - 2] == d && (e + BLANK)[..|e + BLANK| - 2] == e;
    }
    assert [Frame, Event(d, MESSAGE, [])][1] == Event(d, MESSAGE, []);
    assert [Frame, Event(e, MESSAGE, [])][1] == Event(e, MESSAGE, []);
  }
}
