/**
 How a byte stream is cut into `sse_feed` calls does not matter, up to the total limit, which is applied to
 whole chunks; and what the memory budget can change is only that parsing stops early.
 */
module SseChunks {
  import opened Bytes
  import opened Utf8
  import opened EventStream
  import opened SseMachine
  import opened SseInvariants
  import opened SseRefinement

  lemma {:induction false} RunSplit(cfg: Config, s: State, a: bytes, b: bytes)
    ensures Run(cfg, s, a + b) == Run(cfg, Run(cfg, s, a), b)
    decreases |a|
  {
    if a == [] {
      assert a + b == b;
    } else if s.status == Ok {
      assert (a + b)[1..] == a[1..] + b;
      RunSplit(cfg, ProcessByte(cfg, s, a[0]), a[1..], b);
    }
  }

  lemma {:induction false} RunCarriesTotal(cfg: Config, s: State, total: nat, bs: bytes)
    ensures Run(cfg, s.(total := total), bs) == Run(cfg, s, bs).(total := total)
    decreases |bs|
  {
    if bs != [] && s.status == Ok {
      RunCarriesTotal(cfg, ProcessByte(cfg, s, bs[0]), total, bs[1..]);
    }
  }

  /** How many leading chunks the total limit admits. */
  function Admitted(cfg: Config, total: nat, chunks: seq<bytes>): (k: nat)
    ensures k <= |chunks|
    decreases |chunks|
  {
    if chunks == [] then 0
    else if chunks[0] != [] && cfg.maxTotal != 0 && |chunks[0]| > cfg.maxTotal - total then 0
    else 1 + Admitted(cfg, total + |chunks[0]|, chunks[1..])
  }

  /** The same parser as far as its future behaviour and its error go; the byte counter counts only without error. */
  predicate SameState(s: State, t: State) {
    && s.core == t.core && s.bom == t.bom && s.bomChecked == t.bomChecked && s.status == t.status
    && (s.status == Ok ==> s.total == t.total)
  }

  lemma {:induction false} FailedStays(cfg: Config, s: State, chunks: seq<bytes>)
    requires s.status != Ok
    ensures FeedChunks(cfg, s, chunks) == s
    decreases |chunks|
  {
    if chunks != [] {
      FailedStays(cfg, s, chunks[1..]);
    }
  }

  lemma ConcatFront(chunks: seq<bytes>)
    requires chunks != []
    ensures Concat(chunks) == chunks[0] + Concat(chunks[1..])
  {
    assert chunks == [chunks[0]] + chunks[1..];
    ConcatAppend([chunks[0]], chunks[1..]);
    assert Concat([chunks[0]]) == [] + chunks[0] == chunks[0];
  }

  /** Running a chunk and then more bytes, whatever the byte counter says. */
  lemma RunChunkFirst(cfg: Config, s: State, c: bytes, tail: bytes, total: nat)
    ensures Run(cfg, s.(total := total), c + tail) == Run(cfg, Run(cfg, s, c).(total := total), tail)
  {
    RunSplit(cfg, s.(total := total), c, tail);
    RunCarriesTotal(cfg, s, total, c);
  }

  lemma StoppedRun(cfg: Config, s: State, bs: bytes)
    requires s.status != Ok
    ensures Run(cfg, s, bs) == s
  {
  }

  lemma ChunkIsRun(cfg: Config, s: State, c: bytes)
    requires s.status == Ok && (cfg.maxTotal == 0 || c == [] || |c| <= cfg.maxTotal - s.total)
    ensures FeedChunk(cfg, s, c) == Run(cfg, s, c).(total := s.total + |c|)
  {
    hide Run;
    RunCarriesTotal(cfg, s, s.total + |c|, c);
    EmptyRun(cfg, s);
  }

  lemma EmptyRun(cfg: Config, s: State)
    ensures Run(cfg, s, []) == s
  {
  }

  /** The result of the admitted bytes, then of the refusal if there is one. */
  function AfterAdmitted(cfg: Config, s: State, text: bytes, refused: bool): State {
    var r := Run(cfg, s.(total := s.total + |text|), text);
    if r.status == Ok && refused then r.(status := OverflowTotal) else r
  }

  lemma AdmitOne(cfg: Config, s: State, c: bytes, tail: bytes, refused: bool)
    requires s.status == Ok && Run(cfg, s, c).status == Ok
    ensures var s1 := Run(cfg, s, c).(total := s.total + |c|);
      AfterAdmitted(cfg, s, c + tail, refused) == AfterAdmitted(cfg, s1, tail, refused)
  {
    hide Run;
    RunChunkFirst(cfg, s, c, tail, s.total + |c| + |tail|);
  }

  lemma AdmitFailing(cfg: Config, s: State, c: bytes, tail: bytes, refused: bool)
    requires s.status == Ok && Run(cfg, s, c).status != Ok
    ensures AfterAdmitted(cfg, s, c + tail, refused) == Run(cfg, s, c).(total := s.total + |c + tail|)
  {
    hide Run;
    RunChunkFirst(cfg, s, c, tail, s.total + |c| + |tail|);
    StoppedRun(cfg, Run(cfg, s, c).(total := s.total + |c| + |tail|), tail);
  }

  /**
   What any sequence of calls computes: the bytes of the admitted chunks are processed as one run, whatever
   the cuts (also inside a byte order mark, a character or a CRLF), and the first chunk that does not fit the
   total limit is refused whole.
   */
  lemma {:induction false} ChunksAreOneRun(cfg: Config, s: State, chunks: seq<bytes>)
    requires s.status == Ok
    ensures var k := Admitted(cfg, s.total, chunks);
      SameState(FeedChunks(cfg, s, chunks), AfterAdmitted(cfg, s, Concat(chunks[..k]), k < |chunks|))
    decreases |chunks|
  {
    hide ProcessByte;
    var k := Admitted(cfg, s.total, chunks);
    if k == 0 {
      assert chunks[..k] == [];
      assert s.(total := s.total + 0) == s;
      if chunks != [] {
        FailedStays(cfg, s.(status := OverflowTotal), chunks[1..]);
      }
    } else {
      hide AfterAdmitted;
      var c, rest := chunks[0], chunks[1..];
      ChunkIsRun(cfg, s, c);
      var s1 := FeedChunk(cfg, s, c);
      assert chunks[..k][1..] == rest[..k - 1];
      ConcatFront(chunks[..k]);
      if s1.status == Ok {
        AdmitOne(cfg, s, c, Concat(rest[..k - 1]), k < |chunks|);
        ChunksAreOneRun(cfg, s1, rest);
      } else {
        AdmitFailing(cfg, s, c, Concat(rest[..k - 1]), k < |chunks|);
        FailedStays(cfg, s1, rest);
      }
    }
  }

  lemma {:induction false} AllAdmitted(cfg: Config, total: nat, chunks: seq<bytes>)
    requires cfg.maxTotal == 0 || total + |Concat(chunks)| <= cfg.maxTotal
    ensures Admitted(cfg, total, chunks) == |chunks|
    decreases |chunks|
  {
    if chunks != [] {
      ConcatFront(chunks);
      AllAdmitted(cfg, total + |chunks[0]|, chunks[1..]);
    }
  }

  lemma WithinTotal(cfg: Config, s: State, chunks: seq<bytes>)
    requires s.status == Ok && (cfg.maxTotal == 0 || s.total + |Concat(chunks)| <= cfg.maxTotal)
    ensures SameState(FeedChunks(cfg, s, chunks), AfterAdmitted(cfg, s, Concat(chunks), false))
  {
    AllAdmitted(cfg, s.total, chunks);
    ChunksAreOneRun(cfg, s, chunks);
    assert chunks[..|chunks|] == chunks;
  }

  /** Chunk independence: two ways of cutting the same bytes, within the total limit, leave the same parser. */
  lemma ChunkingIrrelevant(cfg: Config, s: State, one: seq<bytes>, other: seq<bytes>)
    requires s.status == Ok && Concat(one) == Concat(other)
    requires cfg.maxTotal == 0 || s.total + |Concat(one)| <= cfg.maxTotal
    ensures SameState(FeedChunks(cfg, s, one), FeedChunks(cfg, s, other))
  {
    WithinTotal(cfg, s, one);
    WithinTotal(cfg, s, other);
  }

  /** Above the total limit the cuts do matter: one byte at a time reaches a callback that one chunk does not. */
  lemma OverTheTotalCutsMatter(cfg: Config)
    requires cfg.maxTotal == 1 && cfg.onFrame && cfg.host([Frame])
    ensures FeedChunks(cfg, INIT, [[LF], [LF]]).core.trace == [Frame]
    ensures FeedChunks(cfg, INIT, [[LF, LF]]).core.trace == []
  {
    var s := INIT.(total := 1);
    var c := NO_CORE;
    assert ProcessRawByte(cfg, c, LF).c.trace == [Frame];
    assert ProcessRawByte(cfg, c, LF).rc == Ok;
    var p := ProcessByte(cfg, s, LF);
    assert RawBytes(cfg, c, [LF]) == ProcessRawByte(cfg, c, LF) by {
      assert [LF][1..] == [];
    }
    assert [] + [LF] == [LF];
    assert p.core.trace == [Frame] && p.status == Ok && p.total == 1;
    assert [LF][1..] == [];
    assert FeedChunk(cfg, INIT, [LF]) == Run(cfg, s, [LF]) == p;
    assert [[LF], [LF]][1..] == [[LF]];
    assert FeedChunk(cfg, p, [LF]) == p.(status := OverflowTotal);
    assert [[LF]][1..] == [];
    assert FeedChunks(cfg, p, [[LF]]) == FeedChunks(cfg, p.(status := OverflowTotal), []);
  }

  /** All ways of cutting the text leave the same parser. */
  ghost predicate CutsDoNotMatter(cfg: Config, text: bytes) {
    forall one, other :: Concat(one) == text && Concat(other) == text ==>
      SameState(FeedChunks(cfg, INIT, one), FeedChunks(cfg, INIT, other))
  }

  lemma OneChunk(cfg: Config, text: bytes)
    ensures Concat([text]) == text && FeedChunks(cfg, INIT, [text]) == FeedChunk(cfg, INIT, text)
  {
    assert [text][..0] == [] && [text][1..] == [];
    assert [] + text == text;
  }

  lemma TwoChunks(cfg: Config, a: bytes, b: bytes)
    ensures Concat([a, b]) == a + b && FeedChunks(cfg, INIT, [a, b]) == FeedChunk(cfg, FeedChunk(cfg, INIT, a), b)
  {
    hide FeedChunk;
    OneChunk(cfg, a);
    assert [a, b][..1] == [a] && [a, b][1..] == [b] && [b][1..] == [];
    var s := FeedChunk(cfg, INIT, a);
    assert FeedChunks(cfg, s, [b]) == FeedChunks(cfg, FeedChunk(cfg, s, b), []);
  }

  /** The first byte of a stream always leaves a mark. */
  lemma FirstByteShows(cfg: Config, s: State, b: byte)
    requires !s.bomChecked && s.bom == []
    ensures var r := ProcessByte(cfg, s, b); r.bomChecked || r.bom != []
  {
    hide RawBytes;
  }

  /** When the total limit is exceeded, one chunk is refused whole, but its first byte alone is not. */
  lemma RefusedCutsDiffer(cfg: Config, text: bytes)
    requires cfg.maxTotal != 0 && |text| > cfg.maxTotal
    ensures !SameState(FeedChunks(cfg, INIT, [text]), FeedChunks(cfg, INIT, [text[..1], text[1..]]))
  {
    hide ProcessByte;
    var b, rest := text[..1], text[1..];
    OneChunk(cfg, text);
    TwoChunks(cfg, b, rest);
    var s := INIT.(total := 1);
    FirstByteShows(cfg, s, b[0]);
    var first := ProcessByte(cfg, s, b[0]);
    assert b[1..] == [] && Run(cfg, first, []) == first;
    assert FeedChunk(cfg, INIT, b) == Run(cfg, s, b) == first;
    FirstByteTotal(cfg, s, b[0]);
    assert FeedChunk(cfg, first, rest).bom == first.bom && FeedChunk(cfg, first, rest).bomChecked == first.bomChecked;
  }

  lemma FirstByteTotal(cfg: Config, s: State, b: byte)
    ensures ProcessByte(cfg, s, b).total == s.total
  {
    hide RawBytes, ProcessRawByte;
  }

  /** Exactly when cuts do not matter: when there is no total limit or the whole stream is within it. */
  lemma CutsMatterExactly(cfg: Config, text: bytes)
    ensures CutsDoNotMatter(cfg, text) <==> cfg.maxTotal == 0 || |text| <= cfg.maxTotal
  {
    hide FeedChunks, SameState;
    if cfg.maxTotal == 0 || |text| <= cfg.maxTotal {
      forall one, other | Concat(one) == text && Concat(other) == text
        ensures SameState(FeedChunks(cfg, INIT, one), FeedChunks(cfg, INIT, other))
      {
        ChunkingIrrelevant(cfg, INIT, one, other);
      }
    } else {
      RefusedCutsDiffer(cfg, text);
      OneChunk(cfg, text);
      TwoChunks(cfg, text[..1], text[1..]);
      assert text[..1] + text[1..] == text;
    }
  }

  // --- the memory budget ----------------------------------------------------------------------------------

  function Unbudgeted(cfg: Config): Config {
    cfg.(maxBuffer := 0)
  }

  /** Everything but the capacities. */
  predicate Alike(c: Core, d: Core) {
    c.t == d.t && c.f == d.f && c.pendingCr == d.pendingCr && c.trace == d.trace
  }

  predicate TextAlike(r: TextRes, q: TextRes) {
    r.rc == OverflowBuffer || (r.rc == q.rc && r.t == q.t)
  }

  predicate BufsAlike(r: BufsRes, q: BufsRes) {
    r.rc == OverflowBuffer || (r.rc == q.rc && r.f == q.f)
  }

  lemma LineAppendAlike(cfg: Config, t: Text, m: Mem, n: Mem, d: bytes)
    ensures TextAlike(LineAppend(cfg, t, m, d), LineAppend(Unbudgeted(cfg), t, n, d))
  {
  }

  lemma FeedAlike(cfg: Config, t: Text, m: Mem, n: Mem, b: byte)
    ensures TextAlike(FeedUtf8(cfg, t, m, b), FeedUtf8(Unbudgeted(cfg), t, n, b))
    decreases t.expected != 0
  {
    LineAppendAlike(cfg, t, m, n, [b]);
    LineAppendAlike(cfg, t, m, n, REPLACEMENT);
    if t.expected != 0 {
      if IsTail(b) {
        var t1 := t.(pend := t.pend + [b], expected := t.expected - 1);
        LineAppendAlike(cfg, t1, m, n, if SequenceValid(t1.pend) then t1.pend else REPLACEMENT);
      } else {
        var r := LineAppend(cfg, t, m, REPLACEMENT);
        FeedAlike(cfg, ResetUtf8(r.t), r.m, LineAppend(Unbudgeted(cfg), t, n, REPLACEMENT).m, b);
      }
    }
  }

  lemma FieldAlike(cfg: Config, f: Bufs, m: Mem, n: Mem, field: Field)
    ensures BufsAlike(ProcessField(cfg, f, m, field), ProcessField(Unbudgeted(cfg), f, n, field))
  {
  }

  /** A step that the budget either stopped before any call was made, or left alone. */
  predicate StepAlike(c: Core, r: Res, q: Res) {
    if r.rc == OverflowBuffer then r.c.trace == c.trace else r.rc == q.rc && Alike(r.c, q.c)
  }

  lemma ProcessLineAlike(cfg: Config, c: Core, d: Core)
    requires Alike(c, d)
    ensures StepAlike(c, ProcessLine(cfg, c), ProcessLine(Unbudgeted(cfg), d))
  {
    FieldAlike(cfg, c.f, c.m, d.m, ParseField(c.t.line));
    BlankAlike(cfg, c.f, c.trace);
  }

  lemma BlankAlike(cfg: Config, f: Bufs, trace: seq<Callback>)
    ensures BlankLine(cfg, f, trace) == BlankLine(Unbudgeted(cfg), f, trace)
    ensures BlankLine(cfg, f, trace).rc != OverflowBuffer
  {
  }

  lemma EndLineAlike(cfg: Config, c: Core, d: Core, cr: bool)
    requires Alike(c, d)
    ensures StepAlike(c, EndLine(cfg, c, cr), EndLine(Unbudgeted(cfg), d, cr))
  {
    LineAppendAlike(cfg, ResetUtf8(c.t), c.m, d.m, REPLACEMENT);
    var r := FlushIncomplete(cfg, c.t, c.m);
    var q := FlushIncomplete(Unbudgeted(cfg), d.t, d.m);
    if r.rc == Ok {
      ProcessLineAlike(cfg, c.(t := r.t, m := r.m), d.(t := q.t, m := q.m));
    }
  }

  lemma RawByteAlike(cfg: Config, c: Core, d: Core, b: byte)
    requires Alike(c, d)
    ensures StepAlike(c, ProcessRawByte(cfg, c, b), ProcessRawByte(Unbudgeted(cfg), d, b))
  {
    if IsEol(b) {
      EndLineAlike(cfg, c.(pendingCr := false), d.(pendingCr := false), b == CR);
    } else {
      FeedAlike(cfg, c.t, c.m, d.m, b);
    }
  }

  /** With a budget the parser does what it does without one, or stops early for lack of memory. */
  lemma {:induction false} RawBytesAlike(cfg: Config, c: Core, d: Core, bs: bytes) returns (k: nat)
    requires Alike(c, d)
    ensures k <= |bs|
    ensures var r := RawBytes(cfg, c, bs); var q := RawBytes(Unbudgeted(cfg), d, bs);
      var p := RawBytes(Unbudgeted(cfg), d, bs[..k]);
      if r.rc == OverflowBuffer then p.rc == Ok && r.c.trace == p.c.trace else r.rc == q.rc && Alike(r.c, q.c)
    decreases |bs|
  {
    k := 0;
    assert bs[..0] == [];
    if bs != [] {
      RawByteAlike(cfg, c, d, bs[0]);
      var r := ProcessRawByte(cfg, c, bs[0]);
      var q := ProcessRawByte(Unbudgeted(cfg), d, bs[0]);
      if r.rc == Ok {
        var j := RawBytesAlike(cfg, r.c, q.c, bs[1..]);
        k := j + 1;
        assert bs[..k][0] == bs[0] && bs[..k][1..] == bs[1..][..j];
      }
    }
  }

  /**
   For every budget: either the parser shows exactly the reading of the stream, or it reports that
   the budget is exhausted after the calls that reading makes for some prefix of the stream.
   */
  lemma BudgetOnlyStopsEarly(cfg: Config, bs: bytes)
    ensures var t := Run(cfg, INIT, bs);
      || SeenOf(t.core, t.status) == SeenIn(InterpretStream(Unbudgeted(cfg), bs))
      || (t.status == OverflowBuffer
          && exists k :: 0 <= k <= |bs| && t.core.trace == InterpretStream(Unbudgeted(cfg), bs[..k]).trace)
  {
    var t := Run(cfg, INIT, bs);
    assert INIT.bom + bs == bs;
    RefinesReading(Unbudgeted(cfg), bs);
    RunFromStart(cfg, INIT, bs);
    RunFromStart(Unbudgeted(cfg), INIT, bs);
    if !(bs <= BOM) {
      var text := StripBom(bs);
      var k := RawBytesAlike(cfg, NO_CORE, NO_CORE, text);
      if t.status == OverflowBuffer {
        var j := |bs| - |text| + k;
        PrefixTrace(cfg, bs, j, k);
        assert t.core.trace == InterpretStream(Unbudgeted(cfg), bs[..j]).trace;
      }
    }
  }

  /** A prefix of the stream that reaches beyond the byte order mark has a prefix of the text. */
  lemma PrefixText(bs: bytes, j: nat, k: nat)
    requires k <= |StripBom(bs)| && j == |bs| - |StripBom(bs)| + k
    ensures StripBom(bs[..j]) == StripBom(bs)[..k]
  {
    var pre := bs[..j];
    if BOM <= bs {
      assert pre[..3] == bs[..3] == BOM;
    } else {
      PrefixesAgree(BOM, pre, bs);
      assert j == k;
      assert !(BOM <= pre);
    }
  }

  lemma PrefixTrace(cfg: Config, bs: bytes, j: nat, k: nat)
    requires k <= |StripBom(bs)| && j == |bs| - |StripBom(bs)| + k
    ensures InterpretStream(Unbudgeted(cfg), bs[..j]).trace == RawBytes(Unbudgeted(cfg), NO_CORE, StripBom(bs)[..k]).c.trace
  {
    var cfg0 := Unbudgeted(cfg);
    var text := StripBom(bs)[..k];
    PrefixText(bs, j, k);
    InitHolds(cfg0);
    RawBytesRefine(cfg0, NO_CORE, text);
    assert [] + text == text && [] + Decode(text) == Decode(text);
  }
}
