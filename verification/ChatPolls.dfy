/**
 Why the equalities of `ChatTransfer` need a host that does not refuse: one that gives up at its third question
 hears of an event that comes in one chunk, and not of the same event in two.
 */
module ChatPolls {
  import opened Bytes
  import opened Utf8
  import opened EventStream
  import opened SseMachine
  import opened SseRefinement
  import opened SseChunks
  import opened SseWriter
  import opened SseRoundTrip
  import opened SseHost
  import opened ChatTransfer
  import StreamTools

  /** How often the host was asked whether to go on. */
  function Questions(trace: seq<Callback>): nat {
    if trace == [] then 0
    else Questions(trace[..|trace| - 1]) + if trace[|trace| - 1].Event? then 0 else 1
  }

  const TWICE: seq<Callback> -> bool := trace => Questions(trace) < 3

  /** Without limits, with a host that gives up at its third question. */
  const IMPATIENT := Config(0, 0, 0, 0, true, true, TWICE)

  lemma QuestionsMore(trace: seq<Callback>, c: Callback)
    ensures Questions(trace + [c]) == Questions(trace) + if c.Event? then 0 else 1
  {
    assert (trace + [c])[..|trace + [c]| - 1] == trace;
  }

  /** Polls and the rest are counted separately. */
  lemma {:induction false} QuestionsBehind(before: seq<Callback>, trace: seq<Callback>)
    requires before <= trace && forall k :: |before| <= k < |trace| ==> !trace[k].Poll?
    ensures Questions(trace) - Questions(before) == Questions(Erase(trace)) - Questions(Erase(before))
    decreases |trace|
  {
    if trace == before {
    } else {
      var n := |trace| - 1;
      assert before <= trace[..n];
      QuestionsBehind(before, trace[..n]);
      assert trace == trace[..n] + [trace[n]];
      EraseMore(trace[..n], trace[n]);
      QuestionsMore(trace[..n], trace[n]);
      QuestionsMore(Erase(trace[..n]), trace[n]);
    }
  }

  lemma {:induction false} QuestionsPrefix(t: seq<Callback>, u: seq<Callback>)
    requires t <= u
    ensures Questions(t) <= Questions(u)
    decreases |u|
  {
    if t != u {
      assert t <= u[..|u| - 1];
      QuestionsPrefix(t, u[..|u| - 1]);
    }
  }

  // --- the event ------------------------------------------------------------------------------------------

  const EVENT_TEXT: bytes := EventText([], StreamTools.DONE)
  const ALL_BUT_LAST: bytes := DATA_PREFIX + StreamTools.DONE + [LF]
  const DONE_EVENT := Event(StreamTools.DONE, MESSAGE, [])

  lemma TextParts()
    ensures EVENT_TEXT == ALL_BUT_LAST + [LF] && NoEol(StreamTools.DONE) && CR !in StreamTools.DONE
    ensures DataLines(StreamTools.DONE) == [StreamTools.DONE]
  {
    FirstIndexIs(StreamTools.DONE, LF, |StreamTools.DONE|);
    LinesTextOne(StreamTools.DONE);
  }

  lemma AsciiTexts()
    ensures ValidUtf8([]) && ValidUtf8(StreamTools.DONE) && ValidUtf8(ALL_BUT_LAST)
  {
    AsciiValid(StreamTools.DONE);
    AsciiValid(ALL_BUT_LAST);
  }

  /** The whole text is one frame and one event. */
  lemma WholeText(cfg: Config)
    requires cfg == Quiet(IMPATIENT)
    ensures var u := Run(cfg, INIT, EVENT_TEXT); u.core.trace == [Frame, DONE_EVENT] && u.status == Ok
  {
    hide Run, ValidUtf8;
    AsciiTexts();
    TextParts();
    var item := Sent([], StreamTools.DONE);
    assert [item][1..] == [] && StreamText([]) == [] && StreamCalls([]) == [];
    assert StreamText([item]) == EVENT_TEXT + [] == EVENT_TEXT;
    assert StreamCalls([item]) == [Frame, DONE_EVENT] + [] == [Frame, DONE_EVENT];
    LineIsFine(cfg);
    WriteThenRead(cfg, [item]);
  }

  lemma LineIsFine(cfg: Config)
    requires cfg == Quiet(IMPATIENT)
    ensures ContentStatus(LimitsOf(cfg), [], StreamTools.DONE) == Ok
  {
    TextParts();
    assert [StreamTools.DONE][1..] == [];
  }

  /** Without the last line feed nothing is called. */
  lemma PartOfText(cfg: Config)
    requires cfg == Quiet(IMPATIENT)
    ensures var u := Run(cfg, INIT, ALL_BUT_LAST); u.core.trace == [] && u.status == Ok
  {
    hide Run, ValidUtf8;
    AsciiTexts();
    TextParts();
    RefinesReading(cfg, ALL_BUT_LAST);
    DecodeKeepsValid(ALL_BUT_LAST);
    DataLineReads(cfg, NO_FIELDS, [], StreamTools.DONE, []);
    assert ALL_BUT_LAST + [] == ALL_BUT_LAST;
    assert SplitLines([]) == Split([], []);
  }

  // --- the two cuts ---------------------------------------------------------------------------------------

  /** One chunk after one poll: nothing in it is refused, for it asks at most once more. */
  lemma FirstChunk(text: bytes)
    requires Questions(Run(Quiet(IMPATIENT), INIT, text).core.trace) <= 1 && Run(Quiet(IMPATIENT), INIT, text).status == Ok
    ensures var sse := FeedChunk(IMPATIENT, Asked(INIT), text);
      && sse.status == Ok && [Poll] <= sse.core.trace
      && Erase(sse.core.trace) == Run(Quiet(IMPATIENT), INIT, text).core.trace
      && Questions(sse.core.trace) == 1 + Questions(Erase(sse.core.trace))
  {
    hide Run, Erase, Questions, FeedChunk;
    var asked := Asked(INIT);
    assert [] + [Poll] == [Poll];
    OnePoll();
    var sse, v := FeedChunk(IMPATIENT, asked, text), FeedChunk(Quiet(IMPATIENT), INIT, text);
    QuietChunk(text);
    ChunkFollows(IMPATIENT, asked, INIT, text);
    QuestionsBehind([Poll], sse.core.trace);
    QuestionsPrefix(Erase(sse.core.trace), v.core.trace);
  }

  lemma OnePoll()
    ensures Erase([Poll]) == [] && Questions([Poll]) == 1 && Questions([]) == 0
  {
    assert [Poll][..0] == [];
  }

  lemma QuietChunk(text: bytes)
    requires Run(Quiet(IMPATIENT), INIT, text).status == Ok
    ensures var v, u := FeedChunk(Quiet(IMPATIENT), INIT, text), Run(Quiet(IMPATIENT), INIT, text);
      v.status == Ok && v.core.trace == u.core.trace
  {
    hide Run;
    if text == [] {
      assert Run(Quiet(IMPATIENT), INIT, text) == INIT by {
        RunNothing(Quiet(IMPATIENT), INIT);
      }
    }
    RunCarriesTotal(Quiet(IMPATIENT), INIT, |text|, text);
  }

  lemma RunNothing(cfg: Config, s: State)
    ensures Run(cfg, s, []) == s
  {
  }

  /** In one chunk: poll, frame, event, and only then the refusal. */
  lemma InOneChunk(tools: StreamTools.Config)
    ensures Received(IMPATIENT, tools, [EVENT_TEXT]).stream.done
  {
    hide Run, Erase, Questions, FeedChunk, EVENT_TEXT, Handled;
    WholeText(Quiet(IMPATIENT));
    FrameAndEvent();
    FirstChunk(EVENT_TEXT);
    var sse := FeedChunk(IMPATIENT, Asked(INIT), EVENT_TEXT);
    OnePoll();
    assert [] + [Poll] == [Poll];
    DoneHandled(tools, sse);
    assert Received(IMPATIENT, tools, [EVENT_TEXT]) == OnBytes(IMPATIENT, tools, Received(IMPATIENT, tools, []), EVENT_TEXT) by {
      assert [EVENT_TEXT][..0] == [];
    }
    assert [EVENT_TEXT][..0] == [] && Received(IMPATIENT, tools, []) == NEW_TRANSFER;
  }

  lemma FrameAndEvent()
    ensures Questions([Frame, DONE_EVENT]) == 1
  {
    assert [Frame, DONE_EVENT][..1] == [Frame] && [Frame][..0] == [];
  }

  /** The handler sees the event. */
  lemma DoneHandled(tools: StreamTools.Config, sse: State)
    requires [Poll] <= sse.core.trace && Erase(sse.core.trace) == [Frame, DONE_EVENT]
    ensures StreamTools.OnEvents(tools, StreamTools.NEW_STREAM, NewEvents(sse, 1)).done
  {
    hide Erase;
    var trace := sse.core.trace;
    assert trace == [Poll] + trace[1..];
    EventsAppend([Poll], trace[1..]);
    PollsAreNoEvents(trace);
    assert EventsOf([Poll]) == [] by {
      assert [Poll][..0] == [];
    }
    assert [Frame, DONE_EVENT][..1] == [Frame] && [Frame][..0] == [];
    assert EventsOf([Frame, DONE_EVENT]) == [StreamTools.DONE];
    assert [] + EventsOf(trace[1..]) == EventsOf(trace[1..]);
    assert [StreamTools.DONE][..0] == [];
  }

  /** In two chunks: the third poll comes before the end of the event. */
  lemma InTwoChunks(tools: StreamTools.Config)
    ensures !Received(IMPATIENT, tools, [ALL_BUT_LAST, [LF]]).stream.done
  {
    hide Run, Erase, Questions, FeedChunk, ALL_BUT_LAST;
    PartOfText(Quiet(IMPATIENT));
    OnePoll();
    FirstChunk(ALL_BUT_LAST);
    var sse := FeedChunk(IMPATIENT, Asked(INIT), ALL_BUT_LAST);
    var trace := sse.core.trace;
    QuestionsMore(trace, Poll);
    QuestionsMore(trace + [Poll], Poll);
    NothingHandled(tools, sse);
    var chunks := [ALL_BUT_LAST, [LF]];
    assert chunks[..1] == [ALL_BUT_LAST] && [ALL_BUT_LAST][..0] == [];
    assert Received(IMPATIENT, tools, []) == NEW_TRANSFER;
  }

  lemma NothingHandled(tools: StreamTools.Config, sse: State)
    requires [Poll] <= sse.core.trace && Erase(sse.core.trace) == []
    ensures StreamTools.OnEvents(tools, StreamTools.NEW_STREAM, NewEvents(sse, 1)) == StreamTools.NEW_STREAM
  {
    hide Erase;
    var trace := sse.core.trace;
    assert trace == [Poll] + trace[1..];
    EventsAppend([Poll], trace[1..]);
    PollsAreNoEvents(trace);
    assert EventsOf([]) == [];
  }

  /** A refusing host makes cuts visible: the same bytes, once with and once without the event. */
  lemma PollsMakeCutsVisible(tools: StreamTools.Config)
    ensures Concat([EVENT_TEXT]) == Concat([ALL_BUT_LAST, [LF]])
    ensures Received(IMPATIENT, tools, [EVENT_TEXT]).stream.done
    ensures !Received(IMPATIENT, tools, [ALL_BUT_LAST, [LF]]).stream.done
  {
    hide EVENT_TEXT, ALL_BUT_LAST, Received;
    InOneChunk(tools);
    InTwoChunks(tools);
    TextParts();
    OneChunk(IMPATIENT, EVENT_TEXT);
    TwoChunks(IMPATIENT, ALL_BUT_LAST, [LF]);
  }

  // --- when the host is asked -----------------------------------------------------------------------------

  predicate NoPolls(calls: seq<Callback>) {
    forall k :: 0 <= k < |calls| ==> !calls[k].Poll?
  }

  function PollCount(trace: seq<Callback>): nat {
    if trace == [] then 0 else PollCount(trace[..|trace| - 1]) + if trace[|trace| - 1].Poll? then 1 else 0
  }

  lemma {:induction false} PollsAdd(trace: seq<Callback>, calls: seq<Callback>)
    requires NoPolls(calls)
    ensures PollCount(trace + calls) == PollCount(trace)
    decreases |calls|
  {
    if calls == [] {
      assert trace + calls == trace;
    } else {
      var n := |calls| - 1;
      PollsAdd(trace, calls[..n]);
      assert (trace + calls)[..|trace + calls| - 1] == trace + calls[..n];
    }
  }

  lemma OnePollMore(trace: seq<Callback>)
    ensures PollCount(trace + [Poll]) == PollCount(trace) + 1
  {
    assert (trace + [Poll])[..|trace + [Poll]| - 1] == trace;
  }

  /** The host is asked before a chunk, and behind it unless the parser failed; what it hears in between are no polls. */
  lemma AskedAround(cfg: Config, tools: StreamTools.Config, chunks: seq<bytes>, chunk: bytes) returns (calls: seq<Callback>)
    requires !Received(cfg, tools, chunks).stopped
    ensures NoPolls(calls)
    ensures var t, r := Received(cfg, tools, chunks), Received(cfg, tools, chunks + [chunk]);
      var first := t.sse.core.trace + [Poll];
      if !cfg.host(first) then r.stopped && r.sse.core.trace == first
      else
        && r.sse.core.trace == first + calls + (if r.sse.status == Ok then [Poll] else [])
        && (r.stopped <==> r.sse.status != Ok || !cfg.host(r.sse.core.trace) || r.stream.broken)
  {
    hide FeedChunk, StreamTools.OnEvents, Extends, GoesWell, Erase, Handled, Unrefused, Heeded;
    var t := Received(cfg, tools, chunks);
    assert (chunks + [chunk])[..|chunks + [chunk]| - 1] == chunks;
    ReceivedBeside(cfg, tools, chunks);
    var u := FeedChunks(Quiet(cfg), INIT, chunks);
    var asked := Asked(t.sse);
    AskedMeans(cfg, tools, t.sse, u);
    ChunkFollows(cfg, asked, u, chunk);
    var sse := FeedChunk(cfg, asked, chunk);
    calls := NewCalls(cfg, asked.core.trace, sse.core.trace);
  }

  lemma NewCalls(cfg: Config, before: seq<Callback>, trace: seq<Callback>) returns (calls: seq<Callback>)
    requires Extends(cfg, before, trace)
    ensures trace == before + calls && NoPolls(calls)
  {
    calls := trace[|before|..];
  }

  /** While nothing stopped it, the transfer has asked the host twice for each chunk. */
  lemma {:induction false} EveryChunkIsAskedTwice(cfg: Config, tools: StreamTools.Config, chunks: seq<bytes>)
    requires !Received(cfg, tools, chunks).stopped
    ensures PollCount(Received(cfg, tools, chunks).sse.core.trace) == 2 * |chunks|
    decreases |chunks|
  {
    hide OnBytes, NoPolls, PollCount;
    if chunks == [] {
      NothingAsked();
    } else {
      var n := |chunks| - 1;
      var front := chunks[..n];
      assert chunks == front + [chunks[n]];
      StoppedStays(cfg, tools, front, chunks[n]);
      EveryChunkIsAskedTwice(cfg, tools, front);
      var calls := AskedAround(cfg, tools, front, chunks[n]);
      var trace := Received(cfg, tools, front).sse.core.trace;
      OnePollMore(trace);
      PollsAdd(trace + [Poll], calls);
      OnePollMore(trace + [Poll] + calls);
    }
  }

  lemma NothingAsked()
    ensures PollCount([]) == 0
  {
  }

  lemma StoppedStays(cfg: Config, tools: StreamTools.Config, chunks: seq<bytes>, chunk: bytes)
    ensures Received(cfg, tools, chunks).stopped ==> Received(cfg, tools, chunks + [chunk]).stopped
  {
    assert (chunks + [chunk])[..|chunks + [chunk]| - 1] == chunks;
  }
}
