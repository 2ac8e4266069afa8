/**
 The streamed response from end to end (`curl_stream_cb` of src/llm.c): chunks of bytes go through the event
 stream parser to the stream handler, and the host is asked before and after each chunk and at each blank line
 whether to go on. What the host is told depends on the bytes and on its own answers.
 */
module ChatTransfer {
  import opened Bytes
  import opened EventStream
  import opened SseMachine
  import opened SseRefinement
  import opened SseChunks
  import opened SseHost
  import opened SseStandard
  import opened Utf8Standard
  import StreamTools
  import StreamSafety

  // --- the events of a log --------------------------------------------------------------------------------

  /** The data of the events reported so far. */
  function EventsOf(trace: seq<Callback>): seq<bytes> {
    if trace == [] then []
    else
      var front, c := EventsOf(trace[..|trace| - 1]), trace[|trace| - 1];
      if c.Event? then front + [c.data] else front
  }

  lemma {:induction false} EventsAppend(a: seq<Callback>, b: seq<Callback>)
    ensures EventsOf(a + b) == EventsOf(a) + EventsOf(b)
    decreases |b|
  {
    if b == [] {
      assert a + b == a;
    } else {
      var n := |b| - 1;
      assert (a + b)[..|a + b| - 1] == a + b[..n];
      EventsAppend(a, b[..n]);
    }
  }

  lemma {:induction false} PollsAreNoEvents(trace: seq<Callback>)
    ensures EventsOf(Erase(trace)) == EventsOf(trace)
  {
    if trace != [] {
      var n := |trace| - 1;
      PollsAreNoEvents(trace[..n]);
      if !trace[n].Poll? {
        assert Erase(trace)[..|Erase(trace)| - 1] == Erase(trace[..n]);
      }
    }
  }

  lemma {:induction false} FeedChunksLast(cfg: Config, s: State, chunks: seq<bytes>)
    requires chunks != []
    ensures var n := |chunks| - 1; FeedChunks(cfg, s, chunks) == FeedChunk(cfg, FeedChunks(cfg, s, chunks[..n]), chunks[n])
    decreases |chunks|
  {
    hide FeedChunk;
    var n := |chunks| - 1;
    if n == 0 {
      assert chunks[1..] == [] && chunks[..n] == [];
    } else {
      FeedChunksLast(cfg, FeedChunk(cfg, s, chunks[0]), chunks[1..]);
      assert chunks[1..][..n - 1] == chunks[..n][1..];
    }
  }

  // --- the transfer ---------------------------------------------------------------------------------------

  /** The event parser, the stream handler, and whether the transfer was told to stop. */
  datatype Transfer = Transfer(sse: State, stream: StreamTools.Stream, stopped: bool)

  const NEW_TRANSFER := Transfer(INIT, StreamTools.NEW_STREAM, false)

  /** A question to the host, noted in the log. */
  function Asked(s: State): State {
    s.(core := s.core.(trace := s.core.trace + [Poll]))
  }

  /** The host's answer to the last call of the log. */
  predicate GoesOn(cfg: Config, s: State) {
    cfg.host(s.core.trace)
  }

  /** What the parser's status means for the whole stream; a refusal is a cancellation. */
  function Verdict(s: StreamTools.Stream, status: Status): StreamTools.Stream {
    if status == Ok then s
    else StreamTools.SetError(s, if status == Abort then StreamTools.Cancelled else StreamTools.Failed)
  }

  /** The events that the parser reported behind the first `seen` calls. */
  function NewEvents(s: State, seen: nat): seq<bytes> {
    if seen <= |s.core.trace| then EventsOf(s.core.trace[seen..]) else []
  }

  /** `curl_stream_cb`: ask, feed the chunk, let the handler see its events, ask again; stop on any error. */
  function OnBytes(cfg: Config, tools: StreamTools.Config, t: Transfer, chunk: bytes): Transfer {
    if t.stopped then t
    else
      var asked := Asked(t.sse);
      if !GoesOn(cfg, asked) then Transfer(asked, StreamTools.SetError(t.stream, StreamTools.Cancelled), true)
      else if t.stream.broken then Transfer(asked, t.stream, true)
      else
        var sse := FeedChunk(cfg, asked, chunk);
        var stream := StreamTools.OnEvents(tools, t.stream, NewEvents(sse, |asked.core.trace|));
        if sse.status != Ok then Transfer(sse, Verdict(stream, sse.status), true)
        else
          var again := Asked(sse);
          if !GoesOn(cfg, again) then Transfer(again, StreamTools.SetError(stream, StreamTools.Cancelled), true)
          else Transfer(again, stream, stream.broken)
  }

  function Received(cfg: Config, tools: StreamTools.Config, chunks: seq<bytes>): Transfer {
    if chunks == [] then NEW_TRANSFER
    else OnBytes(cfg, tools, Received(cfg, tools, chunks[..|chunks| - 1]), chunks[|chunks| - 1])
  }

  /** Handling, in one go, all events of a log. */
  function Handled(tools: StreamTools.Config, trace: seq<Callback>): StreamTools.Stream {
    StreamTools.OnEvents(tools, StreamTools.NEW_STREAM, EventsOf(trace))
  }

  /** The same but for the error code. */
  predicate Alike(s: StreamTools.Stream, u: StreamTools.Stream) {
    s.(error := u.error) == u
  }

  lemma HandledMore(tools: StreamTools.Config, trace: seq<Callback>, more: seq<Callback>)
    requires trace <= more
    ensures Handled(tools, more) == StreamTools.OnEvents(tools, Handled(tools, trace), EventsOf(more[|trace|..]))
    ensures Handled(tools, trace).broken ==> Handled(tools, more) == Handled(tools, trace)
  {
    hide StreamTools.OnEvents;
    assert more == trace + more[|trace|..];
    EventsAppend(trace, more[|trace|..]);
    StreamSafety.OnEventsSplit(tools, StreamTools.NEW_STREAM, EventsOf(trace), EventsOf(more[|trace|..]));
    if Handled(tools, trace).broken {
      StreamSafety.Silent(tools, Handled(tools, trace), EventsOf(more[|trace|..]));
    }
  }

  lemma HandledPoll(tools: StreamTools.Config, trace: seq<Callback>)
    ensures Handled(tools, trace + [Poll]) == Handled(tools, trace)
  {
    assert (trace + [Poll])[..|trace + [Poll]| - 1] == trace;
  }

  lemma HandledErased(tools: StreamTools.Config, trace: seq<Callback>)
    ensures Handled(tools, Erase(trace)) == Handled(tools, trace)
  {
    PollsAreNoEvents(trace);
  }

  /** A handler that was not interfered with has its own error code. */
  lemma HandledError(tools: StreamTools.Config, trace: seq<Callback>)
    ensures var h := Handled(tools, trace); h.error == if h.broken then StreamTools.Failed else StreamTools.NoError
  {
    hide StreamTools.OnEvents;
    StreamSafety.EveryRunKeeps(tools, EventsOf(trace));
  }

  /** The end of the stream does not look at the error code. */
  lemma {:induction false} FinalizeAlike(s: StreamTools.Stream, u: StreamTools.Stream, i: nat)
    requires Alike(s, u)
    ensures Alike(StreamTools.FinalizeFrom(s, i), StreamTools.FinalizeFrom(u, i))
    decreases |s.accs| - i
  {
    hide StreamTools.Arguments;
    if i < |s.accs| {
      if !s.accs[i].active {
        FinalizeAlike(s, u, i + 1);
      } else if StreamTools.Arguments(s.accs[i]).Some? {
        var text := StreamTools.Arguments(s.accs[i]).value;
        FinalizeAlike(StreamTools.CompleteAt(s, i, text), StreamTools.CompleteAt(u, i, text), i + 1);
      }
    }
  }

  lemma EndAlike(s: StreamTools.Stream, u: StreamTools.Stream, transferred: bool)
    requires Alike(s, u)
    ensures Alike(StreamTools.EndOfStream(s, transferred), StreamTools.EndOfStream(u, transferred))
  {
    hide StreamTools.FinalizeFrom;
    FinalizeAlike(s.(finalized := true), u.(finalized := true), 0);
  }

  // --- step by step ---------------------------------------------------------------------------------------

  /** No call follows a refused one. */
  ghost predicate Heeded(cfg: Config, trace: seq<Callback>) {
    trace != [] ==> Unrefused(cfg, trace[..|trace| - 1])
  }

  /** Stopped, but not by the host: there is an error that more bytes cannot undo. */
  ghost predicate Settled(tools: StreamTools.Config, t: Transfer, u: State) {
    t.stream == Verdict(Handled(tools, u.core.trace), u.status) && (u.status != Ok || t.stream.broken)
  }

  /** Stopped by the host: it refused the last call. That is a cancellation unless an event broke the stream before. */
  ghost predicate Refused(cfg: Config, t: Transfer) {
    && t.sse.core.trace != [] && !GoesOn(cfg, t.sse)
    && t.stream.error == if t.stream.broken then StreamTools.Failed else StreamTools.Cancelled
  }

  /**
   The transfer beside a parser fed with the same chunks for a host that is not asked in between and never
   refuses, in state `u`: the handler has handled the events of its own log, a beginning of the other's.
   */
  ghost predicate Beside(cfg: Config, tools: StreamTools.Config, t: Transfer, u: State) {
    && Alike(t.stream, Handled(tools, t.sse.core.trace))
    && Erase(t.sse.core.trace) <= u.core.trace && Heeded(cfg, t.sse.core.trace)
    && if t.stopped then Refused(cfg, t) || (Unrefused(cfg, t.sse.core.trace) && Settled(tools, t, u))
       else
         && ShadowState(t.sse, u) && u.status == Ok && Unrefused(cfg, t.sse.core.trace)
         && t.stream == Handled(tools, t.sse.core.trace) && !t.stream.broken
  }

  /** Everything about a question between two calls of the parser. */
  lemma AskedMeans(cfg: Config, tools: StreamTools.Config, s: State, u: State)
    requires ShadowState(s, u) && Unrefused(cfg, s.core.trace)
    ensures ShadowState(Asked(s), u) && Heeded(cfg, Asked(s).core.trace)
    ensures Handled(tools, Asked(s).core.trace) == Handled(tools, s.core.trace)
    ensures GoesOn(cfg, Asked(s)) ==> Unrefused(cfg, Asked(s).core.trace)
  {
    hide Handled, Unrefused, Erase;
    var trace := s.core.trace;
    assert (trace + [Poll])[..|trace + [Poll]| - 1] == trace;
    EraseMore(trace, Poll);
    HandledPoll(tools, trace);
    UnrefusedMore(cfg, trace, Poll);
  }

  /** A stopped transfer stays, whatever else arrives. */
  lemma StoppedBeside(cfg: Config, tools: StreamTools.Config, t: Transfer, u: State, chunk: bytes)
    requires Beside(cfg, tools, t, u) && t.stopped
    ensures Beside(cfg, tools, t, FeedChunk(Quiet(cfg), u, chunk))
  {
    hide Handled, Unrefused, Erase, FeedChunk;
    var v := FeedChunk(Quiet(cfg), u, chunk);
    ChunkGrows(Quiet(cfg), u, chunk);
    HandledMore(tools, u.core.trace, v.core.trace);
    HandledError(tools, u.core.trace);
    if u.status != Ok {
      FailedParser(Quiet(cfg), u, chunk);
    }
  }

  lemma FailedParser(cfg: Config, s: State, chunk: bytes)
    requires s.status != Ok
    ensures FeedChunk(cfg, s, chunk) == s
  {
  }

  /** Feeding the chunk, from a question that was answered well. */
  lemma FedBeside(cfg: Config, tools: StreamTools.Config, asked: State, stream: StreamTools.Stream, u: State, chunk: bytes)
    requires ShadowState(asked, u) && asked.status == Ok && Unrefused(cfg, asked.core.trace)
    requires stream == Handled(tools, asked.core.trace)
    ensures var sse, v := FeedChunk(cfg, asked, chunk), FeedChunk(Quiet(cfg), u, chunk);
      && StreamTools.OnEvents(tools, stream, NewEvents(sse, |asked.core.trace|)) == Handled(tools, sse.core.trace)
      && Erase(sse.core.trace) <= v.core.trace && Heeded(cfg, sse.core.trace)
      && if sse.status == Abort then sse.core.trace != [] && !GoesOn(cfg, sse)
         else
           && ShadowState(sse, v) && Unrefused(cfg, sse.core.trace)
           && Handled(tools, v.core.trace) == Handled(tools, sse.core.trace)
  {
    hide Handled, Erase, FeedChunk, StreamTools.OnEvents, EventsOf;
    var sse, v := FeedChunk(cfg, asked, chunk), FeedChunk(Quiet(cfg), u, chunk);
    ChunkFollows(cfg, asked, u, chunk);
    HandledMore(tools, asked.core.trace, sse.core.trace);
    HandledErased(tools, sse.core.trace);
    HeededOn(cfg, asked.core.trace, sse.core.trace);
    if sse.status != Abort {
      WellUnrefused(cfg, asked.core.trace, sse.core.trace);
    }
  }

  lemma HeededOn(cfg: Config, t: seq<Callback>, u: seq<Callback>)
    requires Unrefused(cfg, t) && Extends(cfg, t, u)
    ensures Heeded(cfg, u)
  {
    if u != [] {
      var n := |u| - 1;
      forall k | 0 < k <= n
        ensures cfg.host(u[..n][..k])
      {
        assert u[..n][..k] == u[..k];
        if k <= |t| {
          assert u[..k] == t[..k];
        }
      }
    }
  }

  /** One chunk for the transfer and for the parser beside it. */
  lemma BytesBeside(cfg: Config, tools: StreamTools.Config, t: Transfer, u: State, chunk: bytes)
    requires Beside(cfg, tools, t, u)
    ensures Beside(cfg, tools, OnBytes(cfg, tools, t, chunk), FeedChunk(Quiet(cfg), u, chunk))
  {
    hide Handled, Unrefused, Erase, FeedChunk, StreamTools.OnEvents, NewEvents, Heeded;
    if t.stopped {
      StoppedBeside(cfg, tools, t, u, chunk);
    } else {
      AskedMeans(cfg, tools, t.sse, u);
      HandledError(tools, t.sse.core.trace);
      ChunkGrows(Quiet(cfg), u, chunk);
      var asked := Asked(t.sse);
      if GoesOn(cfg, asked) {
        FedBeside(cfg, tools, asked, t.stream, u, chunk);
        var sse, v := FeedChunk(cfg, asked, chunk), FeedChunk(Quiet(cfg), u, chunk);
        HandledError(tools, sse.core.trace);
        if sse.status == Ok {
          AskedMeans(cfg, tools, sse, v);
        }
      }
    }
  }

  /** The whole transfer beside the whole parser. */
  lemma {:induction false} ReceivedBeside(cfg: Config, tools: StreamTools.Config, chunks: seq<bytes>)
    ensures Beside(cfg, tools, Received(cfg, tools, chunks), FeedChunks(Quiet(cfg), INIT, chunks))
  {
    hide Beside, OnBytes, FeedChunk;
    if chunks == [] {
      NewBeside(cfg, tools);
    } else {
      var n := |chunks| - 1;
      ReceivedBeside(cfg, tools, chunks[..n]);
      FeedChunksLast(Quiet(cfg), INIT, chunks);
      BytesBeside(cfg, tools, Received(cfg, tools, chunks[..n]), FeedChunks(Quiet(cfg), INIT, chunks[..n]), chunks[n]);
    }
  }

  lemma NewBeside(cfg: Config, tools: StreamTools.Config)
    ensures Beside(cfg, tools, NEW_TRANSFER, INIT)
  {
  }

  // --- whatever the host answers --------------------------------------------------------------------------

  /** The host refused nothing, or too late to matter: an event had already broken the stream. */
  ghost predicate Kept(cfg: Config, t: Transfer) {
    Unrefused(cfg, t.sse.core.trace) || t.stream.broken
  }

  /**
   Main result, for all answers of the host: the handler ends where handling a beginning of the uncut,
   unrefused log would leave it (its error code aside); nothing follows a refusal; and the stream is cancelled
   exactly when there is one and no event broke the stream before.
   */
  lemma HostSeesABeginning(cfg: Config, tools: StreamTools.Config, chunks: seq<bytes>)
    ensures var t, u := Received(cfg, tools, chunks), FeedChunks(Quiet(cfg), INIT, chunks);
      && Erase(t.sse.core.trace) <= u.core.trace
      && Alike(t.stream, Handled(tools, Erase(t.sse.core.trace)))
      && Heeded(cfg, t.sse.core.trace)
      && (!Unrefused(cfg, t.sse.core.trace) ==> t.stopped)
      && (t.stream.error == StreamTools.Cancelled <==> !Kept(cfg, t))
  {
    hide Handled, Erase, FeedChunks, Received;
    ReceivedBeside(cfg, tools, chunks);
    var t, u := Received(cfg, tools, chunks), FeedChunks(Quiet(cfg), INIT, chunks);
    HandledErased(tools, t.sse.core.trace);
    HandledError(tools, t.sse.core.trace);
    HandledError(tools, u.core.trace);
    var trace := t.sse.core.trace;
    assert trace[..|trace|] == trace;
    NeverAborted(cfg, chunks);
  }

  /** A willing host aborts nothing. */
  lemma NeverAborted(cfg: Config, chunks: seq<bytes>)
    ensures FeedChunks(Quiet(cfg), INIT, chunks).status != Abort
  {
    NeverAborts(cfg, INIT, chunks);
  }

  lemma {:induction false} NeverAborts(cfg: Config, s: State, chunks: seq<bytes>)
    requires s.status != Abort
    ensures FeedChunks(Quiet(cfg), s, chunks).status != Abort
    decreases |chunks|
  {
    hide FeedChunk;
    if chunks != [] {
      if s.status == Ok {
        WillingChunk(cfg, s, chunks[0]);
      } else {
        FailedParser(Quiet(cfg), s, chunks[0]);
      }
      NeverAborts(cfg, FeedChunk(Quiet(cfg), s, chunks[0]), chunks[1..]);
    }
  }

  lemma WillingChunk(cfg: Config, s: State, chunk: bytes)
    requires s.status == Ok
    ensures FeedChunk(Quiet(cfg), s, chunk).status != Abort
  {
    hide FeedChunk, Erase;
    ChunkFollows(Quiet(cfg), s, s.(core := s.core.(trace := Erase(s.core.trace))), chunk);
  }

  /** For every sequence of chunks, all limits, all answers and every end: completions are justified and ordered. */
  lemma ReceivedIsOrderly(cfg: Config, tools: StreamTools.Config, chunks: seq<bytes>, transferred: bool)
    ensures StreamTools.Orderly(StreamTools.EndOfStream(Received(cfg, tools, chunks).stream, transferred).calls)
  {
    hide Received, FeedChunks, StreamTools.Orderly, StreamTools.EndOfStream, StreamTools.OnEvents, EventsOf, Erase;
    HostSeesABeginning(cfg, tools, chunks);
    var t := Received(cfg, tools, chunks);
    EndAlike(t.stream, Handled(tools, Erase(t.sse.core.trace)), transferred);
    StreamSafety.WholeStreamIsOrderly(tools, EventsOf(Erase(t.sse.core.trace)), transferred);
  }

  /**
   What the caller is told, for all answers of the host; a transport that is told to stop fails. Success means
   that the transport brought everything, the status is fine and no event broke the stream; and a cancellation
   means a refusal of the host before any event broke it.
   */
  lemma ResultExactly(cfg: Config, tools: StreamTools.Config, chunks: seq<bytes>, transferred: bool, http: nat)
    requires transferred ==> !Received(cfg, tools, chunks).stopped
    ensures var t := Received(cfg, tools, chunks);
      var s := StreamTools.EndOfStream(t.stream, transferred);
      var result := StreamTools.StreamResult(s, transferred, t.sse.status == Ok, http);
      && (result == StreamTools.NoError <==> transferred && http < 400 && !s.broken)
      && (result == StreamTools.Cancelled <==> !Kept(cfg, t))
  {
    hide Received, FeedChunks, StreamTools.OnEvents, StreamTools.Finalize, EventsOf, Erase, Unrefused;
    HostSeesABeginning(cfg, tools, chunks);
    ReceivedBeside(cfg, tools, chunks);
    var t := Received(cfg, tools, chunks);
    if transferred {
      StreamSafety.SuccessExactly(tools, EventsOf(t.sse.core.trace), true, true, http);
    }
  }

  // --- exactly when the host's answers do not matter ------------------------------------------------------

  /** The transfer has been stopped, or the next byte would stop it. */
  predicate Failed(t: Transfer) {
    t.stopped || t.stream.broken || t.sse.status != Ok
  }

  /** Stopping early loses nothing, the handler ending where all the bytes would have left it, exactly if it is kept. */
  lemma StoppingIsHarmless(cfg: Config, tools: StreamTools.Config, chunks: seq<bytes>)
    ensures var t, u := Received(cfg, tools, chunks), FeedChunks(Quiet(cfg), INIT, chunks);
      && (t.stream == Verdict(Handled(tools, u.core.trace), u.status) <==> Kept(cfg, t))
      && (Kept(cfg, t) ==> (Failed(t) <==> u.status != Ok || t.stream.broken))
  {
    hide Handled, Erase, FeedChunks, Received, Unrefused;
    ReceivedBeside(cfg, tools, chunks);
    HostSeesABeginning(cfg, tools, chunks);
    var t, u := Received(cfg, tools, chunks), FeedChunks(Quiet(cfg), INIT, chunks);
    HandledErased(tools, t.sse.core.trace);
    HandledMore(tools, Erase(t.sse.core.trace), u.core.trace);
    HandledError(tools, u.core.trace);
    LastRefused(cfg, t.sse.core.trace);
    NeverAborted(cfg, chunks);
  }

  lemma LastRefused(cfg: Config, trace: seq<Callback>)
    ensures Unrefused(cfg, trace) && trace != [] ==> cfg.host(trace)
  {
    assert trace[..|trace|] == trace;
  }

  /**
   Two ways of cutting the same bytes, within the total limit. If both are kept, they tell the host the same and
   fail alike; if one of them is not, they differ; and if neither is, both are cancelled, and one host has heard a
   beginning of what the other has.
   */
  lemma CutsAreInvisible(cfg: Config, tools: StreamTools.Config, one: seq<bytes>, other: seq<bytes>)
    requires Concat(one) == Concat(other) && (cfg.maxTotal == 0 || |Concat(one)| <= cfg.maxTotal)
    ensures var t, u := Received(cfg, tools, one), Received(cfg, tools, other);
      && (Kept(cfg, t) && Kept(cfg, u) ==> t.stream == u.stream && Failed(t) == Failed(u))
      && (Kept(cfg, t) != Kept(cfg, u) ==> t.stream != u.stream)
      && (!Kept(cfg, t) && !Kept(cfg, u) ==>
            var a, b := Erase(t.sse.core.trace), Erase(u.sse.core.trace);
            t.stream.error == u.stream.error == StreamTools.Cancelled && (a <= b || b <= a))
  {
    hide Received, Handled, FeedChunks, Kept, Erase;
    StoppingIsHarmless(cfg, tools, one);
    StoppingIsHarmless(cfg, tools, other);
    HostSeesABeginning(cfg, tools, one);
    HostSeesABeginning(cfg, tools, other);
    ChunkingIrrelevant(Quiet(cfg), INIT, one, other);
  }

  /** The reading of the stream for a host that never refuses. */
  lemma QuietReading(cfg: Config, chunks: seq<bytes>)
    requires cfg.maxBuffer == 0 && (cfg.maxTotal == 0 || |Concat(chunks)| <= cfg.maxTotal)
    ensures var u, o := FeedChunks(Quiet(cfg), INIT, chunks), InterpretStream(Quiet(cfg), Concat(chunks));
      u.core.trace == o.trace && u.status == o.status
  {
    hide FeedChunks, Run, InterpretStream;
    WithinTotal(Quiet(cfg), INIT, chunks);
    RunCarriesTotal(Quiet(cfg), INIT, |Concat(chunks)|, Concat(chunks));
    RefinesReading(Quiet(cfg), Concat(chunks));
  }

  /**
   Main result, exact. However the bytes arrive, without a memory budget and within the total limit: the handler
   ends where handling the events of the reading of the whole stream would leave it exactly if the host refused
   nothing before an event broke the stream; and then the transfer fails exactly if that reading or the handling of
   its events does.
   */
  lemma StreamMeansItsEvents(cfg: Config, tools: StreamTools.Config, chunks: seq<bytes>)
    requires cfg.maxBuffer == 0 && (cfg.maxTotal == 0 || |Concat(chunks)| <= cfg.maxTotal)
    ensures var t, o := Received(cfg, tools, chunks), InterpretStream(Quiet(cfg), Concat(chunks));
      && (t.stream == Verdict(Handled(tools, o.trace), o.status) <==> Kept(cfg, t))
      && (Kept(cfg, t) ==> (Failed(t) <==> o.status != Ok || t.stream.broken))
  {
    hide Received, Handled, FeedChunks, InterpretStream, Kept;
    StoppingIsHarmless(cfg, tools, chunks);
    QuietReading(cfg, chunks);
  }

  /** For a stream without a clash that is the standard's reading. */
  lemma StreamMeansItsStandardEvents(cfg: Config, tools: StreamTools.Config, chunks: seq<bytes>)
    requires cfg.maxBuffer == 0 && (cfg.maxTotal == 0 || |Concat(chunks)| <= cfg.maxTotal) && NoClash(Concat(chunks))
    ensures var t, o := Received(cfg, tools, chunks), StandardReading(Quiet(cfg), Concat(chunks));
      && (t.stream == Verdict(Handled(tools, o.trace), o.status) <==> Kept(cfg, t))
      && (Kept(cfg, t) ==> (Failed(t) <==> o.status != Ok || t.stream.broken))
  {
    hide Received, Handled, FeedChunks, InterpretStream, StandardReading, Kept, NoClash;
    StreamMeansItsEvents(cfg, tools, chunks);
    ReadingIsStandard(Quiet(cfg), Concat(chunks));
  }

  /** And whatever it answers, it sees a beginning of that reading. */
  lemma HostSeesABeginningOfTheReading(cfg: Config, tools: StreamTools.Config, chunks: seq<bytes>)
    requires cfg.maxBuffer == 0 && (cfg.maxTotal == 0 || |Concat(chunks)| <= cfg.maxTotal)
    ensures var t, o := Received(cfg, tools, chunks), InterpretStream(Quiet(cfg), Concat(chunks));
      Erase(t.sse.core.trace) <= o.trace && Alike(t.stream, Handled(tools, Erase(t.sse.core.trace)))
  {
    hide Received, Handled, FeedChunks, InterpretStream, Unrefused;
    HostSeesABeginning(cfg, tools, chunks);
    QuietReading(cfg, chunks);
  }
}
