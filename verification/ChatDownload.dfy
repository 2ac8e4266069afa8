/** `curl_stream_cb` of src/llm.c in its own form: the parser and the stream context behind one callback. */
module ChatDownload {
  import opened Bytes
  import opened EventStream
  import opened SseMachine
  import opened SseHost
  import opened SseParser
  import opened ChatTransfer
  import StreamTools
  import StreamContext

  /** `curl_stream_ctx`; `stopped` says that the last answer to the transport was no. */
  class Download {
    const sse: Parser
    const ctx: StreamContext.Context
    var sseError: Status
    ghost var stopped: bool

    /** The two parts are sound and share nothing. */
    ghost predicate Valid()
      reads this, sse, sse.Repr(), ctx, ctx.owner.Keys
    {
      && sse.Valid() && ctx.Valid() && this !in sse.Repr() && this !in ctx.owner.Keys
      && ctx !in sse.Repr() && ctx.owner.Keys !! sse.Repr()
    }

    ghost function Now(): Transfer
      requires Valid()
      reads this, sse, sse.Repr(), ctx, ctx.owner.Keys
    {
      Transfer(sse.Now(), ctx.Now(), stopped)
    }

    constructor (config: Config, tools: StreamTools.Config)
      ensures Valid() && sse.cfg == config && ctx.cfg == tools && Now() == NEW_TRANSFER && sseError == Ok
      ensures fresh(sse.Repr()) && fresh(ctx) && ctx.owner == map[]
    {
      sse := new Parser(config);
      ctx := new StreamContext.Context(tools);
      sseError, stopped := Ok, false;
    }

    /** The calls behind the first `seen` go to the handler, in order. */
    method Deliver(seen: nat)
      requires Valid() && seen <= |sse.trace|
      modifies ctx, ctx.owner.Keys
      ensures Valid() && sse.Now() == old(sse.Now()) && sse.trace == old(sse.trace)
      ensures ctx.Now() == StreamTools.OnEvents(ctx.cfg, old(ctx.Now()), EventsOf(sse.trace[seen..]))
      ensures fresh(ctx.owner.Keys - old(ctx.owner.Keys))
    {
      hide StreamTools.OnEvent, StreamTools.OnEvents, EventsOf;
      ghost var before := ctx.Now();
      var i := seen;
      NoEvents(ctx.cfg, before, sse.trace[seen..i]);
      while i < |sse.trace|
        invariant seen <= i <= |sse.trace| && Valid() && fresh(ctx.owner.Keys - old(ctx.owner.Keys))
        invariant sse.Now() == old(sse.Now()) && sse.trace == old(sse.trace)
        invariant ctx.Now() == StreamTools.OnEvents(ctx.cfg, before, EventsOf(sse.trace[seen..i]))
      {
        OneMoreCall(ctx.cfg, before, sse.trace[seen..i], sse.trace[i]);
        assert sse.trace[seen..i + 1] == sse.trace[seen..i] + [sse.trace[i]];
        if sse.trace[i].Event? {
          var more := ctx.OnSseEvent(sse.trace[i].data);
        }
        i := i + 1;
      }
      assert sse.trace[seen..i] == sse.trace[seen..];
    }

    /** Asks the host whether to go on; a refusal cancels the stream. */
    method AskHost() returns (more: bool)
      requires Valid()
      modifies sse`trace, ctx`error
      ensures Valid() && more == GoesOn(sse.cfg, sse.Now()) && sse.Now() == Asked(old(sse.Now()))
      ensures ctx.Now() == if more then old(ctx.Now()) else StreamTools.SetError(old(ctx.Now()), StreamTools.Cancelled)
      ensures ctx.protocolError == old(ctx.protocolError) && |sse.trace| == |sse.Now().core.trace|
    {
      hide Sound;
      more := sse.Ask();
      if !more {
        ctx.SetError(StreamTools.Cancelled);
      }
    }

    /** Feeds the parser and lets the handler see what it reports. */
    method FeedAll(chunk: array<byte>, len: nat) returns (rc: Status)
      requires Valid() && len <= chunk.Length && chunk !in sse.Repr() && chunk !in ctx.owner.Keys
      modifies sse, sse.Repr(), ctx, ctx.owner.Keys
      ensures Valid() && sse.Now() == FeedChunk(sse.cfg, old(sse.Now()), chunk[..len]) && rc == sse.Now().status
      ensures ctx.Now() == StreamTools.OnEvents(ctx.cfg, old(ctx.Now()), NewEvents(sse.Now(), old(|sse.trace|)))
      ensures fresh(ctx.owner.Keys - old(ctx.owner.Keys))
    {
      hide FeedChunk, StreamTools.OnEvents, EventsOf, Sound;
      var seen := |sse.trace|;
      ChunkGrows(sse.cfg, sse.Now(), chunk[..len]);
      rc := sse.Feed(chunk, len);
      Deliver(seen);
    }

    /** `curl_stream_cb`: the answer says whether the transport may go on. */
    method OnChunk(chunk: array<byte>, len: nat) returns (more: bool)
      requires Valid() && !stopped && len <= chunk.Length && chunk !in sse.Repr() && chunk !in ctx.owner.Keys
      modifies this`sseError, this`stopped, sse, sse.Repr(), ctx, ctx.owner.Keys
      ensures Valid() && more == !stopped
      ensures Now() == OnBytes(sse.cfg, ctx.cfg, old(Now()), chunk[..len])
      ensures fresh(ctx.owner.Keys - old(ctx.owner.Keys))
    {
      hide FeedChunk, StreamTools.OnEvents, NewEvents, Sound, GoesOn, Asked, StreamTools.SetError, Verdict;
      hide Parser.Now, StreamContext.Context.Valid;
      stopped := true;
      var ok := AskHost();
      if !ok { return false; }
      if ctx.protocolError { return false; }
      var rc := FeedAll(chunk, len);
      more := Judge(rc);
      stopped := !more;
    }

    /** The end of `curl_stream_cb`: an error of the parser, another question, an error of the handler. */
    method Judge(rc: Status) returns (more: bool)
      requires Valid() && rc == sse.Now().status
      modifies this`sseError, sse`trace, ctx`error
      ensures Valid() && stopped == old(stopped)
      ensures var s, again := old(ctx.Now()), Asked(old(sse.Now()));
        if rc != Ok then !more && sse.Now() == old(sse.Now()) && ctx.Now() == Verdict(s, rc)
        else
          && sse.Now() == again && more == (GoesOn(sse.cfg, again) && !s.broken)
          && ctx.Now() == if GoesOn(sse.cfg, again) then s else StreamTools.SetError(s, StreamTools.Cancelled)
    {
      hide Sound;
      if rc != Ok {
        sseError := rc;
        ctx.SetError(if rc == Abort then StreamTools.Cancelled else StreamTools.Failed);
        return false;
      }
      var ok := AskHost();
      if !ok { return false; }
      if ctx.protocolError { return false; }
      return true;
    }
  }

  lemma NoEvents(cfg: StreamTools.Config, s: StreamTools.Stream, trace: seq<Callback>)
    requires trace == []
    ensures StreamTools.OnEvents(cfg, s, EventsOf(trace)) == s
  {
  }

  lemma OneMoreCall(cfg: StreamTools.Config, s: StreamTools.Stream, trace: seq<Callback>, c: Callback)
    ensures var now := StreamTools.OnEvents(cfg, s, EventsOf(trace));
      StreamTools.OnEvents(cfg, s, EventsOf(trace + [c]))
      == if c.Event? then StreamTools.OnEvent(cfg, now, c.data) else now
  {
    hide StreamTools.OnEvent;
    assert (trace + [c])[..|trace + [c]| - 1] == trace;
    if c.Event? {
      StreamLast(cfg, s, EventsOf(trace), c.data);
    }
  }

  lemma StreamLast(cfg: StreamTools.Config, s: StreamTools.Stream, events: seq<bytes>, data: bytes)
    ensures StreamTools.OnEvents(cfg, s, events + [data])
         == StreamTools.OnEvent(cfg, StreamTools.OnEvents(cfg, s, events), data)
  {
    hide StreamTools.OnEvent;
    assert (events + [data])[..|events + [data]| - 1] == events;
  }
}
