/**
 Which streamed tool calls are completed: exactly when every call that was reported is also completed, in terms
 of what the chunks say and of how the stream ends.
 */
module StreamComplete {
  import opened Bytes
  import opened ChatChunk
  import opened StreamTools
  import opened StreamSafety

  /** The indexes the host has heard of. */
  function Reported(calls: seq<Call>): set<nat> {
    set p | 0 <= p < |calls| && calls[p].OnToolDelta? :: calls[p].delta.index
  }

  /** The indexes whose arguments the host was given. */
  function Completed(calls: seq<Call>): set<nat> {
    set p | 0 <= p < |calls| && calls[p].OnArgsComplete? :: calls[p].index
  }

  /** Every reported call is also completed. */
  ghost predicate EveryCallCompletes(calls: seq<Call>) {
    forall p :: 0 <= p < |calls| && calls[p].OnToolDelta? ==>
      exists q :: 0 <= q < |calls| && calls[q].OnArgsComplete? && calls[q].index == calls[p].delta.index
  }

  lemma CompletesIsSubset(calls: seq<Call>)
    ensures EveryCallCompletes(calls) <==> Reported(calls) <= Completed(calls)
  {
    if EveryCallCompletes(calls) {
      forall i | i in Reported(calls)
        ensures i in Completed(calls)
      {
        var p :| 0 <= p < |calls| && calls[p].OnToolDelta? && calls[p].delta.index == i;
      }
    }
    if Reported(calls) <= Completed(calls) {
      forall p | 0 <= p < |calls| && calls[p].OnToolDelta?
        ensures exists q :: 0 <= q < |calls| && calls[q].OnArgsComplete? && calls[q].index == calls[p].delta.index
      {
        assert calls[p].delta.index in Completed(calls);
      }
    }
  }

  // --- what the chunks say --------------------------------------------------------------------------------

  predicate Finishes(c: Chunk) {
    c.delta.finish == ToolCalls
  }

  predicate NoTools(chunks: seq<Chunk>) {
    forall i :: 0 <= i < |chunks| ==> chunks[i].delta.tools == []
  }

  predicate SomeFinish(chunks: seq<Chunk>) {
    exists i :: 0 <= i < |chunks| && Finishes(chunks[i])
  }

  /** No chunk brings deltas behind one that ends the tool calls. */
  predicate NoLateTools(chunks: seq<Chunk>) {
    forall i, j :: 0 <= i < j < |chunks| && Finishes(chunks[i]) ==> chunks[j].delta.tools == []
  }

  lemma ChunksMore(chunks: seq<Chunk>, c: Chunk)
    ensures NoTools(chunks + [c]) <==> NoTools(chunks) && c.delta.tools == []
    ensures SomeFinish(chunks + [c]) <==> SomeFinish(chunks) || Finishes(c)
    ensures NoLateTools(chunks + [c]) <==> NoLateTools(chunks) && (SomeFinish(chunks) ==> c.delta.tools == [])
  {
    var more, n := chunks + [c], |chunks|;
    assert more[n] == c && forall i :: 0 <= i < n ==> more[i] == chunks[i];
    if SomeFinish(chunks) {
      var i :| 0 <= i < n && Finishes(chunks[i]);
      assert Finishes(more[i]);
    }
    if Finishes(c) {
      assert Finishes(more[n]);
    }
  }

  // --- the same of the calls ------------------------------------------------------------------------------

  predicate FinishSaid(calls: seq<Call>) {
    exists p :: 0 <= p < |calls| && calls[p] == OnFinish(ToolCalls)
  }

  /** No delta is reported behind the end of the tool calls. */
  predicate NoLateDelta(calls: seq<Call>) {
    forall p, q :: 0 <= p < q < |calls| && calls[p] == OnFinish(ToolCalls) ==> !calls[q].OnToolDelta?
  }

  lemma CallsAppend(a: seq<Call>, b: seq<Call>)
    ensures Reported(a + b) == Reported(a) + Reported(b)
    ensures Completed(a + b) == Completed(a) + Completed(b)
  {
    var c := a + b;
    assert forall p :: 0 <= p < |a| ==> c[p] == a[p];
    assert forall p :: 0 <= p < |b| ==> c[|a| + p] == b[p];
    forall i | i in Reported(a) + Reported(b)
      ensures i in Reported(c)
    {
      if i in Reported(a) {
        var p :| 0 <= p < |a| && a[p].OnToolDelta? && a[p].delta.index == i;
        assert c[p].OnToolDelta?;
      } else {
        var p :| 0 <= p < |b| && b[p].OnToolDelta? && b[p].delta.index == i;
        assert c[|a| + p].OnToolDelta?;
      }
    }
    forall i | i in Completed(a) + Completed(b)
      ensures i in Completed(c)
    {
      if i in Completed(a) {
        var p :| 0 <= p < |a| && a[p].OnArgsComplete? && a[p].index == i;
        assert c[p].OnArgsComplete?;
      } else {
        var p :| 0 <= p < |b| && b[p].OnArgsComplete? && b[p].index == i;
        assert c[|a| + p].OnArgsComplete?;
      }
    }
  }

  lemma LateAppend(a: seq<Call>, b: seq<Call>)
    ensures FinishSaid(a + b) <==> FinishSaid(a) || FinishSaid(b)
    ensures NoLateDelta(a + b) <==> NoLateDelta(a) && NoLateDelta(b) && (FinishSaid(a) ==> Reported(b) == {})
  {
    var c := a + b;
    assert forall p :: 0 <= p < |a| ==> c[p] == a[p];
    assert forall p :: 0 <= p < |b| ==> c[|a| + p] == b[p];
    if FinishSaid(a) && Reported(b) != {} {
      var p :| 0 <= p < |a| && a[p] == OnFinish(ToolCalls);
      var i :| i in Reported(b);
      var q :| 0 <= q < |b| && b[q].OnToolDelta? && b[q].delta.index == i;
      assert c[p] == OnFinish(ToolCalls) && c[|a| + q].OnToolDelta?;
    }
    if FinishSaid(a) && Reported(b) == {} {
      assert forall q :: 0 <= q < |b| && b[q].OnToolDelta? ==> b[q].delta.index in Reported(b);
    }
    if !NoLateDelta(b) {
      var p, q :| 0 <= p < q < |b| && b[p] == OnFinish(ToolCalls) && b[q].OnToolDelta?;
      assert c[|a| + p] == OnFinish(ToolCalls) && c[|a| + q].OnToolDelta?;
    }
    if FinishSaid(b) {
      var p :| 0 <= p < |b| && b[p] == OnFinish(ToolCalls);
      assert c[|a| + p] == OnFinish(ToolCalls);
    }
  }

  // --- tool deltas ----------------------------------------------------------------------------------------

  function Indexes(tools: seq<ToolDelta>): set<nat> {
    if tools == [] then {} else {tools[0].index} + Indexes(tools[1..])
  }

  function Active(accs: seq<Acc>): set<nat> {
    set i | 0 <= i < |accs| && accs[i].active
  }

  lemma DeltaSays(d: ToolDelta)
    ensures Reported(DeltaCalls(d)) == {d.index} && Completed(DeltaCalls(d)) == {} && !FinishSaid(DeltaCalls(d))
  {
    assert DeltaCalls(d)[0] == OnToolDelta(d);
  }

  lemma {:induction false} ToolsSay(tools: seq<ToolDelta>)
    ensures var calls := ToolsSaid(tools);
      Reported(calls) == Indexes(tools) && Completed(calls) == {} && !FinishSaid(calls) && NoLateDelta(calls)
    decreases |tools|
  {
    hide Reported, Completed, FinishSaid, NoLateDelta, DeltaCalls, ToolsSaid;
    if tools == [] {
      NoToolsSaid();
      NothingSaid();
    } else {
      ToolsSaidFirst(tools);
      DeltaSays(tools[0]);
      NoFinishNoLate(DeltaCalls(tools[0]));
      ToolsSay(tools[1..]);
      CallsAppend(DeltaCalls(tools[0]), ToolsSaid(tools[1..]));
      LateAppend(DeltaCalls(tools[0]), ToolsSaid(tools[1..]));
    }
  }

  lemma NothingSaid()
    ensures Reported([]) == {} && Completed([]) == {} && !FinishSaid([]) && NoLateDelta([])
  {
  }

  lemma NoFinishNoLate(calls: seq<Call>)
    requires !FinishSaid(calls)
    ensures NoLateDelta(calls)
  {
  }

  lemma StepActivates(cfg: Config, s: Stream, d: ToolDelta)
    requires !s.broken && !ToolStep(cfg, s, d).broken
    ensures var r := ToolStep(cfg, s, d);
      && r.calls == s.calls + DeltaCalls(d) && Active(r.accs) == Active(s.accs) + {d.index}
      && r.finalized == s.finalized && !(d.index < |s.accs| && s.accs[d.index].frozen)
  {
    var r := ToolStep(cfg, s, d);
    assert r.accs[d.index].active;
    assert forall i :: 0 <= i < |r.accs| && i != d.index ==> (r.accs[i].active <==> i < |s.accs| && s.accs[i].active);
  }

  /** An unbroken run of deltas: all are reported and their accumulators are active; the first was not frozen. */
  lemma {:induction false} ToolsActivate(cfg: Config, s: Stream, tools: seq<ToolDelta>)
    requires !s.broken && !ToolSteps(cfg, s, tools).broken
    ensures var r := ToolSteps(cfg, s, tools);
      && r.calls == s.calls + ToolsSaid(tools) && Active(r.accs) == Active(s.accs) + Indexes(tools)
      && r.finalized == s.finalized
      && (tools != [] ==> !(tools[0].index < |s.accs| && s.accs[tools[0].index].frozen))
    decreases |tools|
  {
    hide ToolStep, Active, DeltaCalls, ToolsSaid;
    if tools == [] {
      NoToolsSaid();
      assert s.calls + [] == s.calls;
    } else {
      ToolsSaidFirst(tools);
      var s1 := ToolStep(cfg, s, tools[0]);
      assert !s1.broken;
      StepActivates(cfg, s, tools[0]);
      ToolsActivate(cfg, s1, tools[1..]);
      assert s.calls + DeltaCalls(tools[0]) + ToolsSaid(tools[1..]) == s.calls + (DeltaCalls(tools[0]) + ToolsSaid(tools[1..]));
    }
  }

  lemma IndexesEmpty(tools: seq<ToolDelta>)
    ensures Indexes(tools) == {} <==> tools == []
    ensures tools != [] ==> tools[0].index in Indexes(tools)
  {
  }

  // --- completions ----------------------------------------------------------------------------------------

  function ActiveFrom(accs: seq<Acc>, i: nat): set<nat> {
    set k | i <= k < |accs| && accs[k].active
  }

  lemma {:induction false} CompletionsSay(accs: seq<Acc>, i: nat)
    requires StreamSafety.AllComplete(accs, i)
    ensures var calls := Completions(accs, i);
      && Reported(calls) == {} && Completed(calls) == ActiveFrom(accs, i) && !FinishSaid(calls) && NoLateDelta(calls)
    decreases |accs| - i
  {
    hide Arguments, Reported, Completed, FinishSaid, NoLateDelta;
    if i >= |accs| {
      NothingSaid();
    } else {
      CompletionsSay(accs, i + 1);
      if accs[i].active {
        var text := Arguments(accs[i]).value;
        OneCompletion(i, text);
        CallsAppend([OnArgsComplete(i, text)], Completions(accs, i + 1));
        LateAppend([OnArgsComplete(i, text)], Completions(accs, i + 1));
        assert ActiveFrom(accs, i) == {i} + ActiveFrom(accs, i + 1);
      } else {
        assert ActiveFrom(accs, i) == ActiveFrom(accs, i + 1);
      }
    }
  }

  lemma OneCompletion(i: nat, text: bytes)
    ensures var calls := [OnArgsComplete(i, text)];
      Reported(calls) == {} && Completed(calls) == {i} && !FinishSaid(calls) && NoLateDelta(calls)
  {
    assert [OnArgsComplete(i, text)][0].OnArgsComplete?;
  }

  /** What finalizing says when it succeeds: it completes every active accumulator. */
  function FinalCalls(s: Stream): seq<Call> {
    if s.finalized then [] else Completions(s.accs, 0)
  }

  lemma FinalizeSays(s: Stream)
    requires !s.broken && !Finalize(s).broken
    ensures var r := Finalize(s);
      && r.calls == s.calls + FinalCalls(s) && r.finalized && r.done == s.done
      && Reported(FinalCalls(s)) == {} && !FinishSaid(FinalCalls(s)) && NoLateDelta(FinalCalls(s))
      && Completed(FinalCalls(s)) == if s.finalized then {} else Active(s.accs)
  {
    hide Arguments, Reported, Completed, FinishSaid, NoLateDelta, FinalizeFrom, Completions;
    NothingSaid();
    if s.finalized {
      assert s.calls + [] == s.calls;
    } else {
      FinalizeFromExactly(s.(finalized := true), 0);
      FinalizeKeepsOpen(s.(finalized := true), 0);
      FinalizedStays(s.(finalized := true), 0);
      CompletionsSay(s.accs, 0);
      assert ActiveFrom(s.accs, 0) == Active(s.accs);
    }
  }

  lemma {:induction false} FinalizedStays(s: Stream, i: nat)
    ensures FinalizeFrom(s, i).finalized == s.finalized
    decreases |s.accs| - i
  {
    hide Arguments;
    if i < |s.accs| {
      if !s.accs[i].active {
        FinalizedStays(s, i + 1);
      } else if Arguments(s.accs[i]).Some? {
        FinalizedStays(CompleteAt(s, i, Arguments(s.accs[i]).value), i + 1);
      }
    }
  }

  // --- runs -----------------------------------------------------------------------------------------------

  /** What an unbroken stream knows of the chunks it heard. */
  ghost predicate Tells(s: Stream, chunks: seq<Chunk>) {
    && s.finalized == SomeFinish(chunks) == FinishSaid(s.calls)
    && (Reported(s.calls) == {} <==> NoTools(chunks))
    && (NoLateDelta(s.calls) <==> NoLateTools(chunks))
    && (if s.finalized then Reported(s.calls) <= Completed(s.calls) <==> NoLateTools(chunks)
        else Completed(s.calls) == {} && Reported(s.calls) == Active(s.accs))
  }

  lemma NoFinishNoLateTools(chunks: seq<Chunk>)
    requires !SomeFinish(chunks)
    ensures NoLateTools(chunks)
  {
  }

  lemma QuietCalls(calls: seq<Call>)
    requires forall p :: 0 <= p < |calls| ==> !calls[p].OnToolDelta? && !calls[p].OnArgsComplete? && !calls[p].OnFinish?
    ensures Reported(calls) == {} && Completed(calls) == {} && !FinishSaid(calls) && NoLateDelta(calls)
  {
  }

  lemma FinishSays(reason: Finish)
    ensures var calls := [OnFinish(reason)];
      Reported(calls) == {} && Completed(calls) == {} && (FinishSaid(calls) <==> reason == ToolCalls) && NoLateDelta(calls)
  {
    assert [OnFinish(reason)][0] == OnFinish(reason);
  }

  /** Calls that report nothing, complete nothing and end nothing. */
  ghost predicate Neutral(calls: seq<Call>) {
    Reported(calls) == {} && Completed(calls) == {} && !FinishSaid(calls) && NoLateDelta(calls)
  }

  /** All calls that one more chunk makes, and what they say. */
  lemma ChunkSays(cfg: Config, s: Stream, c: Chunk) returns (calls: seq<Call>)
    requires !s.broken && !OnChunk(cfg, s, c).broken && StreamSafety.CompletedAreFrozen(s)
    ensures var r := OnChunk(cfg, s, c);
      && r.calls == s.calls + calls && r.finalized == (s.finalized || Finishes(c))
      && Reported(calls) == Indexes(c.delta.tools) && (FinishSaid(calls) <==> Finishes(c)) && NoLateDelta(calls)
      && Completed(calls) == (if s.finalized || !Finishes(c) then {} else Active(s.accs) + Indexes(c.delta.tools))
      && (!s.finalized && !Finishes(c) ==> Active(r.accs) == Active(s.accs) + Indexes(c.delta.tools))
      && (c.delta.tools != [] ==> !(c.delta.tools[0].index < |s.accs| && s.accs[c.delta.tools[0].index].frozen))
  {
    hide Reported, Completed, FinishSaid, NoLateDelta, ToolSteps, TextCalls, Finalize, Active, FinalCalls, ToolsSaid,
      Indexes;
    var texts, tools := TextCalls(cfg, c), ToolsSaid(c.delta.tools);
    TextsSayNothing(cfg, c);
    ToolsSay(c.delta.tools);
    var s0 := Notify(s, texts);
    var s1 := ToolSteps(cfg, s0, c.delta.tools);
    assert !s1.broken;
    ToolsActivate(cfg, s0, c.delta.tools);
    CallsAppend(texts, tools);
    LateAppend(texts, tools);
    calls := texts + tools;
    assert s.calls + texts + tools == s.calls + calls;
    if c.delta.finish != Unknown {
      var ends := [OnFinish(c.delta.finish)];
      FinishSays(c.delta.finish);
      var more := ends;
      if c.delta.finish == ToolCalls {
        FinalizeSays(s1);
        CallsAppend(FinalCalls(s1), ends);
        LateAppend(FinalCalls(s1), ends);
        more := FinalCalls(s1) + ends;
        assert s1.calls + FinalCalls(s1) + ends == s1.calls + more;
      }
      CallsAppend(calls, more);
      LateAppend(calls, more);
      assert s.calls + calls + more == s.calls + (calls + more);
      calls := calls + more;
    }
  }

  lemma TextsSayNothing(cfg: Config, c: Chunk)
    ensures Neutral(TextCalls(cfg, c))
  {
    QuietCalls(TextCalls(cfg, c));
  }

  lemma ChunkTells(cfg: Config, s: Stream, chunks: seq<Chunk>, c: Chunk)
    requires !s.broken && !OnChunk(cfg, s, c).broken && StreamSafety.CompletedAreFrozen(s) && Tells(s, chunks)
    ensures Tells(OnChunk(cfg, s, c), chunks + [c])
  {
    hide Reported, Completed, FinishSaid, NoLateDelta, OnChunk, Active, Indexes, NoTools, SomeFinish, NoLateTools;
    var calls := ChunkSays(cfg, s, c);
    CallsAppend(s.calls, calls);
    LateAppend(s.calls, calls);
    ChunksMore(chunks, c);
    IndexesEmpty(c.delta.tools);
    if !SomeFinish(chunks) {
      NoFinishNoLateTools(chunks);
    }
    if s.finalized && c.delta.tools != [] {
      FirstIsNew(s, c.delta.tools[0].index);
    }
  }

  /** An index that is not frozen was not completed. */
  lemma FirstIsNew(s: Stream, i: nat)
    requires StreamSafety.CompletedAreFrozen(s) && !(i < |s.accs| && s.accs[i].frozen)
    ensures i !in Completed(s.calls)
  {
  }

  lemma {:induction false} RunTells(cfg: Config, events: seq<bytes>)
    requires !OnEvents(cfg, NEW_STREAM, events).broken
    ensures Tells(OnEvents(cfg, NEW_STREAM, events), Heard(cfg, events))
  {
    hide Tells, ChunkOf, OnChunk, StreamSafety.Inv;
    if events == [] {
      NewTells();
    } else {
      var n := |events| - 1;
      var s, e := OnEvents(cfg, NEW_STREAM, events[..n]), events[n];
      if s.broken {
        BrokenStays(cfg, s, e);
        assert false;
      }
      RunTells(cfg, events[..n]);
      EveryRunKeeps(cfg, events[..n]);
      EverythingIsReported(cfg, events[..n]);
      DoneSoFar(events);
      InvFrozen(s);
      if !s.done && e != DONE && e != [] && ChunkOf(e, cfg.choice).Some? {
        ChunkTells(cfg, s, Heard(cfg, events[..n]), ChunkOf(e, cfg.choice).value);
      } else {
        TellsDone(s, Heard(cfg, events[..n]));
      }
    }
  }

  lemma NewTells()
    ensures Tells(NEW_STREAM, [])
  {
  }

  lemma TellsDone(s: Stream, chunks: seq<Chunk>)
    requires Tells(s, chunks)
    ensures Tells(s.(done := true), chunks)
  {
  }

  lemma InvFrozen(s: Stream)
    requires StreamSafety.Inv(s) && !s.broken
    ensures StreamSafety.CompletedAreFrozen(s)
  {
  }

  lemma BrokenStays(cfg: Config, s: Stream, data: bytes)
    requires s.broken
    ensures OnEvent(cfg, s, data).broken
  {
  }

  /** Whether the tool calls are ended, by a chunk or by the end of the stream. */
  predicate Ended(cfg: Config, events: seq<bytes>, transferred: bool) {
    SomeFinish(Heard(cfg, events)) || (transferred && DONE in events)
  }

  /**
   Main result, for every unbroken stream: every reported call is completed exactly when there is none or the tool
   calls are ended, and no chunk brings deltas behind one that ends them.
   */
  lemma CallsCompleteExactly(cfg: Config, events: seq<bytes>, transferred: bool)
    requires !EndOfStream(OnEvents(cfg, NEW_STREAM, events), transferred).broken
    ensures var r, chunks := EndOfStream(OnEvents(cfg, NEW_STREAM, events), transferred), Heard(cfg, events);
      EveryCallCompletes(r.calls) <==> (NoTools(chunks) || Ended(cfg, events, transferred)) && NoLateTools(chunks)
  {
    hide OnEvents, Heard, Finalize, EveryCallCompletes, Reported, Completed, FinishSaid, NoLateDelta, Active,
      FinalCalls;
    hide NoTools, SomeFinish, NoLateTools;
    AtTheEnd(cfg, events, transferred);
    var r := EndOfStream(OnEvents(cfg, NEW_STREAM, events), transferred);
    CompletesIsSubset(r.calls);
    if !SomeFinish(Heard(cfg, events)) {
      NoFinishNoLateTools(Heard(cfg, events));
    }
  }

  /** The same in terms of the calls the host received. */
  lemma CallsCompleteInOrder(cfg: Config, events: seq<bytes>, transferred: bool)
    requires !EndOfStream(OnEvents(cfg, NEW_STREAM, events), transferred).broken
    ensures var r := EndOfStream(OnEvents(cfg, NEW_STREAM, events), transferred);
      EveryCallCompletes(r.calls) <==> (r.finalized || Reported(r.calls) == {}) && NoLateDelta(r.calls)
  {
    hide OnEvents, Heard, Finalize, EveryCallCompletes, Reported, Completed, FinishSaid, NoLateDelta, Active,
      FinalCalls;
    hide NoTools, SomeFinish, NoLateTools;
    AtTheEnd(cfg, events, transferred);
    var r := EndOfStream(OnEvents(cfg, NEW_STREAM, events), transferred);
    CompletesIsSubset(r.calls);
    if !SomeFinish(Heard(cfg, events)) {
      NoFinishNoLateTools(Heard(cfg, events));
    }
  }

  /** What the end of an unbroken stream adds. */
  lemma AtTheEnd(cfg: Config, events: seq<bytes>, transferred: bool)
    requires !EndOfStream(OnEvents(cfg, NEW_STREAM, events), transferred).broken
    ensures var s, chunks := OnEvents(cfg, NEW_STREAM, events), Heard(cfg, events);
      var r := EndOfStream(s, transferred);
      && Tells(s, chunks) && r.finalized == Ended(cfg, events, transferred)
      && Reported(r.calls) == Reported(s.calls) && (NoLateDelta(r.calls) <==> NoLateDelta(s.calls))
      && Completed(r.calls) == Completed(s.calls) + (if r.finalized && !s.finalized then Active(s.accs) else {})
  {
    hide OnEvents, Heard, Reported, Completed, FinishSaid, NoLateDelta, Active, NoTools, SomeFinish, NoLateTools,
      FinalCalls;
    var s := OnEvents(cfg, NEW_STREAM, events);
    StillBroken(s, transferred);
    RunTells(cfg, events);
    EverythingIsReported(cfg, events);
    if transferred && !s.finalized && s.done {
      FinalizeSays(s);
      CallsAppend(s.calls, FinalCalls(s));
      LateAppend(s.calls, FinalCalls(s));
    }
  }

  lemma StillBroken(s: Stream, transferred: bool)
    ensures s.broken ==> EndOfStream(s, transferred).broken
  {
    if s.broken {
      BrokenFinalize(s.(finalized := true), 0);
    }
  }

  lemma {:induction false} BrokenFinalize(s: Stream, i: nat)
    requires s.broken
    ensures FinalizeFrom(s, i).broken
    decreases |s.accs| - i
  {
    hide Arguments;
    if i < |s.accs| {
      if !s.accs[i].active {
        BrokenFinalize(s, i + 1);
      } else if Arguments(s.accs[i]).Some? {
        BrokenFinalize(CompleteAt(s, i, Arguments(s.accs[i]).value), i + 1);
      }
    }
  }
}
