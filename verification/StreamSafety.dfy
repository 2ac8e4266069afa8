/**
 What every run of the stream handler keeps: calls complete at most once and in index order, only with valid
 JSON that is exactly what was streamed; completed calls take no more; after `[DONE]` or an error all is quiet.
 */
module StreamSafety {
  import opened Bytes
  import opened JsonLexer
  import opened Jstok
  import opened Unescape
  import opened ChatChunk
  import opened StreamTools

  ghost predicate NoCompletion(calls: seq<Call>) {
    forall p :: 0 <= p < |calls| ==> !calls[p].OnArgsComplete?
  }

  ghost predicate NoFragment(calls: seq<Call>) {
    forall p :: 0 <= p < |calls| ==> !calls[p].OnFragment?
  }

  /** The accumulator holds exactly the fragments reported for it and is still open. */
  ghost predicate Tracks(acc: Acc, parts: seq<bytes>) {
    !acc.frozen && acc.args == Concat(parts) && AllStringBodies(parts) && (acc.sawArgs <==> parts != [])
  }

  ghost predicate AllTrack(s: Stream) {
    && (forall i :: 0 <= i < |s.accs| ==> Tracks(s.accs[i], Fragments(s.calls, i)))
    && (forall i :: i >= |s.accs| ==> Fragments(s.calls, i) == [])
  }

  /** Whoever was completed is closed. */
  ghost predicate CompletedAreFrozen(s: Stream) {
    forall p :: 0 <= p < |s.calls| && s.calls[p].OnArgsComplete? ==>
      s.calls[p].index < |s.accs| && s.accs[s.calls[p].index].frozen
  }

  ghost predicate Inv(s: Stream) {
    && Orderly(s.calls)
    && (!s.finalized ==> NoCompletion(s.calls))
    && (!s.finalized && !s.broken ==> AllTrack(s))
    && (!s.broken ==> CompletedAreFrozen(s))
    && !(s.done && s.broken) && s.error == (if s.broken then Failed else NoError)
  }

  // --- adding calls ---------------------------------------------------------------------------------------

  lemma OrderlyAppend(calls: seq<Call>, more: seq<Call>)
    requires Orderly(calls) && NoCompletion(more)
    ensures Orderly(calls + more)
  {
    hide IsJson, Fragments, AllStringBodies, UnescapeAll, Unescaped, Concat;
    var all := calls + more;
    forall p | 0 <= p < |all| && all[p].OnArgsComplete?
      ensures Completes(all, p)
    {
      assert all[p] == calls[p] && all[..p] == calls[..p];
    }
  }

  /** The next completion in index order. */
  lemma OrderlyCompletion(calls: seq<Call>, i: nat, acc: Acc)
    requires Orderly(calls) && Tracks(acc, Fragments(calls, i)) && Arguments(acc).Some?
    requires forall p :: 0 <= p < |calls| && calls[p].OnArgsComplete? ==> calls[p].index < i
    ensures Orderly(calls + [OnArgsComplete(i, Arguments(acc).value)])
  {
    hide IsJson, Fragments, UnescapeAll, Unescaped, Concat;
    var text := Arguments(acc).value;
    var all := calls + [OnArgsComplete(i, text)];
    FragmentsUnescape(Fragments(calls, i));
    forall p | 0 <= p < |all| && all[p].OnArgsComplete?
      ensures Completes(all, p)
    {
      assert all[..p] == calls[..p];
      if p == |calls| {
        assert calls[..p] == calls;
      } else {
        assert all[p] == calls[p] && Completes(calls, p);
      }
    }
  }

  // --- steps ----------------------------------------------------------------------------------------------

  lemma NotifyKeeps(s: Stream, more: seq<Call>)
    requires Inv(s) && NoCompletion(more) && NoFragment(more)
    ensures Inv(Notify(s, more))
  {
    hide Orderly, Tracks, Fragments;
    OrderlyAppend(s.calls, more);
    forall i: nat
      ensures Fragments(s.calls + more, i) == Fragments(s.calls, i)
    {
      FragmentsAppend(s.calls, more, i);
      NoFragments(more, i);
      assert Fragments(s.calls, i) + [] == Fragments(s.calls, i);
    }
  }

  lemma BreakKeeps(s: Stream)
    requires Orderly(s.calls) && (!s.finalized ==> NoCompletion(s.calls)) && !s.done && s.error == NoError
    ensures Inv(Break(s))
  {
  }

  lemma ConcatOneMore(parts: seq<bytes>, f: bytes)
    ensures Concat(parts + [f]) == Concat(parts) + f
  {
    assert (parts + [f])[..|parts + [f]| - 1] == parts;
  }

  lemma FeedTracks(acc: Acc, parts: seq<bytes>, d: ToolDelta, maxArgs: nat)
    requires Tracks(acc, parts) && IsBody(d.fragment)
    ensures Feed(acc, d, maxArgs).ok ==>
      Tracks(Feed(acc, d, maxArgs).acc, if d.fragment.Some? then parts + [d.fragment.value] else parts)
  {
    hide Concat, StringBody;
    if d.fragment.Some? {
      ConcatOneMore(parts, d.fragment.value);
    }
  }

  lemma ToolStepKeeps(cfg: Config, s: Stream, d: ToolDelta)
    requires Inv(s) && !s.broken && !s.done && IsBody(d.fragment)
    ensures Inv(ToolStep(cfg, s, d)) && !ToolStep(cfg, s, d).done
  {
    hide Orderly, Tracks, Fragments, Feed, Completes, StringBody, Concat;
    var s1 := ToolStep(cfg, s, d);
    OrderlyAppend(s.calls, DeltaCalls(d));
    if s1.broken {
      if d.index >= |s.accs| && d.index >= cfg.room {
        BreakKeeps(s);
      } else {
        BreakKeeps(Notify(s, DeltaCalls(d)));
      }
    } else {
      FrozenStays(cfg, s, d);
      if !s.finalized {
        StepTracks(cfg, s, d);
      }
    }
  }

  lemma FrozenStays(cfg: Config, s: Stream, d: ToolDelta)
    requires CompletedAreFrozen(s) && !ToolStep(cfg, s, d).broken && !s.broken
    ensures CompletedAreFrozen(ToolStep(cfg, s, d))
  {
  }

  lemma StepTracks(cfg: Config, s: Stream, d: ToolDelta)
    requires AllTrack(s) && !ToolStep(cfg, s, d).broken && IsBody(d.fragment)
    ensures AllTrack(ToolStep(cfg, s, d))
  {
    hide Tracks, Fragments, Feed, IsBody;
    var s1 := ToolStep(cfg, s, d);
    forall i: nat
      ensures Fragments(s1.calls, i) == Fragments(s.calls, i) + Fragments(DeltaCalls(d), i)
      ensures Fragments(DeltaCalls(d), i) == if d.index == i && d.fragment.Some? then [d.fragment.value] else []
      ensures Fragments(s.calls, i) + [] == Fragments(s.calls, i)
    {
      FragmentsAppend(s.calls, DeltaCalls(d), i);
      DeltaFragments(d, i);
    }
    var accs := Extend(s.accs, d.index + 1);
    NewTracks();
    assert forall i :: 0 <= i < |accs| ==> Tracks(accs[i], Fragments(s.calls, i));
    FeedTracks(accs[d.index], Fragments(s.calls, d.index), d, cfg.maxArgs);
  }

  lemma NewTracks()
    ensures Tracks(NEW_ACC, [])
  {
  }

  lemma {:induction false} ToolStepsKeep(cfg: Config, s: Stream, tools: seq<ToolDelta>)
    requires Inv(s) && !s.done && forall k :: 0 <= k < |tools| ==> IsBody(tools[k].fragment)
    ensures Inv(ToolSteps(cfg, s, tools)) && !ToolSteps(cfg, s, tools).done
    decreases |tools|
  {
    hide Inv, ToolStep, IsBody;
    if tools != [] && !s.broken {
      ToolStepKeeps(cfg, s, tools[0]);
      ToolStepsKeep(cfg, ToolStep(cfg, s, tools[0]), tools[1..]);
    }
  }

  // --- finalizing -----------------------------------------------------------------------------------------

  /** Half-way through: everything below `i` is done with, everything from `i` on is untouched. */
  ghost predicate Halfway(s: Stream, i: nat) {
    && s.finalized && !s.broken && s.error == NoError && Orderly(s.calls) && CompletedAreFrozen(s)
    && (forall p :: 0 <= p < |s.calls| && s.calls[p].OnArgsComplete? ==> s.calls[p].index < i)
    && (forall k :: i <= k < |s.accs| ==> Tracks(s.accs[k], Fragments(s.calls, k)))
  }

  lemma CompleteOne(s: Stream, i: nat)
    requires Halfway(s, i) && i < |s.accs| && s.accs[i].active && Arguments(s.accs[i]).Some?
    ensures var text := Arguments(s.accs[i]).value;
      Halfway(CompleteAt(s, i, text), i + 1)
  {
    hide Orderly, Tracks, Fragments, Arguments;
    var text := Arguments(s.accs[i]).value;
    OrderlyCompletion(s.calls, i, s.accs[i]);
    forall k | i < k < |s.accs|
      ensures Fragments(s.calls + [OnArgsComplete(i, text)], k) == Fragments(s.calls, k)
    {
      FragmentsAppend(s.calls, [OnArgsComplete(i, text)], k);
      NoFragments([OnArgsComplete(i, text)], k);
      assert Fragments(s.calls, k) + [] == Fragments(s.calls, k);
    }
  }

  lemma HalfwayOn(s: Stream, i: nat)
    requires Halfway(s, i)
    ensures Halfway(s, i + 1)
    ensures s.finalized && !s.broken && s.error == NoError && Orderly(s.calls) && CompletedAreFrozen(s)
  {
    hide Orderly, Tracks, Fragments;
  }

  lemma {:induction false} FinalizeFromKeeps(s: Stream, i: nat)
    requires Halfway(s, i)
    ensures var r := FinalizeFrom(s, i);
      && r.finalized && r.done == s.done && Orderly(r.calls) && (!r.broken ==> CompletedAreFrozen(r))
      && r.error == (if r.broken then Failed else NoError)
    decreases |s.accs| - i
  {
    hide Orderly, Arguments, Halfway, CompletedAreFrozen;
    HalfwayOn(s, i);
    if i < |s.accs| {
      if s.accs[i].active && Arguments(s.accs[i]).Some? {
        CompleteOne(s, i);
        FinalizeFromKeeps(CompleteAt(s, i, Arguments(s.accs[i]).value), i + 1);
      } else if !s.accs[i].active {
        FinalizeFromKeeps(s, i + 1);
      }
    }
  }

  lemma FinalizeKeeps(s: Stream)
    requires Inv(s) && !s.broken
    ensures var r := Finalize(s);
      && r.finalized && r.done == s.done && Orderly(r.calls) && (!r.broken ==> CompletedAreFrozen(r))
      && r.error == (if r.broken then Failed else NoError)
  {
    hide Orderly, Tracks, Fragments, FinalizeFrom;
    if !s.finalized {
      FinalizeFromKeeps(s.(finalized := true), 0);
    }
  }

  // --- every run ------------------------------------------------------------------------------------------

  lemma OnChunkKeeps(cfg: Config, s: Stream, chunk: Chunk)
    requires Inv(s) && !s.broken && !s.done && AllBodies(chunk.delta)
    ensures Inv(OnChunk(cfg, s, chunk)) && !OnChunk(cfg, s, chunk).done
  {
    hide Orderly, ToolSteps, AllTrack, CompletedAreFrozen, IsBody, Finalize;
    NotifyKeeps(s, TextCalls(cfg, chunk));
    var s1 := ToolSteps(cfg, Notify(s, TextCalls(cfg, chunk)), chunk.delta.tools);
    ToolStepsKeep(cfg, Notify(s, TextCalls(cfg, chunk)), chunk.delta.tools);
    if !s1.broken && chunk.delta.finish != Unknown {
      if chunk.delta.finish == ToolCalls {
        FinalizeKeeps(s1);
        if !Finalize(s1).broken {
          NotifyKeeps(Finalize(s1), [OnFinish(ToolCalls)]);
        }
      } else {
        NotifyKeeps(s1, [OnFinish(chunk.delta.finish)]);
      }
    }
  }

  lemma OnEventKeeps(cfg: Config, s: Stream, data: bytes)
    requires Inv(s)
    ensures Inv(OnEvent(cfg, s, data))
  {
    hide ChunkOf, OnChunk, AllBodies, Orderly, Tracks, Fragments;
    if !s.broken && !s.done && data != DONE && data != [] && ChunkOf(data, cfg.choice).Some? {
      ChunkYieldsBodies(data, cfg.choice);
      OnChunkKeeps(cfg, s, ChunkOf(data, cfg.choice).value);
    }
  }

  lemma NewInv()
    ensures Inv(NEW_STREAM)
  {
  }

  /** Main result: the invariant of every run. */
  lemma {:induction false} EveryRunKeeps(cfg: Config, events: seq<bytes>)
    ensures Inv(OnEvents(cfg, NEW_STREAM, events))
  {
    hide OnEvent, Inv;
    NewInv();
    if events != [] {
      var n := |events| - 1;
      EveryRunKeeps(cfg, events[..n]);
      OnEventKeeps(cfg, OnEvents(cfg, NEW_STREAM, events[..n]), events[n]);
    }
  }

  /**
   Main result, over all event sequences and whether or not the transfer ended well: each completion is valid
   JSON equal to the unescaped, joined fragments reported for its index before it, and completions come in
   strictly increasing index order, so at most once per index.
   */
  lemma WholeStreamIsOrderly(cfg: Config, events: seq<bytes>, transferred: bool)
    ensures Orderly(EndOfStream(OnEvents(cfg, NEW_STREAM, events), transferred).calls)
  {
    hide Orderly, OnEvents, Finalize, AllTrack, CompletedAreFrozen;
    EveryRunKeeps(cfg, events);
    var s := OnEvents(cfg, NEW_STREAM, events);
    if s.done && !s.finalized {
      FinalizeKeeps(s);
    }
  }

  /** What the caller is told after events, and no other call that could fail it: exactly when it is a success. */
  lemma SuccessExactly(cfg: Config, events: seq<bytes>, transferred: bool, sseOk: bool, http: nat)
    ensures var s := EndOfStream(OnEvents(cfg, NEW_STREAM, events), transferred);
      && StreamResult(s, transferred, sseOk, http) != Cancelled
      && (StreamResult(s, transferred, sseOk, http) == NoError <==> transferred && sseOk && http < 400 && !s.broken)
  {
    hide Orderly, OnEvents, Finalize, AllTrack, CompletedAreFrozen;
    EveryRunKeeps(cfg, events);
    var s := OnEvents(cfg, NEW_STREAM, events);
    if s.done && !s.finalized {
      FinalizeKeeps(s);
    }
  }

  // --- silence --------------------------------------------------------------------------------------------

  /** After `[DONE]` or an error no event changes anything or reaches the host. */
  lemma {:induction false} Silent(cfg: Config, s: Stream, events: seq<bytes>)
    requires s.broken || s.done
    ensures OnEvents(cfg, s, events) == s
  {
    if events != [] {
      Silent(cfg, s, events[..|events| - 1]);
    }
  }

  lemma {:induction false} OnEventsSplit(cfg: Config, s: Stream, a: seq<bytes>, b: seq<bytes>)
    ensures OnEvents(cfg, s, a + b) == OnEvents(cfg, OnEvents(cfg, s, a), b)
    decreases |b|
  {
    hide OnEvent;
    if b == [] {
      assert a + b == a;
    } else {
      var n := |b| - 1;
      assert (a + b)[..|a + b| - 1] == a + b[..n];
      OnEventsSplit(cfg, s, a, b[..n]);
    }
  }

  /** After an error nothing reaches the host any more, not even at the end of the stream. */
  lemma QuietAfterError(cfg: Config, events: seq<bytes>, more: seq<bytes>, transferred: bool)
    requires OnEvents(cfg, NEW_STREAM, events).broken
    ensures EndOfStream(OnEvents(cfg, NEW_STREAM, events + more), transferred) == OnEvents(cfg, NEW_STREAM, events)
  {
    hide OnEvents, Orderly, AllTrack, CompletedAreFrozen;
    EveryRunKeeps(cfg, events);
    OnEventsSplit(cfg, NEW_STREAM, events, more);
    Silent(cfg, OnEvents(cfg, NEW_STREAM, events), more);
  }

  /** Once finalized, by events or at the end, nothing is ever completed again. */
  lemma {:induction false} CompletesOnlyOnce(cfg: Config, s: Stream, events: seq<bytes>)
    requires s.finalized
    ensures var r := OnEvents(cfg, s, events);
      r.finalized && s.calls <= r.calls && NoCompletion(r.calls[|s.calls|..])
  {
    hide OnEvent;
    if events != [] {
      var n := |events| - 1;
      CompletesOnlyOnce(cfg, s, events[..n]);
      var m := OnEvents(cfg, s, events[..n]);
      FinalizedEvent(cfg, m, events[n]);
      var r := OnEvents(cfg, s, events);
      forall p | |s.calls| <= p < |r.calls|
        ensures !r.calls[p].OnArgsComplete?
      {
        if p < |m.calls| {
          assert m.calls[|s.calls|..][p - |s.calls|] == m.calls[p] == r.calls[p];
        } else {
          assert r.calls[|m.calls|..][p - |m.calls|] == r.calls[p];
        }
      }
    }
  }

  /** Calls are only added, and no completion among them. */
  ghost predicate Quietly(s: Stream, r: Stream) {
    r.finalized && s.calls <= r.calls && NoCompletion(r.calls[|s.calls|..])
  }

  lemma QuietlyNotify(s: Stream, m: Stream, more: seq<Call>)
    requires Quietly(s, m) && NoCompletion(more)
    ensures Quietly(s, Notify(m, more)) && Quietly(s, Break(m)) && Quietly(s, Break(Notify(m, more)))
  {
    assert (m.calls + more)[|s.calls|..] == m.calls[|s.calls|..] + more;
  }

  lemma {:induction false} FinalizedTools(cfg: Config, s: Stream, m: Stream, tools: seq<ToolDelta>)
    requires Quietly(s, m)
    ensures Quietly(s, ToolSteps(cfg, m, tools))
    decreases |tools|
  {
    if tools != [] && !m.broken {
      hide Quietly, Feed, Extend;
      QuietlyNotify(s, m, DeltaCalls(tools[0]));
      QuietlyAccs(s, Notify(m, DeltaCalls(tools[0])), ToolStep(cfg, m, tools[0]).accs);
      FinalizedTools(cfg, s, ToolStep(cfg, m, tools[0]), tools[1..]);
    }
  }

  lemma QuietlyAccs(s: Stream, m: Stream, accs: seq<Acc>)
    requires Quietly(s, m)
    ensures Quietly(s, m.(accs := accs))
  {
  }

  lemma FinalizedEvent(cfg: Config, s: Stream, data: bytes)
    requires s.finalized
    ensures Quietly(s, OnEvent(cfg, s, data))
  {
    hide ChunkOf, ToolSteps;
    assert Quietly(s, s) && Quietly(s, s.(done := true));
    if !s.broken && !s.done && data != DONE && data != [] && ChunkOf(data, cfg.choice).Some? {
      var chunk := ChunkOf(data, cfg.choice).value;
      QuietlyNotify(s, s, TextCalls(cfg, chunk));
      var s0 := Notify(s, TextCalls(cfg, chunk));
      FinalizedTools(cfg, s, s0, chunk.delta.tools);
      QuietlyNotify(s, ToolSteps(cfg, s0, chunk.delta.tools), [OnFinish(chunk.delta.finish)]);
    }
  }

  // --- completed calls are closed -------------------------------------------------------------------------

  /** A delta for a completed call breaks the stream. */
  lemma {:induction false} FrozenRefuses(cfg: Config, s: Stream, tools: seq<ToolDelta>, k: nat)
    requires k < |tools| && !s.broken && tools[k].index < |s.accs| && s.accs[tools[k].index].frozen
    ensures ToolSteps(cfg, s, tools).broken
    decreases k
  {
    var s1 := ToolStep(cfg, s, tools[0]);
    if k > 0 && !s1.broken {
      FrozenRefuses(cfg, s1, tools[1..], k - 1);
    }
  }

  lemma CompletedRefuses(cfg: Config, events: seq<bytes>, p: nat, data: bytes, k: nat)
    requires var s := OnEvents(cfg, NEW_STREAM, events);
      && !s.broken && !s.done && p < |s.calls| && s.calls[p].OnArgsComplete?
      && data != DONE && data != [] && ChunkOf(data, cfg.choice).Some?
      && var tools := ChunkOf(data, cfg.choice).value.delta.tools;
         k < |tools| && tools[k].index == s.calls[p].index
    ensures OnEvents(cfg, NEW_STREAM, events + [data]).broken
  {
    hide Orderly, AllTrack, ChunkOf, ToolSteps, OnEvents;
    EveryRunKeeps(cfg, events);
    var s := OnEvents(cfg, NEW_STREAM, events);
    var chunk := ChunkOf(data, cfg.choice).value;
    assert CompletedAreFrozen(s);
    FrozenRefuses(cfg, Notify(s, TextCalls(cfg, chunk)), chunk.delta.tools, k);
    LastEvent(cfg, NEW_STREAM, events, data);
  }

  lemma LastEvent(cfg: Config, s: Stream, events: seq<bytes>, data: bytes)
    ensures OnEvents(cfg, s, events + [data]) == OnEvent(cfg, OnEvents(cfg, s, events), data)
  {
    hide OnEvent;
    assert (events + [data])[..|events + [data]| - 1] == events;
  }

  // --- finalizing completes everything --------------------------------------------------------------------

  /** One completion per active accumulator, in index order. */
  function Completions(accs: seq<Acc>, i: nat): seq<Call>
    decreases |accs| - i
  {
    if i >= |accs| then []
    else if accs[i].active && Arguments(accs[i]).Some? then
      [OnArgsComplete(i, Arguments(accs[i]).value)] + Completions(accs, i + 1)
    else Completions(accs, i + 1)
  }

  ghost predicate AllComplete(accs: seq<Acc>, i: nat) {
    forall k :: i <= k < |accs| && accs[k].active ==> Arguments(accs[k]).Some?
  }

  lemma {:induction false} CompletionsSame(accs: seq<Acc>, other: seq<Acc>, i: nat)
    requires |accs| == |other| && forall k :: i <= k < |accs| ==> accs[k] == other[k]
    ensures Completions(accs, i) == Completions(other, i) && AllComplete(accs, i) == AllComplete(other, i)
    decreases |accs| - i
  {
    hide Arguments;
    if i < |accs| {
      CompletionsSame(accs, other, i + 1);
    }
  }

  lemma AllCompleteStep(accs: seq<Acc>, i: nat)
    requires i < |accs|
    ensures AllComplete(accs, i) <==> (accs[i].active ==> Arguments(accs[i]).Some?) && AllComplete(accs, i + 1)
  {
    hide Arguments;
  }

  lemma {:induction false} FinalizeFromExactly(s: Stream, i: nat)
    requires !s.broken
    ensures var r := FinalizeFrom(s, i);
      && (r.broken <==> !AllComplete(s.accs, i))
      && (!r.broken ==> r.calls == s.calls + Completions(s.accs, i))
    decreases |s.accs| - i
  {
    hide Arguments, AllComplete;
    if i < |s.accs| {
      AllCompleteStep(s.accs, i);
      if !s.accs[i].active {
        FinalizeFromExactly(s, i + 1);
      } else if Arguments(s.accs[i]).Some? {
        var text := Arguments(s.accs[i]).value;
        var s1 := CompleteAt(s, i, text);
        FinalizeFromExactly(s1, i + 1);
        CompletionsSame(s.accs, s1.accs, i + 1);
        assert (s.calls + [OnArgsComplete(i, text)]) + Completions(s.accs, i + 1)
            == s.calls + ([OnArgsComplete(i, text)] + Completions(s.accs, i + 1));
      }
    } else {
      NothingToComplete(s.accs, i);
    }
  }

  lemma NothingToComplete(accs: seq<Acc>, i: nat)
    requires i >= |accs|
    ensures AllComplete(accs, i)
  {
  }

  /**
   Finalizing fails exactly when some started call has no valid arguments, and otherwise completes every
   started call, in index order, and no other.
   */
  lemma FinalizeIsExact(s: Stream)
    requires !s.broken && !s.finalized
    ensures var r := Finalize(s);
      && (r.broken <==> exists k :: 0 <= k < |s.accs| && s.accs[k].active && Arguments(s.accs[k]).None?)
      && (!r.broken ==> r.calls == s.calls + Completions(s.accs, 0))
  {
    hide Arguments;
    FinalizeFromExactly(s.(finalized := true), 0);
  }

  /** Unescaping never fails: only missing, oversized or invalid arguments do. */
  lemma ArgumentsAre(acc: Acc, parts: seq<bytes>)
    requires Tracks(acc, parts)
    ensures forall k :: 0 <= k < |parts| ==> Unescaped(parts[k]).Some?
    ensures Arguments(acc) ==
      if parts != [] && |Concat(parts)| <= INT_MAX && IsJson(Concat(UnescapeAll(parts)))
      then Some(Concat(UnescapeAll(parts))) else None
  {
    hide IsJson, Unescaped, UnescapeAll, Concat;
    FragmentsUnescape(parts);
  }

  // --- everything is reported -----------------------------------------------------------------------------

  /** All calls but the completions. */
  function Plain(calls: seq<Call>): seq<Call> {
    if calls == [] then []
    else
      var front, c := Plain(calls[..|calls| - 1]), calls[|calls| - 1];
      if c.OnArgsComplete? then front else front + [c]
  }

  lemma {:induction false} PlainAppend(a: seq<Call>, b: seq<Call>)
    ensures Plain(a + b) == Plain(a) + Plain(b)
    decreases |b|
  {
    if b == [] {
      assert a + b == a;
    } else {
      var n := |b| - 1;
      assert (a + b)[..|a + b| - 1] == a + b[..n];
      PlainAppend(a, b[..n]);
    }
  }

  lemma {:induction false} PlainSame(calls: seq<Call>)
    requires NoCompletion(calls)
    ensures Plain(calls) == calls
  {
    if calls != [] {
      PlainSame(calls[..|calls| - 1]);
    }
  }

  lemma PlainNotify(s: Stream, more: seq<Call>)
    requires NoCompletion(more)
    ensures Plain(Notify(s, more).calls) == Plain(s.calls) + more
  {
    PlainAppend(s.calls, more);
    PlainSame(more);
  }

  /** Each delta, and right behind it the fragment it brings. */
  function ToolsSaid(tools: seq<ToolDelta>): seq<Call> {
    if tools == [] then []
    else
      var d, rest := tools[0], ToolsSaid(tools[1..]);
      if d.fragment.None? then [OnToolDelta(d)] + rest
      else [OnToolDelta(d), OnFragment(d.index, d.fragment.value)] + rest
  }

  lemma ToolsSaidFirst(tools: seq<ToolDelta>)
    requires tools != []
    ensures ToolsSaid(tools) == DeltaCalls(tools[0]) + ToolsSaid(tools[1..])
  {
  }

  function TextSaid(cfg: Config, chunk: Chunk): seq<Call> {
    var content := if chunk.delta.content.Some? then [OnContent(chunk.delta.content.value)] else [];
    var reasoning := if chunk.delta.reasoning.Some? then [OnReasoning(chunk.delta.reasoning.value)] else [];
    var usage := if cfg.usage && chunk.usage.Some? then [OnUsage(chunk.usage.value)] else [];
    content + reasoning + usage
  }

  lemma TextSaidIs(cfg: Config, chunk: Chunk)
    ensures TextCalls(cfg, chunk) == TextSaid(cfg, chunk)
  {
  }

  /** What a chunk tells the host, completions aside: texts, usage, each delta and its fragment, the reason. */
  function ChunkSaid(cfg: Config, chunk: Chunk): seq<Call> {
    TextSaid(cfg, chunk) + ToolsSaid(chunk.delta.tools)
    + (if chunk.delta.finish == Unknown then [] else [OnFinish(chunk.delta.finish)])
  }

  /** The chunks before the first `[DONE]`; what is no chunk is passed over. */
  function Heard(cfg: Config, events: seq<bytes>): seq<Chunk> {
    if events == [] then []
    else
      var n := |events| - 1;
      var front, e := Heard(cfg, events[..n]), events[n];
      if DONE in events || e == [] || ChunkOf(e, cfg.choice).None? then front
      else front + [ChunkOf(e, cfg.choice).value]
  }

  function Said(cfg: Config, chunks: seq<Chunk>): seq<Call> {
    if chunks == [] then [] else Said(cfg, chunks[..|chunks| - 1]) + ChunkSaid(cfg, chunks[|chunks| - 1])
  }

  lemma {:induction false} FinalizeSaysNothing(s: Stream, i: nat)
    ensures Plain(FinalizeFrom(s, i).calls) == Plain(s.calls)
    decreases |s.accs| - i
  {
    hide Arguments, Plain;
    if i < |s.accs| {
      if !s.accs[i].active {
        FinalizeSaysNothing(s, i + 1);
      } else if Arguments(s.accs[i]).Some? {
        var text := Arguments(s.accs[i]).value;
        FinalizeSaysNothing(CompleteAt(s, i, text), i + 1);
        PlainAppend(s.calls, [OnArgsComplete(i, text)]);
        PlainCompletion(i, text);
      }
    }
  }

  lemma PlainCompletion(i: nat, text: bytes)
    ensures Plain([OnArgsComplete(i, text)]) == []
  {
    assert [OnArgsComplete(i, text)][..0] == [];
  }

  /** The whole of what was expected, or the beginning of it when the stream broke. */
  ghost predicate Told(r: Stream, said: seq<Call>) {
    if r.broken then Plain(r.calls) <= said else Plain(r.calls) == said
  }

  lemma {:induction false} ToolsTold(cfg: Config, s: Stream, tools: seq<ToolDelta>)
    requires !s.broken
    ensures Told(ToolSteps(cfg, s, tools), Plain(s.calls) + ToolsSaid(tools))
    decreases |tools|
  {
    hide Plain, Feed, Extend, DeltaCalls, ToolsSaid;
    if tools == [] {
      NoToolsSaid();
    } else {
      ToolsSaidFirst(tools);
      var s1 := ToolStep(cfg, s, tools[0]);
      NoDeltaCompletes(tools[0]);
      PlainNotify(s, DeltaCalls(tools[0]));
      var a, b := DeltaCalls(tools[0]), ToolsSaid(tools[1..]);
      assert Plain(s.calls) + (a + b) == Plain(s.calls) + a + b;
      if !s1.broken {
        ToolsTold(cfg, s1, tools[1..]);
      }
    }
  }

  lemma NoToolsSaid()
    ensures ToolsSaid([]) == []
  {
  }

  lemma NoDeltaCompletes(d: ToolDelta)
    ensures NoCompletion(DeltaCalls(d))
  {
  }

  lemma ChunkTold(cfg: Config, s: Stream, chunk: Chunk)
    requires !s.broken
    ensures Told(OnChunk(cfg, s, chunk), Plain(s.calls) + ChunkSaid(cfg, chunk))
  {
    hide Plain, ToolSteps, FinalizeFrom, ToolsSaid, TextCalls, TextSaid;
    TextSaidIs(cfg, chunk);
    var texts, tools := TextCalls(cfg, chunk), ToolsSaid(chunk.delta.tools);
    NoTextCompletes(cfg, chunk);
    PlainNotify(s, texts);
    var s0 := Notify(s, texts);
    ToolsTold(cfg, s0, chunk.delta.tools);
    var s1 := ToolSteps(cfg, s0, chunk.delta.tools);
    var last := if chunk.delta.finish == Unknown then [] else [OnFinish(chunk.delta.finish)];
    assert Plain(s.calls) + (texts + tools + last) == Plain(s.calls) + texts + tools + last;
    if !s1.broken && chunk.delta.finish != Unknown {
      FinalizeSaysNothing(s1.(finalized := true), 0);
      var s2 := if chunk.delta.finish == ToolCalls then Finalize(s1) else s1;
      PlainNotify(s2, last);
    }
  }

  lemma NoTextCompletes(cfg: Config, chunk: Chunk)
    ensures NoCompletion(TextCalls(cfg, chunk))
  {
  }

  /**
   Main result, over all event sequences: completions aside, the host is told everything the chunks before the
   first `[DONE]` say, in order and nothing else; if the stream broke, a beginning of that.
   */
  lemma {:induction false} EverythingIsReported(cfg: Config, events: seq<bytes>)
    ensures var s := OnEvents(cfg, NEW_STREAM, events);
      && Told(s, Said(cfg, Heard(cfg, events)))
      && (!s.broken ==> (s.done <==> DONE in events)) && (s.done ==> DONE in events)
  {
    hide Plain, ChunkOf, OnChunk, ChunkSaid;
    if events == [] {
      PlainSame([]);
    } else {
      var n := |events| - 1;
      EverythingIsReported(cfg, events[..n]);
      var s, e := OnEvents(cfg, NEW_STREAM, events[..n]), events[n];
      DoneSoFar(events);
      SaidMore(cfg, events);
      if !s.broken && !s.done && e != DONE && e != [] && ChunkOf(e, cfg.choice).Some? {
        ChunkTold(cfg, s, ChunkOf(e, cfg.choice).value);
        ChunkKeepsOpen(cfg, s, ChunkOf(e, cfg.choice).value);
      }
    }
  }

  lemma DoneSoFar(events: seq<bytes>)
    requires events != []
    ensures var n := |events| - 1; DONE in events <==> DONE in events[..n] || events[n] == DONE
  {
    var n := |events| - 1;
    assert events == events[..n] + [events[n]];
  }

  lemma SaidMore(cfg: Config, events: seq<bytes>)
    requires events != []
    ensures var n := |events| - 1;
      var front, more := Said(cfg, Heard(cfg, events[..n])), Said(cfg, Heard(cfg, events));
      if DONE in events || events[n] == [] || ChunkOf(events[n], cfg.choice).None? then more == front
      else more == front + ChunkSaid(cfg, ChunkOf(events[n], cfg.choice).value)
  {
    hide ChunkOf, ChunkSaid, Said;
    var n := |events| - 1;
    if !(DONE in events || events[n] == [] || ChunkOf(events[n], cfg.choice).None?) {
      SaidOneMore(cfg, Heard(cfg, events[..n]), ChunkOf(events[n], cfg.choice).value);
    }
  }

  lemma SaidOneMore(cfg: Config, chunks: seq<Chunk>, c: Chunk)
    ensures Said(cfg, chunks + [c]) == Said(cfg, chunks) + ChunkSaid(cfg, c)
  {
    hide ChunkSaid;
    assert (chunks + [c])[..|chunks + [c]| - 1] == chunks;
  }

  lemma {:induction false} ToolsKeepOpen(cfg: Config, s: Stream, tools: seq<ToolDelta>)
    ensures ToolSteps(cfg, s, tools).done == s.done
    decreases |tools|
  {
    hide Feed, Extend;
    if tools != [] && !s.broken {
      ToolsKeepOpen(cfg, ToolStep(cfg, s, tools[0]), tools[1..]);
    }
  }

  lemma {:induction false} FinalizeKeepsOpen(s: Stream, i: nat)
    ensures FinalizeFrom(s, i).done == s.done
    decreases |s.accs| - i
  {
    hide Arguments;
    if i < |s.accs| {
      if !s.accs[i].active {
        FinalizeKeepsOpen(s, i + 1);
      } else if Arguments(s.accs[i]).Some? {
        var text := Arguments(s.accs[i]).value;
        FinalizeKeepsOpen(CompleteAt(s, i, text), i + 1);
      }
    }
  }

  lemma ChunkKeepsOpen(cfg: Config, s: Stream, chunk: Chunk)
    ensures OnChunk(cfg, s, chunk).done == s.done
  {
    hide ToolSteps, FinalizeFrom;
    ToolsKeepOpen(cfg, Notify(s, TextCalls(cfg, chunk)), chunk.delta.tools);
    var s1 := ToolSteps(cfg, Notify(s, TextCalls(cfg, chunk)), chunk.delta.tools);
    FinalizeKeepsOpen(s1.(finalized := true), 0);
  }
}
