/**
 When a stream of tool calls breaks, said in terms of what the host has heard so far: an index beyond the memory, a
 delta for a completed call, arguments over the limit, or, when the calls are ended, arguments that are no JSON text.
 */
module StreamBreaks {
  import opened Bytes
  import opened JsonLexer
  import opened Unescape
  import opened ChatChunk
  import opened StreamTools
  import opened StreamSafety
  import opened StreamComplete
  import opened JsonTexts

  // --- what was said about one index ----------------------------------------------------------------------

  /** The first id the host was told for index `i`. */
  function FirstId(calls: seq<Call>, i: nat): Option<bytes> {
    if calls == [] then None
    else
      var front, c := FirstId(calls[..|calls| - 1], i), calls[|calls| - 1];
      if front.None? && c.OnToolDelta? && c.delta.index == i then c.delta.id else front
  }

  function FirstName(calls: seq<Call>, i: nat): Option<bytes> {
    if calls == [] then None
    else
      var front, c := FirstName(calls[..|calls| - 1], i), calls[|calls| - 1];
      if front.None? && c.OnToolDelta? && c.delta.index == i then c.delta.name else front
  }

  datatype Story = Story(reported: bool, completed: bool, parts: seq<bytes>, id: Option<bytes>, name: Option<bytes>)

  const NO_STORY := Story(false, false, [], None, None)

  ghost function StoryOf(calls: seq<Call>, i: nat): Story {
    Story(i in Reported(calls), i in Completed(calls), Fragments(calls, i), FirstId(calls, i), FirstName(calls, i))
  }

  function Either(a: Option<bytes>, b: Option<bytes>): Option<bytes> {
    if a.Some? then a else b
  }

  function Join(a: Story, b: Story): Story {
    Story(a.reported || b.reported, a.completed || b.completed, a.parts + b.parts, Either(a.id, b.id), Either(a.name, b.name))
  }

  lemma {:induction false} FirstAppend(a: seq<Call>, b: seq<Call>, i: nat)
    ensures FirstId(a + b, i) == Either(FirstId(a, i), FirstId(b, i))
    ensures FirstName(a + b, i) == Either(FirstName(a, i), FirstName(b, i))
    decreases |b|
  {
    if b == [] {
      assert a + b == a;
    } else {
      var n := |b| - 1;
      assert (a + b)[..|a + b| - 1] == a + b[..n];
      FirstAppend(a, b[..n], i);
    }
  }

  lemma StoryAppend(a: seq<Call>, b: seq<Call>, i: nat)
    ensures StoryOf(a + b, i) == Join(StoryOf(a, i), StoryOf(b, i))
  {
    hide Reported, Completed, Fragments, FirstId, FirstName;
    CallsAppend(a, b);
    FragmentsAppend(a, b, i);
    FirstAppend(a, b, i);
  }

  lemma JoinNothing(a: Story)
    ensures Join(a, NO_STORY) == a
  {
    assert a.parts + [] == a.parts;
  }

  predicate SaysNothing(c: Call) {
    !c.OnToolDelta? && !c.OnFragment? && !c.OnArgsComplete?
  }

  lemma {:induction false} QuietStory(calls: seq<Call>, i: nat)
    requires forall p :: 0 <= p < |calls| ==> SaysNothing(calls[p])
    ensures StoryOf(calls, i) == NO_STORY
    decreases |calls|
  {
    assert Reported(calls) == {} && Completed(calls) == {};
    if calls != [] {
      QuietStory(calls[..|calls| - 1], i);
    }
  }

  lemma OneStory(c: Call, i: nat)
    ensures StoryOf([c], i) == match c
      case OnToolDelta(d) => if d.index == i then Story(true, false, [], d.id, d.name) else NO_STORY
      case OnFragment(k, text) => if k == i then NO_STORY.(parts := [text]) else NO_STORY
      case OnArgsComplete(k, _) => if k == i then NO_STORY.(completed := true) else NO_STORY
      case _ => NO_STORY
  {
    var calls := [c];
    assert calls[..0] == [] && calls[0] == c;
    assert Reported(calls) == if c.OnToolDelta? then {c.delta.index} else {};
    assert Completed(calls) == if c.OnArgsComplete? then {c.index} else {};
    assert Fragments([], i) == [] && FirstId([], i) == None && FirstName([], i) == None;
    assert Fragments(calls, i) == if c.OnFragment? && c.index == i then [c.text] else [];
  }

  // --- what the accumulators know -------------------------------------------------------------------------

  /** An accumulator and what the host heard about its index. */
  ghost predicate Matches(a: Acc, t: Story) {
    && a.active == t.reported && a.frozen == t.completed && (!a.frozen ==> Tracks(a, t.parts))
    && a.id == t.id && a.name == t.name
  }

  /** There are accumulators up to the largest index reported, and none knows more than the host. */
  ghost predicate Knows(s: Stream) {
    && (forall i :: 0 <= i < |s.accs| ==> Matches(s.accs[i], StoryOf(s.calls, i)))
    && (forall i :: i >= |s.accs| ==> StoryOf(s.calls, i) == NO_STORY)
    && (s.accs != [] ==> s.accs[|s.accs| - 1].active)
  }

  lemma NewKnows()
    ensures Knows(NEW_STREAM) && Matches(NEW_ACC, NO_STORY)
  {
    forall i: nat
      ensures StoryOf([], i) == NO_STORY
    {
      QuietStory([], i);
    }
  }

  lemma QuietKnows(s: Stream, more: seq<Call>)
    requires Knows(s) && forall p :: 0 <= p < |more| ==> SaysNothing(more[p])
    ensures Knows(Notify(s, more))
  {
    hide StoryOf, Matches, Join, SaysNothing;
    forall i: nat
      ensures StoryOf(s.calls + more, i) == StoryOf(s.calls, i)
    {
      StoryAppend(s.calls, more, i);
      QuietStory(more, i);
      JoinNothing(StoryOf(s.calls, i));
    }
  }

  /** What one delta says about its index. */
  function Brings(d: ToolDelta): Story {
    Story(true, false, if d.fragment.Some? then [d.fragment.value] else [], d.id, d.name)
  }

  lemma DeltaStory(d: ToolDelta, i: nat)
    ensures StoryOf(DeltaCalls(d), i) == if d.index == i then Brings(d) else NO_STORY
  {
    hide StoryOf;
    OneStory(OnToolDelta(d), i);
    if d.fragment.Some? {
      var c := OnFragment(d.index, d.fragment.value);
      OneStory(c, i);
      StoryAppend([OnToolDelta(d)], [c], i);
      assert DeltaCalls(d) == [OnToolDelta(d)] + [c];
    } else {
      assert DeltaCalls(d) == [OnToolDelta(d)];
    }
  }

  // --- one delta ------------------------------------------------------------------------------------------

  /** Behind these fragments the delta brings more than the limit allows; 0 is "no limit". */
  predicate TooMuch(maxArgs: nat, parts: seq<bytes>, d: ToolDelta) {
    && maxArgs != 0 && d.fragment.Some? && d.fragment.value != []
    && |Concat(parts)| + |d.fragment.value| > maxArgs
  }

  /** After these calls the delta breaks the stream before the host hears of it: the index is beyond the memory. */
  ghost predicate Unreachable(cfg: Config, calls: seq<Call>, d: ToolDelta) {
    d.index >= cfg.room && forall i :: i in Reported(calls) ==> i < d.index
  }

  /** After these calls the delta breaks the stream: it comes too late, or brings too much. */
  ghost predicate Unwanted(cfg: Config, calls: seq<Call>, d: ToolDelta) {
    d.index in Completed(calls) || TooMuch(cfg.maxArgs, Fragments(calls, d.index), d)
  }

  lemma FeedMatches(a: Acc, t: Story, d: ToolDelta, maxArgs: nat)
    requires Matches(a, t) && IsBody(d.fragment)
    ensures var f := Feed(a, d, maxArgs);
      && (f.ok <==> !t.completed && !TooMuch(maxArgs, t.parts, d))
      && (f.ok ==> Matches(f.acc, Join(t, Brings(d))))
  {
    hide Concat, StringBody, Tracks;
    if !a.frozen {
      FeedTracks(a, t.parts, d, maxArgs);
      assert t.parts + [] == t.parts;
      TracksArgs(a, t.parts);
    }
  }

  lemma TracksArgs(a: Acc, parts: seq<bytes>)
    requires Tracks(a, parts)
    ensures a.args == Concat(parts) && !a.frozen
    ensures forall id, name :: Tracks(a.(active := true, id := id, name := name), parts)
  {
  }

  /** The memory matters only for an index above all reported ones. */
  lemma ReachesIt(cfg: Config, s: Stream, d: ToolDelta)
    requires Knows(s)
    ensures Unreachable(cfg, s.calls, d) <==> d.index >= |s.accs| && d.index >= cfg.room
  {
    hide Reported, Completed, Fragments, FirstId, FirstName, Tracks;
    var n := |s.accs|;
    if d.index >= n {
      forall i | i in Reported(s.calls)
        ensures i < d.index
      {
        assert StoryOf(s.calls, i) != NO_STORY;
      }
    } else {
      assert Matches(s.accs[n - 1], StoryOf(s.calls, n - 1));
      assert n - 1 in Reported(s.calls);
    }
  }

  lemma ExtendKnows(s: Stream, n: nat)
    requires Knows(s)
    ensures var accs := Extend(s.accs, n);
      && (forall i :: 0 <= i < |accs| ==> Matches(accs[i], StoryOf(s.calls, i)))
      && (forall i :: i >= |accs| ==> StoryOf(s.calls, i) == NO_STORY)
      && (n <= |s.accs| ==> accs == s.accs)
  {
    hide StoryOf, Matches;
    NewKnows();
  }

  lemma ToolCallsSaid(d: ToolDelta)
    ensures ToolsSaid([d]) == DeltaCalls(d)
  {
    ToolsSaidFirst([d]);
    NoToolsSaid();
    assert [d][1..] == [];
  }

  lemma StoriesAfter(calls: seq<Call>, d: ToolDelta)
    ensures forall k: nat :: k != d.index ==> StoryOf(calls + DeltaCalls(d), k) == StoryOf(calls, k)
    ensures StoryOf(calls + DeltaCalls(d), d.index) == Join(StoryOf(calls, d.index), Brings(d))
  {
    hide StoryOf, DeltaCalls, Brings, Join;
    forall k: nat
      ensures k != d.index ==> StoryOf(calls + DeltaCalls(d), k) == StoryOf(calls, k)
      ensures k == d.index ==> StoryOf(calls + DeltaCalls(d), k) == Join(StoryOf(calls, k), Brings(d))
    {
      StoryAppend(calls, DeltaCalls(d), k);
      DeltaStory(d, k);
      JoinNothing(StoryOf(calls, k));
    }
  }

  lemma ActiveThen(a: Acc, t: Story, d: ToolDelta)
    requires Matches(a, Join(t, Brings(d)))
    ensures a.active
  {
  }

  /** What one delta does: exactly when it breaks the stream, and what the host is told. */
  lemma StepExactly(cfg: Config, s: Stream, d: ToolDelta)
    requires Knows(s) && !s.broken && IsBody(d.fragment)
    ensures var r := ToolStep(cfg, s, d);
      && (r.broken <==> Unreachable(cfg, s.calls, d) || Unwanted(cfg, s.calls, d))
      && r.calls == (if Unreachable(cfg, s.calls, d) then s.calls else s.calls + ToolsSaid([d]))
      && (!r.broken ==> Knows(r))
  {
    hide Matches, Feed, DeltaCalls, Brings, TooMuch, IsBody, ToolsSaid, Extend, Unreachable, Join;
    hide Reported, Completed, Fragments, FirstId, FirstName;
    ReachesIt(cfg, s, d);
    ToolCallsSaid(d);
    ExtendKnows(s, d.index + 1);
    StoriesAfter(s.calls, d);
    var accs := Extend(s.accs, d.index + 1);
    FeedMatches(accs[d.index], StoryOf(s.calls, d.index), d, cfg.maxArgs);
    var r := ToolStep(cfg, s, d);
    if !r.broken {
      ActiveThen(r.accs[d.index], StoryOf(s.calls, d.index), d);
    }
  }

  /** The delta at `k` breaks the stream, the others before it being told behind `calls`. */
  ghost predicate BreaksAt(cfg: Config, calls: seq<Call>, tools: seq<ToolDelta>, k: nat)
    requires k < |tools|
  {
    var before := calls + ToolsSaid(tools[..k]);
    Unreachable(cfg, before, tools[k]) || Unwanted(cfg, before, tools[k])
  }

  ghost predicate SomeBreaks(cfg: Config, calls: seq<Call>, tools: seq<ToolDelta>) {
    exists k :: 0 <= k < |tools| && BreaksAt(cfg, calls, tools, k)
  }

  lemma LaterBreaks(cfg: Config, calls: seq<Call>, tools: seq<ToolDelta>)
    requires tools != []
    ensures SomeBreaks(cfg, calls, tools) <==>
      || Unreachable(cfg, calls, tools[0]) || Unwanted(cfg, calls, tools[0])
      || SomeBreaks(cfg, calls + ToolsSaid([tools[0]]), tools[1..])
  {
    hide Unreachable, Unwanted, ToolsSaid;
    NoToolsSaid();
    assert calls + [] == calls && tools[..0] == [];
    assert BreaksAt(cfg, calls, tools, 0) <==> Unreachable(cfg, calls, tools[0]) || Unwanted(cfg, calls, tools[0]);
    var next, rest := calls + ToolsSaid([tools[0]]), tools[1..];
    forall k | 0 <= k < |rest|
      ensures BreaksAt(cfg, next, rest, k) <==> BreaksAt(cfg, calls, tools, k + 1)
    {
      ToolsSaidSplit(tools[..k + 1]);
      assert tools[..k + 1][1..] == rest[..k] && tools[..k + 1][0] == tools[0];
      assert next + ToolsSaid(rest[..k]) == calls + (ToolsSaid([tools[0]]) + ToolsSaid(rest[..k]));
    }
    if SomeBreaks(cfg, calls, tools) {
      var k :| 0 <= k < |tools| && BreaksAt(cfg, calls, tools, k);
      if k > 0 { assert BreaksAt(cfg, next, rest, k - 1) <==> BreaksAt(cfg, calls, tools, k - 1 + 1); }
    }
    if SomeBreaks(cfg, next, rest) {
      var k :| 0 <= k < |rest| && BreaksAt(cfg, next, rest, k);
      assert BreaksAt(cfg, calls, tools, k + 1);
    }
  }

  lemma ToolsSaidSplit(tools: seq<ToolDelta>)
    requires tools != []
    ensures ToolsSaid(tools) == ToolsSaid([tools[0]]) + ToolsSaid(tools[1..])
  {
    hide ToolsSaid;
    ToolsSaidFirst(tools);
    ToolCallsSaid(tools[0]);
  }

  /** The deltas of a chunk. */
  lemma {:induction false} ToolsExactly(cfg: Config, s: Stream, tools: seq<ToolDelta>)
    requires Knows(s) && !s.broken && forall k :: 0 <= k < |tools| ==> IsBody(tools[k].fragment)
    ensures var r := ToolSteps(cfg, s, tools);
      && (r.broken <==> SomeBreaks(cfg, s.calls, tools))
      && (!r.broken ==> Knows(r) && r.calls == s.calls + ToolsSaid(tools))
    decreases |tools|
  {
    hide Knows, ToolStep, Unreachable, Unwanted, IsBody, ToolsSaid, SomeBreaks;
    if tools == [] {
      NoToolsSaid();
      assert s.calls + [] == s.calls;
      NoneBreaks(cfg, s.calls);
    } else {
      LaterBreaks(cfg, s.calls, tools);
      StepExactly(cfg, s, tools[0]);
      var s1 := ToolStep(cfg, s, tools[0]);
      if !s1.broken {
        ToolsExactly(cfg, s1, tools[1..]);
        ToolsSaidSplit(tools);
        assert s.calls + ToolsSaid([tools[0]]) + ToolsSaid(tools[1..])
            == s.calls + (ToolsSaid([tools[0]]) + ToolsSaid(tools[1..]));
      }
    }
  }

  lemma NoneBreaks(cfg: Config, calls: seq<Call>)
    ensures !SomeBreaks(cfg, calls, [])
  {
  }

  // --- the end of the calls -------------------------------------------------------------------------------

  /** What was reported for index `i` is, joined and unescaped, a JSON text. */
  ghost predicate Whole(calls: seq<Call>, i: nat) {
    var parts := Fragments(calls, i);
    && parts != [] && |Concat(parts)| <= 2147483647
    && (forall k :: 0 <= k < |parts| ==> Unescaped(parts[k]).Some?)
    && IsValueText(Concat(UnescapeAll(parts)))
  }

  ghost predicate AllWhole(calls: seq<Call>) {
    forall i :: i in Reported(calls) ==> Whole(calls, i)
  }

  lemma ArgumentsExactly(a: Acc, calls: seq<Call>, i: nat)
    requires Matches(a, StoryOf(calls, i)) && i !in Completed(calls)
    ensures Arguments(a).Some? <==> Whole(calls, i)
    ensures Arguments(a).Some? ==> Arguments(a).value == Concat(UnescapeAll(Fragments(calls, i)))
  {
    hide IsJson, IsValueText, Unescaped, UnescapeAll, Concat, Fragments, Reported, Completed, FirstId, FirstName;
    hide Arguments, Tracks;
    var parts := Fragments(calls, i);
    ArgumentsAre(a, parts);
    IsJsonExactly(Concat(UnescapeAll(parts)));
  }

  /** Finalizing succeeds exactly if what was reported for every index is a JSON text. */
  lemma FinalizeExactly(s: Stream)
    requires Knows(s) && !s.broken && !s.finalized && Completed(s.calls) == {}
    ensures Finalize(s).broken <==> !AllWhole(s.calls)
  {
    hide Arguments, Whole, Tracks, Fragments, FirstId, FirstName;
    FinalizeIsExact(s);
    forall i | 0 <= i < |s.accs|
      ensures s.accs[i].active <==> i in Reported(s.calls)
      ensures Arguments(s.accs[i]).Some? <==> Whole(s.calls, i)
    {
      ArgumentsExactly(s.accs[i], s.calls, i);
    }
    forall i | i in Reported(s.calls)
      ensures i < |s.accs|
    {
      assert StoryOf(s.calls, i) != NO_STORY;
    }
  }

  lemma CompleteKnows(s: Stream, i: nat, text: bytes)
    requires Knows(s) && i < |s.accs| && s.accs[i].active
    ensures Knows(CompleteAt(s, i, text))
  {
    hide StoryOf, Tracks;
    var c := OnArgsComplete(i, text);
    forall k: nat
      ensures StoryOf(s.calls + [c], k) == if k == i then StoryOf(s.calls, k).(completed := true) else StoryOf(s.calls, k)
    {
      StoryAppend(s.calls, [c], k);
      OneStory(c, k);
      JoinNothing(StoryOf(s.calls, k));
    }
  }

  lemma {:induction false} FinalizeKnows(s: Stream, i: nat)
    requires Knows(s)
    ensures var r := FinalizeFrom(s, i); !r.broken ==> Knows(r)
    decreases |s.accs| - i
  {
    hide Knows, Arguments;
    if i < |s.accs| {
      if !s.accs[i].active {
        FinalizeKnows(s, i + 1);
      } else if Arguments(s.accs[i]).Some? {
        CompleteKnows(s, i, Arguments(s.accs[i]).value);
        FinalizeKnows(CompleteAt(s, i, Arguments(s.accs[i]).value), i + 1);
      }
    }
  }

  // --- chunks ---------------------------------------------------------------------------------------------

  /** After these calls the chunk breaks the stream: by a delta, or by ending calls that are not whole. */
  ghost predicate ChunkBreaks(cfg: Config, calls: seq<Call>, c: Chunk) {
    var before := calls + TextSaid(cfg, c);
    || SomeBreaks(cfg, before, c.delta.tools)
    || (c.delta.finish == ToolCalls && !FinishSaid(calls) && !AllWhole(before + ToolsSaid(c.delta.tools)))
  }

  /** The state is what the calls of an unbroken stream say. */
  ghost predicate Settled(s: Stream) {
    && Knows(s) && !s.broken && s.finalized == FinishSaid(s.calls) && (!s.finalized ==> Completed(s.calls) == {})
  }

  lemma ChunkExactly(cfg: Config, s: Stream, c: Chunk)
    requires Settled(s) && AllBodies(c.delta)
    ensures var r := OnChunk(cfg, s, c);
      && (r.broken <==> ChunkBreaks(cfg, s.calls, c))
      && (!r.broken ==> Knows(r))
  {
    hide Knows, ToolSteps, Finalize, AllWhole, SomeBreaks, FinishSaid, TextCalls, TextSaid, ToolsSaid, IsBody, SaysNothing;
    hide Completed, Reported, Indexes, NoLateDelta, Active;
    TextSaidIs(cfg, c);
    TextIsQuiet(cfg, c);
    QuietKnows(s, TextSaid(cfg, c));
    var s0 := Notify(s, TextSaid(cfg, c));
    ToolsExactly(cfg, s0, c.delta.tools);
    var s1 := ToolSteps(cfg, s0, c.delta.tools);
    if !s1.broken {
      ToolsActivate(cfg, s0, c.delta.tools);
      ToolsSay(c.delta.tools);
      TextsSayNothing(cfg, c);
      CallsAppend(s.calls, TextSaid(cfg, c));
      CallsAppend(s0.calls, ToolsSaid(c.delta.tools));
      var s2 := EndKnows(s1, c);
      if !s2.broken && c.delta.finish != Unknown {
        FinishIsQuiet(c.delta.finish);
        QuietKnows(s2, [OnFinish(c.delta.finish)]);
      }
    }
  }

  lemma TextIsQuiet(cfg: Config, c: Chunk)
    ensures forall p :: 0 <= p < |TextSaid(cfg, c)| ==> SaysNothing(TextSaid(cfg, c)[p])
  {
  }

  lemma FinishIsQuiet(reason: Finish)
    ensures SaysNothing([OnFinish(reason)][0])
  {
  }

  /** The end of the calls, if the chunk says so. */
  lemma EndKnows(s1: Stream, c: Chunk) returns (s2: Stream)
    requires Knows(s1) && !s1.broken && (!s1.finalized ==> Completed(s1.calls) == {})
    ensures s2 == if c.delta.finish == ToolCalls then Finalize(s1) else s1
    ensures s2.broken <==> c.delta.finish == ToolCalls && !s1.finalized && !AllWhole(s1.calls)
    ensures !s2.broken ==> Knows(s2)
  {
    hide Knows, AllWhole, FinalizeFrom, Completed;
    s2 := s1;
    if c.delta.finish == ToolCalls {
      s2 := Finalize(s1);
      if !s1.finalized {
        FinalizeExactly(s1);
        FinishedKnows(s1);
        FinalizeKnows(s1.(finalized := true), 0);
      }
    }
  }

  lemma FinishedKnows(s: Stream)
    requires Knows(s)
    ensures Knows(s.(finalized := true))
  {
  }

  // --- whole streams --------------------------------------------------------------------------------------

  /** Event `n` is the first to break the stream: what it says does not go with what the host heard before. */
  ghost predicate EventBreaks(cfg: Config, events: seq<bytes>, n: nat)
    requires n < |events|
  {
    var s, chunk := OnEvents(cfg, NEW_STREAM, events[..n]), ChunkOf(events[n], cfg.choice);
    && !s.broken && DONE !in events[..n + 1] && events[n] != [] && chunk.Some?
    && ChunkBreaks(cfg, s.calls, chunk.value)
  }

  lemma RunSettles(cfg: Config, events: seq<bytes>)
    requires !OnEvents(cfg, NEW_STREAM, events).broken && Knows(OnEvents(cfg, NEW_STREAM, events))
    ensures Settled(OnEvents(cfg, NEW_STREAM, events))
  {
    hide OnEvents, Heard, Knows, NoTools, NoLateTools, SomeFinish, FinishSaid, Reported, Active, NoLateDelta;
    RunTells(cfg, events);
  }

  lemma {:induction false} RunExactly(cfg: Config, events: seq<bytes>)
    ensures var s := OnEvents(cfg, NEW_STREAM, events);
      && (s.broken <==> exists n :: 0 <= n < |events| && EventBreaks(cfg, events, n))
      && (!s.broken ==> Knows(s))
    decreases |events|
  {
    hide OnChunk, ChunkOf, Knows, ChunkBreaks, AllBodies, FinishSaid, Completed;
    if events == [] {
      NewKnows();
    } else {
      var m := |events| - 1;
      var front, e := events[..m], events[m];
      var s := OnEvents(cfg, NEW_STREAM, front);
      RunExactly(cfg, front);
      EarlierBreaks(cfg, events);
      if s.broken {
        BrokenStays(cfg, s, e);
      } else {
        EverythingIsReported(cfg, front);
        DoneSoFar(events);
        assert events[..m + 1] == events;
        if !s.done && e != DONE && e != [] && ChunkOf(e, cfg.choice).Some? {
          RunSettles(cfg, front);
          ChunkYieldsBodies(e, cfg.choice);
          ChunkExactly(cfg, s, ChunkOf(e, cfg.choice).value);
        } else {
          DoneKnows(s);
        }
      }
    }
  }

  lemma DoneKnows(s: Stream)
    requires Knows(s)
    ensures Knows(s.(done := true))
  {
  }

  lemma EarlierBreaks(cfg: Config, events: seq<bytes>)
    requires events != []
    ensures var m := |events| - 1;
      (exists n :: 0 <= n < |events| && EventBreaks(cfg, events, n)) <==>
      EventBreaks(cfg, events, m) || exists n :: 0 <= n < m && EventBreaks(cfg, events[..m], n)
  {
    hide OnEvents, ChunkOf, ChunkBreaks;
    var m := |events| - 1;
    forall n | 0 <= n < m
      ensures EventBreaks(cfg, events[..m], n) <==> EventBreaks(cfg, events, n)
    {
      assert events[..m][..n] == events[..n] && events[..m][..n + 1] == events[..n + 1];
    }
  }

  /**
   Main result, for every stream: it breaks exactly if some event says what does not go with what the host heard
   before, or if it ends with `[DONE]`, the calls are not yet ended, and what was reported for some index is no JSON.
   */
  lemma BreaksExactly(cfg: Config, events: seq<bytes>, transferred: bool)
    ensures var s := OnEvents(cfg, NEW_STREAM, events);
      EndOfStream(s, transferred).broken <==>
        || (exists n :: 0 <= n < |events| && EventBreaks(cfg, events, n))
        || (transferred && DONE in events && !FinishSaid(s.calls) && !AllWhole(s.calls))
  {
    hide OnEvents, Finalize, Knows, EventBreaks, AllWhole, FinishSaid, Completed;
    var s := OnEvents(cfg, NEW_STREAM, events);
    RunExactly(cfg, events);
    EverythingIsReported(cfg, events);
    StillBroken(s, transferred);
    if !s.broken {
      RunSettles(cfg, events);
      if !s.finalized { FinalizeExactly(s); }
    }
  }
}
