/**
 Streamed tool calls (src/llm.c, src/tools_accum.c): what the stream handler does with each event, as functions
 on values. `StreamContext` is the imperative form.
 */
module StreamTools {
  import opened Bytes
  import opened Jstok
  import opened Unescape
  import opened ChatChunk
  import JsonLexer

  const INT_MAX: nat := 0x7FFF_FFFF

  const DONE: bytes := [91, 68, 79, 78, 69, 93] // [DONE]

  /** `choice` is the wanted choice, `maxArgs == 0` is "no limit", `room` is how many accumulators fit in memory. */
  datatype Config = Config(choice: nat, maxArgs: nat, room: nat, usage: bool)

  /** The calls into the host, in order. */
  datatype Call =
    | OnContent(text: bytes)
    | OnReasoning(text: bytes)
    | OnUsage(usage: Usage)
    | OnToolDelta(delta: ToolDelta)
    | OnFragment(index: nat, text: bytes)
    | OnArgsComplete(index: nat, text: bytes)
    | OnFinish(reason: Finish)

  /** `struct tool_call_accumulator` */
  datatype Acc = Acc(id: Option<bytes>, name: Option<bytes>, args: bytes, active: bool, sawArgs: bool, frozen: bool)

  const NEW_ACC := Acc(None, None, [], false, false, false)

  /** `llm_error_t` */
  datatype Error = NoError | Cancelled | Failed

  /** A broken stream has no accumulators any more: nobody reads them again. */
  datatype Stream = Stream(accs: seq<Acc>, finalized: bool, done: bool, broken: bool, error: Error, calls: seq<Call>)

  const NEW_STREAM := Stream([], false, false, false, NoError, [])

  /** `stream_set_error`: the first error stays. */
  function SetError(s: Stream, e: Error): Stream {
    if s.error == NoError then s.(error := e) else s
  }

  function Break(s: Stream): Stream {
    SetError(s.(accs := [], broken := true), Failed)
  }

  function Notify(s: Stream, calls: seq<Call>): Stream {
    s.(calls := s.calls + calls)
  }

  // --- accumulating ---------------------------------------------------------------------------------------

  datatype Fed = Fed(acc: Acc, ok: bool)

  /** `growbuf_append` refuses what would exceed the limit; nothing always fits. */
  predicate Appendable(len: nat, more: nat, max: nat) {
    more == 0 || max == 0 || len + more <= max
  }

  /** `accum_feed_delta` */
  function Feed(acc: Acc, d: ToolDelta, maxArgs: nat): Fed {
    if acc.frozen then Fed(acc, false)
    else
      var a := acc.(active := true, id := if acc.id.None? then d.id else acc.id,
                    name := if acc.name.None? then d.name else acc.name);
      if d.fragment.None? then Fed(a, true)
      else if Appendable(|a.args|, |d.fragment.value|, maxArgs) then
        Fed(a.(sawArgs := true, args := a.args + d.fragment.value), true)
      else Fed(a.(sawArgs := true), false)
  }

  /** Fresh accumulators up to `n`. */
  function Extend(accs: seq<Acc>, n: nat): (r: seq<Acc>)
    ensures |r| == if |accs| >= n then |accs| else n
    ensures forall i :: 0 <= i < |r| ==> r[i] == if i < |accs| then accs[i] else NEW_ACC
  {
    if |accs| >= n then accs else accs + seq(n - |accs|, i => NEW_ACC)
  }

  function DeltaCalls(d: ToolDelta): seq<Call> {
    [OnToolDelta(d)] + if d.fragment.Some? then [OnFragment(d.index, d.fragment.value)] else []
  }

  function ToolStep(cfg: Config, s: Stream, d: ToolDelta): Stream {
    if d.index >= |s.accs| && d.index >= cfg.room then Break(s)
    else
      var accs := Extend(s.accs, d.index + 1);
      var f := Feed(accs[d.index], d, cfg.maxArgs);
      var s1 := Notify(s.(accs := accs[d.index := f.acc]), DeltaCalls(d));
      if f.ok then s1 else Break(s1)
  }

  function ToolSteps(cfg: Config, s: Stream, tools: seq<ToolDelta>): Stream
    decreases |tools|
  {
    if tools == [] || s.broken then s else ToolSteps(cfg, ToolStep(cfg, s, tools[0]), tools[1..])
  }

  // --- finalizing -----------------------------------------------------------------------------------------

  /** `validate_json_span` */
  predicate IsJson(text: bytes) {
    var rc := Parse(text, Mode.Count, START).rc;
    text != [] && |text| <= INT_MAX && rc.Tokens? && rc.n > 0
  }

  /** The complete arguments of an accumulator, if it has any that are valid. */
  function Arguments(acc: Acc): Option<bytes> {
    var u := Unescaped(acc.args);
    if acc.sawArgs && |acc.args| <= INT_MAX && u.Some? && IsJson(u.value) then u else None
  }

  /** Freezes an accumulator and hands its arguments to the host. */
  function CompleteAt(s: Stream, i: nat, text: bytes): Stream
    requires i < |s.accs|
  {
    Notify(s.(accs := s.accs[i := s.accs[i].(frozen := true, args := text)]), [OnArgsComplete(i, text)])
  }

  /** The loop of `finalize_tool_calls`: it stops at the first active accumulator without valid arguments. */
  function FinalizeFrom(s: Stream, i: nat): Stream
    decreases |s.accs| - i
  {
    if i >= |s.accs| then s
    else if !s.accs[i].active then FinalizeFrom(s, i + 1)
    else
      var text := Arguments(s.accs[i]);
      if text.None? then Break(s)
      else
        FinalizeFrom(CompleteAt(s, i, text.value), i + 1)
  }

  function Finalize(s: Stream): Stream {
    if s.finalized then s else FinalizeFrom(s.(finalized := true), 0)
  }

  // --- events ---------------------------------------------------------------------------------------------

  function TextCalls(cfg: Config, chunk: Chunk): seq<Call> {
    (if chunk.delta.content.Some? then [OnContent(chunk.delta.content.value)] else [])
    + (if chunk.delta.reasoning.Some? then [OnReasoning(chunk.delta.reasoning.value)] else [])
    + (if cfg.usage && chunk.usage.Some? then [OnUsage(chunk.usage.value)] else [])
  }

  function FinishStep(s: Stream, reason: Finish): Stream {
    if reason == Unknown then s
    else
      var s1 := if reason == ToolCalls then Finalize(s) else s;
      if s1.broken then s1 else Notify(s1, [OnFinish(reason)])
  }

  function OnChunk(cfg: Config, s: Stream, chunk: Chunk): Stream {
    var s1 := ToolSteps(cfg, Notify(s, TextCalls(cfg, chunk)), chunk.delta.tools);
    if s1.broken then s1 else FinishStep(s1, chunk.delta.finish)
  }

  /** `on_sse_event` */
  function OnEvent(cfg: Config, s: Stream, data: bytes): Stream {
    if s.broken || s.done then s
    else if data == DONE then s.(done := true)
    else if data == [] then s
    else
      var chunk := ChunkOf(data, cfg.choice);
      if chunk.None? then s else OnChunk(cfg, s, chunk.value)
  }

  function OnEvents(cfg: Config, s: Stream, events: seq<bytes>): Stream {
    if events == [] then s else OnEvent(cfg, OnEvents(cfg, s, events[..|events| - 1]), events[|events| - 1])
  }

  /** After the transfer: a stream that ended with `[DONE]` still completes its calls. */
  function EndOfStream(s: Stream, transferred: bool): Stream {
    if transferred && !s.finalized && s.done then Finalize(s) else s
  }

  /** What the caller is told at last: `sseOk` and `http` are the parser's verdict and the status of the response. */
  function StreamResult(s: Stream, transferred: bool, sseOk: bool, http: nat): Error {
    if !transferred || s.broken || !sseOk then if s.error != NoError then s.error else Failed
    else if s.error != NoError then s.error
    else if http >= 400 then Failed
    else NoError
  }

  // --- what was said about each call ----------------------------------------------------------------------

  /** The fragments reported for one index, in arrival order. */
  function Fragments(calls: seq<Call>, i: nat): seq<bytes> {
    if calls == [] then []
    else
      var front, c := Fragments(calls[..|calls| - 1], i), calls[|calls| - 1];
      if c.OnFragment? && c.index == i then front + [c.text] else front
  }

  lemma {:induction false} FragmentsAppend(a: seq<Call>, b: seq<Call>, i: nat)
    ensures Fragments(a + b, i) == Fragments(a, i) + Fragments(b, i)
    decreases |b|
  {
    if b == [] {
      assert a + b == a;
    } else {
      var n := |b| - 1;
      assert (a + b)[..|a + b| - 1] == a + b[..n];
      FragmentsAppend(a, b[..n], i);
    }
  }

  lemma {:induction false} NoFragments(calls: seq<Call>, i: nat)
    requires forall k :: 0 <= k < |calls| ==> !calls[k].OnFragment?
    ensures Fragments(calls, i) == []
  {
    if calls != [] {
      NoFragments(calls[..|calls| - 1], i);
    }
  }

  lemma DeltaFragments(d: ToolDelta, i: nat)
    ensures Fragments(DeltaCalls(d), i) == if d.index == i && d.fragment.Some? then [d.fragment.value] else []
  {
    var c := DeltaCalls(d);
    assert Fragments(c[..0], i) == [];
    assert c[..1] == [OnToolDelta(d)] && c[..1][..0] == [];
    assert Fragments(c[..1], i) == [];
    if d.fragment.Some? {
      assert c[..|c| - 1] == c[..1];
    }
  }

  ghost predicate AllStringBodies(parts: seq<bytes>) {
    forall k :: 0 <= k < |parts| ==> JsonLexer.StringBody(parts[k])
  }

  /** A completed call: valid JSON, and exactly the fragments reported before, unescaped and joined. */
  ghost predicate Completes(calls: seq<Call>, p: nat)
    requires p < |calls| && calls[p].OnArgsComplete?
  {
    var parts := Fragments(calls[..p], calls[p].index);
    && IsJson(calls[p].text)
    && AllStringBodies(parts) && parts != []
    && Unescaped(Concat(parts)) == Some(calls[p].text)
    && (forall k :: 0 <= k < |parts| ==> Unescaped(parts[k]).Some?)
    && calls[p].text == Concat(UnescapeAll(parts))
  }

  /** Every completion is justified, and completions come in strictly increasing index order. */
  ghost predicate Orderly(calls: seq<Call>) {
    && (forall p :: 0 <= p < |calls| && calls[p].OnArgsComplete? ==> Completes(calls, p))
    && (forall p, q :: 0 <= p < q < |calls| && calls[p].OnArgsComplete? && calls[q].OnArgsComplete?
          ==> calls[p].index < calls[q].index)
  }
}
