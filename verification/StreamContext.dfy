/**
 The stream handler of src/llm.c in its own form: growing argument buffers (include/llm/internal.h), tool-call
 accumulators (src/tools_accum.c) and the stream context, each tied to the functions of `StreamTools`.
 */
module StreamContext {
  import opened Bytes
  import opened Jstok
  import opened JstokParser
  import opened Unescape
  import opened ChatChunk
  import opened StreamTools

  /** `struct growbuf`; its capacity is the length of the array. */
  class GrowBuf {
    var data: array<byte>
    var len: nat

    ghost predicate Valid()
      reads this
    {
      len <= data.Length
    }

    ghost function Contents(): bytes
      requires Valid()
      reads this, data
    {
      data[..len]
    }

    constructor (initial: nat)
      ensures Valid() && Contents() == [] && data.Length == initial && fresh(data)
    {
      data := new byte[initial](i => 0);
      len := 0;
    }

    /** Doubles the capacity until `needed` fits, but not beyond a limit. */
    method NextCap(needed: nat, max: nat) returns (cap: nat)
      requires data.Length < needed && (max != 0 ==> needed <= max)
      ensures cap >= needed && (max != 0 ==> cap <= max)
      ensures cap == max || (2 * data.Length <= cap && (cap == 64 || cap < 2 * needed))
    {
      cap := if data.Length != 0 then data.Length * 2 else 64;
      while cap < needed
        invariant cap > 0 && 2 * data.Length <= cap && (cap == 64 || cap < 2 * needed)
        decreases needed - cap
      {
        cap := cap * 2;
      }
      if max != 0 && cap > max {
        cap := max;
      }
    }

    /** `growbuf_append`: all or nothing, and never beyond a limit that the buffer was within. */
    method Append(s: bytes, max: nat) returns (ok: bool)
      requires Valid()
      modifies this, data
      ensures Valid() && (data == old(data) || fresh(data))
      ensures ok <==> s == [] || max == 0 || old(len) + |s| <= max
      ensures Contents() == if ok then old(Contents()) + s else old(Contents())
      ensures max != 0 && old(data.Length) <= max ==> data.Length <= max
    {
      if |s| == 0 { return true; }
      if max != 0 && len + |s| > max { return false; }
      ghost var before := Contents();
      if len + |s| > data.Length {
        var cap := NextCap(len + |s|, max);
        var moved := new byte[cap](i => 0);
        forall k | 0 <= k < len {
          moved[k] := data[k];
        }
        assert moved[..len] == before;
        data := moved;
      }
      forall k | 0 <= k < |s| {
        data[len + k] := s[k];
      }
      assert data[..len + |s|] == before + s;
      len := len + |s|;
      return true;
    }

    /** `unescape_json_string_inplace` */
    method UnescapeInPlace() returns (ok: bool)
      requires Valid()
      modifies this`len, data
      ensures Valid()
      ensures ok <==> old(len) <= INT_MAX && Unescaped(old(Contents())).Some?
      ensures ok ==> Contents() == Unescaped(old(Contents())).value
    {
      hide Unescaped;
      if len > INT_MAX { return false; }
      ghost var text := Contents();
      assert data[0..len] == text;
      UnescapedShrinks(text);
      var n;
      ok, n := UnescapeInto(data, Tok(Kind.String, 0, len, 0), data, len);
      if ok { len := n; }
    }
  }

  /** `validate_json_span` */
  method Validate(text: bytes) returns (ok: bool)
    ensures ok == IsJson(text)
  {
    if |text| == 0 || |text| > INT_MAX { return false; }
    var parser := new Parser();
    var needed := parser.Parse(Some(text), null, 0);
    return needed.Tokens? && needed.n > 0;
  }

  class Accumulator {
    var id: Option<bytes>
    var name: Option<bytes>
    const args: GrowBuf
    var active: bool
    var sawArgs: bool
    var frozen: bool

    ghost predicate Valid()
      reads this, args
    {
      args.Valid()
    }

    ghost function Now(): Acc
      requires Valid()
      reads this, args, args.data
    {
      Acc(id, name, args.Contents(), active, sawArgs, frozen)
    }

    /** `accum_init` */
    constructor ()
      ensures Valid() && Now() == NEW_ACC && fresh(args) && fresh(args.data)
    {
      id, name, active, sawArgs, frozen := None, None, false, false, false;
      args := new GrowBuf(1024);
    }

    /** `accum_feed_delta` */
    method FeedDelta(d: ToolDelta, maxArgs: nat) returns (ok: bool)
      requires Valid()
      modifies this, args, args.data
      ensures Valid() && (args.data == old(args.data) || fresh(args.data))
      ensures Fed(Now(), ok) == Feed(old(Now()), d, maxArgs)
    {
      if frozen { return false; }
      active := true;
      if id.None? { id := d.id; }
      if name.None? { name := d.name; }
      if d.fragment.Some? {
        sawArgs := true;
        ok := args.Append(d.fragment.value, maxArgs);
        return;
      }
      return true;
    }

    /** One round of the loop of `finalize_tool_calls`. */
    method Complete() returns (text: Option<bytes>)
      requires Valid()
      modifies this`frozen, args`len, args.data
      ensures Valid() && text == Arguments(old(Now()))
      ensures text.Some? ==> Now() == old(Now()).(frozen := true, args := text.value)
    {
      hide Unescaped, IsJson;
      frozen := true;
      if !sawArgs { return None; }
      var ok := args.UnescapeInPlace();
      if !ok { return None; }
      var text0 := args.data[..args.len];
      ok := Validate(text0);
      if !ok { return None; }
      return Some(text0);
    }
  }

  /** Everything the accumulator with index `i` owns. */
  ghost predicate Owns(owner: map<object, nat>, a: Accumulator, i: nat)
    reads owner.Keys
  {
    && a in owner && owner[a] == i && a.args in owner && owner[a.args] == i
    && a.args.data in owner && owner[a.args.data] == i && a.Valid()
  }

  /** The accumulators have these values; no two of them share an object, for each object has one owner. */
  ghost predicate Hold(owner: map<object, nat>, accums: seq<Accumulator>, accs: seq<Acc>)
    reads owner.Keys
  {
    && |accums| == |accs|
    && forall i :: 0 <= i < |accums| ==> Owns(owner, accums[i], i) && accums[i].Now() == accs[i]
  }

  /** `struct stream_ctx`; the calls into the host are recorded in order. */
  class Context {
    const cfg: Config
    var accums: seq<Accumulator>
    var finalized: bool
    var sawDone: bool
    var protocolError: bool
    var error: Error
    ghost var owner: map<object, nat>
    ghost var accs: seq<Acc>
    ghost var calls: seq<Call>

    ghost predicate Valid()
      reads this, owner.Keys
    {
      this !in owner && (protocolError || Hold(owner, accums, accs))
    }

    ghost function Now(): Stream
      reads this
    {
      Stream(if protocolError then [] else accs, finalized, sawDone, protocolError, error, calls)
    }

    constructor (config: Config)
      ensures cfg == config && Valid() && Now() == NEW_STREAM && owner == map[]
    {
      cfg, accums, finalized, sawDone, protocolError, error := config, [], false, false, false, NoError;
      owner, accs, calls := map[], [], [];
    }

    /** `stream_set_error` */
    method SetError(e: Error)
      requires Valid()
      modifies this`error
      ensures Valid() && Now() == StreamTools.SetError(old(Now()), e)
    {
      if error == NoError { error := e; }
    }

    /** Latches the protocol error. */
    method Break()
      requires this !in owner
      modifies this`protocolError, this`error
      ensures Valid() && Now() == StreamTools.Break(old(Now()))
    {
      protocolError := true;
      SetError(Failed);
    }

    /** One fresh accumulator more. */
    method AddOne()
      requires Valid() && !protocolError
      modifies this`accums, this`accs, this`owner
      ensures Valid() && accs == old(accs) + [NEW_ACC] && |accums| == |accs|
      ensures fresh(owner.Keys - old(owner.Keys))
    {
      hide Accumulator.Now, Accumulator.Valid, GrowBuf.Contents, GrowBuf.Valid;
      var a := new Accumulator();
      accums := accums + [a];
      accs := accs + [NEW_ACC];
      owner := owner[a := |accums| - 1][a.args := |accums| - 1][a.args.data := |accums| - 1];
    }

    /** Grows the array of accumulators to `n` elements. */
    method Grow(n: nat)
      requires Valid() && !protocolError && |accums| < n
      modifies this`accums, this`accs, this`owner
      ensures Valid() && accs == Extend(old(accs), n) && |accums| == n
      ensures fresh(owner.Keys - old(owner.Keys))
    {
      while |accums| < n
        invariant |accums| <= n && Valid() && |accums| == |accs|
        invariant accs == Extend(old(accs), |accums|)
        invariant fresh(owner.Keys - old(owner.Keys))
        decreases n - |accums|
      {
        AddOne();
      }
    }

    method Feed(d: ToolDelta) returns (ok: bool)
      requires Valid() && !protocolError && d.index < |accums|
      modifies this`accs, this`owner, owner.Keys
      ensures accums == old(accums) && Valid() && |old(accs)| == |accums|
      ensures var f := StreamTools.Feed(old(accs)[d.index], d, cfg.maxArgs);
        ok == f.ok && accs == old(accs)[d.index := f.acc]
      ensures fresh(owner.Keys - old(owner.Keys))
    {
      hide StreamTools.Feed, Accumulator.Now, Accumulator.Valid, GrowBuf.Contents, GrowBuf.Valid;
      var acc := accums[d.index];
      ok := acc.FeedDelta(d, cfg.maxArgs);
      accs := accs[d.index := acc.Now()];
      owner := owner[acc.args.data := d.index];
    }

    method Say(more: seq<Call>)
      requires Valid()
      modifies this`calls
      ensures Valid() && Now() == Notify(old(Now()), more)
    {
      calls := calls + more;
    }

    /** Makes room for the accumulator with this index. */
    method Reach(index: nat) returns (ok: bool)
      requires Valid() && !protocolError
      modifies this`accums, this`accs, this`owner, this`protocolError, this`error
      ensures Valid() && ok == (index < |old(accs)| || index < cfg.room)
      ensures if ok then !protocolError && Now() == old(Now()).(accs := Extend(old(accs), index + 1))
              else Now() == StreamTools.Break(old(Now()))
      ensures ok ==> index < |accums|
      ensures fresh(owner.Keys - old(owner.Keys))
    {
      hide Extend, Hold;
      SameCount();
      if index >= |accums| {
        if index >= cfg.room {
          Break();
          return false;
        }
        Grow(index + 1);
        SameCount();
      }
      return true;
    }

    /** One tool-call delta of an event. */
    method OnTool(d: ToolDelta)
      requires Valid() && !protocolError
      modifies this`accums, this`accs, this`owner, this`protocolError, this`error, this`calls, owner.Keys
      ensures Valid() && Now() == ToolStep(cfg, old(Now()), d)
      ensures fresh(owner.Keys - old(owner.Keys))
    {
      hide StreamTools.Feed, Extend, Hold, ToolStep, DeltaCalls, StreamTools.Break;
      ToolStepIs(cfg, Now(), d);
      DeltaCallsAre(calls, d);
      var ok := Reach(d.index);
      if !ok { return; }
      Say([OnToolDelta(d)]);
      ok := Feed(d);
      if d.fragment.Some? {
        Say([OnFragment(d.index, d.fragment.value)]);
      }
      if !ok { Break(); }
    }

    /** The tool-call deltas of an event, until one breaks the stream. */
    method OnTools(tools: seq<ToolDelta>)
      requires Valid() && !protocolError
      modifies this`accums, this`accs, this`owner, this`protocolError, this`error, this`calls, owner.Keys
      ensures Valid() && Now() == ToolSteps(cfg, old(Now()), tools)
      ensures fresh(owner.Keys - old(owner.Keys))
    {
      hide Hold, ToolStep;
      var i := 0;
      assert tools[0..] == tools;
      while i < |tools| && !protocolError
        invariant i <= |tools| && Valid() && fresh(owner.Keys - old(owner.Keys))
        invariant ToolSteps(cfg, old(Now()), tools) == ToolSteps(cfg, Now(), tools[i..])
      {
        assert tools[i..][0] == tools[i] && tools[i..][1..] == tools[i + 1..];
        OnTool(tools[i]);
        i := i + 1;
      }
    }

    method CompleteOne(i: nat) returns (text: Option<bytes>)
      requires Valid() && !protocolError && i < |accums|
      modifies this`accs, this`protocolError, this`error, owner.Keys
      ensures Valid() && |old(accs)| == |accums| && text == Arguments(old(accs)[i])
      ensures text.Some? ==> !protocolError && accs == old(accs)[i := old(accs)[i].(frozen := true, args := text.value)]
      ensures text.None? ==> protocolError && error == (if old(error) == NoError then Failed else old(error))
      ensures text.Some? ==> error == old(error)
    {
      hide Arguments, Accumulator.Now, GrowBuf.Contents;
      var acc := accums[i];
      text := acc.Complete();
      if text.None? {
        Break();
      } else {
        accs := accs[i := acc.Now()];
      }
    }

    /** `finalize_tool_calls`, with the error latched as both of its callers do. */
    method FinalizeCalls() returns (ok: bool)
      requires Valid() && !protocolError
      modifies this`accs, this`finalized, this`protocolError, this`error, this`calls, owner.Keys
      ensures Valid() && Now() == Finalize(old(Now())) && ok == !protocolError
    {
      hide Hold, Arguments, FinalizeFrom;
      if finalized { return true; }
      finalized := true;
      ghost var start := Now();
      var i := 0;
      SameCount();
      while i < |accums|
        invariant i <= |accums| == |accs| && Valid() && !protocolError && finalized
        invariant FinalizeFrom(start, 0) == FinalizeFrom(Now(), i)
      {
        ActiveIs(i);
        FinalizeRound(Now(), i);
        if accums[i].active {
          var text := CompleteOne(i);
          if text.None? { return false; }
          Say([OnArgsComplete(i, text.value)]);
        }
        SameCount();
        i := i + 1;
      }
      FinalizeEnds(Now(), i);
      return true;
    }

    lemma SameCount()
      requires Valid() && !protocolError
      ensures |accums| == |accs|
    {
    }

    lemma ActiveIs(i: nat)
      requires Valid() && !protocolError && i < |accums|
      ensures i < |accs| && accums[i].active == accs[i].active
    {
      assert accums[i].Now() == accs[i];
    }

    lemma TextCallsAre(before: seq<Call>, chunk: Chunk)
      ensures var a := if chunk.delta.content.Some? then before + [OnContent(chunk.delta.content.value)] else before;
        var b := if chunk.delta.reasoning.Some? then a + [OnReasoning(chunk.delta.reasoning.value)] else a;
        before + TextCalls(cfg, chunk) == if cfg.usage && chunk.usage.Some? then b + [OnUsage(chunk.usage.value)] else b
    {
    }

    /** The part of `on_sse_event` behind the parser. */
    method OnParsed(chunk: Chunk)
      requires Valid() && !protocolError
      modifies this`accums, this`accs, this`owner, this`finalized, this`protocolError, this`error, this`calls, owner.Keys
      ensures Valid() && Now() == OnChunk(cfg, old(Now()), chunk)
      ensures fresh(owner.Keys - old(owner.Keys))
    {
      hide Hold, ToolSteps, Finalize;
      if chunk.delta.content.Some? { Say([OnContent(chunk.delta.content.value)]); }
      if chunk.delta.reasoning.Some? { Say([OnReasoning(chunk.delta.reasoning.value)]); }
      if cfg.usage && chunk.usage.Some? { Say([OnUsage(chunk.usage.value)]); }
      TextCallsAre(old(calls), chunk);
      OnTools(chunk.delta.tools);
      if protocolError { return; }
      if chunk.delta.finish != Unknown {
        if chunk.delta.finish == ToolCalls {
          var ok := FinalizeCalls();
          if !ok { return; }
        }
        Say([OnFinish(chunk.delta.finish)]);
      }
    }

    /** `on_sse_event`; it never stops the parser. */
    method OnSseEvent(data: bytes) returns (more: bool)
      requires Valid()
      modifies this`accums, this`accs, this`owner, this`finalized, this`sawDone, this`protocolError, this`error, this`calls, owner.Keys
      ensures Valid() && Now() == OnEvent(cfg, old(Now()), data) && more
      ensures fresh(owner.Keys - old(owner.Keys))
    {
      hide Hold, OnChunk, ChunkOf;
      if protocolError { return true; }
      if sawDone { return true; }
      if data == DONE {
        sawDone := true;
        return true;
      }
      if |data| == 0 { return true; }
      var chunk := ReadChunk(data, cfg.choice);
      if chunk.Some? {
        OnParsed(chunk.value);
      }
      return true;
    }

    /**
     What `llm_chat_stream_with_headers_choice_ex` does after the transfer. No run ends both broken and done
     (`StreamSafety.EveryRunKeeps`).
     */
    method Finish(transferred: bool, sseOk: bool, http: nat) returns (err: Error)
      requires Valid() && !(protocolError && sawDone)
      modifies this`accs, this`finalized, this`protocolError, this`error, this`calls, owner.Keys
      ensures Valid() && Now() == EndOfStream(old(Now()), transferred)
      ensures err == StreamResult(Now(), transferred, sseOk, http)
    {
      hide Hold, Finalize;
      var ok := transferred;
      if ok && !finalized && sawDone {
        ok := FinalizeCalls();
      }
      if protocolError { ok := false; }
      if !ok { return if error != NoError then error else Failed; }
      if !sseOk { return if error != NoError then error else Failed; }
      if error != NoError { return error; }
      if http >= 400 { return Failed; }
      return NoError;
    }
  }

  lemma ToolStepIs(cfg: Config, s: Stream, d: ToolDelta)
    ensures ToolStep(cfg, s, d) ==
      if d.index >= |s.accs| && d.index >= cfg.room then Break(s)
      else
        var accs := Extend(s.accs, d.index + 1);
        var f := Feed(accs[d.index], d, cfg.maxArgs);
        var s1 := s.(accs := accs[d.index := f.acc], calls := s.calls + DeltaCalls(d));
        if f.ok then s1 else Break(s1)
  {
  }

  lemma DeltaCallsAre(before: seq<Call>, d: ToolDelta)
    ensures before + DeltaCalls(d) ==
      if d.fragment.None? then before + [OnToolDelta(d)]
      else before + [OnToolDelta(d)] + [OnFragment(d.index, d.fragment.value)]
  {
  }

  lemma FinalizeRound(s: Stream, i: nat)
    requires i < |s.accs|
    ensures FinalizeFrom(s, i) ==
      if !s.accs[i].active then FinalizeFrom(s, i + 1)
      else
        var text := Arguments(s.accs[i]);
        if text.None? then Break(s) else FinalizeFrom(CompleteAt(s, i, text.value), i + 1)
  {
  }

  lemma FinalizeEnds(s: Stream, i: nat)
    requires i >= |s.accs|
    ensures FinalizeFrom(s, i) == s
  {
  }
}
