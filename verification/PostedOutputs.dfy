/**
 What a tool answered, on the wire: every request of a run that is behind the answer holds it as the content of a tool
 message, and its JSON value is the output.
 */
module PostedOutputs {
  import opened Bytes
  import Jstok
  import opened Navigation
  import opened Places
  import opened JsonWriter
  import opened ChatChunk
  import opened ChatRequest
  import opened ChatResponse
  import opened TurnHash
  import opened ToolLoop
  import opened ToolLoopLog
  import ToolIds
  import PostedIds
  import T = ToolCallsRoundTrip

  // --- what is posted can be written ----------------------------------------------------------------------

  lemma AppendSplices(a: seq<Message>, b: seq<Message>)
    requires PostedIds.AllSplice(a) && PostedIds.AllSplice(b)
    ensures PostedIds.AllSplice(a + b)
  {
    hide Splices;
  }

  lemma NewSplices(a: Action)
    requires a.Posted? && a.reply.Some? ==> WasRead(a.reply.value)
    ensures PostedIds.AllSplice(Told([a]))
  {
    hide WasRead, OneContainer;
    assert [a][..0] == [] && Told([]) == [];
    if a.Posted? && a.reply.Some? && a.reply.value.finish == ToolCalls {
      AssistantMessageIs(a.messages, a.reply.value);
      if a.reply.value.callsJson.Of? { PostedIds.AssistantSplices(a.reply.value); }
    }
  }

  lemma {:induction false} ToldSplices(log: seq<Action>)
    requires ToolIds.Heard(log)
    ensures PostedIds.AllSplice(Told(log))
    decreases |log|
  {
    hide WasRead, PostedIds.AllSplice, Told;
    if log == [] {
      NothingSplices();
    } else {
      var n := |log| - 1;
      ToldSplices(log[..n]);
      NewSplices(log[n]);
      AppendSplices(Told(log[..n]), Told([log[n]]));
      ToolLoopLog.OneMore(log[..n], log[n]);
      assert log == log[..n] + [log[n]];
    }
  }

  lemma NothingSplices()
    ensures PostedIds.AllSplice(Told([]))
  {
  }

  // --- on the wire ----------------------------------------------------------------------------------------

  /** The object at token `e` is a tool message whose content has this value. */
  predicate IsToolOutput(body: bytes, toks: seq<Jstok.Tok>, e: int, out: bytes) {
    && KindAt(toks, e, Jstok.Kind.Object) && StringAt(body, toks, e, Ascii("role")) == Some(Ascii("tool"))
    && T.Recovers(body, toks, MemberAt(body, toks, e, Ascii("content")), out)
  }

  ghost predicate IsOutputIn(body: bytes, count: nat, toks: seq<Jstok.Tok>, j: nat, out: bytes) {
    T.ReadAsArray(body, count, toks) && IsToolOutput(body, toks, ElementAt(toks, 0, j), out)
  }

  /** The posted array, parsed, has such an object at index `j`. */
  ghost predicate OutputOnTheWire(ms: seq<Message>, j: nat, out: bytes) {
    exists toks :: IsOutputIn(ArrayText(MessageTexts(ms)), |ms|, toks, j, out)
  }

  lemma ReadsAsTool(json: bytes, toks: seq<Jstok.Tok>, e: int, m: Message)
    requires ReadsAs(json, toks, e, m) && m.role == Tool && m.json.Null? && m.content.Of?
    ensures IsToolOutput(json, toks, e, m.content.text)
  {
    hide StringAt, MemberAt, T.Recovers, ReadsCalls, ReadsString, KindAt;
    assert Ascii("role") == ROLE && Ascii("content") == CONTENT;
  }

  lemma OutputReads(ms: seq<Message>, j: nat, c: Call, out: bytes)
    requires PostedIds.AllSplice(ms) && CarriesOutput(ms, j, c, out)
    ensures OutputOnTheWire(ms, j, out)
  {
    hide Splices, ReadsAs, T.ReadAsArray, MessageTexts, ElementAt, IsToolOutput;
    var toks := MessagesReadBack(ms);
    var body := ArrayText(MessageTexts(ms));
    ReadsAsTool(body, toks, ElementAt(toks, 0, j), ms[j]);
    assert IsOutputIn(body, |ms|, toks, j, out);
  }

  lemma LogFaithful(env: Env, limits: Limits, all: seq<Message>, log: seq<Action>, rc: Rc)
    requires Went(env, limits, all, log, rc)
    ensures Faithful(env, log)
  {
    hide Went, Follows, Genuine, Ends;
    forall p | 0 <= p < |log|
      ensures Genuine(env, log[..p], log[p])
    {
      WentAt(env, limits, all, log, rc, p);
    }
  }

  lemma HeardBefore(log: seq<Action>, p: nat)
    requires ToolIds.Heard(log) && p <= |log|
    ensures ToolIds.Heard(log[..p])
  {
    hide WasRead;
  }

  /**
   Main result. When every reply is read from the text of a completion and what the initial messages splice is JSON,
   every request of a run holds the output of every call that was answered before it: in the place of this call, as the
   content of a tool message, whose JSON value is the output.
   */
  lemma EveryOutputIsPosted(env: Env, limits: Limits, initial: seq<Message>, log: seq<Action>, rc: Rc, q: nat, p: nat)
    requires forall before, ms :: env.chat(before, ms).Some? ==> WasRead(env.chat(before, ms).value)
    requires PostedIds.AllSplice(Copies(initial))
    requires Run(env, limits, initial) == Stop(rc, log)
    requires q < p < |log| && log[p].Posted? && log[q].Dispatched? && log[q].output.Some?
    ensures OutputOnTheWire(log[p].messages, PlaceOf(initial, log, q), log[q].output.value)
  {
    hide WasRead, Run, Went, PostedIds.AllSplice, Starts, ToolIds.Heard, Faithful, CarriesOutput, CarriesReply, Follows,
      PlaceOf, OutputOnTheWire;
    var all := Copies(initial);
    RunExactly(env, limits, initial, rc, log);
    LogFaithful(env, limits, all, log, rc);
    ToolIds.FaithfulIsHeard(env, log);
    HeardBefore(log, p);
    ToldSplices(log[..p]);
    OutputsArePosted(env, limits, initial, log, rc, q, p);
    WentAt(env, limits, all, log, rc, p);
    FollowsPost(all, log[..p], log[p]);
    AppendSplices(all, Told(log[..p]));
    OutputReads(log[p].messages, PlaceOf(initial, log, q), log[q].call, log[q].output.value);
  }
}
