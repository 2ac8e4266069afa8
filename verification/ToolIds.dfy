/**
 The tool loop fed by the reader of whole completions: in every request, each assistant message is followed by one
 tool message per call in its raw `tool_calls` text, under the id that stands in that text.
 */
module ToolIds {
  import opened Bytes
  import opened JsonTree
  import opened Jstok
  import opened Navigation
  import opened JsonWriter
  import opened ChatChunk
  import opened TurnHash
  import opened ToolLoop
  import opened ChatResponse

  /** The id of the `i`-th call in the text of an array. */
  function IdInText(text: bytes, i: nat): Span
    requires Tokenized(text).Some?
  {
    var toks := Tokenized(text).value;
    AsSpan(StringAt(text, toks, ElementAt(toks, 0, i), ID))
  }

  /** The answers are one tool message per call in the text of `m`, in order and under the ids given there. */
  ghost predicate AnswersItsCalls(m: Message, answers: seq<Message>) {
    && m.role == Assistant && m.callsJson.Of?
    && var toks := Tokenized(m.callsJson.text);
    && toks.Some? && KindAt(toks.value, 0, Kind.Array) && toks.value[0].size == |answers|
    && forall i :: 0 <= i < |answers| ==>
         answers[i].role == Tool && answers[i].callId == IdInText(m.callsJson.text, i)
  }

  /** Assistant messages, each followed by the answers to its own calls. */
  ghost predicate Paired(ms: seq<Message>) {
    ms == [] || exists k :: 0 <= k < |ms| && Paired(ms[..k]) && AnswersItsCalls(ms[k], ms[k + 1..])
  }

  /** Every reply in the log was read from the text of a completion. */
  ghost predicate Heard(log: seq<Action>) {
    forall p :: 0 <= p < |log| && log[p].Posted? && log[p].reply.Some? ==> WasRead(log[p].reply.value)
  }

  lemma TurnIsAnswered(x: Exchange)
    requires Complete(x) && WasRead(x.reply) && x.reply.callsJson.Of?
    ensures AnswersItsCalls(AssistantMessage(x.reply), Answers(x.reply.calls, x.outputs))
  {
    hide CallsAt, MemberAt, StringAt, ElementAt, Tokenized, WasRead, KindAt;
    ReadRepliesHoldTheirCalls(x.reply);
    var text, r := x.reply.callsJson.text, x.reply;
    var toks := Tokenized(text).value;
    forall i | 0 <= i < |r.calls|
      ensures ToolMessage(r.calls[i], x.outputs[i]).callId == IdInText(text, i)
    {
      assert CallAt(text, toks, ElementAt(toks, 0, i)) == r.calls[i];
    }
  }

  lemma ReadRepliesHoldTheirCalls(r: Reply)
    requires WasRead(r) && r.callsJson.Of?
    ensures HoldsCalls(r.callsJson.text, r.calls)
  {
    hide ResponseOf, HoldsCalls;
    var json :| ResponseOf(json) == Some(r);
    RawCallsAgree(json);
  }

  lemma OneMorePair(before: seq<Message>, m: Message, answers: seq<Message>)
    requires Paired(before) && AnswersItsCalls(m, answers)
    ensures Paired(before + ([m] + answers))
  {
    hide AnswersItsCalls;
    var ms, k := before + ([m] + answers), |before|;
    assert ms[..k] == before && ms[k] == m && ms[k + 1..] == answers;
  }

  lemma {:induction false} RequestIsPaired(initial: seq<Message>, turns: seq<Exchange>)
    requires AllComplete(turns)
    requires forall i :: 0 <= i < |turns| ==> WasRead(turns[i].reply) && turns[i].reply.callsJson.Of?
    ensures initial <= Request(initial, turns) && Paired(Request(initial, turns)[|initial|..])
  {
    hide WasRead, AnswersItsCalls, AssistantMessage, Answers, Paired;
    if turns != [] {
      var n := |turns| - 1;
      var front, x := turns[..n], turns[n];
      assert Complete(x);
      RequestIsPaired(initial, front);
      TurnIsAnswered(x);
      var before := Request(initial, front)[|initial|..];
      var m, answers := AssistantMessage(x.reply), Answers(x.reply.calls, x.outputs);
      OneMorePair(before, m, answers);
      assert Request(initial, turns)[|initial|..] == before + ([m] + answers);
    } else {
      assert initial[|initial|..] == [];
      NothingIsPaired();
    }
  }

  lemma NothingIsPaired()
    ensures Paired([])
  {
  }

  /** The replies of the finished turns stand in the log. */
  lemma {:induction false} TurnsAreHeard(initial: seq<Message>, turns: seq<Exchange>, rest: seq<Action>)
    requires AllComplete(turns) && Heard(Log(initial, turns) + rest)
    ensures forall i :: 0 <= i < |turns| ==> WasRead(turns[i].reply)
    decreases |turns|
  {
    hide WasRead, Request;
    if turns != [] {
      var n := |turns| - 1;
      var front, x := turns[..n], turns[n];
      assert Complete(x);
      var more := [Polled(false), Posted(Request(initial, front), Some(x.reply))] + Dispatches(x.reply.calls, x.outputs);
      var log := Log(initial, turns) + rest;
      assert log == Log(initial, front) + (more + rest);
      assert log[|Log(initial, front)| + 1] == more[1];
      TurnsAreHeard(initial, front, more + rest);
    }
  }

  lemma FaithfulIsHeard(env: Env, log: seq<Action>)
    requires Faithful(env, log)
    requires forall before, ms :: env.chat(before, ms).Some? ==> WasRead(env.chat(before, ms).value)
    ensures Heard(log)
  {
    hide WasRead;
    forall p | 0 <= p < |log| && log[p].Posted? && log[p].reply.Some?
      ensures WasRead(log[p].reply.value)
    {
      assert Genuine(env, log[..p], log[p]);
      assert env.chat(log[..p], log[p].messages).Some?;
    }
  }

  /**
   Main result. When every reply is read from the text of a completion, every request of a run is the initial
   conversation followed by assistant messages, each answered by exactly one tool message per call in the text that is
   sent back, in order and under the ids that stand in that text.
   */
  lemma EveryCallIsAnsweredByItsId(env: Env, limits: Limits, initial: seq<Message>)
    requires forall before, ms :: env.chat(before, ms).Some? ==> WasRead(env.chat(before, ms).value)
    ensures var posts := Posts(LogOf(Run(env, limits, initial)));
      forall k :: 0 <= k < |posts| ==> Copies(initial) <= posts[k] && Paired(posts[k][|initial|..])
  {
    hide WasRead, Run, TurnsFine, Request, Log, Paired, Posts, EndLog, Genuine;
    var o := Run(env, limits, initial);
    var c := EveryRun(env, limits, initial);
    RunIsFaithful(env, limits, initial);
    if AllClean(initial) && limits.maxTurns > 0 {
      var all := Copies(initial);
      FaithfulIsHeard(env, o.log);
      TurnsAreHeard(all, c.turns, EndLog(Request(all, c.turns), c.end));
      EveryPostIsClosed(limits, all, o, c);
      FinishedTurnsHaveCalls(limits, c.turns);
      forall k | 0 <= k < |Posts(o.log)|
        ensures all <= Posts(o.log)[k] && Paired(Posts(o.log)[k][|initial|..])
      {
        RequestIsPaired(all, c.turns[..k]);
      }
    } else {
      NoPosts([]);
    }
  }

  lemma FinishedTurnsHaveCalls(limits: Limits, turns: seq<Exchange>)
    requires TurnsFine(limits, turns)
    ensures forall i :: 0 <= i < |turns| ==> turns[i].reply.callsJson.Of?
  {
    hide Within, ArgsFine, Hash, Hashable;
    forall i | 0 <= i < |turns|
      ensures turns[i].reply.callsJson.Of?
    {
      assert TurnFine(limits, turns, i);
    }
  }
}
