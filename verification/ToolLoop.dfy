/**
 The bounded tool loop of src/llm.c: ask the model, run the tools it calls, send the results back, until it
 answers, an error occurs, the host aborts or a limit is reached.
 */
module ToolLoop {
  import opened Bytes
  import opened JsonWriter
  import opened ChatChunk
  import opened RepeatGuard
  import opened TurnHash

  datatype Role = System | User | Assistant | Tool

  datatype Message = Message(role: Role, content: Span, json: Span, callId: Span, name: Span, callsJson: Span)

  const NONE := Null(0)

  /** 0 is "no limit" for the argument bytes of a turn and the output bytes of all turns. */
  datatype Limits = Limits(maxTurns: nat, maxArgs: nat, maxOutput: nat)

  /** What the loop does to the outside, with the answers. */
  datatype Action =
    | Polled(stop: bool)
    | Posted(messages: seq<Message>, reply: Option<Reply>)
    | Dispatched(call: Call, output: Option<bytes>)

  /** The outside: its answers may depend on everything that happened so far. */
  datatype Env = Env(
    abort: seq<Action> -> bool,
    chat: (seq<Action>, seq<Message>) -> Option<Reply>,
    dispatch: (seq<Action>, Call) -> Option<bytes>)

  datatype Rc = Answered | Cancelled | Failed

  // --- messages -------------------------------------------------------------------------------------------

  /** A message the loop accepts: JSON content is not empty, and not beside plain content. */
  predicate Clean(m: Message) {
    && Usable(m.json)
    && (m.json.Of? ==> m.json.text != [] && m.content.Null?)
  }

  function Kept(s: Span): Span {
    if s.Of? then s else NONE
  }

  function Copy(m: Message): Message {
    Message(m.role, Kept(m.content), Kept(m.json), Kept(m.callId), m.name,
            if m.callsJson.Of? && m.callsJson.text != [] then m.callsJson else NONE)
  }

  function Copies(ms: seq<Message>): seq<Message> {
    seq(|ms|, i requires 0 <= i < |ms| => Copy(ms[i]))
  }

  /** The assistant's turn: its calls verbatim, content and reasoning joined. */
  function AssistantMessage(r: Reply): Message {
    Message(Assistant, if r.content.Of? || r.reasoning.Of? then Of(TextOf(r.content) + TextOf(r.reasoning)) else NONE,
            NONE, NONE, NONE, r.callsJson)
  }

  /** The result of one call, under the call's id. */
  function ToolMessage(c: Call, output: bytes): Message {
    Message(Tool, Of(output), NONE, Kept(c.id), NONE, NONE)
  }

  // --- the loop as a function -----------------------------------------------------------------------------

  function ArgsBytes(calls: seq<Call>): nat {
    if calls == [] then 0 else ArgsBytes(calls[..|calls| - 1]) + |TextOf(calls[|calls| - 1].args)|
  }

  predicate Within(total: nat, max: nat) {
    total <= SIZE_MAX && (max != 0 ==> total <= max)
  }

  predicate ArgsFine(limits: Limits, calls: seq<Call>) {
    && (forall i :: 0 <= i < |calls| ==> Usable(calls[i].name) && Usable(calls[i].args))
    && Within(ArgsBytes(calls), limits.maxArgs)
  }

  /** Whether the calls of a reply are run: they are there, another turn may follow, and nothing repeats. */
  predicate Acceptable(limits: Limits, turn: nat, hashes: seq<nat>, r: Reply) {
    && r.calls != [] && r.callsJson.Of? && r.callsJson.text != []
    && turn + 1 < limits.maxTurns
    && ArgsFine(limits, r.calls)
    && Hashable(r) && Hash(r) !in Window(hashes)
  }

  datatype State = State(history: seq<Message>, total: nat, hashes: seq<nat>, log: seq<Action>)

  datatype Outcome = Next(s: State) | Stop(rc: Rc, log: seq<Action>)

  /** One more call answered. */
  function WithOutput(s: State, c: Call, out: bytes): State {
    State(s.history + [ToolMessage(c, out)], s.total + |out|, s.hashes, s.log + [Dispatched(c, Some(out))])
  }

  /** Runs the calls from `i` on, in order. */
  function DispatchFrom(env: Env, limits: Limits, s: State, calls: seq<Call>, i: nat): Outcome
    decreases |calls| - i
  {
    if i >= |calls| then Next(s)
    else
      var out := env.dispatch(s.log, calls[i]);
      var log := s.log + [Dispatched(calls[i], out)];
      if out.None? || !Within(s.total + |out.value|, limits.maxOutput) then Stop(Failed, log)
      else
        DispatchFrom(env, limits, WithOutput(s, calls[i], out.value), calls, i + 1)
  }

  function TakeReply(env: Env, limits: Limits, s: State, turn: nat, r: Reply): Outcome {
    if r.finish != ToolCalls then Stop(Answered, s.log)
    else if !Acceptable(limits, turn, s.hashes, r) then Stop(Failed, s.log)
    else
      DispatchFrom(env, limits, State(s.history + [AssistantMessage(r)], s.total, s.hashes + [Hash(r)], s.log), r.calls, 0)
  }

  function Turn(env: Env, limits: Limits, s: State, turn: nat): Outcome {
    var stop := env.abort(s.log);
    var log := s.log + [Polled(stop)];
    if stop then Stop(Cancelled, log)
    else
      var reply := env.chat(log, s.history);
      var log1 := log + [Posted(s.history, reply)];
      if reply.None? then Stop(Failed, log1) else TakeReply(env, limits, s.(log := log1), turn, reply.value)
  }

  function Loop(env: Env, limits: Limits, s: State, turn: nat): Outcome
    decreases limits.maxTurns - turn
  {
    if turn >= limits.maxTurns then Stop(Answered, s.log)
    else
      var o := Turn(env, limits, s, turn);
      if o.Stop? then o else Loop(env, limits, o.s, turn + 1)
  }

  predicate AllClean(ms: seq<Message>) {
    forall i :: 0 <= i < |ms| ==> Clean(ms[i])
  }

  /** The loop is not even started without turns or with a bad message. */
  function Run(env: Env, limits: Limits, initial: seq<Message>): Outcome {
    if !AllClean(initial) || limits.maxTurns == 0 then Stop(Failed, [])
    else Loop(env, limits, State(Copies(initial), 0, [], []), 0)
  }

  // --- what a run looks like ------------------------------------------------------------------------------

  /** A finished turn: a reply with calls, and one output per call. */
  datatype Exchange = Exchange(reply: Reply, outputs: seq<bytes>)

  function Answers(calls: seq<Call>, outputs: seq<bytes>): seq<Message>
    requires |outputs| <= |calls|
  {
    seq(|outputs|, i requires 0 <= i < |outputs| => ToolMessage(calls[i], outputs[i]))
  }

  function Dispatches(calls: seq<Call>, outputs: seq<bytes>): seq<Action>
    requires |outputs| <= |calls|
  {
    seq(|outputs|, i requires 0 <= i < |outputs| => Dispatched(calls[i], Some(outputs[i])))
  }

  predicate Complete(x: Exchange) {
    |x.outputs| == |x.reply.calls|
  }

  predicate AllComplete(turns: seq<Exchange>) {
    forall i :: 0 <= i < |turns| ==> Complete(turns[i])
  }

  /** The closed conversation: per turn one assistant message, then one tool message per call, in order. */
  function Request(initial: seq<Message>, turns: seq<Exchange>): seq<Message>
    requires AllComplete(turns)
  {
    if turns == [] then initial
    else
      var x := turns[|turns| - 1];
      assert Complete(x);
      Request(initial, turns[..|turns| - 1]) + ([AssistantMessage(x.reply)] + Answers(x.reply.calls, x.outputs))
  }

  /** Everything done in the finished turns: poll, post, one dispatch per call in order. */
  function Log(initial: seq<Message>, turns: seq<Exchange>): seq<Action>
    requires AllComplete(turns)
  {
    if turns == [] then []
    else
      var front, x := turns[..|turns| - 1], turns[|turns| - 1];
      assert Complete(x);
      Log(initial, front)
      + ([Polled(false), Posted(Request(initial, front), Some(x.reply))] + Dispatches(x.reply.calls, x.outputs))
  }

  function OutputBytes(outputs: seq<bytes>): nat {
    |Concat(outputs)|
  }

  function TotalOutput(turns: seq<Exchange>): nat {
    if turns == [] then 0 else TotalOutput(turns[..|turns| - 1]) + OutputBytes(turns[|turns| - 1].outputs)
  }

  function Hashes(turns: seq<Exchange>): seq<nat> {
    seq(|turns|, i requires 0 <= i < |turns| => Hash(turns[i].reply))
  }

  /** What a finished turn satisfies, given the turns before it. */
  ghost predicate TurnFine(limits: Limits, turns: seq<Exchange>, i: nat)
    requires i < |turns|
  {
    && Complete(turns[i]) && turns[i].reply.finish == ToolCalls
    && Acceptable(limits, i, Hashes(turns)[..i], turns[i].reply)
  }

  /** What all finished turns together satisfy. */
  ghost predicate TurnsFine(limits: Limits, turns: seq<Exchange>) {
    && (forall i :: 0 <= i < |turns| ==> TurnFine(limits, turns, i))
    && Within(TotalOutput(turns), limits.maxOutput)
    && NineDistinct(Hashes(turns))
  }

  /** How a run ends after the finished turns: exactly these actions, with exactly this result. */
  datatype Ending =
    | Aborted
    | NoReply
    | Final(reply: Reply)
    | Refused(reply: Reply)
    | ToolFailed(reply: Reply, outputs: seq<bytes>, last: Option<bytes>)

  function EndRc(e: Ending): Rc {
    match e case Aborted => Cancelled case Final(_) => Answered case _ => Failed
  }

  ghost predicate EndingFine(limits: Limits, turns: seq<Exchange>, e: Ending) {
    && |turns| < limits.maxTurns
    && match e
       case Final(r) => r.finish != ToolCalls
       case Refused(r) => r.finish == ToolCalls && !Acceptable(limits, |turns|, Hashes(turns), r)
       case ToolFailed(r, outputs, last) =>
         && r.finish == ToolCalls && Acceptable(limits, |turns|, Hashes(turns), r) && |outputs| < |r.calls|
         && Within(TotalOutput(turns) + OutputBytes(outputs), limits.maxOutput)
         && (last.Some? ==> !Within(TotalOutput(turns) + OutputBytes(outputs) + |last.value|, limits.maxOutput))
       case _ => true
  }

  /** The actions of the last, unfinished turn. */
  function EndLog(request: seq<Message>, e: Ending): seq<Action>
    requires e.ToolFailed? ==> |e.outputs| < |e.reply.calls|
  {
    match e
    case Aborted => [Polled(true)]
    case NoReply => [Polled(false), Posted(request, None)]
    case Final(r) => [Polled(false), Posted(request, Some(r))]
    case Refused(r) => [Polled(false), Posted(request, Some(r))]
    case ToolFailed(r, outputs, last) =>
      [Polled(false), Posted(request, Some(r))] + Dispatches(r.calls, outputs) + [Dispatched(r.calls[|outputs|], last)]
  }

  // --- running the calls ----------------------------------------------------------------------------------

  lemma OneMoreOutput(calls: seq<Call>, outputs: seq<bytes>, out: bytes)
    requires |outputs| < |calls|
    ensures Answers(calls, outputs + [out]) == Answers(calls, outputs) + [ToolMessage(calls[|outputs|], out)]
    ensures Dispatches(calls, outputs + [out]) == Dispatches(calls, outputs) + [Dispatched(calls[|outputs|], Some(out))]
    ensures OutputBytes(outputs + [out]) == OutputBytes(outputs) + |out|
  {
    assert (outputs + [out])[..|outputs + [out]| - 1] == outputs;
  }

  /** The state after some of the calls of a turn that began in `s0`. */
  function After(s0: State, calls: seq<Call>, outputs: seq<bytes>): State
    requires |outputs| <= |calls|
  {
    State(s0.history + Answers(calls, outputs), s0.total + OutputBytes(outputs), s0.hashes, s0.log + Dispatches(calls, outputs))
  }

  lemma AfterMore(s0: State, calls: seq<Call>, outputs: seq<bytes>, out: bytes)
    requires |outputs| < |calls|
    ensures var s := After(s0, calls, outputs);
      After(s0, calls, outputs + [out]) == WithOutput(s, calls[|outputs|], out)
  {
    hide Answers, Dispatches, OutputBytes, ToolMessage;
    OneMoreOutput(calls, outputs, out);
    var m, d := [ToolMessage(calls[|outputs|], out)], [Dispatched(calls[|outputs|], Some(out))];
    assert s0.history + Answers(calls, outputs) + m == s0.history + (Answers(calls, outputs) + m);
    assert s0.log + Dispatches(calls, outputs) + d == s0.log + (Dispatches(calls, outputs) + d);
  }

  /** Either every call is answered within the budget, or the run ends at the first that is not. */
  lemma {:induction false} DispatchesInOrder(env: Env, limits: Limits, s0: State, calls: seq<Call>, outputs: seq<bytes>)
    returns (all: seq<bytes>, last: Option<bytes>)
    requires |outputs| <= |calls| && Within(s0.total + OutputBytes(outputs), limits.maxOutput)
    ensures |all| <= |calls| && Within(s0.total + OutputBytes(all), limits.maxOutput)
    ensures var o := DispatchFrom(env, limits, After(s0, calls, outputs), calls, |outputs|);
      if |all| == |calls| then o == Next(After(s0, calls, all))
      else
        && o == Stop(Failed, s0.log + Dispatches(calls, all) + [Dispatched(calls[|all|], last)])
        && (last.Some? ==> !Within(s0.total + OutputBytes(all) + |last.value|, limits.maxOutput))
    decreases |calls| - |outputs|
  {
    hide Answers, Dispatches, OutputBytes, ToolMessage, Within;
    all, last := outputs, None;
    if |outputs| < |calls| {
      var s := After(s0, calls, outputs);
      var out := env.dispatch(s.log, calls[|outputs|]);
      last := out;
      if out.Some? && Within(s.total + |out.value|, limits.maxOutput) {
        AfterMore(s0, calls, outputs, out.value);
        OneMoreOutput(calls, outputs, out.value);
        all, last := DispatchesInOrder(env, limits, s0, calls, outputs + [out.value]);
      }
    }
  }

  // --- whole runs -----------------------------------------------------------------------------------------

  /** The state between two turns says exactly what the finished turns did. */
  function Between(initial: seq<Message>, turns: seq<Exchange>): State
    requires AllComplete(turns)
  {
    State(Request(initial, turns), TotalOutput(turns), Hashes(turns), Log(initial, turns))
  }

  lemma OneMoreTurn(initial: seq<Message>, turns: seq<Exchange>, x: Exchange)
    requires AllComplete(turns) && Complete(x)
    ensures var more := turns + [x]; var s, t := Between(initial, turns), Between(initial, turns + [x]);
      && t.history == s.history + ([AssistantMessage(x.reply)] + Answers(x.reply.calls, x.outputs))
      && t.total == s.total + OutputBytes(x.outputs)
      && t.hashes == s.hashes + [Hash(x.reply)]
      && t.log == s.log + ([Polled(false), Posted(s.history, Some(x.reply))] + Dispatches(x.reply.calls, x.outputs))
  {
    hide Answers, Dispatches, OutputBytes, Hash, AssistantMessage;
    var more := turns + [x];
    assert more[..|more| - 1] == turns && more[|more| - 1] == x;
  }

  lemma HashesMore(turns: seq<Exchange>, x: Exchange, i: nat)
    requires i <= |turns|
    ensures Hashes(turns + [x]) == Hashes(turns) + [Hash(x.reply)]
    ensures Hashes(turns + [x])[..i] == Hashes(turns)[..i] && Hashes(turns)[..|turns|] == Hashes(turns)
  {
    hide Hash;
  }

  lemma FineBefore(limits: Limits, turns: seq<Exchange>, x: Exchange, i: nat)
    requires i < |turns| && TurnFine(limits, turns, i)
    ensures TurnFine(limits, turns + [x], i)
  {
    hide Acceptable, Hashes;
    HashesMore(turns, x, i);
    assert (turns + [x])[i] == turns[i];
  }

  lemma FineLast(limits: Limits, turns: seq<Exchange>, x: Exchange)
    requires Complete(x) && x.reply.finish == ToolCalls && Acceptable(limits, |turns|, Hashes(turns), x.reply)
    ensures TurnFine(limits, turns + [x], |turns|)
  {
    hide Acceptable, Hashes;
    HashesMore(turns, x, |turns|);
    assert (turns + [x])[|turns|] == x;
  }

  lemma NewHash(limits: Limits, turn: nat, hashes: seq<nat>, r: Reply)
    requires Acceptable(limits, turn, hashes, r) && NineDistinct(hashes)
    ensures NineDistinct(hashes + [Hash(r)])
  {
    AdmitDistinct(hashes, Hash(r));
  }

  lemma TotalMore(turns: seq<Exchange>, x: Exchange)
    ensures TotalOutput(turns + [x]) == TotalOutput(turns) + OutputBytes(x.outputs)
  {
    hide OutputBytes;
    var more := turns + [x];
    assert more[..|more| - 1] == turns && more[|more| - 1] == x;
  }

  lemma OneMoreFine(limits: Limits, turns: seq<Exchange>, x: Exchange)
    requires TurnsFine(limits, turns) && Complete(x) && x.reply.finish == ToolCalls
    requires Acceptable(limits, |turns|, Hashes(turns), x.reply)
    requires Within(TotalOutput(turns) + OutputBytes(x.outputs), limits.maxOutput)
    ensures TurnsFine(limits, turns + [x])
  {
    hide TurnFine, Acceptable, Hashes, NineDistinct, OutputBytes, TotalOutput, Within, Hash;
    var more := turns + [x];
    TotalMore(turns, x);
    HashesMore(turns, x, 0);
    NewHash(limits, |turns|, Hashes(turns), x.reply);
    forall i | 0 <= i < |more|
      ensures TurnFine(limits, more, i)
    {
      if i < |turns| {
        FineBefore(limits, turns, x, i);
      } else {
        FineLast(limits, turns, x);
      }
    }
  }

  /** Where a run went: the finished turns and how it ended. */
  datatype Course = Course(turns: seq<Exchange>, end: Ending)

  /** The run did exactly this, within the limits, with this result. */
  ghost predicate Took(limits: Limits, initial: seq<Message>, o: Outcome, c: Course) {
    && AllComplete(c.turns) && TurnsFine(limits, c.turns) && EndingFine(limits, c.turns, c.end)
    && o == Stop(EndRc(c.end), Log(initial, c.turns) + EndLog(Request(initial, c.turns), c.end))
  }

  /** One turn from a state between turns: it either ends the run or becomes a finished turn. */
  lemma OneTurn(env: Env, limits: Limits, initial: seq<Message>, turns: seq<Exchange>) returns (x: Exchange, end: Ending)
    requires AllComplete(turns) && TurnsFine(limits, turns) && |turns| < limits.maxTurns
    ensures var o := Turn(env, limits, Between(initial, turns), |turns|);
      if o.Next? then
        && Complete(x) && o.s == Between(initial, turns + [x]) && TurnsFine(limits, turns + [x])
        && |turns| + 1 < limits.maxTurns
      else Took(limits, initial, o, Course(turns, end))
  {
    hide TurnsFine, Acceptable, Hashes, Request, Log, TotalOutput, Answers, Dispatches, OutputBytes;
    hide AssistantMessage, Hash, DispatchFrom;
    var s := Between(initial, turns);
    var stop := env.abort(s.log);
    var log := s.log + [Polled(stop)];
    x := Exchange(Reply(Unknown, [], NONE, NONE, NONE), []);
    end := Aborted;
    if !stop {
      var reply := env.chat(log, s.history);
      var log1 := log + [Posted(s.history, reply)];
      assert log1 == s.log + [Polled(false), Posted(s.history, reply)];
      if reply.None? {
        end := NoReply;
      } else if reply.value.finish != ToolCalls {
        end := Final(reply.value);
      } else if !Acceptable(limits, |turns|, s.hashes, reply.value) {
        end := Refused(reply.value);
      } else {
        x, end := ToolTurn(env, limits, initial, turns, reply.value);
      }
    }
  }

  /** A turn whose calls are run. */
  lemma ToolTurn(env: Env, limits: Limits, initial: seq<Message>, turns: seq<Exchange>, r: Reply)
    returns (x: Exchange, end: Ending)
    requires AllComplete(turns) && TurnsFine(limits, turns) && |turns| < limits.maxTurns
    requires r.finish == ToolCalls && Acceptable(limits, |turns|, Hashes(turns), r)
    ensures var s := Between(initial, turns);
      var o := TakeReply(env, limits, s.(log := s.log + [Polled(false)] + [Posted(s.history, Some(r))]), |turns|, r);
      if o.Next? then
        && Complete(x) && o.s == Between(initial, turns + [x]) && TurnsFine(limits, turns + [x])
        && |turns| + 1 < limits.maxTurns
      else Took(limits, initial, o, Course(turns, end))
  {
    hide TurnsFine, Hashes, Request, Log, TotalOutput, Answers, Dispatches, OutputBytes;
    hide AssistantMessage, Hash, DispatchFrom, ArgsFine, Hashable, Window, Within;
    var s := Between(initial, turns);
    var posted := [Polled(false), Posted(s.history, Some(r))];
    assert s.log + [Polled(false)] + [Posted(s.history, Some(r))] == s.log + posted;
    var s0 := State(s.history + [AssistantMessage(r)], s.total, s.hashes + [Hash(r)], s.log + posted);
    NothingYet(s0, r.calls);
    WithinSoFar(limits, turns);
    var all, last := DispatchesInOrder(env, limits, s0, r.calls, []);
    x := Exchange(r, all);
    end := ToolFailed(r, all, last);
    if |all| == |r.calls| {
      OneMoreTurn(initial, turns, x);
      OneMoreFine(limits, turns, x);
      assert s0.history + Answers(r.calls, all) == s.history + ([AssistantMessage(r)] + Answers(r.calls, all));
      assert s0.log + Dispatches(r.calls, all) == s.log + (posted + Dispatches(r.calls, all));
    } else {
      assert s0.log + Dispatches(r.calls, all) + [Dispatched(r.calls[|all|], last)]
          == s.log + (posted + Dispatches(r.calls, all) + [Dispatched(r.calls[|all|], last)]);
    }
  }

  lemma NothingYet(s0: State, calls: seq<Call>)
    ensures After(s0, calls, []) == s0 && OutputBytes([]) == 0
  {
  }

  lemma WithinSoFar(limits: Limits, turns: seq<Exchange>)
    requires TurnsFine(limits, turns)
    ensures Within(TotalOutput(turns), limits.maxOutput)
  {
  }

  lemma {:induction false} LoopTakes(env: Env, limits: Limits, initial: seq<Message>, turns: seq<Exchange>) returns (c: Course)
    requires AllComplete(turns) && TurnsFine(limits, turns) && |turns| < limits.maxTurns
    ensures Took(limits, initial, Loop(env, limits, Between(initial, turns), |turns|), c)
    decreases limits.maxTurns - |turns|
  {
    hide TurnsFine, Took, Turn, Between;
    var x, end := OneTurn(env, limits, initial, turns);
    c := Course(turns, end);
    if Turn(env, limits, Between(initial, turns), |turns|).Next? {
      c := LoopTakes(env, limits, initial, turns + [x]);
    }
  }

  lemma NoTurnsFine(limits: Limits, initial: seq<Message>)
    ensures TurnsFine(limits, []) && Between(initial, []) == State(initial, 0, [], [])
  {
  }

  /**
   Main result. A run either is refused before anything happens, or it consists of finished turns and one last
   turn. Each finished turn polls, posts the closed conversation so far and runs every call of the reply in
   order; the last turn says why the run ended, and the result is a success exactly when it ended with a reply
   that asks for no tools. All limits hold throughout.
   */
  lemma EveryRun(env: Env, limits: Limits, initial: seq<Message>) returns (c: Course)
    ensures var o := Run(env, limits, initial);
      if AllClean(initial) && limits.maxTurns > 0 then Took(limits, Copies(initial), o, c) else o == Stop(Failed, [])
  {
    hide Took, TurnsFine, Between, Loop;
    c := Course([], Aborted);
    if AllClean(initial) && limits.maxTurns > 0 {
      NoTurnsFine(limits, Copies(initial));
      c := LoopTakes(env, limits, Copies(initial), []);
    }
  }

  // --- consequences ---------------------------------------------------------------------------------------

  /** The requests made, in order. */
  function Posts(log: seq<Action>): seq<seq<Message>> {
    if log == [] then []
    else
      var front, a := Posts(log[..|log| - 1]), log[|log| - 1];
      if a.Posted? then front + [a.messages] else front
  }

  lemma {:induction false} PostsAppend(a: seq<Action>, b: seq<Action>)
    ensures Posts(a + b) == Posts(a) + Posts(b)
    decreases |b|
  {
    if b == [] {
      assert a + b == a;
    } else {
      var n := |b| - 1;
      assert (a + b)[..|a + b| - 1] == a + b[..n];
      PostsAppend(a, b[..n]);
    }
  }

  lemma {:induction false} NoPosts(log: seq<Action>)
    requires forall i :: 0 <= i < |log| ==> !log[i].Posted?
    ensures Posts(log) == []
  {
    if log != [] {
      NoPosts(log[..|log| - 1]);
    }
  }

  /** A poll, a post and dispatches make one request. */
  lemma OnePost(request: seq<Message>, reply: Option<Reply>, rest: seq<Action>)
    requires forall i :: 0 <= i < |rest| ==> !rest[i].Posted?
    ensures Posts([Polled(false), Posted(request, reply)] + rest) == [request]
  {
    var a, b := [Polled(false)], [Posted(request, reply)];
    NoPosts(a);
    NoPosts(rest);
    assert [Polled(false), Posted(request, reply)] == a + b;
    assert Posts(b) == [request] by {
      assert b[..0] == [];
    }
    PostsAppend(a, b);
    PostsAppend(a + b, rest);
  }

  lemma {:induction false} LogPosts(initial: seq<Message>, turns: seq<Exchange>)
    requires AllComplete(turns)
    ensures |Posts(Log(initial, turns))| == |turns|
    ensures forall k :: 0 <= k < |turns| ==> Posts(Log(initial, turns))[k] == Request(initial, turns[..k])
  {
    hide Request, AssistantMessage, ToolMessage, Posts;
    if turns != [] {
      var n := |turns| - 1;
      var front, x := turns[..n], turns[n];
      LogPosts(initial, front);
      assert Complete(x);
      var rest := Dispatches(x.reply.calls, x.outputs);
      OnePost(Request(initial, front), Some(x.reply), rest);
      PostsAppend(Log(initial, front), [Polled(false), Posted(Request(initial, front), Some(x.reply))] + rest);
      forall k | 0 <= k < |turns|
        ensures Posts(Log(initial, turns))[k] == Request(initial, turns[..k])
      {
        if k < n {
          assert front[..k] == turns[..k];
        }
      }
    } else {
      NoPosts([]);
    }
  }

  lemma EndPosts(request: seq<Message>, e: Ending)
    requires e.ToolFailed? ==> |e.outputs| < |e.reply.calls|
    ensures Posts(EndLog(request, e)) == if e.Aborted? then [] else [request]
  {
    hide Posts;
    match e
    case Aborted =>
      NoPosts([Polled(true)]);
    case NoReply =>
      OnePost(request, None, []);
      assert [Polled(false), Posted(request, None)] + [] == EndLog(request, e);
    case Final(r) =>
      OnePost(request, Some(r), []);
      assert [Polled(false), Posted(request, Some(r))] + [] == EndLog(request, e);
    case Refused(r) =>
      OnePost(request, Some(r), []);
      assert [Polled(false), Posted(request, Some(r))] + [] == EndLog(request, e);
    case ToolFailed(r, outputs, last) =>
      var rest := Dispatches(r.calls, outputs) + [Dispatched(r.calls[|outputs|], last)];
      OnePost(request, Some(r), rest);
      assert [Polled(false), Posted(request, Some(r))] + rest == EndLog(request, e);
  }

  /** Every request posted is the closed conversation of the turns before it, and there are at most `maxTurns`. */
  lemma EveryPostIsClosed(limits: Limits, initial: seq<Message>, o: Outcome, c: Course)
    requires Took(limits, initial, o, c)
    ensures |Posts(o.log)| <= limits.maxTurns && |c.turns| <= |Posts(o.log)| <= |c.turns| + 1
    ensures forall k :: 0 <= k < |Posts(o.log)| ==> Posts(o.log)[k] == Request(initial, c.turns[..k])
  {
    hide Posts, Request, Log, EndLog, TurnsFine, Acceptable;
    LogPosts(initial, c.turns);
    EndPosts(Request(initial, c.turns), c.end);
    PostsAppend(Log(initial, c.turns), EndLog(Request(initial, c.turns), c.end));
    assert c.turns[..|c.turns|] == c.turns;
  }

  /** Nothing is done after the last allowed request: its calls are never run. */
  lemma LastRequestIsLast(limits: Limits, initial: seq<Message>, o: Outcome, c: Course)
    requires Took(limits, initial, o, c) && |Posts(o.log)| == limits.maxTurns
    ensures o.log != [] && o.log[|o.log| - 1].Posted?
  {
    hide Posts, Request, Log, TurnsFine;
    EveryPostIsClosed(limits, initial, o, c);
    LogPosts(initial, c.turns);
    EndPosts(Request(initial, c.turns), c.end);
    PostsAppend(Log(initial, c.turns), EndLog(Request(initial, c.turns), c.end));
  }

  /** A run succeeds exactly when the last thing that happened is a reply asking for no tools. */
  lemma SuccessIsAnAnswer(limits: Limits, initial: seq<Message>, o: Outcome, c: Course)
    requires Took(limits, initial, o, c)
    ensures o.log != []
    ensures var a := o.log[|o.log| - 1];
      o.rc == Answered <==> a.Posted? && a.reply.Some? && a.reply.value.finish != ToolCalls
  {
    hide Request, Log, TurnsFine;
  }

  /** Of any nine finished turns in a row no two are the same. */
  lemma NoTurnRepeats(limits: Limits, turns: seq<Exchange>, i: nat, j: nat)
    requires TurnsFine(limits, turns) && i < j < |turns| && j - i <= WINDOW
    ensures !SameTurn(turns[i].reply, turns[j].reply)
  {
    hide Hash, TurnFine;
    assert Hashes(turns)[i] == Hash(turns[i].reply) && Hashes(turns)[j] == Hash(turns[j].reply);
    if SameTurn(turns[i].reply, turns[j].reply) {
      RepeatHasSameHash(turns[i].reply, turns[j].reply);
      assert false;
    }
  }

  /** Null pointers have length 0, and the calls are a text or absent. */
  predicate Tidy(m: Message) {
    && Usable(m.content) && Usable(m.json) && Usable(m.callId)
    && (if m.callsJson.Of? then m.callsJson.text != [] else Usable(m.callsJson))
  }

  /** Tidy messages are posted as they were given. */
  lemma CopiesAreTheMessages(ms: seq<Message>)
    requires forall i :: 0 <= i < |ms| ==> Tidy(ms[i])
    ensures Copies(ms) == ms
  {
    forall i | 0 <= i < |ms|
      ensures Copy(ms[i]) == ms[i]
    {
      assert Tidy(ms[i]);
    }
  }

  /** The answer in an action is the one the environment gives at that point. */
  ghost predicate Genuine(env: Env, before: seq<Action>, a: Action) {
    match a
    case Polled(stop) => stop == env.abort(before)
    case Posted(messages, reply) => reply == env.chat(before, messages)
    case Dispatched(call, output) => output == env.dispatch(before, call)
  }

  ghost predicate Faithful(env: Env, log: seq<Action>) {
    forall p :: 0 <= p < |log| ==> Genuine(env, log[..p], log[p])
  }

  lemma FaithfulMore(env: Env, log: seq<Action>, a: Action)
    requires Faithful(env, log) && Genuine(env, log, a)
    ensures Faithful(env, log + [a])
  {
    hide Genuine;
    forall p | 0 <= p < |log + [a]|
      ensures Genuine(env, (log + [a])[..p], (log + [a])[p])
    {
      assert (log + [a])[..p] == log[..p];
      if p == |log| {
        assert log[..p] == log;
      }
    }
  }

  function LogOf(o: Outcome): seq<Action> {
    if o.Next? then o.s.log else o.log
  }

  lemma {:induction false} DispatchFaithful(env: Env, limits: Limits, s: State, calls: seq<Call>, i: nat)
    requires Faithful(env, s.log)
    ensures Faithful(env, LogOf(DispatchFrom(env, limits, s, calls, i)))
    decreases |calls| - i
  {
    hide Faithful;
    if i < |calls| {
      var out := env.dispatch(s.log, calls[i]);
      FaithfulMore(env, s.log, Dispatched(calls[i], out));
      if out.Some? && Within(s.total + |out.value|, limits.maxOutput) {
        DispatchFaithful(env, limits, WithOutput(s, calls[i], out.value), calls, i + 1);
      }
    }
  }

  lemma TurnFaithful(env: Env, limits: Limits, s: State, turn: nat)
    requires Faithful(env, s.log)
    ensures Faithful(env, LogOf(Turn(env, limits, s, turn)))
  {
    hide Faithful, DispatchFrom, Acceptable;
    var stop := env.abort(s.log);
    FaithfulMore(env, s.log, Polled(stop));
    if !stop {
      var log := s.log + [Polled(stop)];
      var reply := env.chat(log, s.history);
      FaithfulMore(env, log, Posted(s.history, reply));
      if reply.Some? {
        var r := reply.value;
        var s0 := State(s.history + [AssistantMessage(r)], s.total, s.hashes + [Hash(r)], log + [Posted(s.history, reply)]);
        DispatchFaithful(env, limits, s0, r.calls, 0);
      }
    }
  }

  lemma {:induction false} LoopFaithful(env: Env, limits: Limits, s: State, turn: nat)
    requires Faithful(env, s.log)
    ensures Faithful(env, LogOf(Loop(env, limits, s, turn)))
    decreases limits.maxTurns - turn
  {
    hide Faithful, Turn;
    if turn < limits.maxTurns {
      TurnFaithful(env, limits, s, turn);
      var o := Turn(env, limits, s, turn);
      if o.Next? {
        LoopFaithful(env, limits, o.s, turn + 1);
      }
    }
  }

  /** The log of a run records the environment's own answers and nothing else. */
  lemma RunIsFaithful(env: Env, limits: Limits, initial: seq<Message>)
    ensures Faithful(env, LogOf(Run(env, limits, initial)))
  {
    hide Loop;
    LoopFaithful(env, limits, State(Copies(initial), 0, [], []), 0);
  }
}
