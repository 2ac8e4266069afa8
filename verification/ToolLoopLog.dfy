/**
 The tool loop as seen from outside, from what was done and answered alone: which action comes next, what a request
 contains, when the run ends and how. This determines the whole run.
 */
module ToolLoopLog {
  import opened Bytes
  import opened JsonWriter
  import opened ChatChunk
  import opened RepeatGuard
  import opened TurnHash
  import opened ToolLoop
  import HashSpread

  // --- what the log says ----------------------------------------------------------------------------------

  /** What the assistant said: its content, then its reasoning; nothing if there is neither. */
  function Spoken(content: Span, reasoning: Span): Span {
    match (content, reasoning)
    case (Null(_), Null(_)) => Null(0)
    case (Of(c), Null(_)) => Of(c)
    case (Null(_), Of(t)) => Of(t)
    case (Of(c), Of(t)) => Of(c + t)
  }

  /** An id or nothing. */
  function Given(id: Span): Span {
    match id case Of(_) => id case Null(_) => Null(0)
  }

  /** The messages that what happened adds to the conversation: one per reply with calls, one per output. */
  function Told(log: seq<Action>): seq<Message> {
    if log == [] then []
    else
      var front := Told(log[..|log| - 1]);
      match log[|log| - 1]
      case Posted(_, Some(r)) =>
        if r.finish != ToolCalls then front
        else front + [Message(Assistant, Spoken(r.content, r.reasoning), Null(0), Null(0), Null(0), r.callsJson)]
      case Dispatched(c, Some(out)) =>
        front + [Message(Tool, Of(out), Null(0), Given(c.id), Null(0), Null(0))]
      case _ => front
  }

  /** The replies so far. */
  function Replies(log: seq<Action>): seq<Reply> {
    if log == [] then []
    else
      var front, a := Replies(log[..|log| - 1]), log[|log| - 1];
      if a.Posted? && a.reply.Some? then front + [a.reply.value] else front
  }

  /** The bytes of all outputs so far. */
  function OutputLength(log: seq<Action>): nat {
    if log == [] then 0
    else
      var front, a := OutputLength(log[..|log| - 1]), log[|log| - 1];
      if a.Dispatched? && a.output.Some? then front + |a.output.value| else front
  }

  /** The calls still to be run. */
  function Pending(log: seq<Action>): seq<Call> {
    if log == [] then []
    else
      match log[|log| - 1]
      case Polled(_) => []
      case Posted(_, reply) => if reply.Some? && reply.value.finish == ToolCalls then reply.value.calls else []
      case Dispatched(_, _) =>
        var before := Pending(log[..|log| - 1]);
        if before == [] then [] else before[1..]
  }

  // --- when a run ends ------------------------------------------------------------------------------------

  predicate NullWithLength(s: Span) {
    s.Null? && s.len > 0
  }

  function ArgsLength(calls: seq<Call>): nat {
    if calls == [] then 0
    else (match calls[0].args case Of(text) => |text| case Null(_) => 0) + ArgsLength(calls[1..])
  }

  /** More than a size_t can say, or more than allowed; 0 is "no limit". */
  predicate TooLong(total: nat, max: nat) {
    total > 18446744073709551615 || (max > 0 && total > max)
  }

  /** What is wrong with a reply that asks for tools, as the reply to request number `turn`. */
  ghost predicate Unfit(limits: Limits, turn: nat, r: Reply) {
    || r.calls == [] || r.callsJson.Null? || r.callsJson.text == []
    || turn + 1 >= limits.maxTurns
    || (exists i :: 0 <= i < |r.calls| && (NullWithLength(r.calls[i].name) || NullWithLength(r.calls[i].args)))
    || NullWithLength(r.content) || NullWithLength(r.reasoning)
    || TooLong(ArgsLength(r.calls), limits.maxArgs)
  }

  /** One of the last eight replies has the same hash. */
  ghost predicate Repeats(before: seq<Reply>, r: Reply) {
    exists k :: 0 <= k < |before| && |before| - k <= 8 && Hash(before[k]) == Hash(r)
  }

  /** Whether the run ends with this action, and how. */
  ghost function Ends(limits: Limits, before: seq<Action>, a: Action): Option<Rc> {
    match a
    case Polled(stop) => if stop then Some(Cancelled) else None
    case Posted(_, None) => Some(Failed)
    case Posted(_, Some(r)) =>
      if r.finish != ToolCalls then Some(Answered)
      else if Unfit(limits, |Replies(before)|, r) || Repeats(Replies(before), r) then Some(Failed)
      else None
    case Dispatched(_, None) => Some(Failed)
    case Dispatched(_, Some(out)) =>
      if TooLong(OutputLength(before) + |out|, limits.maxOutput) then Some(Failed) else None
  }

  /** The action that comes next: the next call, or a poll and then a request with the whole conversation. */
  predicate Follows(all: seq<Message>, before: seq<Action>, a: Action) {
    if Pending(before) != [] then a.Dispatched? && a.call == Pending(before)[0]
    else if before != [] && before[|before| - 1].Polled? then a.Posted? && a.messages == all + Told(before)
    else a.Polled?
  }

  /** Every action is the one that has to come, with the answer of the environment, and none of them ends the run. */
  ghost predicate Goes(env: Env, limits: Limits, all: seq<Message>, log: seq<Action>) {
    forall p :: 0 <= p < |log| ==>
      && Follows(all, log[..p], log[p]) && Genuine(env, log[..p], log[p])
      && Ends(limits, log[..p], log[p]) == None
  }

  /** A run that went this way and ended with its last action. */
  ghost predicate Went(env: Env, limits: Limits, all: seq<Message>, log: seq<Action>, rc: Rc) {
    log != []
    && var n := |log| - 1;
       && Goes(env, limits, all, log[..n])
       && Follows(all, log[..n], log[n]) && Genuine(env, log[..n], log[n])
       && Ends(limits, log[..n], log[n]) == Some(rc)
  }

  // --- one action more ------------------------------------------------------------------------------------

  lemma OneMore(log: seq<Action>, a: Action)
    ensures Replies(log + [a]) == Replies(log) + if a.Posted? && a.reply.Some? then [a.reply.value] else []
    ensures OutputLength(log + [a]) == OutputLength(log) + if a.Dispatched? && a.output.Some? then |a.output.value| else 0
    ensures Told(log + [a]) == Told(log) + Told([a])
    ensures Pending(log + [a]) == match a
      case Polled(_) => []
      case Posted(_, reply) => if reply.Some? && reply.value.finish == ToolCalls then reply.value.calls else []
      case Dispatched(_, _) => if Pending(log) == [] then [] else Pending(log)[1..]
  {
    var more := log + [a];
    assert more[..|more| - 1] == log && more[|more| - 1] == a;
    assert [a][..0] == [];
    assert Told([]) == [];
    assert Told(log) + [] == Told(log) && Replies(log) + [] == Replies(log);
  }

  lemma GoesMore(env: Env, limits: Limits, all: seq<Message>, log: seq<Action>, a: Action)
    requires Goes(env, limits, all, log) && Follows(all, log, a) && Genuine(env, log, a)
    ensures Ends(limits, log, a) == None ==> Goes(env, limits, all, log + [a])
    ensures Ends(limits, log, a).Some? ==> Went(env, limits, all, log + [a], Ends(limits, log, a).value)
  {
    hide Follows, Genuine, Ends;
    var more := log + [a];
    assert more[..|log|] == log && more[|log|] == a;
    forall p | 0 <= p < |log|
      ensures more[..p] == log[..p] && more[p] == log[p]
    {
    }
  }

  // --- the loop goes that way -----------------------------------------------------------------------------

  function HashesOf(rs: seq<Reply>): seq<nat> {
    seq(|rs|, i requires 0 <= i < |rs| => Hash(rs[i]))
  }

  lemma {:induction false} ArgsAdd(calls: seq<Call>, c: Call)
    ensures ArgsLength(calls + [c]) == ArgsLength(calls) + |TextOf(c.args)|
    decreases |calls|
  {
    if calls == [] {
      assert calls + [c] == [c] && [c][1..] == [];
    } else {
      assert (calls + [c])[1..] == calls[1..] + [c];
      ArgsAdd(calls[1..], c);
    }
  }

  lemma {:induction false} ArgsAre(calls: seq<Call>)
    ensures ArgsBytes(calls) == ArgsLength(calls)
    decreases |calls|
  {
    if calls != [] {
      var n := |calls| - 1;
      ArgsAre(calls[..n]);
      ArgsAdd(calls[..n], calls[n]);
      assert calls == calls[..n] + [calls[n]];
    }
  }

  lemma WindowHolds(before: seq<Reply>, r: Reply)
    ensures Hash(r) in Window(HashesOf(before)) <==> Repeats(before, r)
  {
    hide Hash;
    var hs := HashesOf(before);
    var w, low := Window(hs), if |before| <= 8 then 0 else |before| - 8;
    assert forall j :: 0 <= j < |w| ==> w[j] == Hash(before[low + j]);
    if Repeats(before, r) {
      var k :| 0 <= k < |before| && |before| - k <= 8 && Hash(before[k]) == Hash(r);
      assert w[k - low] == Hash(r);
    }
  }

  /** A reply with calls is run exactly if nothing is wrong with it and it repeats none of the last eight. */
  lemma AcceptableExactly(limits: Limits, before: seq<Reply>, r: Reply)
    ensures Acceptable(limits, |before|, HashesOf(before), r) <==> !Unfit(limits, |before|, r) && !Repeats(before, r)
  {
    hide Hash, Repeats, ArgsBytes, ArgsLength, Window;
    ArgsAre(r.calls);
    WindowHolds(before, r);
  }

  /** The state says what the log says, and these calls are still to be run. */
  ghost predicate Records(env: Env, limits: Limits, all: seq<Message>, s: State, pending: seq<Call>) {
    && Goes(env, limits, all, s.log) && (s.log != [] ==> !s.log[|s.log| - 1].Polled?)
    && s.history == all + Told(s.log) && s.total == OutputLength(s.log) && s.hashes == HashesOf(Replies(s.log))
    && Pending(s.log) == pending
  }

  lemma ToolMessageIs(c: Call, out: bytes)
    ensures Told([Dispatched(c, Some(out))]) == [ToolMessage(c, out)]
  {
    var a := Dispatched(c, Some(out));
    assert [a][..0] == [] && Told([]) == [];
    assert [] + [ToolMessage(c, out)] == [ToolMessage(c, out)];
  }

  lemma AssistantMessageIs(ms: seq<Message>, r: Reply)
    requires r.finish == ToolCalls
    ensures Told([Posted(ms, Some(r))]) == [AssistantMessage(r)]
  {
    var a := Posted(ms, Some(r));
    assert [a][..0] == [] && Told([]) == [];
    assert [] + TextOf(r.reasoning) == TextOf(r.reasoning) && TextOf(r.content) + [] == TextOf(r.content);
    assert [] + [AssistantMessage(r)] == [AssistantMessage(r)];
  }

  lemma WithinIs(total: nat, max: nat)
    ensures Within(total, max) <==> !TooLong(total, max)
  {
  }

  lemma {:induction false} DispatchGoes(env: Env, limits: Limits, all: seq<Message>, s: State, calls: seq<Call>, i: nat)
    requires i <= |calls| && Records(env, limits, all, s, calls[i..])
    ensures var o := DispatchFrom(env, limits, s, calls, i);
      if o.Next? then Records(env, limits, all, o.s, []) && Replies(o.s.log) == Replies(s.log)
      else Went(env, limits, all, o.log, o.rc)
    decreases |calls| - i
  {
    hide Goes, Told, OutputLength, Replies, Pending, Went, ToolMessage, HashesOf, TooLong, Within;
    if i < |calls| {
      var out := env.dispatch(s.log, calls[i]);
      var a := Dispatched(calls[i], out);
      OneMore(s.log, a);
      GoesMore(env, limits, all, s.log, a);
      if out.Some? {
        WithinIs(s.total + |out.value|, limits.maxOutput);
        ToolMessageIs(calls[i], out.value);
        if Within(s.total + |out.value|, limits.maxOutput) {
          assert calls[i..][1..] == calls[i + 1..];
          assert Replies(s.log) + [] == Replies(s.log);
          assert all + Told(s.log) + [ToolMessage(calls[i], out.value)]
              == all + (Told(s.log) + [ToolMessage(calls[i], out.value)]);
          DispatchGoes(env, limits, all, WithOutput(s, calls[i], out.value), calls, i + 1);
        }
      }
    }
  }

  lemma TurnGoes(env: Env, limits: Limits, all: seq<Message>, s: State, turn: nat)
    requires Records(env, limits, all, s, []) && turn == |Replies(s.log)| < limits.maxTurns
    ensures var o := Turn(env, limits, s, turn);
      if o.Next? then
        Records(env, limits, all, o.s, []) && |Replies(o.s.log)| == turn + 1 < limits.maxTurns
      else Went(env, limits, all, o.log, o.rc)
  {
    hide Goes, Told, OutputLength, Replies, Pending, Went, AssistantMessage, HashesOf, Hash, Unfit, Repeats, Acceptable,
      DispatchFrom;
    var stop := env.abort(s.log);
    var log := s.log + [Polled(stop)];
    OneMore(s.log, Polled(stop));
    GoesMore(env, limits, all, s.log, Polled(stop));
    PollTells(stop);
    if !stop {
      assert all + (Told(s.log) + []) == s.history && Replies(s.log) + [] == Replies(s.log);
      var reply := env.chat(log, s.history);
      var a := Posted(s.history, reply);
      OneMore(log, a);
      GoesMore(env, limits, all, log, a);
      if reply.Some? && reply.value.finish == ToolCalls {
        var r := reply.value;
        AcceptableExactly(limits, Replies(s.log), r);
        AssistantMessageIs(s.history, r);
        if Acceptable(limits, turn, s.hashes, r) {
          AcceptedInTime(limits, turn, s.hashes, r);
          HashesOneMore(Replies(s.log), r);
          var s0 := State(s.history + [AssistantMessage(r)], s.total, s.hashes + [Hash(r)], log + [a]);
          assert all + Told(log) + [AssistantMessage(r)] == all + (Told(log) + [AssistantMessage(r)]);
          assert r.calls[0..] == r.calls;
          DispatchGoes(env, limits, all, s0, r.calls, 0);
        }
      }
    }
  }

  lemma PollTells(stop: bool)
    ensures Told([Polled(stop)]) == []
  {
    assert [Polled(stop)][..0] == [];
  }

  lemma AcceptedInTime(limits: Limits, turn: nat, hashes: seq<nat>, r: Reply)
    requires Acceptable(limits, turn, hashes, r)
    ensures turn + 1 < limits.maxTurns
  {
  }

  lemma HashesOneMore(rs: seq<Reply>, r: Reply)
    ensures HashesOf(rs + [r]) == HashesOf(rs) + [Hash(r)]
  {
    hide Hash;
  }

  lemma {:induction false} LoopGoes(env: Env, limits: Limits, all: seq<Message>, s: State, turn: nat)
    requires Records(env, limits, all, s, []) && turn == |Replies(s.log)| < limits.maxTurns
    ensures var o := Loop(env, limits, s, turn); o.Stop? && Went(env, limits, all, o.log, o.rc)
    decreases limits.maxTurns - turn
  {
    hide Records, Turn, Went, Replies;
    TurnGoes(env, limits, all, s, turn);
    var o := Turn(env, limits, s, turn);
    if o.Next? {
      LoopGoes(env, limits, all, o.s, turn + 1);
    }
  }

  lemma NothingRecorded(env: Env, limits: Limits, all: seq<Message>)
    ensures Records(env, limits, all, State(all, 0, [], []), []) && Replies([]) == []
  {
    assert all + [] == all;
  }

  // --- and only that way ----------------------------------------------------------------------------------

  lemma NextIsFixed(env: Env, all: seq<Message>, before: seq<Action>, a: Action, b: Action)
    requires Follows(all, before, a) && Genuine(env, before, a) && Follows(all, before, b) && Genuine(env, before, b)
    ensures a == b
  {
    hide Told, Pending;
  }

  /** What stands at `p` comes next. */
  lemma WentAt(env: Env, limits: Limits, all: seq<Message>, log: seq<Action>, rc: Rc, p: nat)
    requires Went(env, limits, all, log, rc) && p < |log|
    ensures Follows(all, log[..p], log[p]) && Genuine(env, log[..p], log[p])
    ensures Ends(limits, log[..p], log[p]) == if p == |log| - 1 then Some(rc) else None
  {
    hide Follows, Genuine, Ends;
    var n := |log| - 1;
    if p < n {
      assert log[..n][..p] == log[..p] && log[..n][p] == log[p];
    }
  }

  lemma {:induction false} SamePrefix(env: Env, limits: Limits, all: seq<Message>,
      a: seq<Action>, x: Rc, b: seq<Action>, y: Rc, n: nat)
    requires Went(env, limits, all, a, x) && Went(env, limits, all, b, y) && n <= |a| && n <= |b|
    ensures a[..n] == b[..n]
    decreases n
  {
    hide Went, Follows, Genuine, Ends;
    if n > 0 {
      SamePrefix(env, limits, all, a, x, b, y, n - 1);
      WentAt(env, limits, all, a, x, n - 1);
      WentAt(env, limits, all, b, y, n - 1);
      NextIsFixed(env, all, a[..n - 1], a[n - 1], b[n - 1]);
      assert a[..n] == a[..n - 1] + [a[n - 1]] && b[..n] == b[..n - 1] + [b[n - 1]];
    }
  }

  /** At most one log goes that way. */
  lemma OnlyOneWay(env: Env, limits: Limits, all: seq<Message>, a: seq<Action>, x: Rc, b: seq<Action>, y: Rc)
    requires Went(env, limits, all, a, x) && Went(env, limits, all, b, y) && |a| <= |b|
    ensures a == b && x == y
  {
    hide Went, Ends, Follows, Genuine;
    assert a != [] by { NotEmpty(env, limits, all, a, x); }
    var n := |a| - 1;
    SamePrefix(env, limits, all, a, x, b, y, |a|);
    assert a[..n] == a[..|a|][..n] && b[..n] == b[..|a|][..n] && a[n] == a[..|a|][n] && b[n] == b[..|a|][n];
    WentAt(env, limits, all, a, x, n);
    WentAt(env, limits, all, b, y, n);
    assert a[..|a|] == a && b[..|b|] == b;
  }

  lemma NotEmpty(env: Env, limits: Limits, all: seq<Message>, log: seq<Action>, rc: Rc)
    requires Went(env, limits, all, log, rc)
    ensures log != []
  {
  }

  /** A message with contradictory content: JSON of length 0, without a pointer, or beside a text. */
  predicate Contradictory(m: Message) {
    match m.json case Null(len) => len > 0 case Of(text) => text == [] || m.content.Of?
  }

  /** Nothing is done without turns or with a contradictory message. */
  predicate Starts(limits: Limits, initial: seq<Message>) {
    limits.maxTurns > 0 && forall i :: 0 <= i < |initial| ==> !Contradictory(initial[i])
  }

  lemma RunGoes(env: Env, limits: Limits, initial: seq<Message>)
    requires Starts(limits, initial)
    ensures var o := Run(env, limits, initial); o.Stop? && Went(env, limits, Copies(initial), o.log, o.rc)
  {
    hide Went, Loop, Records, Copies, Replies;
    var all := Copies(initial);
    assert AllClean(initial) <==> forall i :: 0 <= i < |initial| ==> !Contradictory(initial[i]);
    NothingRecorded(env, limits, all);
    LoopGoes(env, limits, all, State(all, 0, [], []), 0);
  }

  /**
   Main result, for every environment: the run of the tool loop is the only log in which every action is the one that
   has to come, up to the first that ends it. What has to come, and what ends it, is said by the log itself.
   */
  lemma RunExactly(env: Env, limits: Limits, initial: seq<Message>, rc: Rc, log: seq<Action>)
    ensures Run(env, limits, initial) == Stop(rc, log) <==>
      if Starts(limits, initial) then Went(env, limits, Copies(initial), log, rc) else log == [] && rc == Failed
  {
    hide Went, Loop, Copies;
    var all := Copies(initial);
    assert AllClean(initial) <==> forall i :: 0 <= i < |initial| ==> !Contradictory(initial[i]);
    if Starts(limits, initial) {
      RunGoes(env, limits, initial);
      var o := Run(env, limits, initial);
      if Went(env, limits, all, log, rc) {
        if |log| <= |o.log| {
          OnlyOneWay(env, limits, all, log, rc, o.log, o.rc);
        } else {
          OnlyOneWay(env, limits, all, o.log, o.rc, log, rc);
        }
      }
    }
  }

  // --- consequences ---------------------------------------------------------------------------------------

  /** The copy says what the message says. */
  predicate SaysTheSame(a: Message, b: Message) {
    && a.role == b.role && SameText(a.content, b.content) && SameText(a.json, b.json) && SameText(a.callId, b.callId)
    && a.name == b.name
    && match b.callsJson
       case Null(_) => a.callsJson == Null(0)
       case Of(text) => a.callsJson == if text == [] then Null(0) else Of(text)
  }

  predicate SameText(a: Span, b: Span) {
    match b case Of(_) => a == b case Null(_) => a == Null(0)
  }

  lemma CopiesSayTheSame(ms: seq<Message>)
    ensures |Copies(ms)| == |ms| && forall i :: 0 <= i < |ms| ==> SaysTheSame(Copies(ms)[i], ms[i])
  {
  }

  lemma NothingTold()
    ensures Told([]) == []
  {
  }

  lemma {:induction false} ToldAppend(a: seq<Action>, b: seq<Action>)
    ensures Told(a + b) == Told(a) + Told(b)
    decreases |b|
  {
    hide Told;
    if b == [] {
      assert a + b == a && Told(a) + [] == Told(a);
      NothingTold();
    } else {
      var n := |b| - 1;
      ToldAppend(a, b[..n]);
      assert a + b == (a + b[..n]) + [b[n]] && b == b[..n] + [b[n]];
      OneMore(a + b[..n], b[n]);
      OneMore(b[..n], b[n]);
      assert Told(a) + Told(b[..n]) + Told([b[n]]) == Told(a) + (Told(b[..n]) + Told([b[n]]));
    }
  }

  /** Where what an action adds to the conversation stands. */
  function PlaceOf(initial: seq<Message>, log: seq<Action>, q: nat): nat
    requires q < |log|
  {
    |initial| + |Told(log[..q])|
  }

  lemma ToldAt(log: seq<Action>, q: nat, p: nat)
    requires q < p <= |log|
    ensures Told(log[..p]) == Told(log[..q]) + Told([log[q]]) + Told(log[q + 1..p])
  {
    assert log[..p] == (log[..q] + [log[q]]) + log[q + 1..p];
    ToldAppend(log[..q], [log[q]]);
    ToldAppend(log[..q] + [log[q]], log[q + 1..p]);
  }

  lemma FollowsPost(all: seq<Message>, before: seq<Action>, a: Action)
    requires Follows(all, before, a) && a.Posted?
    ensures a.messages == all + Told(before)
  {
  }

  /** The request carries the output under the id of its call. */
  predicate CarriesOutput(ms: seq<Message>, j: nat, c: Call, out: bytes) {
    j < |ms| && ms[j] == Message(Tool, Of(out), Null(0), Given(c.id), Null(0), Null(0))
  }

  /** The request carries what the assistant said and the calls as they were. */
  predicate CarriesReply(ms: seq<Message>, j: nat, r: Reply) {
    j < |ms| && ms[j] == Message(Assistant, Spoken(r.content, r.reasoning), Null(0), Null(0), Null(0), r.callsJson)
  }

  /** Every request carries the outputs of all calls and all replies with calls before it, each in its place. */
  lemma OutputsArePosted(env: Env, limits: Limits, initial: seq<Message>, log: seq<Action>, rc: Rc, q: nat, p: nat)
    requires Went(env, limits, Copies(initial), log, rc) && q < p < |log| && log[p].Posted?
    ensures var ms, j := log[p].messages, PlaceOf(initial, log, q);
      && (log[q].Dispatched? && log[q].output.Some? ==> CarriesOutput(ms, j, log[q].call, log[q].output.value))
      && (log[q].Posted? && log[q].reply.Some? && log[q].reply.value.finish == ToolCalls ==>
            CarriesReply(ms, j, log[q].reply.value))
  {
    hide Went, Told, Follows, Genuine, Ends;
    WentAt(env, limits, Copies(initial), log, rc, p);
    FollowsPost(Copies(initial), log[..p], log[p]);
    ToldAt(log, q, p);
    if log[q].Dispatched? && log[q].output.Some? { ToolMessageIs(log[q].call, log[q].output.value); }
    if log[q].Posted? && log[q].reply.Some? && log[q].reply.value.finish == ToolCalls {
      AssistantMessageIs(log[q].messages, log[q].reply.value);
      SpokenIs(log[q].reply.value);
    }
  }

  lemma SpokenIs(r: Reply)
    ensures AssistantMessage(r) == Message(Assistant, Spoken(r.content, r.reasoning), Null(0), Null(0), Null(0), r.callsJson)
  {
    assert [] + TextOf(r.reasoning) == TextOf(r.reasoning) && TextOf(r.content) + [] == TextOf(r.content);
  }

  /** One byte is enough not to be a repetition, and the same turn is one. */
  lemma RepeatsWhen(before: seq<Reply>, r: Reply)
    ensures (exists k :: 0 <= k < |before| && |before| - k <= 8 && SameTurn(before[k], r)) ==> Repeats(before, r)
    ensures (forall k :: 0 <= k < |before| && |before| - k <= 8 ==> HashSpread.OneByteApart(Encode(before[k]), Encode(r)))
      ==> !Repeats(before, r)
  {
    hide Hash, Encode, SameTurn, HashSpread.OneByteApart;
    forall k | 0 <= k < |before| && SameTurn(before[k], r)
      ensures Hash(before[k]) == Hash(r)
    {
      RepeatHasSameHash(before[k], r);
    }
    forall k | 0 <= k < |before| && HashSpread.OneByteApart(Encode(before[k]), Encode(r))
      ensures Hash(before[k]) != Hash(r)
    {
      HashSpread.OneByteSuffices(before[k], r);
    }
  }
}
