/** The tool loop of src/llm.c in its own form, tied to the functions of `ToolLoop`. */
module ToolLoopRun {
  import opened Bytes
  import opened JsonWriter
  import opened ChatChunk
  import opened RepeatGuard
  import opened TurnHash
  import opened ToolLoop

  /** Copies the caller's messages; a message with contradictory content is refused. */
  method CopyMessages(initial: seq<Message>) returns (ok: bool, history: seq<Message>)
    ensures ok == AllClean(initial) && (ok ==> history == Copies(initial))
  {
    history := [];
    var i := 0;
    while i < |initial|
      invariant i <= |initial| && AllClean(initial[..i]) && history == Copies(initial[..i])
    {
      var m := initial[i];
      if m.json.Null? && m.json.len != 0 { return false, []; }
      if m.content.Of? && m.json.Of? { return false, []; }
      if m.json.Of? && |m.json.text| == 0 { return false, []; }
      history := history + [Copy(m)];
      i := i + 1;
    }
    assert initial[..i] == initial;
    return true, history;
  }

  lemma {:induction false} ArgsSoFar(calls: seq<Call>, i: nat)
    requires i < |calls|
    ensures ArgsBytes(calls[..i + 1]) == ArgsBytes(calls[..i]) + |TextOf(calls[i].args)|
    ensures ArgsBytes(calls[..i + 1]) <= ArgsBytes(calls)
    decreases |calls| - i
  {
    assert calls[..i + 1][..i] == calls[..i];
    if i + 1 < |calls| {
      ArgsSoFar(calls, i + 1);
    } else {
      assert calls[..i + 1] == calls;
    }
  }

  /** The argument check of a turn: every string usable, the sum within the limits, no wrap-around. */
  method CheckArgs(limits: Limits, calls: seq<Call>) returns (ok: bool)
    ensures ok == ArgsFine(limits, calls)
  {
    hide ArgsBytes, TextOf;
    var sum, i := 0, 0;
    NoArgs();
    assert calls[..0] == [];
    while i < |calls|
      invariant i <= |calls| && sum == ArgsBytes(calls[..i]) && Within(sum, limits.maxArgs)
      invariant forall k :: 0 <= k < i ==> Usable(calls[k].name) && Usable(calls[k].args)
    {
      var c := calls[i];
      ArgsSoFar(calls, i);
      if c.name.Null? && c.name.len != 0 { return false; }
      if c.args.Null? && c.args.len != 0 { return false; }
      var len := |TextOf(c.args)|;
      if len > SIZE_MAX - sum { return false; }
      sum := sum + len;
      if limits.maxArgs != 0 && sum > limits.maxArgs { return false; }
      i := i + 1;
    }
    assert calls[..i] == calls;
    return true;
  }

  lemma NoArgs()
    ensures ArgsBytes([]) == 0
  {
  }

  /** Runs the calls of a reply, appending one tool message each; `stop` says that the run is over. */
  method DispatchCalls(env: Env, limits: Limits, s0: State, calls: seq<Call>) returns (stop: bool, s: State)
    requires s0.total <= SIZE_MAX
    ensures DispatchFrom(env, limits, s0, calls, 0) == if stop then Stop(Failed, s.log) else Next(s)
    ensures !stop ==> s.total <= SIZE_MAX
  {
    s := s0;
    var i := 0;
    while i < |calls|
      invariant i <= |calls| && s.total <= SIZE_MAX
      invariant DispatchFrom(env, limits, s0, calls, 0) == DispatchFrom(env, limits, s, calls, i)
    {
      var out := env.dispatch(s.log, calls[i]);
      s := s.(log := s.log + [Dispatched(calls[i], out)]);
      if out.None? { return true, s; }
      if |out.value| > SIZE_MAX - s.total { return true, s; }
      if limits.maxOutput != 0 && s.total + |out.value| > limits.maxOutput { return true, s; }
      s := s.(total := s.total + |out.value|, history := s.history + [ToolMessage(calls[i], out.value)]);
      i := i + 1;
    }
    return false, s;
  }

  /** The checks of a reply with calls, in the order of the source; the hash is remembered last. */
  method Admits(limits: Limits, turn: nat, guard: Guard, r: Reply) returns (ok: bool, hash: nat)
    requires guard.Valid()
    modifies guard, guard.recent
    ensures guard.Valid() && ok == Acceptable(limits, turn, old(guard.admitted), r)
    ensures guard.admitted == if ok then old(guard.admitted) + [hash] else old(guard.admitted)
    ensures ok ==> hash == Hash(r)
  {
    hide Hash, Hashable, ArgsFine;
    hash := 0;
    if |r.calls| == 0 || r.callsJson.Null? || |r.callsJson.text| == 0 { return false, hash; }
    if turn + 1 >= limits.maxTurns { return false, hash; }
    ok := CheckArgs(limits, r.calls);
    if !ok { return; }
    var h := HashTurn(r);
    if h.None? { return false, hash; }
    hash := h.value;
    var seen := guard.Seen(hash);
    ok := !seen;
  }

  /** One turn. `s.hashes` mirrors what the guard has admitted. */
  method OneTurn(env: Env, limits: Limits, guard: Guard, s0: State, turn: nat) returns (stop: Option<Rc>, s: State)
    requires guard.Valid() && guard.admitted == s0.hashes && s0.total <= SIZE_MAX
    modifies guard, guard.recent
    ensures Turn(env, limits, s0, turn) == if stop.Some? then Stop(stop.value, s.log) else Next(s)
    ensures stop.None? ==> guard.Valid() && guard.admitted == s.hashes && s.total <= SIZE_MAX
  {
    hide Acceptable, Hash, Guard.Valid, AssistantMessage;
    s := s0;
    var abort := env.abort(s.log);
    s := s.(log := s.log + [Polled(abort)]);
    if abort { return Some(Cancelled), s; }
    var reply := env.chat(s.log, s.history);
    s := s.(log := s.log + [Posted(s.history, reply)]);
    if reply.None? { return Some(Failed), s; }
    var r := reply.value;
    if r.finish != ToolCalls { return Some(Answered), s; }
    var ok, hash := Admits(limits, turn, guard, r);
    if !ok { return Some(Failed), s; }
    s := s.(history := s.history + [AssistantMessage(r)], hashes := s.hashes + [hash]);
    SameHashes(env, limits, s, r.calls, 0);
    var failed;
    failed, s := DispatchCalls(env, limits, s, r.calls);
    stop := if failed then Some(Failed) else None;
  }

  /** Running calls does not touch the hashes. */
  lemma {:induction false} SameHashes(env: Env, limits: Limits, s: State, calls: seq<Call>, i: nat)
    ensures var o := DispatchFrom(env, limits, s, calls, i); o.Next? ==> o.s.hashes == s.hashes
    decreases |calls| - i
  {
    if i < |calls| {
      var out := env.dispatch(s.log, calls[i]);
      if out.Some? && Within(s.total + |out.value|, limits.maxOutput) {
        SameHashes(env, limits, WithOutput(s, calls[i], out.value), calls, i + 1);
      }
    }
  }

  /** `llm_tool_loop_run_with_headers_ex` */
  method RunToolLoop(env: Env, limits: Limits, initial: seq<Message>) returns (rc: Rc, log: seq<Action>)
    ensures Stop(rc, log) == Run(env, limits, initial)
  {
    hide Turn, AllClean, Copies, Guard.Valid;
    var ok, history := CopyMessages(initial);
    if !ok { return Failed, []; }
    if limits.maxTurns == 0 { return Failed, []; }
    var guard := new Guard();
    var s := State(history, 0, [], []);
    var turn := 0;
    while turn < limits.maxTurns
      invariant guard.Valid() && fresh(guard) && fresh(guard.recent) && guard.admitted == s.hashes
      invariant s.total <= SIZE_MAX && turn <= limits.maxTurns
      invariant Run(env, limits, initial) == Loop(env, limits, s, turn)
    {
      var stop;
      stop, s := OneTurn(env, limits, guard, s, turn);
      if stop.Some? { return stop.value, s.log; }
      turn := turn + 1;
    }
    return Answered, s.log;
  }
}
