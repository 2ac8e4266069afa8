/**
 What the host's answers can change: a refusal stops the parser, and up to there everything is as if the host
 had never refused. Polls between chunks leave no trace but themselves.
 */
module SseHost {
  import opened Bytes
  import opened Utf8
  import opened EventStream
  import opened SseMachine
  import opened SseRefinement

  const WILLING: seq<Callback> -> bool := trace => true

  /** The same parser with a host that never refuses. */
  function Quiet(cfg: Config): Config {
    cfg.(host := WILLING)
  }

  /** The log without the polls. */
  function Erase(trace: seq<Callback>): seq<Callback> {
    if trace == [] then []
    else
      var front, c := Erase(trace[..|trace| - 1]), trace[|trace| - 1];
      if c.Poll? then front else front + [c]
  }

  lemma EraseMore(trace: seq<Callback>, c: Callback)
    ensures Erase(trace + [c]) == if c.Poll? then Erase(trace) else Erase(trace) + [c]
  {
    assert (trace + [c])[..|trace + [c]| - 1] == trace;
  }

  /** No call of the log was refused. */
  ghost predicate Unrefused(cfg: Config, trace: seq<Callback>) {
    forall k :: 0 < k <= |trace| ==> cfg.host(trace[..k])
  }

  lemma UnrefusedMore(cfg: Config, trace: seq<Callback>, c: Callback)
    ensures Unrefused(cfg, trace + [c]) <==> Unrefused(cfg, trace) && cfg.host(trace + [c])
  {
    var more := trace + [c];
    assert more[..|more|] == more;
    assert forall k :: 0 < k <= |trace| ==> more[..k] == trace[..k];
  }

  /** The log only grew, not by polls, and not behind a refusal. */
  ghost predicate Extends(cfg: Config, before: seq<Callback>, trace: seq<Callback>) {
    && before <= trace && (forall k :: |before| <= k < |trace| ==> !trace[k].Poll?)
    && (forall k :: |before| < k < |trace| ==> cfg.host(trace[..k]))
  }

  /** It grew, and all the new calls were answered well. */
  ghost predicate GoesWell(cfg: Config, before: seq<Callback>, trace: seq<Callback>) {
    Extends(cfg, before, trace) && (before < trace ==> cfg.host(trace))
  }

  lemma ExtendsOn(cfg: Config, a: seq<Callback>, b: seq<Callback>, c: seq<Callback>)
    requires GoesWell(cfg, a, b) && Extends(cfg, b, c)
    ensures Extends(cfg, a, c) && (GoesWell(cfg, b, c) ==> GoesWell(cfg, a, c))
  {
    assert c[..|b|] == b;
    assert forall k :: 0 <= k < |b| ==> c[k] == b[k] && c[..k] == b[..k];
    assert |c| == |b| ==> c == b;
  }

  lemma StaysWell(cfg: Config, t: seq<Callback>)
    ensures GoesWell(cfg, t, t)
  {
  }

  lemma ExtendsMore(cfg: Config, t: seq<Callback>, c: Callback)
    requires !c.Poll?
    ensures Extends(cfg, t, t + [c]) && (cfg.host(t + [c]) ==> GoesWell(cfg, t, t + [c]))
  {
  }

  lemma WellUnrefused(cfg: Config, t: seq<Callback>, u: seq<Callback>)
    requires Unrefused(cfg, t) && GoesWell(cfg, t, u)
    ensures Unrefused(cfg, u)
  {
    assert u[..|u|] == u;
    assert forall k :: 0 <= k <= |t| ==> u[..k] == t[..k];
    assert |u| == |t| ==> u == t;
  }

  // --- cores ----------------------------------------------------------------------------------------------

  /** `d` is `c` with the polls erased from the log. */
  predicate Shadows(c: Core, d: Core) {
    c.(trace := d.trace) == d && Erase(c.trace) == d.trace
  }

  /** A step and its shadow agree, unless the host refused; then the log is a beginning of the shadow's. */
  ghost predicate Follows(cfg: Config, c: Core, r: Res, q: Res) {
    && Extends(cfg, c.trace, r.c.trace)
    && if r.rc == Abort then
         c.trace < r.c.trace && !cfg.host(r.c.trace) && Erase(r.c.trace) <= q.c.trace
       else r.rc == q.rc && Shadows(r.c, q.c) && GoesWell(cfg, c.trace, r.c.trace)
  }

  lemma BlankFollows(cfg: Config, f: Bufs, t: seq<Callback>)
    ensures var r, q := BlankLine(cfg, f, t), BlankLine(Quiet(cfg), f, Erase(t));
      && Extends(cfg, t, r.trace)
      && if r.rc == Abort then t < r.trace && !cfg.host(r.trace) && Erase(r.trace) <= q.trace
         else r.rc == q.rc && r.f == q.f && Erase(r.trace) == q.trace && GoesWell(cfg, t, r.trace)
  {
    hide Erase, Extends, WithoutLastLf;
    EraseMore(t, Frame);
    ExtendsMore(cfg, t, Frame);
    StaysWell(cfg, t);
    var t1 := if cfg.onFrame then t + [Frame] else t;
    var ev := Event(WithoutLastLf(f.data), if f.event != [] then f.event else MESSAGE, f.id);
    EraseMore(t1, ev);
    ExtendsMore(cfg, t1, ev);
    if !cfg.onFrame || cfg.host(t1) {
      ExtendsOn(cfg, t, t1, t1 + [ev]);
    }
  }

  lemma LineFollows(cfg: Config, c: Core, d: Core)
    requires Shadows(c, d)
    ensures Follows(cfg, c, ProcessLine(cfg, c), ProcessLine(Quiet(cfg), d))
  {
    hide BlankLine, ParseField, Extends, GoesWell;
    StaysWell(cfg, c.trace);
    BlankFollows(cfg, c.f, c.trace);
    SameField(cfg, c.f, c.m, ParseField(c.t.line));
  }

  lemma SameField(cfg: Config, f: Bufs, m: Mem, field: Field)
    ensures ProcessField(cfg, f, m, field) == ProcessField(Quiet(cfg), f, m, field)
    ensures ProcessField(cfg, f, m, field).rc != Abort
  {
    hide Reserve;
    ReserveNeverAborts(cfg, m);
  }

  lemma ReserveNeverAborts(cfg: Config, m: Mem)
    ensures forall m0, slot, needed :: Reserve(cfg.maxBuffer, m0, slot, needed).rc != Abort
  {
  }

  lemma SameText(cfg: Config, t: Text, m: Mem, b: byte)
    ensures FeedUtf8(cfg, t, m, b) == FeedUtf8(Quiet(cfg), t, m, b) && FeedUtf8(cfg, t, m, b).rc != Abort
    decreases t.expected != 0
  {
    hide Reserve;
    ReserveNeverAborts(cfg, m);
    if t.expected != 0 && !IsTail(b) {
      var r := LineAppend(cfg, t, m, REPLACEMENT);
      SameText(cfg, ResetUtf8(r.t), r.m, b);
    }
  }

  lemma SameFlush(cfg: Config, t: Text, m: Mem)
    ensures FlushIncomplete(cfg, t, m) == FlushIncomplete(Quiet(cfg), t, m) && FlushIncomplete(cfg, t, m).rc != Abort
  {
    hide Reserve;
    ReserveNeverAborts(cfg, m);
  }

  lemma EndLineFollows(cfg: Config, c: Core, d: Core, cr: bool)
    requires Shadows(c, d)
    ensures Follows(cfg, c, EndLine(cfg, c, cr), EndLine(Quiet(cfg), d, cr))
  {
    hide ProcessLine, FlushIncomplete, Extends, GoesWell, Erase;
    SameFlush(cfg, c.t, c.m);
    StaysWell(cfg, c.trace);
    var r := FlushIncomplete(cfg, c.t, c.m);
    if r.rc == Ok {
      LineFollows(cfg, c.(t := r.t, m := r.m), d.(t := r.t, m := r.m));
    }
  }

  lemma RawByteFollows(cfg: Config, c: Core, d: Core, b: byte)
    requires Shadows(c, d)
    ensures Follows(cfg, c, ProcessRawByte(cfg, c, b), ProcessRawByte(Quiet(cfg), d, b))
  {
    hide EndLine, FeedUtf8, Extends, GoesWell, Erase;
    StaysWell(cfg, c.trace);
    SameText(cfg, c.t, c.m, b);
    if IsEol(b) {
      EndLineFollows(cfg, c.(pendingCr := false), d.(pendingCr := false), b == CR);
    }
  }

  /** Follows, then more of the shadow. */
  lemma FollowsOn(cfg: Config, c: Core, m: Core, r: Res, q: Res)
    requires GoesWell(cfg, c.trace, m.trace) && Follows(cfg, m, r, q)
    ensures Follows(cfg, c, r, q)
  {
    ExtendsOn(cfg, c.trace, m.trace, r.c.trace);
  }

  lemma {:induction false} RawBytesFollow(cfg: Config, c: Core, d: Core, bs: bytes)
    requires Shadows(c, d)
    ensures Follows(cfg, c, RawBytes(cfg, c, bs), RawBytes(Quiet(cfg), d, bs))
    decreases |bs|
  {
    hide ProcessRawByte, Extends, GoesWell, Erase;
    if bs == [] {
      StaysWell(cfg, c.trace);
    } else {
      RawByteFollows(cfg, c, d, bs[0]);
      var r, q := ProcessRawByte(cfg, c, bs[0]), ProcessRawByte(Quiet(cfg), d, bs[0]);
      if r.rc == Ok {
        RawBytesFollow(cfg, r.c, q.c, bs[1..]);
        FollowsOn(cfg, c, r.c, RawBytes(cfg, r.c, bs[1..]), RawBytes(Quiet(cfg), q.c, bs[1..]));
      } else if q.rc == Ok {
        RawBytesGrow(Quiet(cfg), q.c, bs[1..]);
      }
    }
  }

  // --- the calls only grow --------------------------------------------------------------------------------

  lemma RawByteGrows(cfg: Config, c: Core, b: byte)
    ensures c.trace <= ProcessRawByte(cfg, c, b).c.trace
  {
    hide ProcessRawByte, Extends, GoesWell, Erase;
    RawByteFollows(cfg, c, c.(trace := Erase(c.trace)), b);
    ExtendsIsPrefix(cfg, c.trace, ProcessRawByte(cfg, c, b).c.trace);
  }

  lemma ExtendsIsPrefix(cfg: Config, t: seq<Callback>, u: seq<Callback>)
    requires Extends(cfg, t, u)
    ensures t <= u
  {
  }

  lemma {:induction false} RawBytesGrow(cfg: Config, c: Core, bs: bytes)
    ensures c.trace <= RawBytes(cfg, c, bs).c.trace
    decreases |bs|
  {
    hide ProcessRawByte;
    if bs != [] {
      RawByteGrows(cfg, c, bs[0]);
      RawBytesGrow(cfg, ProcessRawByte(cfg, c, bs[0]).c, bs[1..]);
    }
  }

  // --- states ---------------------------------------------------------------------------------------------

  predicate ShadowState(s: State, q: State) {
    s.(core := q.core) == q && Shadows(s.core, q.core)
  }

  ghost predicate FollowsState(cfg: Config, s: State, r: State, q: State) {
    && Extends(cfg, s.core.trace, r.core.trace)
    && if r.status == Abort then
         s.core.trace < r.core.trace && !cfg.host(r.core.trace) && Erase(r.core.trace) <= q.core.trace
       else ShadowState(r, q) && GoesWell(cfg, s.core.trace, r.core.trace)
  }

  lemma ByteFollows(cfg: Config, s: State, q: State, b: byte)
    requires ShadowState(s, q) && s.status == Ok
    ensures FollowsState(cfg, s, ProcessByte(cfg, s, b), ProcessByte(Quiet(cfg), q, b))
  {
    hide ProcessRawByte, RawBytes, Extends, GoesWell, Erase;
    StaysWell(cfg, s.core.trace);
    RawByteFollows(cfg, s.core, q.core, b);
    RawBytesFollow(cfg, s.core, q.core, s.bom + [b]);
  }

  lemma ByteGrows(cfg: Config, s: State, b: byte)
    ensures s.core.trace <= ProcessByte(cfg, s, b).core.trace
  {
    hide ProcessRawByte, RawBytes;
    RawByteGrows(cfg, s.core, b);
    RawBytesGrow(cfg, s.core, s.bom + [b]);
  }

  lemma {:induction false} RunGrows(cfg: Config, s: State, bs: bytes)
    ensures s.core.trace <= Run(cfg, s, bs).core.trace
    decreases |bs|
  {
    hide ProcessByte;
    if bs != [] && s.status == Ok {
      ByteGrows(cfg, s, bs[0]);
      RunGrows(cfg, ProcessByte(cfg, s, bs[0]), bs[1..]);
    }
  }

  lemma FollowsStateOn(cfg: Config, s: State, m: State, r: State, q: State)
    requires GoesWell(cfg, s.core.trace, m.core.trace) && FollowsState(cfg, m, r, q)
    ensures FollowsState(cfg, s, r, q)
  {
    ExtendsOn(cfg, s.core.trace, m.core.trace, r.core.trace);
  }

  /**
   A run with any host and the run with a willing one: the same, polls aside, unless the host refused a call;
   then everything called up to there is a beginning of what the willing one is called with.
   */
  lemma {:induction false} RunFollows(cfg: Config, s: State, q: State, bs: bytes)
    requires ShadowState(s, q) && s.status == Ok
    ensures FollowsState(cfg, s, Run(cfg, s, bs), Run(Quiet(cfg), q, bs))
    decreases |bs|
  {
    hide ProcessByte, Extends, GoesWell, Erase;
    if bs == [] {
      StaysWell(cfg, s.core.trace);
    } else {
      ByteFollows(cfg, s, q, bs[0]);
      var r, u := ProcessByte(cfg, s, bs[0]), ProcessByte(Quiet(cfg), q, bs[0]);
      if r.status == Ok {
        RunFollows(cfg, r, u, bs[1..]);
        FollowsStateOn(cfg, s, r, Run(cfg, r, bs[1..]), Run(Quiet(cfg), u, bs[1..]));
      } else if u.status == Ok {
        RunGrows(Quiet(cfg), u, bs[1..]);
      }
    }
  }

  lemma ChunkFollows(cfg: Config, s: State, q: State, chunk: bytes)
    requires ShadowState(s, q) && s.status == Ok
    ensures FollowsState(cfg, s, FeedChunk(cfg, s, chunk), FeedChunk(Quiet(cfg), q, chunk))
  {
    hide Run, Extends, GoesWell, Erase;
    StaysWell(cfg, s.core.trace);
    RunFollows(cfg, s.(total := s.total + |chunk|), q.(total := q.total + |chunk|), chunk);
  }

  lemma ChunkGrows(cfg: Config, s: State, chunk: bytes)
    ensures s.core.trace <= FeedChunk(cfg, s, chunk).core.trace
  {
    hide Run;
    RunGrows(cfg, s.(total := s.total + |chunk|), chunk);
  }
}
