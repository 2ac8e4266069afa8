/**
 What every non-error state of the event-stream parser keeps: the memory account, the limits, the meaning of
 the data flag, valid UTF-8 in the line buffer. Each lemma also says what the step did to the contents.
 */
module SseInvariants {
  import opened Bytes
  import opened Utf8
  import opened EventStream
  import opened SseMachine

  /** No buffer shrank. */
  predicate NotLess(m: Mem, m': Mem) {
    m.line <= m'.line && m.data <= m'.data && m.event <= m'.event && m.id <= m'.id
  }

  /** Growing one buffer keeps the account and touches no other buffer. */
  lemma ReserveKeeps(cfg: Config, m: Mem, slot: Slot, needed: nat)
    requires MemOk(cfg, m)
    ensures var g := Reserve(cfg.maxBuffer, m, slot, needed);
      && MemOk(cfg, g.m) && NotLess(m, g.m) && g.m == m.Recap(slot, g.m.Cap(slot))
      && (if g.rc == Ok then g.m.Cap(slot) >= needed
          else g.rc == OverflowBuffer && cfg.maxBuffer != 0 && g.m == m)
  {
  }

  predicate TooLong(cfg: Config, n: nat) {
    cfg.maxLine != 0 && n > cfg.maxLine
  }

  /** `out` was added to the line, or the line limit or the memory budget forbade it. */
  predicate Added(cfg: Config, t: Text, m: Mem, r: TextRes, out: bytes) {
    && MemOk(cfg, r.m) && TextFits(cfg, r.t, r.m) && NotLess(m, r.m)
    && (r.rc == Ok ==> r.t.line == t.line + out && !TooLong(cfg, |t.line| + |out|))
    && (r.rc == OverflowLine ==> TooLong(cfg, |t.line| + |out|))
    && (r.rc == OverflowBuffer ==> cfg.maxBuffer != 0)
    && (r.rc == Ok || r.rc == OverflowLine || r.rc == OverflowBuffer)
  }

  lemma LineAppendAdds(cfg: Config, t: Text, m: Mem, d: bytes)
    requires MemOk(cfg, m) && TextFits(cfg, t, m)
    ensures Added(cfg, t, m, LineAppend(cfg, t, m, d), d)
    ensures LineAppend(cfg, t, m, d).t == t.(line := LineAppend(cfg, t, m, d).t.line)
  {
    ReserveKeeps(cfg, m, LineSlot, |t.line| + |d|);
    assert t.line + [] == t.line;
  }

  lemma FeedStart(cfg: Config, t: Text, m: Mem, b: byte)
    requires MemOk(cfg, m) && TextFits(cfg, t, m) && t.expected == 0 && Utf8Consistent(t)
    ensures var r := FeedUtf8(cfg, t, m, b);
      Added(cfg, t, m, r, Start(b).out) && r.t.pend == Start(b).pend && Utf8Consistent(r.t)
  {
    LineAppendAdds(cfg, t, m, Start(b).out);
    if LeadLength(b) > 1 {
      assert [b][1..] == [];
    }
  }

  lemma FeedTail(cfg: Config, t: Text, m: Mem, b: byte)
    requires MemOk(cfg, m) && TextFits(cfg, t, m) && t.expected != 0 && Utf8Consistent(t) && IsTail(b)
    ensures var r := FeedUtf8(cfg, t, m, b);
      && Added(cfg, t, m, r, Feed(t.pend, b).out)
      && Utf8Consistent(r.t)
      && (r.rc == Ok ==> r.t.pend == Feed(t.pend, b).pend)
  {
    var t1 := t.(pend := t.pend + [b], expected := t.expected - 1);
    assert t1.pend[1..] == t.pend[1..] + [b];
    LineAppendAdds(cfg, t1, m, if t1.expected != 0 then [] else if SequenceValid(t1.pend) then t1.pend else REPLACEMENT);
    assert t.line + [] == t.line;
  }

  lemma FeedBreak(cfg: Config, t: Text, m: Mem, b: byte)
    requires MemOk(cfg, m) && TextFits(cfg, t, m) && t.expected != 0 && Utf8Consistent(t) && !IsTail(b)
    ensures var r := FeedUtf8(cfg, t, m, b);
      && Added(cfg, t, m, r, Feed(t.pend, b).out)
      && Utf8Consistent(r.t)
      && (r.rc == Ok ==> r.t.pend == Feed(t.pend, b).pend)
  {
    LineAppendAdds(cfg, t, m, REPLACEMENT);
    var r := LineAppend(cfg, t, m, REPLACEMENT);
    if r.rc == Ok {
      FeedStart(cfg, ResetUtf8(r.t), r.m, b);
      assert t.line + REPLACEMENT + Start(b).out == t.line + (REPLACEMENT + Start(b).out);
    }
  }

  /** One byte does to the line and to the unfinished character what the decoder does. */
  lemma FeedAdds(cfg: Config, t: Text, m: Mem, b: byte)
    requires MemOk(cfg, m) && TextFits(cfg, t, m) && Utf8Consistent(t)
    ensures var r := FeedUtf8(cfg, t, m, b);
      && Added(cfg, t, m, r, Feed(t.pend, b).out)
      && Utf8Consistent(r.t)
      && (r.rc == Ok ==> r.t.pend == Feed(t.pend, b).pend)
  {
    if t.expected == 0 {
      FeedStart(cfg, t, m, b);
    } else if IsTail(b) {
      FeedTail(cfg, t, m, b);
    } else {
      FeedBreak(cfg, t, m, b);
    }
  }

  lemma FeedKeepsLine(cfg: Config, t: Text, m: Mem, b: byte)
    requires MemOk(cfg, m) && TextFits(cfg, t, m) && Utf8Consistent(t) && LineConsistent(t) && !IsEol(b)
    ensures var r := FeedUtf8(cfg, t, m, b); r.rc == Ok ==> LineConsistent(r.t)
  {
    FeedAdds(cfg, t, m, b);
    FeedShape(t.pend, b);
    ValidConcat(t.line, Feed(t.pend, b).out);
  }

  /** What a line end adds for a character it cuts short. */
  function Flushed(t: Text): bytes {
    if t.pend == [] then [] else REPLACEMENT
  }

  lemma FlushAdds(cfg: Config, t: Text, m: Mem)
    requires MemOk(cfg, m) && TextFits(cfg, t, m) && Utf8Consistent(t) && LineConsistent(t)
    ensures var r := FlushIncomplete(cfg, t, m);
      Added(cfg, t, m, r, Flushed(t)) && (r.rc == Ok ==> LineConsistent(r.t) && Utf8Consistent(r.t) && r.t.pend == [])
  {
    hide ValidUtf8, MemOk;
    assert t.line + [] == t.line;
    if t.expected != 0 {
      LineAppendAdds(cfg, ResetUtf8(t), m, REPLACEMENT);
      ValidChar(REPLACEMENT);
      ValidConcat(t.line, REPLACEMENT);
    }
  }

  // --- fields -------------------------------------------------------------------------------------------

  lemma AppendDataKeeps(cfg: Config, f: Bufs, m: Mem, d: bytes)
    requires MemOk(cfg, m) && BufsFit(cfg, f, m) && (cfg.maxFrame == 0 || |f.data| + |d| <= cfg.maxFrame)
    ensures var r := AppendData(cfg, f, m, d);
      && MemOk(cfg, r.m) && BufsFit(cfg, r.f, r.m) && r.m.line == m.line && r.f == f.(data := r.f.data)
      && (r.rc == Ok ==> r.f.data == f.data + d)
      && (r.rc != Ok ==> r.f == f && r.rc == OverflowBuffer && cfg.maxBuffer != 0)
  {
    ReserveKeeps(cfg, m, DataSlot, |f.data| + |d|);
    assert f.data + [] == f.data;
  }

  lemma HandleDataKeeps(cfg: Config, f: Bufs, m: Mem, v: bytes)
    requires MemOk(cfg, m) && BufsFit(cfg, f, m) && DataConsistent(f)
    ensures var r := HandleData(cfg, f, m, v);
      MemOk(cfg, r.m) && BufsFit(cfg, r.f, r.m) && r.m.line == m.line && (r.rc == Ok ==> DataConsistent(r.f))
  {
    if !(cfg.maxFrame != 0 && |f.data| + |v| + 1 > cfg.maxFrame) {
      AppendDataKeeps(cfg, f, m, v);
      var r := AppendData(cfg, f, m, v);
      if r.rc == Ok {
        AppendDataKeeps(cfg, r.f, r.m, [LF]);
      }
    }
  }

  lemma FieldKeeps(cfg: Config, f: Bufs, m: Mem, field: Field)
    requires MemOk(cfg, m) && BufsFit(cfg, f, m) && DataConsistent(f)
    ensures var r := ProcessField(cfg, f, m, field);
      MemOk(cfg, r.m) && BufsFit(cfg, r.f, r.m) && r.m.line == m.line && (r.rc == Ok ==> DataConsistent(r.f))
  {
    if field.name == DATA {
      HandleDataKeeps(cfg, f, m, field.value);
    } else if field.name == EVENT {
      ReserveKeeps(cfg, m, EventSlot, |field.value|);
    } else if field.name == ID {
      ReserveKeeps(cfg, m, IdSlot, |field.value|);
    }
  }

  lemma BlankKeeps(cfg: Config, f: Bufs, m: Mem, trace: seq<Callback>)
    requires BufsFit(cfg, f, m) && DataConsistent(f)
    ensures var r := BlankLine(cfg, f, trace); BufsFit(cfg, r.f, m) && (r.rc == Ok ==> DataConsistent(r.f))
  {
  }

  lemma ProcessLineKeeps(cfg: Config, c: Core)
    requires Accounted(cfg, c) && DataConsistent(c.f)
    ensures var r := ProcessLine(cfg, c);
      && Accounted(cfg, r.c) && r.c.t == c.t && r.c.pendingCr == c.pendingCr
      && (r.rc == Ok ==> DataConsistent(r.c.f))
  {
    if c.t.line == [] {
      BlankKeeps(cfg, c.f, c.m, c.trace);
    } else if c.t.line[0] != COLON {
      FieldKeeps(cfg, c.f, c.m, ParseField(c.t.line));
    }
  }

  lemma EndLineKeeps(cfg: Config, c: Core, cr: bool)
    requires CoreInv(cfg, c)
    ensures var r := EndLine(cfg, c, cr); Accounted(cfg, r.c) && (r.rc == Ok ==> CoreInv(cfg, r.c))
  {
    FlushAdds(cfg, c.t, c.m);
    var r := FlushIncomplete(cfg, c.t, c.m);
    var c1 := c.(t := r.t, m := r.m);
    if r.rc == Ok {
      ProcessLineKeeps(cfg, c1);
    }
  }

  lemma RawByteKeeps(cfg: Config, c: Core, b: byte)
    requires CoreInv(cfg, c)
    ensures var r := ProcessRawByte(cfg, c, b); Accounted(cfg, r.c) && (r.rc == Ok ==> CoreInv(cfg, r.c))
  {
    var c1 := c.(pendingCr := false);
    assert CoreInv(cfg, c1);
    if IsEol(b) {
      EndLineKeeps(cfg, c1, b == CR);
    } else {
      FeedAdds(cfg, c.t, c.m, b);
      FeedKeepsLine(cfg, c.t, c.m, b);
    }
  }

  lemma {:induction false} RawBytesKeep(cfg: Config, c: Core, bs: bytes)
    requires CoreInv(cfg, c)
    ensures var r := RawBytes(cfg, c, bs); Accounted(cfg, r.c) && (r.rc == Ok ==> CoreInv(cfg, r.c))
    decreases |bs|
  {
    if bs != [] {
      RawByteKeeps(cfg, c, bs[0]);
      var r := ProcessRawByte(cfg, c, bs[0]);
      if r.rc == Ok {
        RawBytesKeep(cfg, r.c, bs[1..]);
      }
    }
  }

  lemma InitHolds(cfg: Config)
    ensures Inv(cfg, INIT)
  {
  }

  /** One byte: the invariant survives unless an error is reported, and the account survives even then. */
  lemma ByteKeeps(cfg: Config, s: State, b: byte)
    requires Inv(cfg, s) && s.status == Ok
    ensures var s' := ProcessByte(cfg, s, b); Sound(cfg, s') && s'.total == s.total
  {
    if s.bomChecked {
      RawByteKeeps(cfg, s.core, b);
    } else {
      RawBytesKeep(cfg, s.core, s.bom + [b]);
    }
  }

  lemma {:induction false} RunKeeps(cfg: Config, s: State, bs: bytes)
    requires Sound(cfg, s)
    ensures var t := Run(cfg, s, bs); Sound(cfg, t) && t.total == s.total
    decreases |bs|
  {
    if bs != [] && s.status == Ok {
      ByteKeeps(cfg, s, bs[0]);
      RunKeeps(cfg, ProcessByte(cfg, s, bs[0]), bs[1..]);
    }
  }

  lemma ChunkKeeps(cfg: Config, s: State, chunk: bytes)
    requires Sound(cfg, s)
    ensures Sound(cfg, FeedChunk(cfg, s, chunk))
  {
    if s.status == Ok && !(cfg.maxTotal != 0 && |chunk| > cfg.maxTotal - s.total) {
      RunKeeps(cfg, s.(total := s.total + |chunk|), chunk);
    }
  }

  /**
   Every reachable state: the memory account is exact and within the budget, every length is within its
   capacity and its limit, and while no error was reported the data flag means a non-empty data buffer ending
   in LF and the line buffer holds valid UTF-8.
   */
  lemma {:induction false} EveryRunKeeps(cfg: Config, s: State, chunks: seq<bytes>)
    requires Sound(cfg, s)
    ensures Sound(cfg, FeedChunks(cfg, s, chunks))
    decreases |chunks|
  {
    if chunks != [] {
      ChunkKeeps(cfg, s, chunks[0]);
      EveryRunKeeps(cfg, FeedChunk(cfg, s, chunks[0]), chunks[1..]);
    }
  }
}
