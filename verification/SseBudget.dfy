/**
 When the memory budget runs out: exactly when what a buffer is to hold, beside the capacities of the other three,
 exceeds the budget. Doubling never causes it.
 */
module SseBudget {
  import opened Bytes
  import opened Utf8
  import opened EventStream
  import opened SseMachine
  import opened SseInvariants
  import opened SseRefinement

  // --- one buffer -----------------------------------------------------------------------------------------

  /** The capacities of the other three buffers. */
  function Others(m: Mem, slot: Slot): nat {
    match slot
    case LineSlot => m.data + m.event + m.id
    case DataSlot => m.line + m.event + m.id
    case EventSlot => m.line + m.data + m.id
    case IdSlot => m.line + m.data + m.event
  }

  function CapacityOf(m: Mem, slot: Slot): nat {
    match slot case LineSlot => m.line case DataSlot => m.data case EventSlot => m.event case IdSlot => m.id
  }

  /** So many bytes in this buffer do not fit beside the others. */
  predicate Exceeds(cfg: Config, m: Mem, slot: Slot, needed: nat) {
    cfg.maxBuffer != 0 && Others(m, slot) + needed > cfg.maxBuffer
  }

  function Least(a: nat, b: nat): nat {
    if a < b then a else b
  }

  /** What the capacity of a buffer grows to: at least twofold, from 64, as far as the budget goes. */
  function NewCapacity(cfg: Config, m: Mem, slot: Slot, needed: nat): nat {
    var cap := CapacityOf(m, slot);
    var wanted := if cap == 0 && needed <= 64 then 64 else if needed <= 2 * cap then 2 * cap else needed;
    if cfg.maxBuffer == 0 || Others(m, slot) > cfg.maxBuffer then wanted
    else Least(wanted, cfg.maxBuffer - Others(m, slot))
  }

  /** Growth is refused exactly when the bytes do not fit; otherwise only this capacity changes, if it has to. */
  lemma GrowsExactly(cfg: Config, m: Mem, slot: Slot, needed: nat)
    requires MemOk(cfg, m)
    ensures var g := Reserve(cfg.maxBuffer, m, slot, needed);
      && (g.rc == OverflowBuffer <==> needed > CapacityOf(m, slot) && Exceeds(cfg, m, slot, needed))
      && (g.rc == OverflowBuffer <==> Exceeds(cfg, m, slot, needed))
      && (g.rc == OverflowBuffer || g.rc == Ok) && (g.rc != Ok || needed <= CapacityOf(m, slot) ==> g.m == m)
      && (g.rc == Ok && needed > CapacityOf(m, slot) ==>
            && CapacityOf(g.m, slot) == NewCapacity(cfg, m, slot, needed) && Others(g.m, slot) == Others(m, slot)
            && forall s: Slot :: s != slot ==> CapacityOf(g.m, s) == CapacityOf(m, s))
  {
  }

  // --- one byte -------------------------------------------------------------------------------------------

  /** The buffer a field goes to, and what it then has to hold. */
  predicate FieldLacks(cfg: Config, m: Mem, data: bytes, field: Field) {
    if field.name == DATA then Exceeds(cfg, m, DataSlot, |data| + |field.value| + 1)
    else if field.name == EVENT then field.value != [] && Exceeds(cfg, m, EventSlot, |field.value|)
    else field.name == ID && field.value != [] && 0 !in field.value && Exceeds(cfg, m, IdSlot, |field.value|)
  }

  predicate LineLacks(cfg: Config, m: Mem, data: bytes, line: bytes) {
    line != [] && line[0] != COLON && FieldLacks(cfg, m, data, ParseField(line))
  }

  /** What byte `b` makes the parser hold in state `c` does not fit beside the other capacities `m` has. */
  predicate Lacks(cfg: Config, c: Core, b: byte, m: Mem)
    requires c.t.pend == [] || Unfinished(c.t.pend)
  {
    if c.pendingCr && b == LF then false
    else if IsEol(b) then
      var line := c.t.line + Flushed(c.t);
      (c.t.pend != [] && Exceeds(cfg, m, LineSlot, |line|)) || LineLacks(cfg, m, c.f.data, line)
    else
      var out := Feed(c.t.pend, b).out;
      out != [] && Exceeds(cfg, m, LineSlot, |c.t.line| + |out|)
  }

  lemma AppendRunsOut(cfg: Config, t: Text, m: Mem, d: bytes)
    requires MemOk(cfg, m) && TextFits(cfg, t, m)
    ensures var r := LineAppend(cfg, t, m, d);
      && (r.rc == OverflowBuffer ==> d != [] && Exceeds(cfg, m, LineSlot, |t.line| + |d|))
      && (r.rc == Ok ==> !Exceeds(cfg, m, LineSlot, |t.line| + |d|))
      && Others(r.m, LineSlot) == Others(m, LineSlot)
  {
    GrowsExactly(cfg, m, LineSlot, |t.line| + |d|);
  }

  lemma FeedRunsOut(cfg: Config, t: Text, m: Mem, b: byte)
    requires MemOk(cfg, m) && TextFits(cfg, t, m) && Utf8Consistent(t)
    ensures var r, out := FeedUtf8(cfg, t, m, b), Feed(t.pend, b).out;
      && (r.rc == OverflowBuffer ==> out != [] && Exceeds(cfg, r.m, LineSlot, |t.line| + |out|))
      && (r.rc == Ok ==> !Exceeds(cfg, r.m, LineSlot, |t.line| + |out|))
      && Others(r.m, LineSlot) == Others(m, LineSlot)
    decreases t.expected != 0
  {
    FeedAdds(cfg, t, m, b);
    if t.expected == 0 {
      AppendRunsOut(cfg, t, m, Start(b).out);
    } else if IsTail(b) {
      var t1 := t.(pend := t.pend + [b], expected := t.expected - 1);
      AppendRunsOut(cfg, t1, m, if t1.expected != 0 then [] else if SequenceValid(t1.pend) then t1.pend else REPLACEMENT);
    } else {
      AppendRunsOut(cfg, t, m, REPLACEMENT);
      LineAppendAdds(cfg, t, m, REPLACEMENT);
      var r := LineAppend(cfg, t, m, REPLACEMENT);
      if r.rc == Ok {
        FeedRunsOut(cfg, ResetUtf8(r.t), r.m, b);
      }
    }
  }

  lemma FieldRunsOut(cfg: Config, f: Bufs, m: Mem, field: Field)
    requires MemOk(cfg, m) && BufsFit(cfg, f, m)
    ensures var r := ProcessField(cfg, f, m, field);
      && (r.rc == OverflowBuffer ==> FieldLacks(cfg, r.m, f.data, field))
      && (r.rc == Ok ==> !FieldLacks(cfg, r.m, f.data, field))
      && (r.rc == Ok || r.rc == OverflowBuffer || r.rc == OverflowFrame) && NotLess(m, r.m) && MemOk(cfg, r.m)
  {
    hide Reserve, Exceeds;
    if field.name == DATA {
      DataRunsOut(cfg, f, m, field.value);
    } else if field.name == EVENT {
      ReserveAgain(cfg, m, EventSlot, |field.value|);
    } else if field.name == ID {
      ReserveAgain(cfg, m, IdSlot, |field.value|);
    }
    NotLessSame(m);
  }

  lemma NotLessSame(m: Mem)
    ensures NotLess(m, m)
  {
  }

  /** Before and after growing a buffer the others are the same. */
  lemma ReserveAgain(cfg: Config, m: Mem, slot: Slot, needed: nat)
    requires MemOk(cfg, m)
    ensures var g := Reserve(cfg.maxBuffer, m, slot, needed);
      && (g.rc == OverflowBuffer <==> Exceeds(cfg, g.m, slot, needed)) && (g.rc == Ok || g.rc == OverflowBuffer)
      && Others(g.m, slot) == Others(m, slot) && NotLess(m, g.m) && MemOk(cfg, g.m)
      && (g.rc == Ok ==> CapacityOf(g.m, slot) >= needed)
  {
    GrowsExactly(cfg, m, slot, needed);
    ReserveKeeps(cfg, m, slot, needed);
  }

  lemma DataRunsOut(cfg: Config, f: Bufs, m: Mem, v: bytes)
    requires MemOk(cfg, m) && BufsFit(cfg, f, m)
    ensures var r := HandleData(cfg, f, m, v);
      && (r.rc == OverflowBuffer ==> Exceeds(cfg, r.m, DataSlot, |f.data| + |v| + 1))
      && (r.rc == Ok ==> !Exceeds(cfg, r.m, DataSlot, |f.data| + |v| + 1))
      && (r.rc == Ok || r.rc == OverflowBuffer || r.rc == OverflowFrame) && NotLess(m, r.m) && MemOk(cfg, r.m)
  {
    hide Reserve;
    ReserveAgain(cfg, m, DataSlot, |f.data| + |v|);
    var r := AppendData(cfg, f, m, v);
    ReserveAgain(cfg, r.m, DataSlot, |r.f.data| + 1);
  }

  /** How a byte can end. */
  predicate Reported(rc: Status) {
    rc == Ok || rc == OverflowLine || rc == OverflowFrame || rc == OverflowBuffer || rc == Abort
  }

  lemma LineRunsOut(cfg: Config, c: Core)
    requires Accounted(cfg, c)
    ensures var r := ProcessLine(cfg, c);
      && (r.rc == OverflowBuffer ==> LineLacks(cfg, r.c.m, c.f.data, c.t.line))
      && (r.rc == Ok || r.rc == Abort ==> !LineLacks(cfg, r.c.m, c.f.data, c.t.line)) && Reported(r.rc)
      && NotLess(c.m, r.c.m) && MemOk(cfg, r.c.m)
  {
    hide ProcessField, FieldLacks, BlankLine;
    NotLessSame(c.m);
    if c.t.line != [] && c.t.line[0] != COLON {
      FieldRunsOut(cfg, c.f, c.m, ParseField(c.t.line));
    }
    BlankNeedsNothing(cfg, c.f, c.trace);
  }

  lemma BlankNeedsNothing(cfg: Config, f: Bufs, trace: seq<Callback>)
    ensures BlankLine(cfg, f, trace).rc == Ok || BlankLine(cfg, f, trace).rc == Abort
  {
  }

  /** The line fits as long as its capacity reaches it. */
  lemma HeldFits(cfg: Config, m: Mem, n: nat)
    requires MemOk(cfg, m) && n <= m.line
    ensures !Exceeds(cfg, m, LineSlot, n)
  {
  }

  lemma EndRunsOut(cfg: Config, c: Core, cr: bool)
    requires CoreInv(cfg, c)
    ensures var r := EndLine(cfg, c, cr); var line := c.t.line + Flushed(c.t);
      var lacks := (c.t.pend != [] && Exceeds(cfg, r.c.m, LineSlot, |line|)) || LineLacks(cfg, r.c.m, c.f.data, line);
      && (r.rc == OverflowBuffer ==> lacks)
      && (r.rc == Ok || r.rc == Abort ==> !lacks) && Reported(r.rc)
  {
    hide ProcessLine, LineLacks, Exceeds;
    FlushAdds(cfg, c.t, c.m);
    AppendRunsOut(cfg, ResetUtf8(c.t), c.m, REPLACEMENT);
    var r := FlushIncomplete(cfg, c.t, c.m);
    assert c.t.line + [] == c.t.line;
    if r.rc == Ok {
      var c1 := c.(t := r.t, m := r.m);
      StillAccounted(cfg, c, r);
      LineRunsOut(cfg, c1);
      HeldFits(cfg, ProcessLine(cfg, c1).c.m, |r.t.line|);
    } else {
      SameOthers(cfg, c.m, r.m, LineSlot, |c.t.line + REPLACEMENT|);
    }
  }

  lemma SameOthers(cfg: Config, m: Mem, n: Mem, slot: Slot, needed: nat)
    requires Others(m, slot) == Others(n, slot)
    ensures Exceeds(cfg, m, slot, needed) == Exceeds(cfg, n, slot, needed)
  {
  }

  lemma StillAccounted(cfg: Config, c: Core, r: TextRes)
    requires CoreInv(cfg, c) && MemOk(cfg, r.m) && TextFits(cfg, r.t, r.m) && NotLess(c.m, r.m)
    ensures Accounted(cfg, c.(t := r.t, m := r.m))
  {
  }

  /** A byte that meets no other limit runs out of the budget exactly when what it makes the parser hold does not fit. */
  lemma ByteRunsOutExactly(cfg: Config, c: Core, b: byte)
    requires CoreInv(cfg, c)
    ensures c.t.pend == [] || Unfinished(c.t.pend)
    ensures var r := ProcessRawByte(cfg, c, b);
      && (r.rc == OverflowBuffer ==> Lacks(cfg, c, b, r.c.m))
      && (r.rc == Ok || r.rc == Abort ==> !Lacks(cfg, c, b, r.c.m)) && Reported(r.rc)
  {
    hide LineLacks, FeedUtf8, EndLine;
    if IsEol(b) {
      EndRunsOut(cfg, c.(pendingCr := false), b == CR);
    } else {
      FeedRunsOut(cfg, c.t, c.m, b);
      FeedAdds(cfg, c.t, c.m, b);
    }
  }

  // --- runs -----------------------------------------------------------------------------------------------

  /** The byte with index `k` of the text behind the byte order mark is where the run stops for lack of memory. */
  ghost predicate RunsOutAt(cfg: Config, text: bytes, k: nat, last: Core)
    requires k < |text|
  {
    var before := RawBytes(cfg, NO_CORE, text[..k]);
    && before.rc == Ok && (before.c.t.pend == [] || Unfinished(before.c.t.pend))
    && ProcessRawByte(cfg, before.c, text[k]).c == last && Lacks(cfg, before.c, text[k], last.m)
    && ProcessRawByte(cfg, before.c, text[k]).rc != OverflowLine && ProcessRawByte(cfg, before.c, text[k]).rc != OverflowFrame
  }

  lemma {:induction false} RawBytesRunOut(cfg: Config, c: Core, text: bytes) returns (k: nat)
    requires CoreInv(cfg, c) && RawBytes(cfg, c, text).rc == OverflowBuffer
    ensures k < |text|
    ensures var before := RawBytes(cfg, c, text[..k]);
      before.rc == Ok && CoreInv(cfg, before.c) && ProcessRawByte(cfg, before.c, text[k]) == RawBytes(cfg, c, text)
    decreases |text|
  {
    hide ProcessRawByte, CoreInv;
    RawByteKeeps(cfg, c, text[0]);
    var r := ProcessRawByte(cfg, c, text[0]);
    if r.rc != Ok {
      k := 0;
      assert text[..0] == [];
    } else {
      var j := RawBytesRunOut(cfg, r.c, text[1..]);
      k := j + 1;
      assert text[..k][0] == text[0] && text[..k][1..] == text[1..][..j];
    }
  }

  /** The other way: such a byte stops the run, and nothing after it is looked at. */
  lemma {:induction false} RunsOutThere(cfg: Config, c: Core, text: bytes, k: nat)
    requires CoreInv(cfg, c) && k < |text| && RawBytes(cfg, c, text[..k]).rc == Ok
    ensures CoreInv(cfg, RawBytes(cfg, c, text[..k]).c)
    ensures var r := ProcessRawByte(cfg, RawBytes(cfg, c, text[..k]).c, text[k]); r.rc != Ok ==> RawBytes(cfg, c, text) == r
    decreases k
  {
    hide ProcessRawByte, CoreInv;
    if k == 0 {
      assert text[..0] == [];
    } else {
      assert text[..k][0] == text[0] && text[..k][1..] == text[1..][..k - 1];
      RawByteKeeps(cfg, c, text[0]);
      RunsOutThere(cfg, ProcessRawByte(cfg, c, text[0]).c, text[1..], k - 1);
    }
  }

  /**
   Main result. For every stream and budget: the run ends for lack of memory exactly if at some byte, up to which all
   went well and which meets no other limit, the contents it makes a buffer hold exceed the budget beside the
   capacities of the others.
   */
  lemma RunsOutExactly(cfg: Config, bs: bytes)
    ensures var t, text := Run(cfg, INIT, bs), StripBom(bs);
      t.status == OverflowBuffer <==> !(bs <= BOM) && exists k :: 0 <= k < |text| && RunsOutAt(cfg, text, k, t.core)
  {
    hide Run, ProcessRawByte, CoreInv, Lacks;
    var t, text := Run(cfg, INIT, bs), StripBom(bs);
    RunFromStart(cfg, INIT, bs);
    assert INIT.bom + bs == bs;
    FreshCore(cfg);
    if t.status == OverflowBuffer {
      var k := RawBytesRunOut(cfg, NO_CORE, text);
      ByteRunsOutExactly(cfg, RawBytes(cfg, NO_CORE, text[..k]).c, text[k]);
      assert RunsOutAt(cfg, text, k, t.core);
    } else if !(bs <= BOM) {
      forall k | 0 <= k < |text|
        ensures !RunsOutAt(cfg, text, k, t.core)
      {
        if RunsOutAt(cfg, text, k, t.core) {
          RunsOutThere(cfg, NO_CORE, text, k);
          ByteRunsOutExactly(cfg, RawBytes(cfg, NO_CORE, text[..k]).c, text[k]);
        }
      }
    }
  }

  lemma FreshCore(cfg: Config)
    ensures CoreInv(cfg, NO_CORE)
  {
    InitHolds(cfg);
  }
}
