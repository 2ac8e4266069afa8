/**
 The event-stream parser of src/sse.c as a transition function on values: one byte in, one new state out.
 `SseParser` is the imperative form of the same machine.
 */
module SseMachine {
  import opened Bytes
  import opened Utf8
  import opened EventStream

  // --- the four growable buffers' capacities and the shared memory account ------------------------------

  datatype Slot = LineSlot | DataSlot | EventSlot | IdSlot

  /** Capacities and `mem_used`. */
  datatype Mem = Mem(line: nat, data: nat, event: nat, id: nat, used: int)
  {
    function Cap(slot: Slot): nat {
      match slot case LineSlot => line case DataSlot => data case EventSlot => event case IdSlot => id
    }

    function Recap(slot: Slot, cap: nat): Mem {
      var u := used - Cap(slot) + cap;
      match slot
      case LineSlot => Mem(cap, data, event, id, u)
      case DataSlot => Mem(line, cap, event, id, u)
      case EventSlot => Mem(line, data, cap, id, u)
      case IdSlot => Mem(line, data, event, cap, u)
    }
  }

  const NO_MEM := Mem(0, 0, 0, 0, 0)

  datatype Grown = Grown(rc: Status, m: Mem)

  /** `sse_buf_reserve`. */
  function Reserve(maxBuffer: nat, m: Mem, slot: Slot, needed: nat): Grown {
    var old_cap := m.Cap(slot);
    if needed <= old_cap then Grown(Ok, m)
    else
      var doubled := if old_cap != 0 then old_cap * 2 else 64;
      var want := if doubled < needed then needed else doubled;
      var others := m.used - old_cap;
      var room := if maxBuffer > others then maxBuffer - others else 0;
      if maxBuffer != 0 && needed > room then Grown(OverflowBuffer, m)
      else Grown(Ok, m.Recap(slot, if maxBuffer != 0 && want > room then room else want))
  }

  // --- the line being read: its text and an unfinished character ------------------------------------------

  datatype Text = Text(line: bytes, pend: bytes, expected: nat, seqTotal: nat)

  const NO_TEXT := Text([], [], 0, 0)

  datatype TextRes = TextRes(rc: Status, t: Text, m: Mem)

  function ResetUtf8(t: Text): Text {
    Text(t.line, [], 0, 0)
  }

  function LineAppend(cfg: Config, t: Text, m: Mem, d: bytes): TextRes {
    if cfg.maxLine != 0 && |t.line| + |d| > cfg.maxLine then TextRes(OverflowLine, t, m)
    else if d == [] then TextRes(Ok, t, m)
    else
      var g := Reserve(cfg.maxBuffer, m, LineSlot, |t.line| + |d|);
      TextRes(g.rc, if g.rc == Ok then t.(line := t.line + d) else t, g.m)
  }

  function FeedUtf8(cfg: Config, t: Text, m: Mem, b: byte): TextRes
    decreases t.expected != 0
  {
    if t.expected == 0 then
      if b <= 0x7F then LineAppend(cfg, t, m, [b])
      else if 0xC2 <= b <= 0xDF then TextRes(Ok, Text(t.line, [b], 1, 2), m)
      else if 0xE0 <= b <= 0xEF then TextRes(Ok, Text(t.line, [b], 2, 3), m)
      else if 0xF0 <= b <= 0xF4 then TextRes(Ok, Text(t.line, [b], 3, 4), m)
      else LineAppend(cfg, t, m, REPLACEMENT)
    else if IsTail(b) then
      var t1 := t.(pend := t.pend + [b], expected := t.expected - 1);
      if t1.expected != 0 then TextRes(Ok, t1, m)
      else
        var r := LineAppend(cfg, t1, m, if SequenceValid(t1.pend) then t1.pend else REPLACEMENT);
        TextRes(r.rc, ResetUtf8(r.t), r.m)
    else
      var r := LineAppend(cfg, t, m, REPLACEMENT);
      if r.rc != Ok then TextRes(r.rc, ResetUtf8(r.t), r.m) else FeedUtf8(cfg, ResetUtf8(r.t), r.m, b)
  }

  function FlushIncomplete(cfg: Config, t: Text, m: Mem): TextRes {
    if t.expected == 0 then TextRes(Ok, t, m) else LineAppend(cfg, ResetUtf8(t), m, REPLACEMENT)
  }

  // --- fields and dispatch ------------------------------------------------------------------------------

  datatype Bufs = Bufs(data: bytes, dataSeen: bool, event: bytes, id: bytes, retry: Option<nat>)

  const NO_BUFS := Bufs([], false, [], [], None)

  datatype BufsRes = BufsRes(rc: Status, f: Bufs, m: Mem)

  /** `sse_parse_retry_value` from `i` on, with `val` read so far. */
  function RetryFrom(v: bytes, i: nat, val: nat): Option<nat>
    requires i <= |v|
    decreases |v| - i
  {
    if i == |v| then Some(val)
    else if !IsDigit(v[i]) then None
    else
      var digit: int := v[i] - 48;
      if val > (SIZE_MAX - digit) / 10 then None else RetryFrom(v, i + 1, val * 10 + digit)
  }

  function ParseRetry(v: bytes): Option<nat> {
    if v == [] then None else RetryFrom(v, 0, 0)
  }

  /** `sse_buf_append` on the data buffer. */
  function AppendData(cfg: Config, f: Bufs, m: Mem, d: bytes): BufsRes {
    if d == [] then BufsRes(Ok, f, m)
    else
      var g := Reserve(cfg.maxBuffer, m, DataSlot, |f.data| + |d|);
      BufsRes(g.rc, if g.rc == Ok then f.(data := f.data + d) else f, g.m)
  }

  function HandleData(cfg: Config, f: Bufs, m: Mem, v: bytes): BufsRes {
    if cfg.maxFrame != 0 && |f.data| + |v| + 1 > cfg.maxFrame then BufsRes(OverflowFrame, f, m)
    else
      var r := AppendData(cfg, f, m, v);
      if r.rc != Ok then r
      else
        var q := AppendData(cfg, r.f, r.m, [LF]);
        if q.rc != Ok then q else BufsRes(Ok, q.f.(dataSeen := true), q.m)
  }

  function HandleEvent(cfg: Config, f: Bufs, m: Mem, v: bytes): BufsRes {
    var g := if v == [] then Grown(Ok, m) else Reserve(cfg.maxBuffer, m, EventSlot, |v|);
    BufsRes(g.rc, f.(event := if g.rc == Ok then v else []), g.m)
  }

  function HandleId(cfg: Config, f: Bufs, m: Mem, v: bytes): BufsRes {
    if 0 in v then BufsRes(Ok, f, m)
    else
      var g := if v == [] then Grown(Ok, m) else Reserve(cfg.maxBuffer, m, IdSlot, |v|);
      BufsRes(g.rc, f.(id := if g.rc == Ok then v else []), g.m)
  }

  function ProcessField(cfg: Config, f: Bufs, m: Mem, field: Field): BufsRes {
    if field.name == DATA then HandleData(cfg, f, m, field.value)
    else if field.name == EVENT then HandleEvent(cfg, f, m, field.value)
    else if field.name == ID then HandleId(cfg, f, m, field.value)
    else if field.name == RETRY && ParseRetry(field.value).Some? then
      BufsRes(Ok, f.(retry := ParseRetry(field.value)), m)
    else BufsRes(Ok, f, m)
  }

  datatype CallRes = CallRes(rc: Status, f: Bufs, trace: seq<Callback>)

  function WithoutLastLf(d: bytes): bytes {
    if d != [] && d[|d| - 1] == LF then d[..|d| - 1] else d
  }

  /** The event callback of a blank line; on abort the data buffer has already lost its last byte. */
  function CallEvent(cfg: Config, f: Bufs, trace: seq<Callback>): CallRes {
    var f1 := f.(data := WithoutLastLf(f.data));
    if !cfg.onEvent then CallRes(Ok, f1, trace)
    else
      var t := trace + [Event(f1.data, if f.event != [] then f.event else MESSAGE, f.id)];
      CallRes(if cfg.host(t) then Ok else Abort, f1, t)
  }

  function BlankLine(cfg: Config, f: Bufs, trace: seq<Callback>): CallRes {
    var t := if cfg.onFrame then trace + [Frame] else trace;
    if cfg.onFrame && !cfg.host(t) then CallRes(Abort, f, t)
    else
      var r := if f.dataSeen then CallEvent(cfg, f, t) else CallRes(Ok, f, t);
      if r.rc != Ok then r
      else CallRes(Ok, r.f.(data := [], event := [], dataSeen := false), r.trace)
  }

  // --- bytes --------------------------------------------------------------------------------------------

  /** The machine behind the byte order mark. */
  datatype Core = Core(t: Text, f: Bufs, m: Mem, pendingCr: bool, trace: seq<Callback>)

  const NO_CORE := Core(NO_TEXT, NO_BUFS, NO_MEM, false, [])

  datatype Res = Res(rc: Status, c: Core)

  function ProcessLine(cfg: Config, c: Core): Res {
    if c.t.line == [] then
      var r := BlankLine(cfg, c.f, c.trace);
      Res(r.rc, c.(f := r.f, trace := r.trace))
    else if c.t.line[0] == COLON then Res(Ok, c)
    else
      var r := ProcessField(cfg, c.f, c.m, ParseField(c.t.line));
      Res(r.rc, c.(f := r.f, m := r.m))
  }

  function EndLine(cfg: Config, c: Core, cr: bool): Res {
    var r := FlushIncomplete(cfg, c.t, c.m);
    var c1 := c.(t := r.t, m := r.m);
    if r.rc != Ok then Res(r.rc, c1)
    else
      var q := ProcessLine(cfg, c1);
      if q.rc != Ok then q else Res(Ok, q.c.(t := q.c.t.(line := []), pendingCr := cr))
  }

  function ProcessRawByte(cfg: Config, c: Core, b: byte): Res {
    var c1 := c.(pendingCr := false);
    if c.pendingCr && b == LF then Res(Ok, c1)
    else if b == CR then EndLine(cfg, c1, true)
    else if b == LF then EndLine(cfg, c1, false)
    else
      var r := FeedUtf8(cfg, c.t, c.m, b);
      Res(r.rc, c1.(t := r.t, m := r.m))
  }

  function RawBytes(cfg: Config, c: Core, bs: bytes): Res
    decreases |bs|
  {
    if bs == [] then Res(Ok, c)
    else
      var r := ProcessRawByte(cfg, c, bs[0]);
      if r.rc != Ok then r else RawBytes(cfg, r.c, bs[1..])
  }

  datatype State = State(core: Core, bomChecked: bool, bom: bytes, total: nat, status: Status)

  const INIT := State(NO_CORE, false, [], 0, Ok)

  /** `sse_process_byte`, with the first error recorded. */
  function ProcessByte(cfg: Config, s: State, b: byte): State {
    if s.bomChecked then
      var r := ProcessRawByte(cfg, s.core, b);
      s.(core := r.c, status := r.rc)
    else
      var bom := s.bom + [b];
      if (|bom| == 1 && bom[0] == 0xEF) || (|bom| == 2 && bom[1] == 0xBB) then s.(bom := bom)
      else if |bom| == 3 && bom[2] == 0xBF then s.(bomChecked := true, bom := [])
      else
        var r := RawBytes(cfg, s.core, bom);
        State(r.c, true, if r.rc == Ok then [] else bom, s.total, r.rc)
  }

  /** The byte loop: it stops at the first error, which sticks. */
  function Run(cfg: Config, s: State, bs: bytes): State
    decreases |bs|
  {
    if bs == [] || s.status != Ok then s else Run(cfg, ProcessByte(cfg, s, bs[0]), bs[1..])
  }

  /** `sse_feed`: the total limit rejects a whole chunk before any of its bytes is looked at. */
  function FeedChunk(cfg: Config, s: State, chunk: bytes): State {
    if s.status != Ok || chunk == [] then s
    else if cfg.maxTotal != 0 && |chunk| > cfg.maxTotal - s.total then s.(status := OverflowTotal)
    else Run(cfg, s.(total := s.total + |chunk|), chunk)
  }

  function FeedChunks(cfg: Config, s: State, chunks: seq<bytes>): State
    decreases |chunks|
  {
    if chunks == [] then s else FeedChunks(cfg, FeedChunk(cfg, s, chunks[0]), chunks[1..])
  }

  // --- what every non-error state keeps -----------------------------------------------------------------

  /** `mem_used` is the sum of the four capacities and within the budget. */
  predicate MemOk(cfg: Config, m: Mem) {
    m.used == m.line + m.data + m.event + m.id && (cfg.maxBuffer != 0 ==> m.used <= cfg.maxBuffer)
  }

  predicate BufsFit(cfg: Config, f: Bufs, m: Mem) {
    && |f.data| <= m.data && |f.event| <= m.event && |f.id| <= m.id
    && (cfg.maxFrame != 0 ==> |f.data| <= cfg.maxFrame)
  }

  /** The data flag says exactly that the data buffer is non-empty, and then it ends in LF. */
  predicate DataConsistent(f: Bufs) {
    && (f.dataSeen <==> f.data != [])
    && (f.data != [] ==> f.data[|f.data| - 1] == LF)
  }

  predicate TextFits(cfg: Config, t: Text, m: Mem) {
    |t.line| <= m.line && (cfg.maxLine != 0 ==> |t.line| <= cfg.maxLine)
  }

  predicate Utf8Consistent(t: Text) {
    if t.expected == 0 then t.pend == [] && t.seqTotal == 0
    else Unfinished(t.pend) && t.seqTotal == LeadLength(t.pend[0]) && t.expected == t.seqTotal - |t.pend|
  }

  /** The line so far is valid UTF-8 without line ends. */
  predicate LineConsistent(t: Text) {
    NoEol(t.line) && ValidUtf8(t.line)
  }

  predicate Accounted(cfg: Config, c: Core) {
    MemOk(cfg, c.m) && BufsFit(cfg, c.f, c.m) && TextFits(cfg, c.t, c.m)
  }

  predicate CoreInv(cfg: Config, c: Core) {
    && Accounted(cfg, c) && DataConsistent(c.f) && Utf8Consistent(c.t) && LineConsistent(c.t)
    && (c.pendingCr ==> c.t == NO_TEXT)
  }

  predicate BomConsistent(s: State) {
    if s.bomChecked then s.bom == []
    else |s.bom| <= 2 && s.bom <= BOM && s.core == NO_CORE.(trace := s.core.trace)
  }

  predicate TotalWithin(cfg: Config, s: State) {
    cfg.maxTotal != 0 ==> s.total <= cfg.maxTotal
  }

  /** What holds between two calls while no error has been reported. */
  predicate Inv(cfg: Config, s: State) {
    CoreInv(cfg, s.core) && BomConsistent(s) && TotalWithin(cfg, s)
  }

  /** What holds between two calls even after an error. */
  predicate Sound(cfg: Config, s: State) {
    Accounted(cfg, s.core) && TotalWithin(cfg, s) && (s.status == Ok ==> Inv(cfg, s))
  }
}
