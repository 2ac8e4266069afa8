/**
 The event-stream parser of src/sse.c in its own form: an object whose fields and buffers are updated byte by
 byte. Every method is tied to the transition function of `SseMachine`.
 */
module SseParser {
  import opened Bytes
  import opened Utf8
  import opened EventStream
  import opened SseMachine
  import opened SseInvariants

  /** `struct sse_buf`: `bytes` is data[..len]. */
  class SseBuf {
    var bytes: bytes
    var cap: nat

    constructor ()
      ensures bytes == [] && cap == 0
    {
      bytes, cap := [], 0;
    }
  }

  class Parser {
    const cfg: Config
    const line: SseBuf
    const data: SseBuf
    const eventType: SseBuf
    const lastEventId: SseBuf
    var memUsed: int
    var totalBytesSeen: nat
    var dataSeen: bool
    var pendingCr: bool
    var bomChecked: bool
    const bomBuf: array<byte>
    var bomLen: nat
    const utf8Seq: array<byte>
    var utf8Len: nat
    var utf8Expected: nat
    var utf8Total: nat
    var retryMs: nat
    var retrySet: bool
    var trace: seq<Callback>
    var lastError: Status

    ghost function Repr(): set<object> {
      {this, line, data, eventType, lastEventId, bomBuf, utf8Seq}
    }

    /** The four buffers and the two fixed arrays are separate, and the array lengths are in range. */
    ghost predicate Shape()
      reads this
    {
      && line != data && line != eventType && line != lastEventId
      && data != eventType && data != lastEventId && eventType != lastEventId
      && bomBuf != utf8Seq && bomBuf.Length == 3 && utf8Seq.Length == 4
      && bomLen <= 3 && utf8Len <= 4
    }

    ghost function BufOf(slot: Slot): SseBuf {
      match slot case LineSlot => line case DataSlot => data case EventSlot => eventType case IdSlot => lastEventId
    }

    ghost function TextNow(): Text
      requires Shape()
      reads this, line, utf8Seq
    {
      Text(line.bytes, utf8Seq[..utf8Len], utf8Expected, utf8Total)
    }

    ghost function BufsNow(): Bufs
      reads this, data, eventType, lastEventId
    {
      Bufs(data.bytes, dataSeen, eventType.bytes, lastEventId.bytes, if retrySet then Some(retryMs) else None)
    }

    ghost function MemNow(): Mem
      reads this, line, data, eventType, lastEventId
    {
      Mem(line.cap, data.cap, eventType.cap, lastEventId.cap, memUsed)
    }

    ghost function CoreNow(): Core
      requires Shape()
      reads this, Repr()
    {
      Core(TextNow(), BufsNow(), MemNow(), pendingCr, trace)
    }

    /** The abstract state. */
    ghost function Now(): State
      requires Shape()
      reads this, Repr()
    {
      State(CoreNow(), bomChecked, bomBuf[..bomLen], totalBytesSeen, lastError)
    }

    ghost predicate Valid()
      reads this, Repr()
    {
      Shape() && Sound(cfg, Now())
    }

    constructor (cfg: Config)
      ensures Valid() && Now() == INIT && this.cfg == cfg && fresh(Repr())
    {
      this.cfg := cfg;
      line := new SseBuf();
      data := new SseBuf();
      eventType := new SseBuf();
      lastEventId := new SseBuf();
      memUsed, totalBytesSeen, dataSeen, pendingCr, bomChecked := 0, 0, false, false, false;
      bomBuf, bomLen := new byte[3], 0;
      utf8Seq, utf8Len, utf8Expected, utf8Total := new byte[4], 0, 0, 0;
      retryMs, retrySet, trace, lastError := 0, false, [], Ok;
      new;
      assert Now() == INIT;
      InitHolds(cfg);
    }

    // --- buffers ----------------------------------------------------------------------------------------

    method ReserveBuf(buf: SseBuf, ghost slot: Slot, needed: nat) returns (rc: Status)
      requires Shape() && buf == BufOf(slot)
      modifies this`memUsed, buf`cap
      ensures var g := Reserve(cfg.maxBuffer, old(MemNow()), slot, needed); rc == g.rc && MemNow() == g.m
    {
      hide Mem.Cap, Mem.Recap;
      CapIs(slot);
      if needed <= buf.cap { return Ok; }
      var newCap := if buf.cap != 0 then buf.cap * 2 else 64;
      if newCap < needed { newCap := needed; }
      if cfg.maxBuffer != 0 {
        var usedWithout := memUsed - buf.cap;
        var maxCap := 0;
        if cfg.maxBuffer > usedWithout { maxCap := cfg.maxBuffer - usedWithout; }
        if needed > maxCap { return OverflowBuffer; }
        if newCap > maxCap { newCap := maxCap; }
      }
      SetCap(buf, slot, newCap);
      return Ok;
    }

    method SetCap(buf: SseBuf, ghost slot: Slot, newCap: nat)
      requires Shape() && buf == BufOf(slot)
      modifies this`memUsed, buf`cap
      ensures MemNow() == old(MemNow()).Recap(slot, newCap)
    {
      memUsed := memUsed - buf.cap + newCap;
      buf.cap := newCap;
    }

    lemma CapIs(slot: Slot)
      requires Shape()
      ensures MemNow().Cap(slot) == BufOf(slot).cap
    {
    }

    method AppendBuf(buf: SseBuf, ghost slot: Slot, d: bytes) returns (rc: Status)
      requires Shape() && buf == BufOf(slot)
      modifies this`memUsed, buf
      ensures var n := |old(buf.bytes)| + |d|;
        var g := if d == [] then Grown(Ok, old(MemNow())) else Reserve(cfg.maxBuffer, old(MemNow()), slot, n);
        rc == g.rc && MemNow() == g.m
      ensures buf.bytes == if rc == Ok then old(buf.bytes) + d else old(buf.bytes)
    {
      if |d| == 0 { return Ok; }
      rc := ReserveBuf(buf, slot, |buf.bytes| + |d|);
      if rc != Ok { return; }
      buf.bytes := buf.bytes + d;
    }

    method SetBuf(buf: SseBuf, ghost slot: Slot, d: bytes) returns (rc: Status)
      requires Shape() && buf == BufOf(slot)
      modifies this`memUsed, buf
      ensures var g := if d == [] then Grown(Ok, old(MemNow())) else Reserve(cfg.maxBuffer, old(MemNow()), slot, |d|);
        rc == g.rc && MemNow() == g.m
      ensures buf.bytes == if rc == Ok then d else []
    {
      buf.bytes := [];
      if |d| == 0 { return Ok; }
      rc := ReserveBuf(buf, slot, |d|);
      if rc != Ok { return; }
      buf.bytes := d;
    }

    method AppendLine(d: bytes) returns (rc: Status)
      requires Shape()
      modifies this`memUsed, line
      ensures var r := LineAppend(cfg, old(TextNow()), old(MemNow()), d);
        rc == r.rc && TextNow() == r.t && MemNow() == r.m
    {
      if cfg.maxLine != 0 && |line.bytes| + |d| > cfg.maxLine { return OverflowLine; }
      rc := AppendBuf(line, LineSlot, d);
    }

    // --- UTF-8 ------------------------------------------------------------------------------------------

    method ClearUtf8()
      requires Shape()
      modifies this`utf8Len, this`utf8Expected, this`utf8Total
      ensures Shape() && TextNow() == ResetUtf8(old(TextNow()))
    {
      utf8Len, utf8Expected, utf8Total := 0, 0, 0;
    }

    method BeginSequence(b: byte, total: nat)
      requires Shape() && total >= 1
      modifies this`utf8Len, this`utf8Expected, this`utf8Total, utf8Seq
      ensures Shape() && TextNow() == Text(line.bytes, [b], total - 1, total)
    {
      utf8Seq[0] := b;
      utf8Len, utf8Total, utf8Expected := 1, total, total - 1;
    }

    method FeedByte(b: byte) returns (rc: Status)
      requires Shape() && Utf8Consistent(TextNow())
      modifies this`memUsed, this`utf8Len, this`utf8Expected, this`utf8Total, line, utf8Seq
      ensures Shape()
      ensures var r := FeedUtf8(cfg, old(TextNow()), old(MemNow()), b);
        rc == r.rc && TextNow() == r.t && MemNow() == r.m
      decreases utf8Expected != 0
    {
      if utf8Expected == 0 {
        if b <= 0x7F {
          rc := AppendLine([b]);
        } else if 0xC2 <= b <= 0xDF {
          BeginSequence(b, 2);
          rc := Ok;
        } else if 0xE0 <= b <= 0xEF {
          BeginSequence(b, 3);
          rc := Ok;
        } else if 0xF0 <= b <= 0xF4 {
          BeginSequence(b, 4);
          rc := Ok;
        } else {
          rc := AppendLine(REPLACEMENT);
        }
        return;
      }
      if 0x80 <= b <= 0xBF {
        ghost var was := utf8Seq[..utf8Len];
        utf8Seq[utf8Len] := b;
        utf8Len, utf8Expected := utf8Len + 1, utf8Expected - 1;
        assert utf8Seq[..utf8Len] == was + [b];
        if utf8Expected == 0 {
          var s := utf8Seq[..utf8Len];
          rc := AppendLine(if SequenceValid(s) then s else REPLACEMENT);
          ClearUtf8();
          return;
        }
        return Ok;
      }
      rc := AppendLine(REPLACEMENT);
      ClearUtf8();
      if rc != Ok { return; }
      rc := FeedByte(b);
    }

    method FlushCharacter() returns (rc: Status)
      requires Shape()
      modifies this`memUsed, this`utf8Len, this`utf8Expected, this`utf8Total, line
      ensures Shape()
      ensures var r := FlushIncomplete(cfg, old(TextNow()), old(MemNow()));
        rc == r.rc && CoreNow() == old(CoreNow()).(t := r.t, m := r.m)
    {
      if utf8Expected == 0 { return Ok; }
      ClearUtf8();
      rc := AppendLine(REPLACEMENT);
    }

    // --- fields -----------------------------------------------------------------------------------------

    static method ReadRetry(v: bytes) returns (r: Option<nat>)
      ensures r == ParseRetry(v)
    {
      if |v| == 0 { return None; }
      var val: nat := 0;
      var i := 0;
      while i < |v|
        invariant i <= |v|
        invariant RetryFrom(v, i, val) == RetryFrom(v, 0, 0)
      {
        if v[i] < 48 || v[i] > 57 { return None; }
        var digit: int := v[i] - 48;
        if val > (SIZE_MAX - digit) / 10 { return None; }
        val := val * 10 + digit;
        i := i + 1;
      }
      return Some(val);
    }

    method OnData(v: bytes) returns (rc: Status)
      requires Shape()
      modifies this`memUsed, this`dataSeen, data
      ensures var r := HandleData(cfg, old(BufsNow()), old(MemNow()), v);
        rc == r.rc && BufsNow() == r.f && MemNow() == r.m
    {
      hide Reserve;
      if cfg.maxFrame != 0 && |data.bytes| + |v| + 1 > cfg.maxFrame { return OverflowFrame; }
      rc := AppendBuf(data, DataSlot, v);
      assert old(data.bytes) + [] == old(data.bytes);
      if rc != Ok { return; }
      rc := AppendBuf(data, DataSlot, [LF]);
      if rc != Ok { return; }
      dataSeen := true;
    }

    method DispatchField(f: Field) returns (rc: Status)
      requires Shape()
      modifies this`memUsed, this`dataSeen, this`retryMs, this`retrySet, data, eventType, lastEventId
      ensures var r := ProcessField(cfg, old(BufsNow()), old(MemNow()), f);
        rc == r.rc && BufsNow() == r.f && MemNow() == r.m
    {
      if f.name == DATA {
        rc := OnData(f.value);
      } else if f.name == EVENT {
        rc := SetBuf(eventType, EventSlot, f.value);
      } else if f.name == ID {
        if 0 in f.value { return Ok; }
        rc := SetBuf(lastEventId, IdSlot, f.value);
      } else {
        if f.name == RETRY {
          var v := ReadRetry(f.value);
          if v.Some? {
            retryMs, retrySet := v.value, true;
          }
        }
        rc := Ok;
      }
    }

    /** The calls of a blank line; what the host answers is part of the configuration. */
    method DispatchBlank() returns (rc: Status)
      requires Shape()
      modifies this`trace, this`dataSeen, data`bytes, eventType`bytes
      ensures var r := BlankLine(cfg, old(BufsNow()), old(trace));
        rc == r.rc && BufsNow() == r.f && trace == r.trace
    {
      if cfg.onFrame {
        trace := trace + [Frame];
        if !cfg.host(trace) { return Abort; }
      }
      if dataSeen {
        if |data.bytes| > 0 && data.bytes[|data.bytes| - 1] == LF {
          data.bytes := data.bytes[..|data.bytes| - 1];
        }
        var kind := MESSAGE;
        if |eventType.bytes| > 0 { kind := eventType.bytes; }
        if cfg.onEvent {
          trace := trace + [Event(data.bytes, kind, lastEventId.bytes)];
          if !cfg.host(trace) { return Abort; }
        }
      }
      data.bytes := [];
      eventType.bytes := [];
      dataSeen := false;
      return Ok;
    }

    method FinishLine() returns (rc: Status)
      requires Shape()
      modifies this`memUsed, this`dataSeen, this`retryMs, this`retrySet, this`trace, data, eventType, lastEventId
      ensures var r := ProcessLine(cfg, old(CoreNow())); rc == r.rc && CoreNow() == r.c
    {
      if |line.bytes| == 0 {
        rc := DispatchBlank();
      } else if line.bytes[0] == COLON {
        rc := Ok;
      } else {
        var colon := FirstIndex(line.bytes, COLON);
        var field := Field(line.bytes, []);
        if colon < |line.bytes| {
          var value := line.bytes[colon + 1..];
          if |value| > 0 && value[0] == SPACE { value := value[1..]; }
          field := Field(line.bytes[..colon], value);
        }
        rc := DispatchField(field);
      }
    }

    // --- bytes ------------------------------------------------------------------------------------------

    method CloseLine(cr: bool) returns (rc: Status)
      requires Shape()
      modifies Repr() - {bomBuf, utf8Seq}
      ensures Shape() && bomLen == old(bomLen) && bomChecked == old(bomChecked)
      ensures totalBytesSeen == old(totalBytesSeen) && lastError == old(lastError)
      ensures var r := EndLine(cfg, old(CoreNow()), cr); rc == r.rc && CoreNow() == r.c
    {
      hide ProcessLine, FlushIncomplete, MemNow, BufsNow, TextNow;
      rc := FlushCharacter();
      if rc != Ok { return; }
      rc := FinishLine();
      if rc != Ok { return; }
      NextLine(cr);
    }

    method NextLine(cr: bool)
      requires Shape()
      modifies this`pendingCr, line`bytes
      ensures Shape() && CoreNow() == old(CoreNow()).(t := old(TextNow()).(line := []), pendingCr := cr)
    {
      line.bytes := [];
      pendingCr := cr;
    }

    method RawByte(b: byte) returns (rc: Status)
      requires Shape() && Utf8Consistent(TextNow())
      modifies Repr() - {bomBuf}
      ensures Shape() && bomLen == old(bomLen) && bomChecked == old(bomChecked)
      ensures totalBytesSeen == old(totalBytesSeen) && lastError == old(lastError)
      ensures var r := ProcessRawByte(cfg, old(CoreNow()), b); rc == r.rc && CoreNow() == r.c
    {
      hide EndLine, FeedUtf8;
      if pendingCr {
        pendingCr := false;
        if b == LF { return Ok; }
      }
      if b == CR {
        rc := CloseLine(true);
      } else if b == LF {
        rc := CloseLine(false);
      } else {
        rc := FeedByte(b);
      }
    }

    /** Replay of the bytes held back while a byte order mark was still possible. */
    method ReplayBom() returns (rc: Status)
      requires Shape() && CoreInv(cfg, CoreNow())
      modifies Repr() - {bomBuf}
      ensures Shape() && bomLen == old(bomLen) && bomChecked == old(bomChecked)
      ensures totalBytesSeen == old(totalBytesSeen) && lastError == old(lastError)
      ensures var r := RawBytes(cfg, old(CoreNow()), bomBuf[..bomLen]); rc == r.rc && CoreNow() == r.c
    {
      ghost var held := bomBuf[..bomLen];
      ghost var start := CoreNow();
      var i := 0;
      assert held[0..] == held;
      while i < bomLen
        invariant Shape() && bomLen == old(bomLen) && bomChecked == old(bomChecked) && i <= bomLen
        invariant totalBytesSeen == old(totalBytesSeen) && lastError == old(lastError)
        invariant held == bomBuf[..bomLen] && CoreInv(cfg, CoreNow())
        invariant RawBytes(cfg, start, held) == RawBytes(cfg, CoreNow(), held[i..])
      {
        assert held[i..][0] == bomBuf[i] && held[i..][1..] == held[i + 1..];
        RawByteKeeps(cfg, CoreNow(), bomBuf[i]);
        rc := RawByte(bomBuf[i]);
        if rc != Ok { return; }
        i := i + 1;
      }
      return Ok;
    }

    method HoldByte(b: byte)
      requires Shape() && bomLen < 3
      modifies this`bomLen, bomBuf
      ensures Shape() && bomLen == old(bomLen) + 1 && bomBuf[..bomLen] == old(bomBuf[..bomLen]) + [b]
      ensures CoreNow() == old(CoreNow())
    {
      ghost var held := bomBuf[..bomLen];
      bomBuf[bomLen] := b;
      bomLen := bomLen + 1;
      assert bomBuf[..bomLen] == held + [b];
    }

    method SettleBom(len: nat)
      requires Shape() && len <= bomLen
      modifies this`bomChecked, this`bomLen
      ensures Shape() && bomChecked && bomLen == len && CoreNow() == old(CoreNow())
    {
      bomChecked, bomLen := true, len;
    }

    /** The first bytes of the stream, until it is known whether they are a byte order mark. */
    method EarlyByte(b: byte) returns (rc: Status)
      requires Shape() && Inv(cfg, Now()) && lastError == Ok && !bomChecked
      modifies Repr()
      ensures Shape() && lastError == Ok
      ensures Now().(status := rc) == ProcessByte(cfg, old(Now()), b)
    {
      hide ProcessRawByte, RawBytes, CoreInv, CoreNow;
      HoldByte(b);
      if bomLen == 1 {
        if bomBuf[0] == 0xEF { return Ok; }
      } else if bomLen == 2 {
        if bomBuf[1] == 0xBB { return Ok; }
      } else {
        if bomBuf[2] == 0xBF {
          SettleBom(0);
          return Ok;
        }
      }
      SettleBom(bomLen);
      rc := ReplayBom();
      if rc != Ok { return; }
      SettleBom(0);
      return Ok;
    }

    method Byte(b: byte) returns (rc: Status)
      requires Shape() && Inv(cfg, Now()) && lastError == Ok
      modifies Repr()
      ensures Shape() && lastError == Ok
      ensures Now().(status := rc) == ProcessByte(cfg, old(Now()), b)
    {
      hide ProcessRawByte, RawBytes, Accounted, LineConsistent, DataConsistent;
      if bomChecked {
        rc := RawByte(b);
      } else {
        rc := EarlyByte(b);
      }
    }

    /** A question to the host between two chunks; it is not the parser's own, but goes into the same log. */
    method Ask() returns (more: bool)
      requires Valid()
      modifies this`trace
      ensures Valid() && trace == old(trace) + [Poll] && more == cfg.host(trace)
      ensures Now() == old(Now()).(core := old(CoreNow()).(trace := trace))
    {
      trace := trace + [Poll];
      more := cfg.host(trace);
    }

    /** The byte loop of `sse_feed`. */
    method Loop(chunk: array<byte>, len: nat) returns (rc: Status)
      requires Valid() && lastError == Ok && chunk !in Repr() && len <= chunk.Length
      modifies Repr()
      ensures Valid() && rc == lastError
      ensures Now() == Run(cfg, old(Now()), chunk[..len])
    {
      hide ProcessByte, Accounted;
      ghost var bytes := chunk[..len];
      ghost var start := Now();
      var i := 0;
      assert bytes[0..] == bytes;
      while i < len
        invariant i <= len && Shape() && lastError == Ok && Sound(cfg, Now()) && bytes == chunk[..len]
        invariant Run(cfg, start, bytes) == Run(cfg, Now(), bytes[i..])
      {
        assert bytes[i..][0] == chunk[i] && bytes[i..][1..] == bytes[i + 1..];
        ByteKeeps(cfg, Now(), chunk[i]);
        rc := Byte(chunk[i]);
        if rc != Ok {
          lastError := rc;
          return;
        }
        i := i + 1;
      }
      return Ok;
    }

    /** `sse_feed`; a null or empty chunk is accepted and ignored. */
    method Feed(chunk: array?<byte>, len: nat) returns (rc: Status)
      requires Valid() && chunk !in Repr() && (chunk != null ==> len <= chunk.Length)
      modifies Repr()
      ensures Valid() && rc == lastError
      ensures Now() == FeedChunk(cfg, old(Now()), if chunk == null then [] else chunk[..len])
    {
      hide Run, Accounted, CoreInv;
      if lastError != Ok { return lastError; }
      if chunk == null || len == 0 { return Ok; }
      if cfg.maxTotal != 0 && len > cfg.maxTotal - totalBytesSeen {
        lastError := OverflowTotal;
        return lastError;
      }
      totalBytesSeen := totalBytesSeen + len;
      rc := Loop(chunk, len);
    }
  }
}
