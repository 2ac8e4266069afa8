/**
 The event-stream writer of src/sse.c: the text of an event, the exact conditions under which it is written,
 and the two-pass method that measures and then fills the caller's buffer.
 */
module SseWriter {
  import opened Bytes
  import opened EventStream

  const EVENT_PREFIX: bytes := [101, 118, 101, 110, 116, 58, 32] // "event: "
  const DATA_PREFIX: bytes := [100, 97, 116, 97, 58, 32]         // "data: "
  const PING: bytes := [58, 32, 112, 105, 110, 103]              // ": ping"

  /** 0 is "no limit". */
  datatype Limits = Limits(maxLine: nat, maxFrame: nat)

  /** The lines of a payload: one more than it has line feeds. */
  function DataLines(data: bytes): (lines: seq<bytes>)
    ensures |lines| >= 1
    decreases |data|
  {
    var i := FirstIndex(data, LF);
    if i == |data| then [data] else [data[..i]] + DataLines(data[i + 1..])
  }

  function LinesText(lines: seq<bytes>): bytes {
    if lines == [] then [] else DATA_PREFIX + lines[0] + [LF] + LinesText(lines[1..])
  }

  function TypeText(eventType: bytes): bytes {
    if eventType == [] then [] else EVENT_PREFIX + eventType + [LF]
  }

  /** An event as it goes over the wire: the type if there is one, a `data` line per line, a blank line. */
  function EventText(eventType: bytes, data: bytes): bytes {
    TypeText(eventType) + LinesText(DataLines(data)) + [LF]
  }

  const KEEPALIVE_TEXT: bytes := PING + [LF, LF]

  predicate LineFits(limits: Limits, len: nat) {
    limits.maxLine == 0 || len <= limits.maxLine
  }

  /** The first reason, line by line, why the payload cannot be written. */
  function LinesStatus(limits: Limits, lines: seq<bytes>): Status {
    if lines == [] then Ok
    else if CR in lines[0] then BadInput
    else if !LineFits(limits, |DATA_PREFIX| + |lines[0]|) then OverflowLine
    else LinesStatus(limits, lines[1..])
  }

  /** Why an event cannot be written at all, whatever the room. */
  function ContentStatus(limits: Limits, eventType: bytes, data: bytes): Status {
    if limits.maxFrame != 0 && |data| + 1 > limits.maxFrame then OverflowFrame
    else if LF in eventType || CR in eventType then BadInput
    else if eventType != [] && !LineFits(limits, |EVENT_PREFIX| + |eventType|) then OverflowLine
    else LinesStatus(limits, DataLines(data))
  }

  function WriteStatus(limits: Limits, eventType: bytes, data: bytes, room: nat): Status {
    var s := ContentStatus(limits, eventType, data);
    if s != Ok then s else if |EventText(eventType, data)| > room then OverflowBuffer else Ok
  }

  // --- lines ----------------------------------------------------------------------------------------------

  lemma {:induction false} FirstIndexIs(s: bytes, b: byte, i: nat)
    requires i <= |s| && b !in s[..i] && (i < |s| ==> s[i] == b)
    ensures FirstIndex(s, b) == i
    decreases |s|
  {
    if i > 0 {
      assert s[..i][0] == s[0] && s[..i][1..] == s[1..][..i - 1];
      FirstIndexIs(s[1..], b, i - 1);
    }
  }

  /** The next line of the payload, found by scanning from `start` to `i`. */
  lemma NextLine(data: bytes, start: nat, i: nat)
    requires start <= i <= |data| && LF !in data[start..i] && (i < |data| ==> data[i] == LF)
    ensures DataLines(data[start..])
         == if i == |data| then [data[start..i]] else [data[start..i]] + DataLines(data[i + 1..])
  {
    var s := data[start..];
    assert s[..i - start] == data[start..i];
    FirstIndexIs(s, LF, i - start);
    if i < |data| {
      assert s[i - start + 1..] == data[i + 1..];
    } else {
      assert s == data[start..i];
    }
  }

  lemma {:induction false} LinesTextAppend(a: seq<bytes>, b: seq<bytes>)
    ensures LinesText(a + b) == LinesText(a) + LinesText(b)
    decreases |a|
  {
    if a == [] {
      assert a + b == b;
    } else {
      assert (a + b)[1..] == a[1..] + b;
      LinesTextAppend(a[1..], b);
    }
  }

  lemma LinesTextOne(line: bytes)
    ensures LinesText([line]) == DATA_PREFIX + line + [LF]
  {
    assert [line][1..] == [];
    assert LinesText([]) == [];
  }

  lemma {:induction false} LinesStatusAppend(limits: Limits, a: seq<bytes>, b: seq<bytes>)
    requires LinesStatus(limits, a) == Ok
    ensures LinesStatus(limits, a + b) == LinesStatus(limits, b)
    decreases |a|
  {
    if a == [] {
      assert a + b == b;
    } else {
      assert (a + b)[1..] == a[1..] + b;
      LinesStatusAppend(limits, a[1..], b);
    }
  }

  function SumLengths(lines: seq<bytes>): nat {
    if lines == [] then 0 else |lines[0]| + SumLengths(lines[1..])
  }

  lemma {:induction false} SumLengthsAppend(a: seq<bytes>, line: bytes)
    ensures SumLengths(a + [line]) == SumLengths(a) + |line|
    decreases |a|
  {
    if a == [] {
      assert a + [line] == [line] && [line][1..] == [];
    } else {
      assert (a + [line])[1..] == a[1..] + [line];
      SumLengthsAppend(a[1..], line);
    }
  }

  lemma {:induction false} LinesTextSize(lines: seq<bytes>)
    ensures |LinesText(lines)| == 7 * |lines| + SumLengths(lines)
    decreases |lines|
  {
    if lines != [] {
      LinesTextSize(lines[1..]);
    }
  }

  // --- measuring ------------------------------------------------------------------------------------------

  /** `sse_size_add`: addition of size_t values that refuses to wrap around. */
  function SizeAdd(a: nat, b: nat): (r: Option<nat>)
    requires a <= SIZE_MAX
    ensures r == if a + b <= SIZE_MAX then Some(a + b) else None
  {
    if SIZE_MAX - a < b then None else Some(a + b)
  }

  /** `done` are the lines of the payload that end before `start`. */
  predicate Scanned(data: bytes, start: nat, done: seq<bytes>) {
    if start <= |data| then DataLines(data) == done + DataLines(data[start..])
    else start == |data| + 1 && DataLines(data) == done
  }

  lemma ScanStarts(data: bytes)
    ensures Scanned(data, 0, [])
  {
    assert data[0..] == data;
  }

  lemma ScanLine(data: bytes, start: nat, i: nat, done: seq<bytes>)
    requires start <= i <= |data| && Scanned(data, start, done)
    requires LF !in data[start..i] && (i < |data| ==> data[i] == LF)
    ensures Scanned(data, i + 1, done + [data[start..i]])
    ensures |LinesText(done + [data[start..i]])| == |LinesText(done)| + 7 + (i - start) <= |LinesText(DataLines(data))|
    ensures LinesText(done + [data[start..i]]) == LinesText(done) + (DATA_PREFIX + data[start..i] + [LF])
    ensures SumLengths(done + [data[start..i]]) == SumLengths(done) + (i - start)
  {
    var line := data[start..i];
    NextLine(data, start, i);
    var rest := if i == |data| then [] else DataLines(data[i + 1..]);
    assert DataLines(data) == (done + [line]) + rest;
    LinesTextAppend(done, [line]);
    LinesTextOne(line);
    LinesTextAppend(done + [line], rest);
    SumLengthsAppend(done, line);
  }

  /** The verdict on the line from `start` to `i`, all earlier lines being fine. */
  lemma ScanVerdict(limits: Limits, data: bytes, start: nat, i: nat, done: seq<bytes>)
    requires start <= i <= |data| && Scanned(data, start, done) && LinesStatus(limits, done) == Ok
    requires LF !in data[start..i] && CR !in data[start..i] && (i < |data| ==> data[i] == LF)
    ensures if LineFits(limits, 6 + (i - start)) then LinesStatus(limits, done + [data[start..i]]) == Ok
            else LinesStatus(limits, DataLines(data)) == OverflowLine
  {
    var line := data[start..i];
    NextLine(data, start, i);
    LinesStatusAppend(limits, done, DataLines(data[start..]));
    LinesStatusAppend(limits, done, [line]);
    assert DataLines(data[start..])[0] == line;
    assert LinesStatus(limits, []) == Ok;
    assert [line][0] == line && [line] + [] == [line];
  }

  lemma FirstLineFails(limits: Limits, s: bytes, k: nat)
    requires k < |s| && s[k] == CR && LF !in s[..k]
    ensures LinesStatus(limits, DataLines(s)) == BadInput
  {
    var i := FirstIndex(s, LF);
    assert forall j :: 0 <= j < k ==> s[..k][j] == s[j];
    assert s[..i][k] == CR;
    assert DataLines(s)[0] == s[..i];
  }

  /** A carriage return condemns the line it is in. */
  lemma CarriageReturnFails(limits: Limits, data: bytes, start: nat, i: nat, done: seq<bytes>)
    requires start <= i < |data| && data[i] == CR && LF !in data[start..i]
    requires Scanned(data, start, done) && LinesStatus(limits, done) == Ok
    ensures LinesStatus(limits, DataLines(data)) == BadInput
  {
    hide DataLines, LinesStatus;
    LinesStatusAppend(limits, done, DataLines(data[start..]));
    assert data[start..][..i - start] == data[start..i];
    FirstLineFails(limits, data[start..], i - start);
  }

  /** First pass over the payload: its checks, its number of lines and their summed lengths. */
  method Measure(limits: Limits, data: bytes) returns (rc: Status, lines: nat, sum: nat)
    requires |data| < SIZE_MAX
    ensures rc == LinesStatus(limits, DataLines(data))
    ensures rc == Ok ==> lines == |DataLines(data)| && sum == SumLengths(DataLines(data)) && lines + sum == |data| + 1
  {
    hide DataLines, Scanned;
    lines, sum := 0, 0;
    var start := 0;
    var i := 0;
    ghost var done: seq<bytes> := [];
    ScanStarts(data);
    while i <= |data|
      invariant start <= i <= |data| + 1 && Scanned(data, start, done)
      invariant if i <= |data| then LF !in data[start..i] && CR !in data[start..i] else start == i
      invariant LinesStatus(limits, done) == Ok
      invariant lines == |done| && sum == SumLengths(done) && lines + sum == start
      decreases |data| + 1 - i
    {
      if i < |data| && data[i] == CR {
        CarriageReturnFails(limits, data, start, i, done);
        return BadInput, 0, 0;
      }
      if i == |data| || data[i] == LF {
        var lineLen := i - start;
        ScanVerdict(limits, data, start, i, done);
        if limits.maxLine != 0 && (limits.maxLine < 6 || lineLen > limits.maxLine - 6) {
          return OverflowLine, 0, 0;
        }
        ScanLine(data, start, i, done);
        done := done + [data[start..i]];
        var s := SizeAdd(sum, lineLen);
        if s.None? || lines == SIZE_MAX {
          rc := OverflowBuffer;
          assert false;
        }
        sum, lines, start := s.value, lines + 1, i + 1;
      } else {
        assert data[start..i + 1] == data[start..i] + [data[i]];
      }
      i := i + 1;
    }
    AllScanned(data, done);
    rc := Ok;
  }

  lemma AllScanned(data: bytes, done: seq<bytes>)
    requires Scanned(data, |data| + 1, done)
    ensures DataLines(data) == done
  {
  }

  /** The exact size of the text, or nothing when a size_t cannot hold it. */
  method TextSize(eventType: bytes, data: bytes, lines: nat, sum: nat) returns (total: Option<nat>)
    requires lines == |DataLines(data)| && sum == SumLengths(DataLines(data)) && sum <= SIZE_MAX
    ensures total == if |EventText(eventType, data)| <= SIZE_MAX then Some(|EventText(eventType, data)|) else None
  {
    LinesTextSize(DataLines(data));
    total := Some(0);
    if |eventType| > 0 {
      total := SizeAdd(8, |eventType|);
      if total.None? { return; }
    }
    if lines != 0 && lines > SIZE_MAX / 7 { return None; }
    total := SizeAdd(total.value, lines * 7);
    if total.None? { return; }
    total := SizeAdd(total.value, sum);
    if total.None? { return; }
    total := SizeAdd(total.value, 1);
  }

  // --- writing --------------------------------------------------------------------------------------------

  /** `memcpy` to `out[p..]`, returning the moved pointer. */
  method Put(out: array<byte>, p: nat, s: bytes) returns (q: nat)
    requires p + |s| <= out.Length
    modifies out
    ensures q == p + |s|
    ensures out[..q] == old(out[..p]) + s && out[q..] == old(out[q..])
  {
    forall k | 0 <= k < |s| {
      out[p + k] := s[k];
    }
    q := p + |s|;
  }

  method PutLine(out: array<byte>, p0: nat, line: bytes) returns (p: nat)
    requires p0 + 7 + |line| <= out.Length
    modifies out
    ensures p == p0 + 7 + |line|
    ensures out[..p] == old(out[..p0]) + (DATA_PREFIX + line + [LF]) && out[p..] == old(out[p..])
  {
    ghost var end := p0 + 7 + |line|;
    ghost var before, after := out[..p0], out[end..];
    p := Put(out, p0, DATA_PREFIX);
    assert out[end..] == out[p..][end - p..] == after;
    p := Put(out, p, line);
    assert out[end..] == out[p..][end - p..] == after;
    p := Put(out, p, [LF]);
    assert out[..p] == before + DATA_PREFIX + line + [LF];
    assert before + DATA_PREFIX + line + [LF] == before + (DATA_PREFIX + line + [LF]);
  }

  /** Second pass: every line of the payload behind its `data: ` prefix. */
  method PutLines(out: array<byte>, p0: nat, data: bytes) returns (p: nat)
    requires p0 + |LinesText(DataLines(data))| <= out.Length
    modifies out
    ensures p == p0 + |LinesText(DataLines(data))|
    ensures out[..p] == old(out[..p0]) + LinesText(DataLines(data)) && out[p..] == old(out[p..])
  {
    hide DataLines, Scanned, LinesText;
    p := p0;
    var start := 0;
    var i := 0;
    ghost var done: seq<bytes> := [];
    ghost var before := out[..p0];
    ScanStarts(data);
    NoLines();
    while i <= |data|
      invariant start <= i <= |data| + 1 && Scanned(data, start, done)
      invariant if i <= |data| then LF !in data[start..i] else start == i
      invariant p == p0 + |LinesText(done)| <= out.Length
      invariant out[..p] == before + LinesText(done) && out[p..] == old(out[p..])
      decreases |data| + 1 - i
    {
      if i == |data| || data[i] == LF {
        ghost var line := data[start..i];
        ScanLine(data, start, i, done);
        p := PutLine(out, p, data[start..i]);
        assert before + LinesText(done) + (DATA_PREFIX + line + [LF]) == before + (LinesText(done) + (DATA_PREFIX + line + [LF]));
        done := done + [line];
        start := i + 1;
      } else {
        assert data[start..i + 1] == data[start..i] + [data[i]];
      }
      i := i + 1;
    }
    AllScanned(data, done);
  }

  lemma NoLines()
    ensures LinesText([]) == []
  {
  }

  method PutType(out: array<byte>, kind: bytes) returns (p: nat)
    requires |TypeText(kind)| <= out.Length
    modifies out
    ensures p == |TypeText(kind)| && out[..p] == TypeText(kind) && out[p..] == old(out[p..])
  {
    p := 0;
    if |kind| > 0 {
      ghost var end := |TypeText(kind)|;
      ghost var after := out[end..];
      p := Put(out, p, EVENT_PREFIX);
      assert out[end..] == out[p..][end - p..] == after;
      p := Put(out, p, kind);
      assert out[end..] == out[p..][end - p..] == after;
      p := Put(out, p, [LF]);
      assert out[..p] == EVENT_PREFIX + kind + [LF];
    }
  }

  method PutEvent(out: array<byte>, kind: bytes, payload: bytes) returns (p: nat)
    requires |EventText(kind, payload)| <= out.Length
    modifies out
    ensures p == |EventText(kind, payload)| && out[..p] == EventText(kind, payload) && out[p..] == old(out[p..])
  {
    hide TypeText, LinesText, DataLines;
    p := PutType(out, kind);
    p := PutLines(out, p, payload);
    p := Put(out, p, [LF]);
  }

  /**
   `sse_write_event`. It succeeds exactly when the input is well formed, within the limits and the text fits
   the room; then `outLen` is the number of bytes written and they are the event's text. Otherwise nothing is
   written. No object is as large as SIZE_MAX.
   */
  method WriteEvent(limits: Limits, eventType: Span, data: Span, out: array?<byte>, room: nat) returns (rc: Status, outLen: nat)
    requires |TextOf(eventType)| < SIZE_MAX && |TextOf(data)| < SIZE_MAX
    requires room <= SIZE_MAX && (out != null ==> room <= out.Length)
    modifies if out == null then {} else {out}
    ensures rc == if out == null || !Usable(eventType) || !Usable(data) then BadInput
                  else WriteStatus(limits, TextOf(eventType), TextOf(data), room)
    ensures rc == Ok ==> var text := EventText(TextOf(eventType), TextOf(data));
      out != null && outLen == |text| <= room && out[..outLen] == text && out[outLen..] == old(out[outLen..])
    ensures rc != Ok ==> outLen == 0 && (out != null ==> out[..] == old(out[..]))
  {
    hide EventText, LinesStatus, DataLines;
    outLen := 0;
    if out == null { return BadInput, 0; }
    if eventType.Null? && eventType.len > 0 { return BadInput, 0; }
    if data.Null? && data.len > 0 { return BadInput, 0; }
    var kind, payload := TextOf(eventType), TextOf(data);
    var eventLen, dataLen := |kind|, |payload|;
    if limits.maxFrame != 0 {
      if dataLen == SIZE_MAX || dataLen + 1 > limits.maxFrame { return OverflowFrame, 0; }
    }
    if eventLen > 0 {
      if LF in kind || CR in kind { return BadInput, 0; }
      if limits.maxLine != 0 && (limits.maxLine < 7 || eventLen > limits.maxLine - 7) { return OverflowLine, 0; }
    }
    var lines, sum;
    rc, lines, sum := Measure(limits, payload);
    if rc != Ok { return; }
    var total := TextSize(kind, payload, lines, sum);
    if total.None? || total.value > room { return OverflowBuffer, 0; }

    var p := PutEvent(out, kind, payload);
    return Ok, total.value;
  }

  /** `sse_write_keepalive`: one comment line and a blank line. */
  method WriteKeepalive(limits: Limits, out: array?<byte>, room: nat) returns (rc: Status, outLen: nat)
    requires out != null ==> room <= out.Length
    modifies if out == null then {} else {out}
    ensures rc == if out == null then BadInput
                  else if 0 < limits.maxLine < 6 then OverflowLine
                  else if room < 8 then OverflowBuffer else Ok
    ensures rc == Ok ==>
      out != null && outLen == 8 <= room && out[..outLen] == KEEPALIVE_TEXT && out[outLen..] == old(out[outLen..])
    ensures rc != Ok ==> outLen == 0 && (out != null ==> out[..] == old(out[..]))
  {
    if out == null { return BadInput, 0; }
    var total := |PING| + 2;
    if limits.maxLine != 0 && |PING| > limits.maxLine { return OverflowLine, 0; }
    if total > room { return OverflowBuffer, 0; }
    var p := Put(out, 0, PING);
    p := Put(out, p, [LF, LF]);
    return Ok, total;
  }
}
