/**
 The text side of an event stream: sections 9.2.5 and 9.2.6 of the HTML Living Standard, working on whole
 decoded text and whole lines, extended with what this client adds to them: the frame callback on every
 blank line, aborting callbacks, and the line and frame limits. Nothing here knows about bytes arriving one
 at a time.
 */
module EventStream {
  import opened Bytes
  import opened Utf8

  datatype Status = Ok | OverflowLine | OverflowFrame | OverflowBuffer | OverflowTotal | Abort | BadInput

  /**
   A call made to the embedding program. The parser makes the first two; a `Poll` is made by whoever feeds it,
   between two chunks, and is kept in the same log.
   */
  datatype Callback = Frame | Event(data: bytes, eventType: bytes, lastId: bytes) | Poll

  /**
   A limit of 0 is "no limit". `host` is what a callback answers, given every call made so far including
   this one. `onFrame` and `onEvent` say which callbacks are installed.
   */
  datatype Config = Config(
    maxLine: nat, maxFrame: nat, maxBuffer: nat, maxTotal: nat,
    onFrame: bool, onEvent: bool,
    host: seq<Callback> -> bool)

  const BOM: bytes := [0xEF, 0xBB, 0xBF]
  const DATA: bytes := [100, 97, 116, 97]             // data
  const EVENT: bytes := [101, 118, 101, 110, 116]     // event
  const ID: bytes := [105, 100]                       // id
  const RETRY: bytes := [114, 101, 116, 114, 121]     // retry
  const MESSAGE: bytes := [109, 101, 115, 115, 97, 103, 101] // message

  /** Section 9.2.5: one leading byte order mark is not part of the text. */
  function StripBom(s: bytes): bytes {
    if BOM <= s then s[3..] else s
  }

  predicate IsEol(b: byte) {
    b == LF || b == CR
  }

  predicate NoEol(s: bytes) {
    forall i :: 0 <= i < |s| ==> !IsEol(s[i])
  }

  function FirstEol(t: bytes): (r: nat)
    ensures r <= |t| && NoEol(t[..r])
    ensures r < |t| ==> IsEol(t[r])
  {
    if t == [] || IsEol(t[0]) then 0
    else
      var r := FirstEol(t[1..]);
      assert t[..1 + r] == [t[0]] + t[1..][..r];
      1 + r
  }

  /** The completed lines of a text and what follows the last line end. */
  datatype Split = Split(lines: seq<bytes>, rest: bytes)

  /** CRLF, LF and CR each end a line. */
  function SplitLines(t: bytes): Split
    decreases |t|
  {
    var i := FirstEol(t);
    if i == |t| then Split([], t)
    else
      var after := if t[i] == CR && i + 1 < |t| && t[i + 1] == LF then i + 2 else i + 1;
      var s := SplitLines(t[after..]);
      Split([t[..i]] + s.lines, s.rest)
  }

  /** The event-source buffers; `retry` is the reconnection time once one was received. */
  datatype Fields = Fields(data: bytes, eventType: bytes, lastId: bytes, retry: Option<nat>)

  const NO_FIELDS := Fields([], [], [], None)

  datatype Outcome = Outcome(fields: Fields, trace: seq<Callback>, status: Status)

  predicate AllDigits(v: bytes) {
    forall i :: 0 <= i < |v| ==> IsDigit(v[i])
  }

  function DecimalValue(v: bytes): nat
    requires AllDigits(v)
  {
    if v == [] then 0 else 10 * DecimalValue(v[..|v| - 1]) + (v[|v| - 1] - 48)
  }

  function FirstIndex(s: bytes, b: byte): (r: nat)
    ensures r <= |s| && b !in s[..r]
    ensures r < |s| ==> s[r] == b
  {
    if s == [] || s[0] == b then 0
    else
      var r := FirstIndex(s[1..], b);
      assert s[..1 + r] == [s[0]] + s[1..][..r];
      1 + r
  }

  /** The part of a line before its first colon, and the part after it without one leading space. */
  datatype Field = Field(name: bytes, value: bytes)

  function ParseField(line: bytes): Field {
    var i := FirstIndex(line, COLON);
    if i == |line| then Field(line, [])
    else
      var v := line[i + 1..];
      Field(line[..i], if v != [] && v[0] == SPACE then v[1..] else v)
  }

  /** The effect of a field on the buffers; only `data` can fail. */
  function ApplyField(cfg: Config, f: Fields, trace: seq<Callback>, field: Field): Outcome {
    if field.name == DATA then
      if cfg.maxFrame != 0 && |f.data| + |field.value| + 1 > cfg.maxFrame then Outcome(f, trace, OverflowFrame)
      else Outcome(f.(data := f.data + field.value + [LF]), trace, Ok)
    else if field.name == EVENT then Outcome(f.(eventType := field.value), trace, Ok)
    else if field.name == ID then
      Outcome(if 0 in field.value then f else f.(lastId := field.value), trace, Ok)
    else if field.name == RETRY && field.value != [] && AllDigits(field.value)
            && DecimalValue(field.value) <= SIZE_MAX then
      Outcome(f.(retry := Some(DecimalValue(field.value))), trace, Ok)
    else Outcome(f, trace, Ok)
  }

  function EventOf(f: Fields): Callback
    requires f.data != []
  {
    Event(f.data[..|f.data| - 1], if f.eventType != [] then f.eventType else MESSAGE, f.lastId)
  }

  /** A blank line: the frame callback, then the event when the data buffer is not empty. */
  function Dispatch(cfg: Config, f: Fields, trace: seq<Callback>): Outcome {
    var t1 := if cfg.onFrame then trace + [Frame] else trace;
    if cfg.onFrame && !cfg.host(t1) then Outcome(f, t1, Abort)
    else
      var calls := f.data != [] && cfg.onEvent;
      var t2 := if calls then t1 + [EventOf(f)] else t1;
      if calls && !cfg.host(t2) then Outcome(f, t2, Abort)
      else Outcome(f.(data := [], eventType := []), t2, Ok)
  }

  function ApplyLine(cfg: Config, f: Fields, trace: seq<Callback>, line: bytes): Outcome {
    if cfg.maxLine != 0 && |line| > cfg.maxLine then Outcome(f, trace, OverflowLine)
    else if line == [] then Dispatch(cfg, f, trace)
    else if line[0] == COLON then Outcome(f, trace, Ok)
    else ApplyField(cfg, f, trace, ParseField(line))
  }

  /** Line by line until one fails; the unfinished last line can only be too long. */
  function Interpret(cfg: Config, f: Fields, trace: seq<Callback>, text: Split): Outcome
    decreases |text.lines|
  {
    if text.lines == [] then
      Outcome(f, trace, if cfg.maxLine != 0 && |text.rest| > cfg.maxLine then OverflowLine else Ok)
    else
      var o := ApplyLine(cfg, f, trace, text.lines[0]);
      if o.status != Ok then o else Interpret(cfg, o.fields, o.trace, Split(text.lines[1..], text.rest))
  }

  /** The reading of a whole byte stream: the standard's, but for the decoder, which is the parser's own. */
  function InterpretStream(cfg: Config, stream: bytes): Outcome {
    Interpret(cfg, NO_FIELDS, [], SplitLines(Decode(StripBom(stream))))
  }
}
