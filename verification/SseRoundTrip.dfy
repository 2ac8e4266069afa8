/**
 What the writer writes, the parser reads back: whole streams of events and keepalives, and the agreement of
 the two sides on the line and frame limits.
 */
module SseRoundTrip {
  import opened Bytes
  import opened Utf8
  import opened EventStream
  import opened SseMachine
  import opened SseRefinement
  import opened SseWriter

  datatype Item = Sent(eventType: bytes, data: bytes) | Keepalive

  function ItemText(item: Item): bytes {
    match item
    case Sent(t, d) => EventText(t, d)
    case Keepalive => KEEPALIVE_TEXT
  }

  function StreamText(items: seq<Item>): bytes {
    if items == [] then [] else ItemText(items[0]) + StreamText(items[1..])
  }

  /** What the reader is told about an item; every blank line is a frame. */
  function ItemCalls(item: Item): seq<Callback> {
    match item
    case Sent(t, d) => [Frame, Event(d, if t == [] then MESSAGE else t, [])]
    case Keepalive => [Frame]
  }

  function StreamCalls(items: seq<Item>): seq<Callback> {
    if items == [] then [] else ItemCalls(items[0]) + StreamCalls(items[1..])
  }

  /** What the writer accepts under these limits, given enough room. */
  predicate Writable(limits: Limits, item: Item) {
    match item
    case Sent(t, d) => ContentStatus(limits, t, d) == Ok
    case Keepalive => LineFits(limits, |PING|)
  }

  predicate ValidItem(item: Item) {
    item.Sent? ==> ValidUtf8(item.eventType) && ValidUtf8(item.data)
  }

  /** A reader with both callbacks installed, a host that never aborts and no memory budget. */
  ghost predicate Patient(cfg: Config) {
    cfg.onFrame && cfg.onEvent && cfg.maxBuffer == 0 && forall t :: cfg.host(t)
  }

  function LimitsOf(cfg: Config): Limits {
    Limits(cfg.maxLine, cfg.maxFrame)
  }

  // --- the text of an item is valid UTF-8 -----------------------------------------------------------------

  lemma CharHasNoAsciiInside(c: bytes, i: nat)
    requires IsUtf8Char(c) && 0 < i < |c|
    ensures c[i] > 0x7F
  {
  }

  lemma {:induction false} ValidAroundAscii(s: bytes, i: nat)
    requires ValidUtf8(s) && i < |s| && s[i] <= 0x7F
    ensures ValidUtf8(s[..i]) && ValidUtf8(s[i + 1..])
    decreases |s|
  {
    hide IsUtf8Char, LeadLength;
    var n := LeadLength(s[0]);
    if i == 0 {
      CharShape(s[..n]);
      AsciiIsAlone(s);
    } else {
      if i < n { CharHasNoAsciiInside(s[..n], i); }
      ValidAroundAscii(s[n..], i - n);
      assert s[..i][n..] == s[n..][..i - n] && s[..i][..n] == s[..n];
      assert s[n..][i - n + 1..] == s[i + 1..];
    }
  }

  lemma AsciiIsAlone(s: bytes)
    requires s != [] && s[0] <= 0x7F
    ensures LeadLength(s[0]) == 1
  {
  }

  lemma {:induction false} AsciiValid(s: bytes)
    requires forall i :: 0 <= i < |s| ==> s[i] <= 0x7F
    ensures ValidUtf8(s)
    decreases |s|
  {
    if s != [] {
      AsciiValid(s[1..]);
    }
  }

  lemma {:induction false} LinesTextValid(data: bytes)
    requires ValidUtf8(data)
    ensures ValidUtf8(LinesText(DataLines(data)))
    decreases |data|
  {
    var i := FirstIndex(data, LF);
    var line := data[..i];
    AsciiValid(DATA_PREFIX);
    AsciiValid([LF]);
    if i == |data| {
      assert line == data;
      LinesTextOne(data);
    } else {
      ValidAroundAscii(data, i);
      LinesTextValid(data[i + 1..]);
      LinesTextAppend([line], DataLines(data[i + 1..]));
      LinesTextOne(line);
    }
    ValidConcat(DATA_PREFIX, line);
    ValidConcat(DATA_PREFIX + line, [LF]);
    if i < |data| {
      ValidConcat(DATA_PREFIX + line + [LF], LinesText(DataLines(data[i + 1..])));
    }
  }

  lemma ItemTextValid(item: Item)
    requires ValidItem(item)
    ensures ValidUtf8(ItemText(item))
    ensures ItemText(item)[0] != BOM[0]
  {
    AsciiValid([LF]);
    match item
    case Sent(t, d) =>
      LinesTextValid(d);
      AsciiValid(EVENT_PREFIX);
      ValidConcat(EVENT_PREFIX, t);
      ValidConcat(EVENT_PREFIX + t, [LF]);
      ValidConcat(TypeText(t), LinesText(DataLines(d)));
      ValidConcat(TypeText(t) + LinesText(DataLines(d)), [LF]);
      assert LinesText(DataLines(d))[0] == DATA_PREFIX[0];
    case Keepalive =>
      AsciiValid(KEEPALIVE_TEXT);
  }

  lemma {:induction false} StreamTextValid(items: seq<Item>)
    requires forall i :: 0 <= i < |items| ==> ValidItem(items[i])
    ensures ValidUtf8(StreamText(items)) && !(BOM <= StreamText(items))
    decreases |items|
  {
    if items != [] {
      StreamTextValid(items[1..]);
      ItemTextValid(items[0]);
      ValidConcat(ItemText(items[0]), StreamText(items[1..]));
      assert StreamText(items)[0] == ItemText(items[0])[0];
    }
  }

  // --- reading the lines of an item -----------------------------------------------------------------------

  function Read(cfg: Config, f: Fields, trace: seq<Callback>, text: bytes): Outcome {
    Interpret(cfg, f, trace, SplitLines(text))
  }

  lemma ReadLine(cfg: Config, f: Fields, trace: seq<Callback>, line: bytes, rest: bytes)
    requires NoEol(line)
    ensures var o := ApplyLine(cfg, f, trace, line);
      Read(cfg, f, trace, line + ([LF] + rest)) == if o.status != Ok then o else Read(cfg, o.fields, o.trace, rest)
  {
    SplitAtEnd(line, LF, rest);
    var s := SplitLines(rest);
    assert ([line] + s.lines)[1..] == s.lines;
  }

  /** A prefix of the form `name: ` and a value parse back to that name and value. */
  lemma FieldReads(name: bytes, value: bytes)
    requires COLON !in name
    ensures ParseField(name + [COLON, SPACE] + value) == Field(name, value)
  {
    var line := name + [COLON, SPACE] + value;
    assert line[..|name|] == name;
    FirstIndexIs(line, COLON, |name|);
    assert line[|name| + 1..] == [SPACE] + value;
    assert ([SPACE] + value)[1..] == value;
  }

  function Joined(lines: seq<bytes>): bytes {
    if lines == [] then [] else lines[0] + [LF] + Joined(lines[1..])
  }

  lemma {:induction false} JoinedLines(data: bytes)
    ensures Joined(DataLines(data)) == data + [LF]
    decreases |data|
  {
    var i := FirstIndex(data, LF);
    if i == |data| {
      assert DataLines(data)[1..] == [] && Joined([]) == [];
    } else {
      var rest := DataLines(data[i + 1..]);
      assert ([data[..i]] + rest)[1..] == rest;
      JoinedLines(data[i + 1..]);
      assert data == data[..i] + [LF] + data[i + 1..];
    }
  }

  lemma {:induction false} LinesClean(limits: Limits, data: bytes)
    requires LinesStatus(limits, DataLines(data)) != BadInput || CR !in data
    ensures CR !in data ==> forall k :: 0 <= k < |DataLines(data)| ==> NoEol(DataLines(data)[k])
    decreases |data|
  {
    var i := FirstIndex(data, LF);
    if i < |data| && CR !in data {
      LinesClean(limits, data[i + 1..]);
      assert CR !in data[..i];
    }
  }

  predicate LinesFit(limits: Limits, lines: seq<bytes>) {
    forall k :: 0 <= k < |lines| ==> LineFits(limits, 6 + |lines[k]|)
  }

  /** One `data` line, as the reader takes it. */
  lemma DataLineReads(cfg: Config, f: Fields, trace: seq<Callback>, line: bytes, rest: bytes)
    requires NoEol(line)
    ensures var text := DATA_PREFIX + line + [LF] + rest;
      if !LineFits(LimitsOf(cfg), 6 + |line|) || (cfg.maxFrame != 0 && |f.data| + |line| + 1 > cfg.maxFrame)
      then Read(cfg, f, trace, text).status != Ok
      else Read(cfg, f, trace, text) == Read(cfg, f.(data := f.data + line + [LF]), trace, rest)
  {
    var l := DATA_PREFIX + line;
    assert DATA_PREFIX + line + [LF] + rest == l + ([LF] + rest);
    assert DATA + [COLON, SPACE] + line == l;
    FieldReads(DATA, line);
    assert NoEol(l);
    ReadLine(cfg, f, trace, l, rest);
  }

  lemma FirstOfLines(limits: Limits, lines: seq<bytes>)
    requires lines != []
    ensures LinesText(lines) == DATA_PREFIX + lines[0] + [LF] + LinesText(lines[1..])
    ensures Joined(lines) == lines[0] + [LF] + Joined(lines[1..])
    ensures LinesFit(limits, lines) <==> LineFits(limits, 6 + |lines[0]|) && LinesFit(limits, lines[1..])
  {
  }

  lemma Regroup(a: bytes, b: bytes, c: bytes)
    ensures a + b + c == a + (b + c)
  {
  }

  lemma LinesUnfold(limits: Limits, data: bytes, lines: seq<bytes>, rest: bytes)
    requires lines != []
    ensures var line, tail := lines[0], lines[1..];
      && LinesText(lines) + rest == DATA_PREFIX + line + [LF] + (LinesText(tail) + rest)
      && data + line + [LF] + Joined(tail) == data + Joined(lines)
      && (LinesFit(limits, lines) <==> LineFits(limits, 6 + |line|) && LinesFit(limits, tail))
  {
    hide LinesText, Joined, LinesFit;
    var line, tail := lines[0], lines[1..];
    FirstOfLines(limits, lines);
    Regroup(DATA_PREFIX + line + [LF], LinesText(tail), rest);
    Regroup(data, line + [LF], Joined(tail));
    Regroup(data, line, [LF]);
  }

  /** All the `data` lines: they are taken exactly when every line and their total fit. */
  lemma {:induction false} DataLinesRead(cfg: Config, f: Fields, trace: seq<Callback>, lines: seq<bytes>, rest: bytes)
    requires forall k :: 0 <= k < |lines| ==> NoEol(lines[k])
    requires lines != [] || cfg.maxFrame == 0 || |f.data| <= cfg.maxFrame
    ensures var text := LinesText(lines) + rest;
      if LinesFit(LimitsOf(cfg), lines) && (cfg.maxFrame == 0 || |f.data| + |Joined(lines)| <= cfg.maxFrame)
      then Read(cfg, f, trace, text) == Read(cfg, f.(data := f.data + Joined(lines)), trace, rest)
      else Read(cfg, f, trace, text).status != Ok
    decreases |lines|
  {
    if lines == [] {
      assert LinesText(lines) + rest == rest && f.data + [] == f.data;
    } else {
      hide Interpret, SplitLines, Read;
      var line, tail := lines[0], lines[1..];
      var rest1 := LinesText(tail) + rest;
      DataLineReads(cfg, f, trace, line, rest1);
      var f1 := f.(data := f.data + line + [LF]);
      LinesUnfold(LimitsOf(cfg), f.data, lines, rest);
      if LineFits(LimitsOf(cfg), 6 + |line|) && (cfg.maxFrame == 0 || |f.data| + |line| + 1 <= cfg.maxFrame) {
        DataLinesRead(cfg, f1, trace, tail, rest);
      }
    }
  }

  lemma {:induction false} LinesStatusIs(limits: Limits, lines: seq<bytes>)
    requires forall k :: 0 <= k < |lines| ==> NoEol(lines[k])
    ensures LinesStatus(limits, lines) == if LinesFit(limits, lines) then Ok else OverflowLine
    decreases |lines|
  {
    if lines != [] {
      LinesStatusIs(limits, lines[1..]);
      assert LinesFit(limits, lines) <==> LineFits(limits, 6 + |lines[0]|) && LinesFit(limits, lines[1..]);
    }
  }

  /** The `event` line. */
  lemma TypeReads(cfg: Config, trace: seq<Callback>, t: bytes, rest: bytes)
    requires NoEol(t)
    ensures var text := TypeText(t) + rest;
      if t == [] || LineFits(LimitsOf(cfg), 7 + |t|)
      then Read(cfg, NO_FIELDS, trace, text) == Read(cfg, NO_FIELDS.(eventType := t), trace, rest)
      else Read(cfg, NO_FIELDS, trace, text).status != Ok
  {
    if t == [] {
      assert TypeText(t) + rest == rest;
    } else {
      var l := EVENT_PREFIX + t;
      assert TypeText(t) + rest == l + ([LF] + rest);
      assert EVENT + [COLON, SPACE] + t == l;
      FieldReads(EVENT, t);
      assert NoEol(l);
      ReadLine(cfg, NO_FIELDS, trace, l, rest);
    }
  }

  lemma BlankReads(cfg: Config, t: bytes, d: bytes, trace: seq<Callback>, rest: bytes)
    requires Patient(cfg)
    ensures Read(cfg, Fields(d + [LF], t, [], None), trace, [LF] + rest)
         == Read(cfg, NO_FIELDS, trace + ItemCalls(Sent(t, d)), rest)
  {
    var f := Fields(d + [LF], t, [], None);
    ReadLine(cfg, f, trace, [], rest);
    assert [] + ([LF] + rest) == [LF] + rest;
    assert f.data[..|f.data| - 1] == d;
    var ev := EventOf(f);
    assert trace + [Frame] + [ev] == trace + [Frame, ev];
  }

  /**
   An event without a carriage return, and a type without line ends: the reader accepts its text exactly when
   the writer's line and frame checks accept it, and then makes exactly its calls.
   */
  lemma SentReads(cfg: Config, t: bytes, d: bytes, trace: seq<Callback>, rest: bytes)
    requires Patient(cfg) && NoEol(t) && CR !in d
    ensures var text := EventText(t, d) + rest;
      if ContentStatus(LimitsOf(cfg), t, d) == Ok
      then Read(cfg, NO_FIELDS, trace, text) == Read(cfg, NO_FIELDS, trace + ItemCalls(Sent(t, d)), rest)
      else Read(cfg, NO_FIELDS, trace, text).status != Ok
  {
    hide Read, Interpret, SplitLines, LinesText, DataLines, TypeText, Joined, LinesStatus;
    var limits := LimitsOf(cfg);
    var lines := DataLines(d);
    var rest2 := [LF] + rest;
    var rest1 := LinesText(lines) + rest2;
    assert EventText(t, d) + rest == TypeText(t) + rest1;
    TypeReads(cfg, trace, t, rest1);
    LinesClean(limits, d);
    LinesStatusIs(limits, lines);
    JoinedLines(d);
    var f := NO_FIELDS.(eventType := t);
    DataLinesRead(cfg, f, trace, lines, rest2);
    assert [] + (d + [LF]) == d + [LF];
    BlankReads(cfg, t, d, trace, rest);
  }

  lemma KeepaliveReads(cfg: Config, trace: seq<Callback>, rest: bytes)
    requires Patient(cfg)
    ensures if LineFits(LimitsOf(cfg), |PING|)
      then Read(cfg, NO_FIELDS, trace, KEEPALIVE_TEXT + rest) == Read(cfg, NO_FIELDS, trace + [Frame], rest)
      else Read(cfg, NO_FIELDS, trace, KEEPALIVE_TEXT + rest).status != Ok
  {
    assert KEEPALIVE_TEXT + rest == PING + ([LF] + ([LF] + rest));
    ReadLine(cfg, NO_FIELDS, trace, PING, [LF] + rest);
    ReadLine(cfg, NO_FIELDS, trace, [], rest);
    assert [] + ([LF] + rest) == [LF] + rest;
  }

  lemma {:induction false} StreamReads(cfg: Config, items: seq<Item>, trace: seq<Callback>)
    requires Patient(cfg)
    requires forall i :: 0 <= i < |items| ==> Writable(LimitsOf(cfg), items[i])
    ensures Read(cfg, NO_FIELDS, trace, StreamText(items)) == Outcome(NO_FIELDS, trace + StreamCalls(items), Ok)
    decreases |items|
  {
    if items == [] {
      assert trace + [] == trace;
    } else {
      hide Read, Interpret, SplitLines, EventText;
      var item, rest := items[0], StreamText(items[1..]);
      match item {
        case Sent(t, d) =>
          WritableIsClean(LimitsOf(cfg), t, d);
          SentReads(cfg, t, d, trace, rest);
        case Keepalive =>
          KeepaliveReads(cfg, trace, rest);
      }
      StreamReads(cfg, items[1..], trace + ItemCalls(item));
      assert trace + ItemCalls(item) + StreamCalls(items[1..]) == trace + StreamCalls(items);
    }
  }

  lemma FirstLineIs(limits: Limits, d: bytes) returns (i: nat)
    requires LinesStatus(limits, DataLines(d)) == Ok
    ensures i <= |d| && CR !in d[..i]
    ensures i < |d| ==> d[i] == LF && LinesStatus(limits, DataLines(d[i + 1..])) == Ok
  {
    i := FirstIndex(d, LF);
    if i == |d| {
      assert d[..i] == d;
      assert DataLines(d)[0] == d;
    } else {
      assert DataLines(d)[0] == d[..i] && DataLines(d)[1..] == DataLines(d[i + 1..]);
    }
  }

  lemma {:induction false} CleanLines(limits: Limits, d: bytes)
    requires LinesStatus(limits, DataLines(d)) == Ok
    ensures CR !in d
    decreases |d|
  {
    hide DataLines, LinesStatus, FirstIndex;
    var i := FirstLineIs(limits, d);
    if i < |d| {
      CleanLines(limits, d[i + 1..]);
      assert d == d[..i] + [LF] + d[i + 1..];
    } else {
      assert d[..i] == d;
    }
  }

  lemma WritableIsClean(limits: Limits, t: bytes, d: bytes)
    requires ContentStatus(limits, t, d) == Ok
    ensures NoEol(t) && CR !in d
  {
    CleanLines(limits, d);
  }

  /** A run over valid text without a byte order mark goes as the reading of that text. */
  lemma RunIsReading(cfg: Config, text: bytes)
    requires cfg.maxBuffer == 0 && ValidUtf8(text) && !(BOM <= text)
    ensures var s, o := Run(cfg, INIT, text), Read(cfg, NO_FIELDS, [], text);
      s.status == o.status && s.core.trace == o.trace
  {
    hide Run, Interpret, SplitLines, Decode, ValidUtf8;
    DecodeKeepsValid(text);
    RefinesReading(cfg, text);
  }

  /**
   Write, then read. A fresh parser with the writer's own line and frame limits, fed any sequence of written
   events (over valid UTF-8) and keepalives, reports no error and makes exactly their calls, in order, with
   identical data and type ("message" for none).
   */
  lemma WriteThenRead(cfg: Config, items: seq<Item>)
    requires Patient(cfg)
    requires forall i :: 0 <= i < |items| ==> ValidItem(items[i]) && Writable(LimitsOf(cfg), items[i])
    ensures var s := Run(cfg, INIT, StreamText(items)); s.status == Ok && s.core.trace == StreamCalls(items)
  {
    hide Run, Read, ValidUtf8, StreamText, StreamCalls;
    StreamTextValid(items);
    RunIsReading(cfg, StreamText(items));
    StreamReads(cfg, items, []);
    assert [] + StreamCalls(items) == StreamCalls(items);
  }

  /** The limit checks of the two sides agree: for valid UTF-8 the parser accepts exactly what the writer would write. */
  lemma LimitsAgree(cfg: Config, t: bytes, d: bytes)
    requires Patient(cfg) && ValidUtf8(t) && ValidUtf8(d) && NoEol(t) && CR !in d
    ensures Run(cfg, INIT, EventText(t, d)).status == Ok
       <==> WriteStatus(LimitsOf(cfg), t, d, |EventText(t, d)|) == Ok
  {
    hide Run, Read, ValidUtf8, ContentStatus, EventText;
    var text := EventText(t, d);
    ItemTextValid(Sent(t, d));
    RunIsReading(cfg, text);
    SentReads(cfg, t, d, [], []);
    assert text + [] == text;
    NothingRead(cfg, [] + ItemCalls(Sent(t, d)));
  }

  lemma NothingRead(cfg: Config, trace: seq<Callback>)
    ensures Read(cfg, NO_FIELDS, trace, []).status == Ok
  {
  }
}
