/**
 The byte-driven parser computes what reading the whole decoded stream line by line computes, callback for
 callback and error for error, although it splits raw bytes first and decodes line by line.
 */
module SseRefinement {
  import opened Bytes
  import opened Utf8
  import opened EventStream
  import opened SseMachine
  import opened SseInvariants

  function FieldsOf(f: Bufs): Fields {
    Fields(f.data, f.event, f.id, f.retry)
  }

  /** What an embedding program can see: every call, the last event id, the retry time and the error. */
  datatype Seen = Seen(trace: seq<Callback>, lastId: bytes, retry: Option<nat>, status: Status)

  function SeenOf(c: Core, rc: Status): Seen {
    Seen(c.trace, c.f.id, c.f.retry, rc)
  }

  function SeenIn(o: Outcome): Seen {
    Seen(o.trace, o.fields.lastId, o.fields.retry, o.status)
  }

  // --- retry values ---------------------------------------------------------------------------------------

  lemma {:induction false} ValueGrows(v: bytes, i: nat)
    requires i <= |v| && AllDigits(v)
    ensures DecimalValue(v[..i]) <= DecimalValue(v)
    decreases |v|
  {
    if i == |v| {
      assert v[..i] == v;
    } else {
      ValueGrows(v[..|v| - 1], i);
      assert v[..|v| - 1][..i] == v[..i];
    }
  }

  lemma {:induction false} RetryFromIs(v: bytes, i: nat)
    requires i <= |v| && AllDigits(v[..i]) && DecimalValue(v[..i]) <= SIZE_MAX
    ensures RetryFrom(v, i, DecimalValue(v[..i]))
         == if AllDigits(v) && DecimalValue(v) <= SIZE_MAX then Some(DecimalValue(v)) else None
    decreases |v| - i
  {
    if i == |v| {
      assert v[..i] == v;
    } else if IsDigit(v[i]) {
      assert v[..i + 1][..i] == v[..i];
      assert DecimalValue(v[..i + 1]) == 10 * DecimalValue(v[..i]) + (v[i] - 48);
      if DecimalValue(v[..i + 1]) <= SIZE_MAX {
        RetryFromIs(v, i + 1);
      } else if AllDigits(v) {
        ValueGrows(v, i + 1);
      }
    }
  }

  /** The overflow test per digit refuses exactly the values that do not fit a size_t. */
  lemma RetryIsDecimal(v: bytes)
    ensures ParseRetry(v)
         == if v != [] && AllDigits(v) && DecimalValue(v) <= SIZE_MAX then Some(DecimalValue(v)) else None
  {
    if v != [] {
      assert v[..0] == [];
      RetryFromIs(v, 0);
    }
  }

  // --- one line -------------------------------------------------------------------------------------------

  lemma DataRefines(cfg: Config, f: Bufs, m: Mem, v: bytes, trace: seq<Callback>)
    requires cfg.maxBuffer == 0 && MemOk(cfg, m) && BufsFit(cfg, f, m)
    ensures var r := HandleData(cfg, f, m, v); var o := ApplyField(cfg, FieldsOf(f), trace, Field(DATA, v));
      r.rc == o.status && FieldsOf(r.f) == o.fields
  {
    if !(cfg.maxFrame != 0 && |f.data| + |v| + 1 > cfg.maxFrame) {
      AppendDataKeeps(cfg, f, m, v);
      var r := AppendData(cfg, f, m, v);
      AppendDataKeeps(cfg, r.f, r.m, [LF]);
    }
  }

  lemma FieldRefines(cfg: Config, f: Bufs, m: Mem, field: Field, trace: seq<Callback>)
    requires cfg.maxBuffer == 0 && MemOk(cfg, m) && BufsFit(cfg, f, m)
    ensures var r := ProcessField(cfg, f, m, field); var o := ApplyField(cfg, FieldsOf(f), trace, field);
      r.rc == o.status && FieldsOf(r.f) == o.fields && o.trace == trace
  {
    if field.name == DATA {
      DataRefines(cfg, f, m, field.value, trace);
    } else if field.name == EVENT {
      ReserveKeeps(cfg, m, EventSlot, |field.value|);
    } else if field.name == ID {
      ReserveKeeps(cfg, m, IdSlot, |field.value|);
    } else {
      RetryIsDecimal(field.value);
    }
  }

  lemma BlankRefines(cfg: Config, f: Bufs, trace: seq<Callback>)
    requires DataConsistent(f)
    ensures var r := BlankLine(cfg, f, trace); var o := Dispatch(cfg, FieldsOf(f), trace);
      && r.rc == o.status && r.trace == o.trace && r.f.id == o.fields.lastId && r.f.retry == o.fields.retry
      && (r.rc == Ok ==> FieldsOf(r.f) == o.fields)
  {
  }

  lemma LineRefines(cfg: Config, c: Core)
    requires cfg.maxBuffer == 0 && Accounted(cfg, c) && DataConsistent(c.f)
    ensures var r := ProcessLine(cfg, c); var o := ApplyLine(cfg, FieldsOf(c.f), c.trace, c.t.line);
      SeenOf(r.c, r.rc) == SeenIn(o) && (r.rc == Ok ==> FieldsOf(r.c.f) == o.fields)
  {
    if c.t.line == [] {
      BlankRefines(cfg, c.f, c.trace);
    } else if c.t.line[0] != COLON {
      FieldRefines(cfg, c.f, c.m, ParseField(c.t.line), c.trace);
    }
  }

  // --- lines of a text ------------------------------------------------------------------------------------

  /** The LF of a CRLF whose CR has already ended the line. */
  function DropLf(cr: bool, t: bytes): bytes {
    if cr && t != [] && t[0] == LF then t[1..] else t
  }

  lemma {:induction false} FirstEolAfter(x: bytes, t: bytes)
    requires NoEol(x)
    ensures FirstEol(x + t) == |x| + FirstEol(t)
    decreases |x|
  {
    if x == [] {
      assert x + t == t;
    } else {
      assert (x + t)[1..] == x[1..] + t;
      FirstEolAfter(x[1..], t);
    }
  }

  lemma SplitAtEnd(x: bytes, b: byte, t: bytes)
    requires NoEol(x) && IsEol(b)
    ensures var s := SplitLines(DropLf(b == CR, t)); SplitLines(x + ([b] + t)) == Split([x] + s.lines, s.rest)
  {
    var u := x + ([b] + t);
    FirstEolAfter(x, [b] + t);
    assert FirstEol([b] + t) == 0;
    assert u[..|x|] == x && u[|x|] == b;
    assert u[|x| + 1..] == t;
    if t != [] {
      assert u[|x| + 1] == t[0] && u[|x| + 2..] == t[1..];
    }
  }

  /** A text that starts with an overlong piece of a line fails at once. */
  lemma TooLongFails(cfg: Config, f: Fields, trace: seq<Callback>, x: bytes, t: bytes)
    requires NoEol(x) && TooLong(cfg, |x|)
    ensures Interpret(cfg, f, trace, SplitLines(x + t)) == Outcome(f, trace, OverflowLine)
  {
    FirstEolAfter(x, t);
  }

  // --- the stream -----------------------------------------------------------------------------------------

  /** The text still to be interpreted: the line so far, then what the remaining bytes decode to. */
  function Ahead(c: Core, rest: bytes): bytes {
    c.t.line + DropLf(c.pendingCr, Decode(c.t.pend + rest))
  }

  /** What reading it makes of it. */
  function Expected(cfg: Config, c: Core, rest: bytes): Outcome {
    Interpret(cfg, FieldsOf(c.f), c.trace, SplitLines(Ahead(c, rest)))
  }

  lemma AheadText(c: Core, b: byte, rest: bytes)
    requires Utf8Consistent(c.t) && (c.pendingCr ==> c.t == NO_TEXT) && !IsEol(b)
    ensures var f := Feed(c.t.pend, b); Ahead(c, [b] + rest) == (c.t.line + f.out) + Decode(f.pend + rest)
  {
    DecodeFeed(c.t.pend, b, rest);
    if c.pendingCr {
      assert c.t.pend + ([b] + rest) == [b] + rest;
      DecodeFront([b] + rest);
    }
    var f := Feed(c.t.pend, b);
    assert c.t.line + (f.out + Decode(f.pend + rest)) == (c.t.line + f.out) + Decode(f.pend + rest);
  }

  /** An end of line settles an unfinished character. */
  lemma EolFeed(t: Text, b: byte)
    requires Utf8Consistent(t) && IsEol(b)
    ensures (t.pend == [] || Unfinished(t.pend)) && Feed(t.pend, b) == Fed(Flushed(t) + [b], [])
    ensures t == NO_TEXT ==> Flushed(t) == []
  {
  }

  lemma AheadEol(c: Core, b: byte, rest: bytes)
    requires Utf8Consistent(c.t) && (c.pendingCr ==> c.t == NO_TEXT) && IsEol(b) && !(c.pendingCr && b == LF)
    ensures Ahead(c, [b] + rest) == (c.t.line + Flushed(c.t)) + ([b] + Decode(rest))
  {
    hide Feed, Decode, Flushed, Utf8Consistent;
    EolFeed(c.t, b);
    DecodeFeed(c.t.pend, b, rest);
    assert [] + rest == rest;
    assert c.t.line + ((Flushed(c.t) + [b]) + Decode(rest)) == (c.t.line + Flushed(c.t)) + ([b] + Decode(rest));
  }

  lemma TextByteRefines(cfg: Config, c: Core, b: byte, rest: bytes)
    requires cfg.maxBuffer == 0 && CoreInv(cfg, c) && !IsEol(b)
    ensures var r := ProcessRawByte(cfg, c, b);
      if r.rc == Ok then Expected(cfg, c, [b] + rest) == Expected(cfg, r.c, rest)
      else SeenIn(Expected(cfg, c, [b] + rest)) == SeenOf(r.c, r.rc)
  {
    FeedAdds(cfg, c.t, c.m, b);
    FeedShape(c.t.pend, b);
    AheadText(c, b, rest);
    var f := Feed(c.t.pend, b);
    var x := c.t.line + f.out;
    var r := FeedUtf8(cfg, c.t, c.m, b);
    if r.rc != Ok {
      TooLongFails(cfg, FieldsOf(c.f), c.trace, x, Decode(f.pend + rest));
    }
  }

  lemma EndLineRefines(cfg: Config, c: Core, b: byte, rest: bytes)
    requires cfg.maxBuffer == 0 && CoreInv(cfg, c) && IsEol(b) && !(c.pendingCr && b == LF)
    ensures var r := ProcessRawByte(cfg, c, b);
      if r.rc == Ok then Expected(cfg, c, [b] + rest) == Expected(cfg, r.c, rest)
      else SeenIn(Expected(cfg, c, [b] + rest)) == SeenOf(r.c, r.rc)
  {
    hide Decode, ValidUtf8, ProcessLine, SplitLines, MemOk;
    FlushAdds(cfg, c.t, c.m);
    AheadEol(c, b, rest);
    var x := c.t.line + Flushed(c.t);
    var r := FlushIncomplete(cfg, c.t, c.m);
    assert NoEol(x);
    if r.rc != Ok {
      TooLongFails(cfg, FieldsOf(c.f), c.trace, x, [b] + Decode(rest));
    } else {
      var c1 := c.(pendingCr := false).(t := r.t, m := r.m);
      LineRefines(cfg, c1);
      ProcessLineKeeps(cfg, c1);
      SplitAtEnd(x, b, Decode(rest));
      assert [] + rest == rest;
      var d := DropLf(b == CR, Decode(rest));
      assert [] + d == d;
      var s := SplitLines(d);
      assert ([x] + s.lines)[1..] == s.lines;
    }
  }

  lemma ByteRefines(cfg: Config, c: Core, b: byte, rest: bytes)
    requires cfg.maxBuffer == 0 && CoreInv(cfg, c)
    ensures var r := ProcessRawByte(cfg, c, b);
      if r.rc == Ok then Expected(cfg, c, [b] + rest) == Expected(cfg, r.c, rest)
      else SeenIn(Expected(cfg, c, [b] + rest)) == SeenOf(r.c, r.rc)
  {
    if !IsEol(b) {
      TextByteRefines(cfg, c, b, rest);
    } else if c.pendingCr && b == LF {
      assert [] + ([b] + rest) == [b] + rest && [] + rest == rest;
      DecodeFront([b] + rest);
      assert ([b] + rest)[1..] == rest;
    } else {
      EndLineRefines(cfg, c, b, rest);
    }
  }

  lemma {:induction false} RawBytesRefine(cfg: Config, c: Core, bs: bytes)
    requires cfg.maxBuffer == 0 && CoreInv(cfg, c)
    ensures var r := RawBytes(cfg, c, bs); SeenOf(r.c, r.rc) == SeenIn(Expected(cfg, c, bs))
    decreases |bs|
  {
    if bs == [] {
      NothingAhead(cfg, c);
    } else {
      ByteRefines(cfg, c, bs[0], bs[1..]);
      assert [bs[0]] + bs[1..] == bs;
      RawByteKeeps(cfg, c, bs[0]);
      var r := ProcessRawByte(cfg, c, bs[0]);
      if r.rc == Ok {
        RawBytesRefine(cfg, r.c, bs[1..]);
      }
    }
  }

  /** At the end of the input only the unfinished line remains, and it fits. */
  lemma NothingAhead(cfg: Config, c: Core)
    requires CoreInv(cfg, c)
    ensures SeenIn(Expected(cfg, c, [])) == SeenOf(c, Ok)
  {
    assert c.t.pend + [] == c.t.pend;
    if c.t.pend != [] {
      assert c.t.pend[1..] == c.t.pend[1..|c.t.pend|];
      TailReachThrough(c.t.pend, 1, |c.t.pend|, LeadLength(c.t.pend[0]));
    }
    assert Decode(c.t.pend) == [];
    assert c.t.line + [] == c.t.line;
    FirstEolAfter(c.t.line, []);
  }

  // --- the byte order mark --------------------------------------------------------------------------------

  lemma {:induction false} RunIsRawBytes(cfg: Config, s: State, bs: bytes)
    requires s.bomChecked && s.status == Ok
    ensures var t := Run(cfg, s, bs); var r := RawBytes(cfg, s.core, bs); t.core == r.c && t.status == r.rc
    decreases |bs|
  {
    if bs != [] {
      var r := ProcessRawByte(cfg, s.core, bs[0]);
      if r.rc == Ok {
        RunIsRawBytes(cfg, ProcessByte(cfg, s, bs[0]), bs[1..]);
      }
    }
  }

  lemma {:induction false} RawBytesSplit(cfg: Config, c: Core, a: bytes, b: bytes)
    ensures var r := RawBytes(cfg, c, a); RawBytes(cfg, c, a + b) == if r.rc != Ok then r else RawBytes(cfg, r.c, b)
    decreases |a|
  {
    if a == [] {
      assert a + b == b;
    } else {
      assert (a + b)[1..] == a[1..] + b;
      var r := ProcessRawByte(cfg, c, a[0]);
      if r.rc == Ok {
        RawBytesSplit(cfg, r.c, a[1..], b);
      }
    }
  }

  lemma PrefixesAgree(a: bytes, b: bytes, s: bytes)
    ensures a <= s && b <= s && |a| <= |b| ==> a <= b
  {
  }

  /** How the machine starts: it swallows a byte order mark, and otherwise replays what it held back. */
  lemma {:induction false} RunFromStart(cfg: Config, s: State, bs: bytes)
    requires BomConsistent(s) && !s.bomChecked && s.core == NO_CORE && s.status == Ok
    ensures var t := Run(cfg, s, bs); var all := s.bom + bs;
      if all <= BOM then t.core == NO_CORE && t.status == Ok
      else var r := RawBytes(cfg, NO_CORE, StripBom(all)); t.core == r.c && t.status == r.rc
    decreases |bs|
  {
    hide ProcessRawByte;
    var all := s.bom + bs;
    if bs == [] {
      assert all == s.bom;
    } else {
      var b := bs[0];
      var bom := s.bom + [b];
      var s1 := ProcessByte(cfg, s, b);
      assert all == bom + bs[1..];
      if bom <= BOM && |bom| < 3 {
        RunFromStart(cfg, s1, bs[1..]);
      } else if bom == BOM {
        assert all[3..] == bs[1..];
        RunIsRawBytes(cfg, s1, bs[1..]);
        assert all <= BOM ==> bs[1..] == [];
      } else {
        PrefixesAgree(bom, BOM, all);
        RawBytesSplit(cfg, NO_CORE, bom, bs[1..]);
        if s1.status == Ok {
          RunIsRawBytes(cfg, s1, bs[1..]);
        }
      }
    }
  }

  /**
   Main result. Without a memory budget, the calls made to the embedding program (and their arguments), the
   last event id, the retry time and the final error of a fresh parser are those of reading the decoded
   stream as the standard does, under the same line and frame limits, for every byte stream and every answering host.
   */
  lemma RefinesReading(cfg: Config, bs: bytes)
    requires cfg.maxBuffer == 0
    ensures var t := Run(cfg, INIT, bs); SeenOf(t.core, t.status) == SeenIn(InterpretStream(cfg, bs))
  {
    RunFromStart(cfg, INIT, bs);
    assert INIT.bom + bs == bs;
    InitHolds(cfg);
    var text := if bs <= BOM then [] else StripBom(bs);
    if bs <= BOM {
      assert Decode(StripBom(bs)) == [];
    }
    RawBytesRefine(cfg, NO_CORE, text);
    assert [] + text == text && [] + Decode(text) == Decode(text);
  }
}
