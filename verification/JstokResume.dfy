/**
 A buffer that arrives in pieces: calling the parser again on the same state with more bytes is as good as
 starting over on the longer buffer.
 */
module JstokResume {
  import opened Bytes
  import opened JsonLexer
  import opened Jstok

  /** A step that goes on does the same in a longer buffer, except behind a literal that ended the buffer. */
  predicate LiteralSplit(json: bytes, more: bytes, p: PState) {
    p.pos < |json| && ScanPrimitive(json, p.pos) == Done(|json|) && more != [] && !IsDelim(more[0])
  }

  lemma StringStepStable(json: bytes, more: bytes, mode: Mode, p: PState)
    requires p.pos < |json| && StringStep(json, mode, p).Go?
    ensures StringStep(json + more, mode, p) == StringStep(json, mode, p)
  {
    hide ScanString;
    ScanStringStable(json, more, p.pos + 1);
  }

  lemma PrimitiveStepStable(json: bytes, more: bytes, mode: Mode, p: PState)
    requires p.pos < |json| && PrimitiveStep(json, mode, p).Go?
    ensures if LiteralSplit(json, more, p) then PrimitiveStep(json + more, mode, p) == Stop(Inval, |json|, Accept(p))
            else PrimitiveStep(json + more, mode, p) == PrimitiveStep(json, mode, p)
  {
    hide ScanPrimitive, Accept;
    ScanPrimitiveStable(json, more, p.pos);
  }

  predicate PrimitiveByte(b: byte) {
    !IsSpace(b) && b != LBRACE && b != LBRACKET && b != RBRACE && b != RBRACKET && b != COLON && b != COMMA && b != QUOTE
  }

  lemma StepStable(json: bytes, more: bytes, mode: Mode, p: PState)
    requires p.pos < |json| && StepAt(json, mode, p).Go?
    ensures if PrimitiveByte(json[p.pos]) && LiteralSplit(json, more, p)
            then StepAt(json + more, mode, p) == Stop(Inval, |json|, Accept(p))
            else StepAt(json + more, mode, p) == StepAt(json, mode, p)
  {
    hide StringStep, PrimitiveStep, StartContainer, EndContainer, Colons, Commas, LiteralSplit, Accept, ExpectsValue;
    if PrimitiveByte(json[p.pos]) {
      assert PrimitiveStep(json, mode, p).Go?;
      PrimitiveStepStable(json, more, mode, p);
    } else if json[p.pos] == QUOTE {
      StringStepStable(json, more, mode, p);
    }
  }

  /** A step that runs out of input leaves the parser exactly where it was. */
  lemma PartRestores(json: bytes, mode: Mode, p: PState)
    requires p.pos < |json| && StepAt(json, mode, p).Stop? && StepAt(json, mode, p).rc == Part
    ensures StepAt(json, mode, p).p == p
  {
    hide ScanString, ScanPrimitive, Accept;
  }

  /** Behind a value inside a container nothing but a delimiter or white space is accepted. */
  lemma OnlyDelimiterFollows(json: bytes, mode: Mode, q: PState)
    requires q.pos < |json| && !IsDelim(json[q.pos]) && q.stack != []
    requires (Top(q).kind == Array && Top(q).st == ArrCommaOrEnd) || (Top(q).kind == Object && Top(q).st == ObjCommaOrEnd)
    ensures Parse(json, mode, q).rc == Inval
  {
    hide ScanString, ScanPrimitive, Accept;
  }

  lemma SplitIsRefused(json: bytes, more: bytes, mode: Mode, p: PState)
    requires p.pos < |json| && PrimitiveByte(json[p.pos]) && LiteralSplit(json, more, p)
    requires StepAt(json, mode, p).Go? && Parse(json, mode, p).rc == Part
    ensures var r := Parse(json, mode, p); Parse(json + more, mode, r.p).rc == Inval
  {
    hide ScanPrimitive;
    var q := StepAt(json, mode, p).p;
    assert q.pos == |json| && q.stack == Accept(p).stack;
    assert Parse(json, mode, p) == AtEnd(q);
    OnlyDelimiterFollows(json + more, mode, q);
  }

  /** A step over anything but a primitive leaves a byte behind that is none of a primitive. */
  lemma LastByte(json: bytes, mode: Mode, p: PState)
    requires p.pos < |json| && StepAt(json, mode, p).Go? && StepAt(json, mode, p).p.pos == |json|
    requires !PrimitiveByte(json[p.pos])
    ensures !PrimitiveByte(json[|json| - 1])
  {
    hide ScanString, Accept, ExpectsValue, ExpectsKey;
  }

  /** A literal ends in a letter. */
  lemma LastLetter(json: bytes, i: nat)
    requires i < |json| && ScanPrimitive(json, i) == Done(|json|)
    ensures PrimitiveByte(json[|json| - 1])
  {
    hide ScanNumber, Agreement;
    assert ScanNumber(json, i) != Done(|json|);
    var lit := if json[i] == TRUE[0] then TRUE else if json[i] == FALSE[0] then FALSE else NULL;
    assert json[i..|json|] == lit;
    assert json[|json| - 1] == json[i..|json|][|lit| - 1];
  }

  /**
   What the caller can see before the second call: the first one got to the end of its buffer, by way of a
   literal, and the new bytes do not delimit that literal.
   */
  predicate SplitsLiteral(json: bytes, more: bytes, start: nat, reached: nat) {
    start < |json| == reached && PrimitiveByte(json[|json| - 1]) && more != [] && !IsDelim(more[0])
  }

  /**
   Main result. After PART, parsing the longer buffer from the state left behind gives the return code of a
   fresh parse of that buffer; and it gives the same state, tokens and error position exactly unless the first
   buffer ended in a literal that the second one does not delimit. Then both calls return INVAL.
   */
  lemma {:induction false} ResumeEqualsRestart(json: bytes, more: bytes, mode: Mode, p: PState)
    requires Parse(json, mode, p).rc == Part
    ensures var r := Parse(json, mode, p);
      var resumed, anew := Parse(json + more, mode, r.p), Parse(json + more, mode, p);
      && resumed.rc == anew.rc
      && (resumed == anew <==> !SplitsLiteral(json, more, p.pos, r.p.pos))
      && (SplitsLiteral(json, more, p.pos, r.p.pos) ==> anew.rc == Inval)
    decreases |json| - p.pos
  {
    hide StepAt, PrimitiveByte, Accept, ScanPrimitive;
    if p.pos < |json| {
      var s := StepAt(json, mode, p);
      if s.Stop? {
        PartRestores(json, mode, p);
      } else {
        StepStable(json, more, mode, p);
        if PrimitiveByte(json[p.pos]) && LiteralSplit(json, more, p) {
          SplitIsRefused(json, more, mode, p);
          SplitReaches(json, more, mode, p);
          LastLetter(json, p.pos);
        } else {
          ResumeEqualsRestart(json, more, mode, s.p);
          NoSplitHere(json, more, mode, p);
        }
      }
    }
  }

  /** Behind the split literal the first call is at the end, while a fresh parse stops in front of the literal. */
  lemma SplitReaches(json: bytes, more: bytes, mode: Mode, p: PState)
    requires p.pos < |json| && PrimitiveByte(json[p.pos]) && LiteralSplit(json, more, p)
    requires StepAt(json, mode, p).Go? && Parse(json, mode, p).rc == Part
    ensures Parse(json, mode, p).p.pos == |json|
    ensures var anew := Parse(json + more, mode, p); anew.rc == Inval && anew.p.pos < |json|
    ensures Parse(json + more, mode, Parse(json, mode, p).p).p.pos >= |json|
  {
    hide ScanPrimitive;
    var q := StepAt(json, mode, p).p;
    assert q.pos == |json| && Parse(json, mode, p) == AtEnd(q);
    StepStable(json, more, mode, p);
    ParseForward(json + more, mode, q);
  }

  /** The position never goes back. */
  lemma {:induction false} ParseForward(json: bytes, mode: Mode, p: PState)
    ensures Parse(json, mode, p).p.pos >= p.pos
    decreases |json| - p.pos
  {
    hide StepAt;
    if p.pos < |json| {
      StepForward(json, mode, p);
      var s := StepAt(json, mode, p);
      if s.Go? {
        ParseForward(json, mode, s.p);
      }
    }
  }

  lemma StepForward(json: bytes, mode: Mode, p: PState)
    requires p.pos < |json|
    ensures StepAt(json, mode, p).p.pos >= p.pos
  {
    hide ScanString, ScanPrimitive;
  }

  /** A step that does not split a literal leaves the question to the rest of the buffer. */
  lemma NoSplitHere(json: bytes, more: bytes, mode: Mode, p: PState)
    requires p.pos < |json| && StepAt(json, mode, p).Go? && Parse(json, mode, p).rc == Part
    requires !(PrimitiveByte(json[p.pos]) && LiteralSplit(json, more, p))
    ensures var reached := Parse(json, mode, p).p.pos;
      SplitsLiteral(json, more, p.pos, reached) == SplitsLiteral(json, more, StepAt(json, mode, p).p.pos, reached)
  {
    hide ScanPrimitive, PrimitiveByte;
    var q := StepAt(json, mode, p).p;
    if q.pos == |json| {
      if PrimitiveByte(json[p.pos]) {
        PrimitiveReaches(json, mode, p);
      } else {
        LastByte(json, mode, p);
      }
    } else {
      StepInside(json, mode, p);
    }
  }

  lemma PrimitiveReaches(json: bytes, mode: Mode, p: PState)
    requires p.pos < |json| && PrimitiveByte(json[p.pos]) && StepAt(json, mode, p).Go?
    ensures ScanPrimitive(json, p.pos) == Done(StepAt(json, mode, p).p.pos)
  {
    hide ScanPrimitive, Accept;
  }

  lemma StepInside(json: bytes, mode: Mode, p: PState)
    requires p.pos < |json| && StepAt(json, mode, p).Go?
    ensures StepAt(json, mode, p).p.pos <= |json|
  {
    hide ScanString, ScanPrimitive, Accept;
  }

  const OPEN_TRUE: bytes := [LBRACKET] + TRUE // [true
  const LETTER_X: bytes := [120]              // x

  const IN_ARRAY := PState(1, 1, [], [Frame(Array, ValueOrEnd, -1)], true)
  const BEHIND_TRUE := PState(5, 2, [], [Frame(Array, ArrCommaOrEnd, -1)], true)

  lemma OpenStep()
    ensures StepAt(OPEN_TRUE, Mode.Count, START) == Go(IN_ARRAY)
  {
    hide ScanString, ScanPrimitive;
    assert [] + [Frame(Array, ValueOrEnd, -1)] == [Frame(Array, ValueOrEnd, -1)];
  }

  lemma TrueStep()
    ensures StepAt(OPEN_TRUE, Mode.Count, IN_ARRAY) == Go(BEHIND_TRUE)
  {
    hide ScanString, ScanPrimitive;
    TrueScans();
    assert IN_ARRAY.stack[0 := Frame(Array, ArrCommaOrEnd, -1)] == BEHIND_TRUE.stack;
  }

  /** Such an input: `[true`, then `x`. */
  lemma LiteralIsSplit()
    ensures Parse(OPEN_TRUE, Mode.Count, START).rc == Part
    ensures var r := Parse(OPEN_TRUE, Mode.Count, START);
      var resumed, anew := Parse(OPEN_TRUE + LETTER_X, Mode.Count, r.p), Parse(OPEN_TRUE + LETTER_X, Mode.Count, START);
      resumed.rc == anew.rc == Inval && resumed != anew
  {
    hide StepAt;
    OpenStep();
    TrueStep();
    assert Parse(OPEN_TRUE, Mode.Count, IN_ARRAY) == Parse(OPEN_TRUE, Mode.Count, BEHIND_TRUE) == AtEnd(BEHIND_TRUE);
    ResumeEqualsRestart(OPEN_TRUE, LETTER_X, Mode.Count, START);
  }

  lemma TrueScans()
    ensures ScanPrimitive(OPEN_TRUE, 1) == Done(5)
  {
    hide Agreement;
    var k := Agreement(OPEN_TRUE, 1, TRUE);
    assert k == 4;
  }

  /** Call again with each further piece as long as the answer is PART; also the buffer of the last call. */
  function Retry(json: bytes, mode: Mode, p: PState, pieces: seq<bytes>): (Outcome, bytes)
    decreases |pieces|
  {
    var r := Parse(json, mode, p);
    if r.rc != Part || pieces == [] then (r, json) else Retry(json + pieces[0], mode, r.p, pieces[1..])
  }

  /** Any number of resumptions amounts to one fresh parse of the last buffer. */
  lemma {:induction false} RetryEqualsRestart(json: bytes, mode: Mode, p: PState, start: PState, pieces: seq<bytes>)
    requires var r, s := Parse(json, mode, p), Parse(json, mode, start); r.rc == s.rc && (s.rc != Inval ==> r == s)
    ensures var (last, buffer) := Retry(json, mode, p, pieces);
      var anew := Parse(buffer, mode, start);
      last.rc == anew.rc && (anew.rc != Inval ==> last == anew)
    decreases |pieces|
  {
    hide Parse;
    var r := Parse(json, mode, p);
    if r.rc == Part && pieces != [] {
      ResumeEqualsRestart(json, pieces[0], mode, start);
      RetryEqualsRestart(json + pieces[0], mode, r.p, start, pieces[1..]);
    }
  }
}
