/**
 What the return code of a count pass says about the bytes so far: a success that they are a text of documents, PART
 that they are none but can still become one, and an error that they cannot. So errors are reported as early as
 possible.
 */
module JstokPart {
  import opened Bytes
  import opened JsonLexer
  import opened Jstok
  import opened JsonTree
  import opened JstokComplete
  import opened JstokSound
  import opened JstokCount
  import opened JstokResume

  /** The text of documents nested at most 64 deep. */
  ghost predicate IsText(json: bytes) {
    exists doc :: WfDocument(doc) && Depth(doc) <= MAX_DEPTH && Print(doc) == json
  }

  /** The count pass accepts exactly these texts. */
  lemma CountAcceptsExactly(json: bytes)
    ensures Parse(json, Mode.Count, START).rc.Tokens? <==> IsText(json)
  {
    hide Parse, WfDocument, Depth, Print, Size, Flatten;
    var r := Parse(json, Mode.Count, START);
    if r.rc.Tokens? {
      SecondPassSucceeds(json, r.rc.n);
      var doc := ParseIsFlattening(json, r.rc.n);
    }
    if IsText(json) {
      var doc :| WfDocument(doc) && Depth(doc) <= MAX_DEPTH && Print(doc) == json;
      ParseInvertsPrint(doc, Size(doc));
      assert Counted(START) == START;
      CountAgreesWithFill(json, Size(doc), START);
    }
  }

  // --- errors are final -----------------------------------------------------------------------------------

  predicate IsError(rc: Rc) {
    !rc.Tokens? && rc != Part
  }

  /** A step that fails does so whatever follows. */
  lemma FailedStep(json: bytes, more: bytes, p: PState)
    requires p.pos < |json| && StepAt(json, Mode.Count, p).Stop? && IsError(StepAt(json, Mode.Count, p).rc)
    ensures var s, q := StepAt(json + more, Mode.Count, p), StepAt(json, Mode.Count, p);
      s.Stop? && s.rc == q.rc && s.at == q.at
  {
    hide ScanString, ScanPrimitive, Accept, ExpectsValue, ExpectsKey, StartContainer, EndContainer, Colons, Commas;
    if json[p.pos] == QUOTE {
      if ExpectsValue(p) { AcceptSame(p); }
      if !ScanString(json, p.pos + 1).Partial? { ScanStringStable(json, more, p.pos + 1); }
    } else if PrimitiveByte(json[p.pos]) {
      if !ScanPrimitive(json, p.pos).Partial? { ScanPrimitiveStable(json, more, p.pos); }
    }
  }

  /** A literal at the end of the buffer is no error yet. */
  lemma SplitIsNoError(json: bytes, more: bytes, p: PState)
    requires p.pos < |json| && StepAt(json, Mode.Count, p).Go? && PrimitiveByte(json[p.pos]) && LiteralSplit(json, more, p)
    ensures !IsError(Parse(json, Mode.Count, p).rc)
  {
    hide ScanPrimitive, Accept;
    var q := StepAt(json, Mode.Count, p).p;
    assert q.pos == |json| && Parse(json, Mode.Count, q) == AtEnd(q);
  }

  lemma {:induction false} ErrorStays(json: bytes, more: bytes, p: PState)
    requires IsError(Parse(json, Mode.Count, p).rc)
    ensures var r, q := Parse(json + more, Mode.Count, p), Parse(json, Mode.Count, p); r.rc == q.rc && r.at == q.at
    decreases |json| - p.pos
  {
    hide StepAt, LiteralSplit, PrimitiveByte;
    if p.pos < |json| {
      var s := StepAt(json, Mode.Count, p);
      if s.Stop? {
        FailedStep(json, more, p);
      } else {
        StepStable(json, more, Mode.Count, p);
        if PrimitiveByte(json[p.pos]) && LiteralSplit(json, more, p) {
          SplitIsNoError(json, more, p);
        } else {
          ErrorStays(json, more, s.p);
        }
      }
    }
  }

  // --- finishing a token ----------------------------------------------------------------------------------

  const BLANK: byte := 32

  function Zeros(n: nat): (s: bytes)
    ensures |s| == n && forall i :: 0 <= i < n ==> s[i] == ZERO
  {
    if n == 0 then [] else [ZERO] + Zeros(n - 1)
  }

  /** What an unfinished string lacks, up to its closing quote. */
  function StringRest(json: bytes, i: nat): (x: bytes)
    requires i <= |json| && ScanString(json, i).Partial?
    ensures x != []
    decreases |json| - i
  {
    if i == |json| then [QUOTE]
    else if json[i] != BACKSLASH then StringRest(json, i + 1)
    else if i + 1 == |json| then [110, QUOTE]
    else if IsShortEscape(json[i + 1]) then StringRest(json, i + 2)
    else
      var h := HexRun(json, i + 2, 4);
      if h == 4 then StringRest(json, i + 6) else Zeros(4 - h) + [QUOTE]
  }

  lemma {:induction false} HexRunIs(json: bytes, i: nat, n: nat)
    requires i + n <= |json| && forall k :: i <= k < i + n ==> IsHex(json[k])
    ensures HexRun(json, i, n) == n
    decreases n
  {
    if n > 0 {
      HexRunIs(json, i + 1, n - 1);
    }
  }

  lemma {:induction false} StringFinishes(json: bytes, i: nat, more: bytes)
    requires i <= |json| && ScanString(json, i).Partial?
    ensures var x := StringRest(json, i);
      ScanString(json + (x + more), i) == Done(|json| + |x| - 1)
    decreases |json| - i
  {
    hide HexRun;
    var x := StringRest(json, i);
    var B := json + (x + more);
    if i < |json| {
      assert B[i] == json[i];
      if json[i] != BACKSLASH {
        StringFinishes(json, i + 1, more);
      } else if i + 1 == |json| {
        assert B[i + 1] == 110 && B[i + 2] == QUOTE;
      } else {
        assert B[i + 1] == json[i + 1];
        if IsShortEscape(json[i + 1]) {
          StringFinishes(json, i + 2, more);
        } else {
          var h := HexRun(json, i + 2, 4);
          HexFinishes(json, i + 2, x + more);
          if h == 4 {
            StringFinishes(json, i + 6, more);
          } else {
            assert B[i + 6] == QUOTE;
          }
        }
      }
    }
  }

  /** Zeros complete a run of hex digits that reaches the end of the buffer. */
  lemma HexFinishes(json: bytes, i: nat, rest: bytes)
    requires i <= |json|
    requires var h := HexRun(json, i, 4); h < 4 ==> i + h == |json| && |rest| >= 4 - h && rest[..4 - h] == Zeros(4 - h)
    ensures HexRun(json + rest, i, 4) == 4
  {
    var h := HexRun(json, i, 4);
    var B := json + rest;
    forall k | i <= k < i + 4
      ensures k < |B| && IsHex(B[k])
    {
      if k < i + h {
        assert B[k] == json[k];
      } else {
        assert B[k] == rest[..4 - h][k - |json|];
      }
    }
    HexRunIs(B, i, 4);
  }

  /** What an unfinished number lacks in front of a delimiter. */
  function NumberRest(json: bytes): bytes
    requires json != []
  {
    if IsDigit(json[|json| - 1]) then [] else [ZERO]
  }

  /** The buffer with the number finished. */
  function WithNumber(json: bytes, more: bytes): bytes
    requires json != []
  {
    json + (NumberRest(json) + ([BLANK] + more))
  }

  lemma WithNumberIs(json: bytes, more: bytes)
    requires json != []
    ensures var B, e := WithNumber(json, more), |json| + |NumberRest(json)|;
      && e < |B| && B[e] == BLANK && (e > |json| ==> B[|json|] == ZERO)
      && forall k :: 0 <= k < |json| ==> B[k] == json[k]
  {
  }

  lemma DigitsFinish(json: bytes, i: nat, more: bytes)
    requires json != [] && i <= |json|
    requires ScanDigits(json, i) == Done(|json|) || (i == |json| && !IsDigit(json[i - 1]))
    ensures ScanDigits(WithNumber(json, more), i) == Done(|json| + |NumberRest(json)|)
  {
    hide WithNumber;
    WithNumberIs(json, more);
    DigitsEndIs(WithNumber(json, more), i, |json| + |NumberRest(json)|);
  }

  /** Behind the integer part the rest of the number is finished. */
  lemma FractionFinishes(json: bytes, i: nat, more: bytes)
    requires json != [] && i < |json|
    requires var r := ScanFraction(json, i); r.Partial? || r == Done(|json|)
    ensures ScanFraction(WithNumber(json, more), i) == Done(|json| + |NumberRest(json)|)
  {
    hide WithNumber;
    WithNumberIs(json, more);
    DigitsFinish(json, i + 1, more);
  }

  lemma ExponentFinishes(json: bytes, i: nat, more: bytes)
    requires json != [] && i < |json|
    requires var r := ScanExponent(json, i); r.Partial? || r == Done(|json|)
    ensures ScanExponent(WithNumber(json, more), i) == Done(|json| + |NumberRest(json)|)
  {
    hide WithNumber;
    WithNumberIs(json, more);
    if i + 1 == |json| || !IsSign(json[i + 1]) {
      DigitsFinish(json, i + 1, more);
    } else {
      DigitsFinish(json, i + 2, more);
    }
  }

  lemma IntFinishes(json: bytes, i: nat, more: bytes)
    requires json != [] && i < |json|
    requires var r := ScanInt(json, i); r.Partial? || r == Done(|json|)
    ensures ScanInt(WithNumber(json, more), i) == Done(|json| + |NumberRest(json)|)
  {
    hide WithNumber;
    WithNumberIs(json, more);
    var j := if json[i] == MINUS then i + 1 else i;
    if j < |json| && json[j] != ZERO {
      DigitsEndIs(WithNumber(json, more), j, |json|);
    }
  }

  /** Nothing of a number follows in front of a blank. */
  lemma NumberStops(json: bytes, e: nat)
    requires e < |json| && json[e] == BLANK
    ensures ScanFraction(json, e) == Done(e) && ScanExponent(json, e) == Done(e)
  {
  }

  lemma NumberFinishes(json: bytes, i: nat, more: bytes)
    requires i < |json| && ScanNumber(json, i).Partial?
    ensures ScanNumber(WithNumber(json, more), i) == Done(|json| + |NumberRest(json)|)
  {
    hide ScanInt, ScanFraction, ScanExponent, WithNumber;
    var B, e := WithNumber(json, more), |json| + |NumberRest(json)|;
    WithNumberIs(json, more);
    NumberStops(B, e);
    Grows(json, more, i);
    var a := ScanInt(json, i);
    if a.Partial? || a.end == |json| {
      if a.Done? { EndScans(json); }
      IntFinishes(json, i, more);
    } else {
      Grows(json, more, a.end);
      var b := ScanFraction(json, a.end);
      if b.Partial? || b.end == |json| {
        FractionFinishes(json, a.end, more);
      } else {
        Grows(json, more, b.end);
        ExponentFinishes(json, b.end, more);
      }
    }
  }

  /** Parts of a number that end inside the buffer stay as they are. */
  lemma Grows(json: bytes, more: bytes, i: nat)
    requires json != [] && i <= |json|
    ensures var B := WithNumber(json, more);
      && (ScanInt(json, i).Done? && ScanInt(json, i).end < |json| ==> ScanInt(B, i) == ScanInt(json, i))
      && (ScanFraction(json, i).Done? && ScanFraction(json, i).end < |json| ==> ScanFraction(B, i) == ScanFraction(json, i))
  {
    hide ScanInt, ScanFraction, ScanExponent;
    ScanPartsStable(json, NumberRest(json) + ([BLANK] + more), i);
  }

  lemma EndScans(json: bytes)
    ensures ScanFraction(json, |json|) == Done(|json|) && ScanExponent(json, |json|) == Done(|json|)
  {
  }

  /** What an unfinished literal or number lacks. */
  function PrimitiveRest(json: bytes, i: nat): bytes
    requires i < |json| && ScanPrimitive(json, i).Partial?
  {
    var lit := if json[i] == TRUE[0] then TRUE else if json[i] == FALSE[0] then FALSE else NULL;
    if json[i] == lit[0] then lit[|json| - i..] else NumberRest(json)
  }

  lemma PrimitiveFinishes(json: bytes, i: nat, more: bytes)
    requires i < |json| && ScanPrimitive(json, i).Partial?
    ensures var x := PrimitiveRest(json, i);
      ScanPrimitive(json + (x + ([BLANK] + more)), i) == Done(|json| + |x|)
  {
    hide ScanNumber, Agreement;
    var x := PrimitiveRest(json, i);
    var B := json + (x + ([BLANK] + more));
    assert B[i] == json[i];
    if json[i] == TRUE[0] {
      LiteralFinishes(json, i, TRUE, more);
    } else if json[i] == FALSE[0] {
      LiteralFinishes(json, i, FALSE, more);
    } else if json[i] == NULL[0] {
      LiteralFinishes(json, i, NULL, more);
    } else {
      NumberFinishes(json, i, more);
    }
  }

  lemma LiteralFinishes(json: bytes, i: nat, lit: bytes, more: bytes)
    requires i < |json| && ScanLiteral(json, i, lit).Partial?
    ensures |json| - i <= |lit|
    ensures var x := lit[|json| - i..]; ScanLiteral(json + (x + ([BLANK] + more)), i, lit) == Done(|json| + |x|)
  {
    hide Agreement;
    var k := Agreement(json, i, lit);
    var x := lit[k..];
    var B := json + (x + ([BLANK] + more));
    assert json[i..] == lit[..k];
    assert B[i..i + |lit|] == lit;
    AgreementFull(B, i, lit);
    assert B[i + |lit|] == BLANK;
  }

  // --- closing what is open -------------------------------------------------------------------------------

  const EMPTY_STRING: bytes := [QUOTE, QUOTE]

  /** What an open container lacks. */
  function FrameRest(f: Frame): bytes {
    match f.st
    case KeyOrEnd => [RBRACE]
    case ObjCommaOrEnd => [RBRACE]
    case KeyOnly => EMPTY_STRING + ([COLON] + (EMPTY_STRING + [RBRACE]))
    case Colon => [COLON] + (EMPTY_STRING + [RBRACE])
    case ObjValue => EMPTY_STRING + [RBRACE]
    case ArrValue => EMPTY_STRING + [RBRACKET]
    case _ => [RBRACKET]
  }

  function StackRest(stack: seq<Frame>): bytes {
    if stack == [] then [] else FrameRest(stack[|stack| - 1]) + StackRest(stack[..|stack| - 1])
  }

  /** Every container around the innermost one waits for a comma or its end. */
  predicate Waiting(stack: seq<Frame>) {
    forall i :: 0 <= i < |stack| - 1 ==> stack[i].st == ObjCommaOrEnd || stack[i].st == ArrCommaOrEnd
  }

  lemma AcceptWaits(p: PState)
    requires ExpectsValue(p) && Waiting(p.stack)
    ensures forall i :: 0 <= i < |Accept(p).stack| ==>
      Accept(p).stack[i].st == ObjCommaOrEnd || Accept(p).stack[i].st == ArrCommaOrEnd
  {
  }

  lemma StepWaits(json: bytes, p: PState)
    requires p.pos < |json| && WellFormed(Mode.Count, p) && Waiting(p.stack)
    ensures Waiting(StepAt(json, Mode.Count, p).p.stack)
  {
    hide ScanString, ScanPrimitive, WellFormed, Accept;
    if ExpectsValue(p) { AcceptWaits(p); }
  }

  lemma {:induction false} ParseWaits(json: bytes, p: PState)
    requires WellFormed(Mode.Count, p) && Waiting(p.stack)
    ensures Waiting(Parse(json, Mode.Count, p).p.stack)
    decreases |json| - p.pos
  {
    hide StepAt, WellFormed, Waiting;
    if p.pos < |json| {
      StepWaits(json, p);
      StepKeeps(json, Mode.Count, p);
      var s := StepAt(json, Mode.Count, p);
      if s.Go? {
        ParseWaits(json, s.p);
      }
    }
  }

  lemma RestUnfolds(stack: seq<Frame>, f: Frame)
    ensures StackRest(stack + [f]) == FrameRest(f) + StackRest(stack)
  {
    assert (stack + [f])[..|stack|] == stack;
  }

  /** The remaining bytes are exactly what the open containers lack. */
  predicate Closing(json: bytes, p: PState) {
    p.pos <= |json| && WellFormed(Mode.Count, p) && Waiting(p.stack) && json[p.pos..] == StackRest(p.stack)
  }

  /** The state behind the empty string in front of which this frame stands. */
  function AfterString(f: Frame): Frame {
    f.(st := if f.st == KeyOnly then FrameState.Colon else if f.st == ObjValue then ObjCommaOrEnd else ArrCommaOrEnd)
  }

  lemma EndStep(json: bytes, p: PState)
    requires p.pos < |json| && p.stack != []
    requires var f := Top(p);
      if json[p.pos] == RBRACE then f.kind == Object && (f.st == KeyOrEnd || f.st == ObjCommaOrEnd)
      else json[p.pos] == RBRACKET && f.kind == Array && (f.st == ValueOrEnd || f.st == ArrCommaOrEnd)
    ensures var s := StepAt(json, Mode.Count, p);
      s.Go? && s.p.pos == p.pos + 1 && s.p.stack == p.stack[..|p.stack| - 1]
  {
  }

  lemma ColonStep(json: bytes, p: PState)
    requires p.pos < |json| && p.stack != [] && Top(p).kind == Object && Top(p).st == FrameState.Colon
    requires json[p.pos] == COLON
    ensures var s := StepAt(json, Mode.Count, p);
      s.Go? && s.p.pos == p.pos + 1 && s.p.stack == p.stack[..|p.stack| - 1] + [Top(p).(st := ObjValue)]
  {
  }

  lemma EmptyStringStep(json: bytes, p: PState)
    requires p.pos + 1 < |json| && json[p.pos] == json[p.pos + 1] == QUOTE && p.stack != []
    requires var f := Top(p);
      if f.kind == Object then f.st == KeyOnly || f.st == ObjValue else f.kind == Array && f.st == ArrValue
    ensures var s := StepAt(json, Mode.Count, p);
      s.Go? && s.p.pos == p.pos + 2 && s.p.stack == p.stack[..|p.stack| - 1] + [AfterString(Top(p))]
  {
    assert ScanString(json, p.pos + 1) == Done(p.pos + 1);
  }

  lemma Behind(a: bytes, b: bytes, c: bytes)
    ensures (a + b + c)[|a|..] == b + c
  {
  }

  /** The next token of what they lack leads to a state that lacks the rest. */
  lemma ClosingStep(json: bytes, p: PState)
    requires Closing(json, p) && p.stack != []
    ensures p.pos < |json|
    ensures var s := StepAt(json, Mode.Count, p); s.Go? && Closing(json, s.p)
  {
    hide WellFormed, StepAt, StackRest, Waiting;
    var n := |p.stack| - 1;
    var f, low := p.stack[n], p.stack[..n];
    assert p.stack == low + [f];
    RestUnfolds(low, f);
    FrameStates(p);
    var rest := json[p.pos..];
    assert json[p.pos] == rest[0];
    StepKeeps(json, Mode.Count, p);
    StepWaits(json, p);
    if f.st == KeyOrEnd || f.st == ObjCommaOrEnd || f.st == ValueOrEnd || f.st == ArrCommaOrEnd {
      EndStep(json, p);
      assert json[p.pos + 1..] == rest[1..];
    } else if f.st == FrameState.Colon {
      ColonStep(json, p);
      RestUnfolds(low, f.(st := ObjValue));
      assert json[p.pos + 1..] == rest[1..];
    } else {
      assert json[p.pos + 1] == rest[1];
      EmptyStringStep(json, p);
      RestUnfolds(low, AfterString(f));
      assert FrameRest(f) == EMPTY_STRING + FrameRest(AfterString(f));
      Behind(EMPTY_STRING, FrameRest(AfterString(f)), StackRest(low));
      assert json[p.pos + 2..] == rest[2..];
    }
  }

  /** Kind and state of the innermost container fit. */
  lemma FrameStates(p: PState)
    requires WellFormed(Mode.Count, p) && p.stack != []
    ensures var f := Top(p);
      if f.kind == Object then
        f.st == KeyOrEnd || f.st == KeyOnly || f.st == Colon || f.st == ObjValue || f.st == ObjCommaOrEnd
      else f.kind == Array && (f.st == ValueOrEnd || f.st == ArrValue || f.st == ArrCommaOrEnd)
    ensures Top(p).tok == -1
  {
    assert FrameOk(Mode.Count, p, p.stack[|p.stack| - 1]);
  }

  lemma {:induction false} Closes(json: bytes, p: PState)
    requires Closing(json, p)
    ensures Parse(json, Mode.Count, p).rc.Tokens?
    decreases |json| - p.pos
  {
    hide StepAt, WellFormed, Waiting;
    if p.stack != [] {
      ClosingStep(json, p);
      Closes(json, StepAt(json, Mode.Count, p).p);
    }
  }

  // --- PART means that something is missing ---------------------------------------------------------------

  /** PART leaves the parser at the end of the buffer with something open, or in front of an unfinished token. */
  lemma {:induction false} PartShape(json: bytes, p: PState)
    requires p.pos <= |json| && Parse(json, Mode.Count, p).rc == Part
    ensures var q := Parse(json, Mode.Count, p).p;
      && q.pos <= |json|
      && (q.pos < |json| ==> StepAt(json, Mode.Count, q).Stop? && StepAt(json, Mode.Count, q).rc == Part)
    decreases |json| - p.pos
  {
    hide StepAt;
    if p.pos < |json| {
      var s := StepAt(json, Mode.Count, p);
      if s.Go? {
        PartShape(json, s.p);
      } else {
        PartRestores(json, Mode.Count, p);
      }
    }
  }

  /** The stack behind the string in front of which the parser stands. */
  function StackBehind(p: PState): seq<Frame>
    requires ExpectsKey(p) || ExpectsValue(p)
  {
    if ExpectsKey(p) then WithTop(p, FrameState.Colon).stack else Accept(p).stack
  }

  lemma StringStepIs(json: bytes, p: PState, e: nat)
    requires p.pos < |json| && json[p.pos] == QUOTE && (ExpectsKey(p) || ExpectsValue(p))
    requires ScanString(json, p.pos + 1) == Done(e)
    ensures var s := StepAt(json, Mode.Count, p); s.Go? && s.p.pos == e + 1 && s.p.stack == StackBehind(p)
  {
    hide ScanString, Accept, ExpectsValue, ExpectsKey, PrimitiveStep, StartContainer, EndContainer, Colons, Commas,
      WithTop;
    if ExpectsValue(p) { AcceptSame(p); }
    if ExpectsKey(p) { KeyStands(p, e); }
  }

  lemma KeyStands(p: PState, e: nat)
    requires ExpectsKey(p)
    ensures p.stack != []
    ensures var q := NewToken(Mode.Count, p, Tok(String, p.pos + 1, e, 0)).(pos := e + 1);
      && q.stack == p.stack && WithTop(q, FrameState.Colon).pos == e + 1
      && WithTop(q, FrameState.Colon).stack == WithTop(p, FrameState.Colon).stack
  {
  }

  lemma PrimitiveStepIs(json: bytes, p: PState, e: nat)
    requires p.pos < |json| && PrimitiveByte(json[p.pos]) && ExpectsValue(p)
    requires ScanPrimitive(json, p.pos) == Done(e) && e < |json| && json[e] == BLANK
    ensures var s := StepAt(json, Mode.Count, p);
      && s.Go? && s.p.pos == e && s.p.stack == Accept(p).stack
      && StepAt(json, Mode.Count, s.p) == Go(s.p.(pos := e + 1))
  {
    hide ScanPrimitive, Accept;
  }

  /** Where the token is unfinished. */
  lemma PartToken(json: bytes, p: PState)
    requires p.pos < |json| && StepAt(json, Mode.Count, p).Stop? && StepAt(json, Mode.Count, p).rc == Part
    ensures if json[p.pos] == QUOTE then (ExpectsKey(p) || ExpectsValue(p)) && ScanString(json, p.pos + 1).Partial?
            else PrimitiveByte(json[p.pos]) && ExpectsValue(p) && ScanPrimitive(json, p.pos).Partial?
  {
    hide StringStep, PrimitiveStep, ExpectsKey, ExpectsValue, ScanString, ScanPrimitive, Accept;
    PartString(json, p);
    PartPrimitive(json, p);
  }

  lemma PartString(json: bytes, p: PState)
    requires p.pos < |json|
    ensures var s := StringStep(json, Mode.Count, p);
      s.Stop? && s.rc == Part ==> (ExpectsKey(p) || ExpectsValue(p)) && ScanString(json, p.pos + 1).Partial?
  {
    hide ScanString, Accept;
    if ExpectsValue(p) { AcceptSame(p); }
  }

  lemma PartPrimitive(json: bytes, p: PState)
    requires p.pos < |json|
    ensures var s := PrimitiveStep(json, Mode.Count, p);
      s.Stop? && s.rc == Part ==> ExpectsValue(p) && ScanPrimitive(json, p.pos).Partial?
  {
    hide ScanPrimitive, Accept, ExpectsValue;
  }

  lemma StringGoesOn(json: bytes, p: PState) returns (more: bytes)
    requires WellFormed(Mode.Count, p) && Waiting(p.stack)
    requires p.pos < |json| && json[p.pos] == QUOTE && (ExpectsKey(p) || ExpectsValue(p))
    requires ScanString(json, p.pos + 1).Partial?
    ensures Parse(json + more, Mode.Count, p).rc.Tokens?
  {
    hide StepAt, WellFormed, Waiting, ScanString, StackBehind, ExpectsKey, ExpectsValue;
    var x, rest := StringRest(json, p.pos + 1), StackRest(StackBehind(p));
    more := x + rest;
    var B, e := json + more, |json| + |x|;
    StringFinishes(json, p.pos + 1, rest);
    assert B[p.pos] == json[p.pos];
    StringStepIs(B, p, e - 1);
    var q := StepAt(B, Mode.Count, p).p;
    StepKeeps(B, Mode.Count, p);
    StepWaits(B, p);
    assert B[e..] == rest;
    Closes(B, q);
  }

  lemma PrimitiveGoesOn(json: bytes, p: PState) returns (more: bytes)
    requires WellFormed(Mode.Count, p) && Waiting(p.stack)
    requires p.pos < |json| && PrimitiveByte(json[p.pos]) && ExpectsValue(p) && ScanPrimitive(json, p.pos).Partial?
    ensures Parse(json + more, Mode.Count, p).rc.Tokens?
  {
    hide StepAt, WellFormed, Waiting, ScanPrimitive, Accept, ExpectsValue, PrimitiveByte, PrimitiveRest;
    var x, rest := PrimitiveRest(json, p.pos), StackRest(Accept(p).stack);
    more := x + ([BLANK] + rest);
    var B, e := json + more, |json| + |x|;
    PrimitiveFinishes(json, p.pos, rest);
    assert B[p.pos] == json[p.pos] && B[e] == BLANK;
    PrimitiveStepIs(B, p, e);
    var q := StepAt(B, Mode.Count, p).p;
    StepKeeps(B, Mode.Count, p);
    StepWaits(B, p);
    StepKeeps(B, Mode.Count, q);
    assert B[e + 1..] == rest;
    Closes(B, q.(pos := e + 1));
  }

  /** After PART some continuation is accepted. */
  lemma PartGoesOn(json: bytes) returns (more: bytes)
    requires Parse(json, Mode.Count, START).rc == Part
    ensures Parse(json + more, Mode.Count, START).rc.Tokens?
  {
    hide StepAt, WellFormed, Waiting, ScanString, ScanPrimitive, ExpectsKey, ExpectsValue, PrimitiveByte, Parse;
    PartShape(json, START);
    StartIsFine();
    ParseKeeps(json, Mode.Count, START);
    ParseWaits(json, START);
    var q := Parse(json, Mode.Count, START).p;
    if q.pos == |json| {
      more := StackRest(q.stack);
      assert (json + more)[|json|..] == more;
      Closes(json + more, q);
    } else {
      PartToken(json, q);
      if json[q.pos] == QUOTE {
        more := StringGoesOn(json, q);
      } else {
        more := PrimitiveGoesOn(json, q);
      }
    }
    ResumeEqualsRestart(json, more, Mode.Count, START);
  }

  lemma StartIsFine()
    ensures WellFormed(Mode.Count, START) && Waiting(START.stack)
  {
  }

  /**
   Main result. On any bytes a count pass succeeds exactly if they are the text of documents, says PART exactly if
   they are not but some continuation of them is, and reports an error exactly if none is.
   */
  lemma CodeSaysWhatCanFollow(json: bytes)
    ensures var rc := Parse(json, Mode.Count, START).rc;
      && (rc.Tokens? <==> IsText(json))
      && (rc == Part <==> !IsText(json) && exists more :: IsText(json + more))
      && (IsError(rc) <==> !exists more :: IsText(json + more))
  {
    hide Parse, IsText;
    var rc := Parse(json, Mode.Count, START).rc;
    CountAcceptsExactly(json);
    assert json + [] == json;
    if rc == Part {
      var more := PartGoesOn(json);
      CountAcceptsExactly(json + more);
    } else if IsError(rc) {
      forall more
        ensures !IsText(json + more)
      {
        ErrorStays(json, more, START);
        CountAcceptsExactly(json + more);
      }
    }
  }
}
