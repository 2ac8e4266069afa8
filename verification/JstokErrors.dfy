/**
 Where the tokenizer reports an error: at the first byte that no document can have there, not earlier and not later; and
 when the error is the depth limit.
 */
module JstokErrors {
  import opened Bytes
  import opened JsonLexer
  import opened Jstok
  import opened JstokComplete
  import opened JstokResume
  import opened JstokPart

  // --- positions ------------------------------------------------------------------------------------------

  lemma StepPositions(json: bytes, p: PState)
    requires p.pos < |json|
    ensures var s := StepAt(json, Mode.Count, p);
      s.Stop? ==> if s.rc == Part then s.at == |json| else IsError(s.rc) && p.pos <= s.at < |json|
  {
    hide ScanString, ScanPrimitive, Accept, ExpectsValue, ExpectsKey, MayEnd, WithTop;
    if ExpectsValue(p) { AcceptSame(p); }
  }

  /** Success has no error position; running out of input has the end. */
  lemma {:induction false} ParsePositions(json: bytes, p: PState)
    requires p.pos <= |json|
    ensures var r := Parse(json, Mode.Count, p);
      && (r.rc.Tokens? ==> r.at == -1) && (r.rc == Part ==> r.at == |json|)
      && (IsError(r.rc) ==> p.pos <= r.at < |json|)
    decreases |json| - p.pos
  {
    hide StepAt;
    if p.pos < |json| {
      StepPositions(json, p);
      var s := StepAt(json, Mode.Count, p);
      if s.Go? { ParsePositions(json, s.p); }
    }
  }

  // --- what is still open at the end of the buffer --------------------------------------------------------

  /** The verdict is reached at `n` or later. */
  predicate Beyond(n: nat, r: Scan) {
    match r case Done(e) => e >= n case Bad(at) => at >= n case Partial(_) => true
  }

  lemma {:induction false} HexBeyond(json: bytes, more: bytes, i: nat, n: nat)
    requires i <= |json| && HexRun(json, i, n) < n && i + HexRun(json, i, n) == |json|
    ensures i + HexRun(json + more, i, n) >= |json|
    decreases n
  {
    if i < |json| {
      HexBeyond(json, more, i + 1, n - 1);
    }
  }

  lemma {:induction false} StringBeyond(json: bytes, more: bytes, i: nat)
    requires i <= |json| && ScanString(json, i).Partial?
    ensures Beyond(|json|, ScanString(json + more, i))
    decreases |json| - i
  {
    var t := json + more;
    if i < |json| {
      if json[i] != BACKSLASH {
        StringBeyond(json, more, i + 1);
      } else if i + 1 < |json| {
        if IsShortEscape(json[i + 1]) {
          StringBeyond(json, more, i + 2);
        } else {
          var h := HexRun(json, i + 2, 4);
          if h == 4 {
            HexRunStable(json, more, i + 2, 4);
            StringBeyond(json, more, i + 6);
          } else {
            HexBeyond(json, more, i + 2, 4);
          }
        }
      }
    }
  }

  predicate Open(json: bytes, r: Scan) {
    r.Partial? || r == Done(|json|)
  }

  lemma {:induction false} DigitsBeyond(json: bytes, more: bytes, i: nat)
    requires i <= |json| && DigitsEnd(json, i) == |json|
    ensures DigitsEnd(json + more, i) >= |json|
    decreases |json| - i
  {
    if i < |json| { DigitsBeyond(json, more, i + 1); }
  }

  lemma PartsBeyond(json: bytes, more: bytes, i: nat)
    requires i <= |json|
    ensures Open(json, ScanInt(json, i)) ==> Beyond(|json|, ScanInt(json + more, i))
    ensures Open(json, ScanFraction(json, i)) ==> Beyond(|json|, ScanFraction(json + more, i))
    ensures Open(json, ScanExponent(json, i)) ==> Beyond(|json|, ScanExponent(json + more, i))
  {
    forall k | 0 <= k <= |json| && DigitsEnd(json, k) == |json|
      ensures DigitsEnd(json + more, k) >= |json|
    {
      DigitsBeyond(json, more, k);
    }
  }

  lemma NumberBeyond(json: bytes, more: bytes, i: nat)
    requires i <= |json| && ScanNumber(json, i).Partial?
    ensures Beyond(|json|, ScanNumber(json + more, i))
  {
    hide ScanInt, ScanFraction, ScanExponent;
    PartsBeyond(json, more, i);
    ScanPartsStable(json, more, i);
    var a := ScanInt(json, i);
    if a.Done? && a.end < |json| {
      PartsBeyond(json, more, a.end);
      ScanPartsStable(json, more, a.end);
      var b := ScanFraction(json, a.end);
      if b.Done? && b.end < |json| {
        PartsBeyond(json, more, b.end);
        ScanPartsStable(json, more, b.end);
      }
    }
  }

  lemma {:induction false} AgreementBeyond(json: bytes, more: bytes, i: nat, lit: bytes)
    requires i <= |json|
    ensures Agreement(json + more, i, lit) >= Agreement(json, i, lit)
    decreases |lit|
  {
    if lit != [] && i < |json| && json[i] == lit[0] {
      AgreementBeyond(json, more, i + 1, lit[1..]);
    }
  }

  lemma PrimitiveBeyond(json: bytes, more: bytes, i: nat)
    requires i < |json| && ScanPrimitive(json, i).Partial?
    ensures Beyond(|json|, ScanPrimitive(json + more, i))
  {
    hide ScanNumber, Agreement;
    AgreementBeyond(json, more, i, TRUE);
    AgreementBeyond(json, more, i, FALSE);
    AgreementBeyond(json, more, i, NULL);
    if ScanNumber(json, i).Partial? { NumberBeyond(json, more, i); }
  }

  // --- an error depends on nothing behind it --------------------------------------------------------------

  /** Only a string or a primitive can be unfinished. */
  lemma OnlyTokensWait(json: bytes, p: PState)
    requires p.pos < |json| && json[p.pos] != QUOTE && !PrimitiveByte(json[p.pos])
    ensures var s := StepAt(json, Mode.Count, p); s.Stop? ==> s.rc != Part
  {
    hide Accept, ExpectsValue, MayEnd, WithTop;
  }

  lemma DoneIsDelimited(json: bytes, i: nat)
    requires i < |json|
    ensures var r := ScanPrimitive(json, i); r.Done? && r.end < |json| ==> IsDelim(json[r.end])
  {
    hide ScanInt, ScanFraction, ScanExponent, Agreement;
  }

  /** A step that waits for more input does nothing inside the buffer, whatever comes. */
  lemma WaitingStep(json: bytes, more: bytes, p: PState)
    requires p.pos < |json|
    requires var s := StepAt(json, Mode.Count, p); s.Stop? && s.rc == Part
    ensures var s := StepAt(json + more, Mode.Count, p);
      if s.Go? then s.p.pos >= |json| && (s.p.pos == |json| && more != [] ==> IsDelim(more[0])) else s.at >= |json|
  {
    hide ScanString, ScanPrimitive, Accept, ExpectsValue, ExpectsKey, StartContainer, EndContainer, Colons, Commas;
    if ExpectsValue(p) { AcceptSame(p); }
    if json[p.pos] == QUOTE {
      if ScanString(json, p.pos + 1).Partial? { StringBeyond(json, more, p.pos + 1); }
      StepPositions(json + more, p);
    } else if PrimitiveByte(json[p.pos]) {
      if ScanPrimitive(json, p.pos).Partial? {
        PrimitiveBeyond(json, more, p.pos);
        DoneIsDelimited(json + more, p.pos);
      }
      StepPositions(json + more, p);
    } else {
      OnlyTokensWait(json, p);
    }
  }

  lemma {:induction false} ErrorIsLocal(json: bytes, more: bytes, p: PState)
    requires p.pos <= |json|
    requires var r := Parse(json + more, Mode.Count, p); IsError(r.rc) && r.at < |json|
    ensures IsError(Parse(json, Mode.Count, p).rc)
    decreases |json| - p.pos
  {
    hide StepAt, LiteralSplit, PrimitiveByte;
    ParsePositions(json + more, p);
    var s, t := StepAt(json, Mode.Count, p), StepAt(json + more, Mode.Count, p);
    if s.Go? {
      StepStable(json, more, Mode.Count, p);
      if t.Go? { ErrorIsLocal(json, more, s.p); }
    } else if s.rc == Part {
      WaitingStep(json, more, p);
      if t.Go? { ParsePositions(json + more, t.p); }
    } else {
      StepPositions(json, p);
    }
  }

  /** Some document starts with these bytes. */
  ghost predicate CanGoOn(json: bytes) {
    exists more :: IsText(json + more)
  }

  /**
   Main result. The error position of a count pass: none for a text of documents, the end of the bytes if they are the
   beginning of one, and otherwise the first byte with which they are no longer.
   */
  lemma ErrorIsFirst(json: bytes)
    ensures var r := Parse(json, Mode.Count, START);
      && (r.rc.Tokens? ==> r.at == -1) && (r.rc == Part ==> r.at == |json|)
      && (IsError(r.rc) ==>
            0 <= r.at < |json| && forall k :: 0 <= k <= |json| ==> (CanGoOn(json[..k]) <==> k <= r.at))
  {
    hide Parse, IsText;
    var r := Parse(json, Mode.Count, START);
    ParsePositions(json, START);
    if IsError(r.rc) {
      forall k | 0 <= k <= |json|
        ensures CanGoOn(json[..k]) <==> k <= r.at
      {
        assert json == json[..k] + json[k..];
        CodeSaysWhatCanFollow(json[..k]);
        if k <= r.at {
          ParsePositions(json[..k], START);
          if IsError(Parse(json[..k], Mode.Count, START).rc) { ErrorStays(json[..k], json[k..], START); }
          assert json[..k] + [] == json[..k];
        } else {
          ErrorIsLocal(json[..k], json[k..], START);
        }
      }
    }
  }

  // --- the depth limit ------------------------------------------------------------------------------------

  predicate IsBracket(b: byte) {
    b == LBRACKET || b == LBRACE
  }

  /** A step in front of a bracket at which another one fails is the same with something else in its place. */
  lemma StepBefore(json: bytes, t: bytes, n: nat, p: PState)
    requires n < |json| && n < |t| && json[..n] == t[..n] && IsBracket(json[n]) && p.pos < n
    requires var s := StepAt(json, Mode.Count, p); s.Go? && s.p.pos <= n
    ensures StepAt(t, Mode.Count, p) == StepAt(json, Mode.Count, p)
  {
    hide StepAt, PrimitiveByte, ScanPrimitive;
    var short, a, b := json[..n], json[n..], t[n..];
    assert json == short + a && t == short + b && a[0] == json[n];
    var s := StepAt(short, Mode.Count, p);
    if s.Go? {
      StepStable(short, a, Mode.Count, p);
      StepStable(short, b, Mode.Count, p);
    } else if s.rc == Part {
      WaitingStep(short, a, p);
      assert false;
    } else {
      StepPositions(short, p);
      FailedStep(short, a, p);
      assert false;
    }
  }

  /** The step that fails, also reached when something else stands in the place of the bracket. */
  lemma {:induction false} Reaches(json: bytes, t: bytes, u: bytes, n: nat, p: PState) returns (q: PState)
    requires n < |json| && n < |t| && n < |u| && json[..n] == t[..n] == u[..n] && IsBracket(json[n]) && p.pos <= n
    requires var r := Parse(json, Mode.Count, p); IsError(r.rc) && r.at == n
    ensures q.pos <= n && StepAt(json, Mode.Count, q).Stop?
    ensures var s, r := StepAt(json, Mode.Count, q), Parse(json, Mode.Count, p); s.rc == r.rc && s.at == n
    ensures Parse(t, Mode.Count, p).rc == Parse(t, Mode.Count, q).rc
    ensures Parse(u, Mode.Count, p).rc == Parse(u, Mode.Count, q).rc
    decreases |json| - p.pos
  {
    hide StepAt;
    q := p;
    var s := StepAt(json, Mode.Count, p);
    if s.Go? {
      ParsePositions(json, s.p);
      StepBefore(json, t, n, p);
      StepBefore(json, u, n, p);
      q := Reaches(json, t, u, n, s.p);
    }
  }

  /** The error codes of a count pass. */
  lemma {:induction false} Codes(json: bytes, p: PState)
    requires p.pos <= |json| && IsError(Parse(json, Mode.Count, p).rc)
    ensures var r := Parse(json, Mode.Count, p);
      && 0 <= r.at < |json| && (r.rc == TooDeep || r.rc == Inval) && (r.rc == TooDeep ==> IsBracket(json[r.at]))
    decreases |json| - p.pos
  {
    hide StepAt;
    ParsePositions(json, p);
    var s := StepAt(json, Mode.Count, p);
    if s.Go? {
      Codes(json, s.p);
    } else {
      StepCodes(json, p);
    }
  }

  lemma StepCodes(json: bytes, p: PState)
    requires p.pos < |json|
    ensures var s := StepAt(json, Mode.Count, p); s.Stop? ==>
      s.rc == Part || s.rc == Inval || (s.rc == TooDeep && s.at == p.pos && IsBracket(json[p.pos]))
  {
    hide ScanString, ScanPrimitive, Accept, ExpectsValue, ExpectsKey, MayEnd, WithTop;
  }

  // --- what cannot stand in the place of a misplaced bracket ----------------------------------------------

  const DIGIT: bytes := [48]          // 0
  const NO_TEXT: bytes := [34, 34]    // ""

  lemma {:induction false} HexDies(json: bytes, t: bytes, i: nat, n: nat)
    requires i <= |json| && HexRun(json, i, n) < n
    requires var e := i + HexRun(json, i, n); e < |t| && e < |json| && t[..e] == json[..e] && !IsHex(t[e])
    ensures HexRun(t, i, n) == HexRun(json, i, n)
    decreases n
  {
    var e := i + HexRun(json, i, n);
    if i < e {
      assert t[i] == t[..e][i] == json[i];
      HexDies(json, t, i + 1, n - 1);
    }
  }

  /** Inside a string that a bracket breaks, a digit or a quote breaks it too. */
  lemma {:induction false} StringDies(json: bytes, i: nat, n: nat)
    requires i <= |json| && ScanString(json, i) == Bad(n) && IsBracket(json[n])
    ensures ScanString(json[..n] + DIGIT, i).Bad? || ScanString(json[..n] + NO_TEXT, i).Bad?
    decreases |json| - i
  {
    hide HexRun, IsShortEscape;
    var a, b := json[..n] + DIGIT, json[..n] + NO_TEXT;
    assert i < n ==> a[i] == json[i] && b[i] == json[i];
    if json[i] != BACKSLASH {
      StringDies(json, i + 1, n);
    } else if i + 1 == n {
      NoEscape();
    } else {
      assert a[i + 1] == json[i + 1] && b[i + 1] == json[i + 1];
      if IsShortEscape(json[i + 1]) {
        StringDies(json, i + 2, n);
      } else if HexRun(json, i + 2, 4) == 4 {
        HexSame(json, a, b, i + 2, n);
        StringDies(json, i + 6, n);
      } else {
        assert b[..n] == json[..n] && b[n] == 34;
        HexDies(json, b, i + 2, 4);
      }
    }
  }

  lemma NoEscape()
    ensures !IsShortEscape(48)
  {
  }

  lemma HexSame(json: bytes, a: bytes, b: bytes, i: nat, n: nat)
    requires i + 4 <= n < |json| && n < |a| && n < |b| && a[..n] == json[..n] && b[..n] == json[..n]
    requires HexRun(json, i, 4) == 4
    ensures HexRun(a, i, 4) == 4 && HexRun(b, i, 4) == 4
  {
    assert json == json[..n] + json[n..] && a == json[..n] + a[n..] && b == json[..n] + b[n..];
    HexInside(json[..n], json[n..], i, 4);
    HexRunStable(json[..n], a[n..], i, 4);
    HexRunStable(json[..n], b[n..], i, 4);
  }

  lemma {:induction false} HexInside(json: bytes, more: bytes, i: nat, n: nat)
    requires i + n <= |json| && HexRun(json + more, i, n) == n
    ensures HexRun(json, i, n) == n
    decreases n
  {
    if n > 0 { HexInside(json, more, i + 1, n - 1); }
  }

  lemma PartsDie(json: bytes, i: nat)
    requires i <= |json|
    ensures Open(json, ScanInt(json, i)) ==> Dies(json, ScanInt(json + NO_TEXT, i))
    ensures Open(json, ScanFraction(json, i)) ==> Dies(json, ScanFraction(json + NO_TEXT, i))
    ensures Open(json, ScanExponent(json, i)) ==> Dies(json, ScanExponent(json + NO_TEXT, i))
  {
    forall k | 0 <= k <= |json| && DigitsEnd(json, k) == |json|
      ensures DigitsEnd(json + NO_TEXT, k) == |json|
    {
      DigitsEndIs(json + NO_TEXT, k, |json|);
    }
  }

  /** No digit and nothing else of a number follows. */
  predicate Dies(json: bytes, r: Scan) {
    r.Bad? || r == Done(|json|)
  }

  lemma NumberDies(json: bytes, i: nat)
    requires i <= |json| && ScanNumber(json, i).Partial?
    ensures ScanNumber(json + NO_TEXT, i).Bad?
  {
    hide ScanInt, ScanFraction, ScanExponent;
    var t := json + NO_TEXT;
    EndScans(json);
    PartsDie(json, |json|);
    PartsDie(json, i);
    ScanPartsStable(json, NO_TEXT, i);
    var a := ScanInt(json, i);
    if a.Done? {
      PartsDie(json, a.end);
      ScanPartsStable(json, NO_TEXT, a.end);
      var b := ScanFraction(json, a.end);
      if b.Done? {
        PartsDie(json, b.end);
        ScanPartsStable(json, NO_TEXT, b.end);
      }
    }
  }

  lemma {:induction false} AgreementDies(json: bytes, i: nat, lit: bytes)
    requires i <= |json| && i + Agreement(json, i, lit) == |json| && QUOTE !in lit
    ensures Agreement(json + NO_TEXT, i, lit) == Agreement(json, i, lit)
    decreases |lit|
  {
    if lit != [] && i < |json| {
      AgreementDies(json, i + 1, lit[1..]);
    }
  }

  lemma LiteralDies(json: bytes, i: nat, lit: bytes)
    requires i < |json| && ScanLiteral(json, i, lit).Partial? && QUOTE !in lit
    ensures ScanLiteral(json + NO_TEXT, i, lit).Bad?
  {
    hide Agreement;
    AgreementDies(json, i, lit);
  }

  /** A primitive that a bracket breaks is broken by a quote too. */
  lemma PrimitiveDies(json: bytes, i: nat, n: nat)
    requires i < n < |json| && ScanPrimitive(json, i) == Bad(n)
    ensures ScanPrimitive(json[..n] + NO_TEXT, i).Bad?
  {
    hide ScanNumber, ScanLiteral;
    var short, rest := json[..n], json[n..];
    assert json == short + rest;
    if ScanPrimitive(short, i).Partial? {
      if ScanNumber(short, i).Partial? { NumberDies(short, i); }
      if ScanLiteral(short, i, TRUE).Partial? { LiteralDies(short, i, TRUE); }
      if ScanLiteral(short, i, FALSE).Partial? { LiteralDies(short, i, FALSE); }
      if ScanLiteral(short, i, NULL).Partial? { LiteralDies(short, i, NULL); }
    } else {
      ScanPrimitiveStable(short, rest, i);
      ScanPrimitiveStable(short, NO_TEXT, i);
    }
  }

  // --- where a value may stand ----------------------------------------------------------------------------

  lemma DigitWaits(json: bytes)
    ensures ScanPrimitive(json + DIGIT, |json|).Partial?
  {
  }

  lemma EmptyTextScans(json: bytes)
    ensures ScanString(json + NO_TEXT, |json| + 1) == Done(|json| + 1)
  {
  }

  /** A digit goes on exactly where a value is expected. */
  lemma DigitStands(json: bytes, q: PState)
    requires q.pos == |json|
    ensures IsError(Parse(json + DIGIT, Mode.Count, q).rc) <==> !ExpectsValue(q)
  {
    hide ScanPrimitive, Accept, ExpectsValue;
    DigitWaits(json);
    if ExpectsValue(q) { AcceptSame(q); }
  }

  lemma TextStands(json: bytes, q: PState)
    requires q.pos == |json| && ExpectsValue(q)
    ensures !IsError(Parse(json + NO_TEXT, Mode.Count, q).rc)
  {
    hide ScanString, Accept;
    EmptyTextScans(json);
    AcceptSame(q);
    var t := json + NO_TEXT;
    var s := StepAt(t, Mode.Count, q);
    assert s.Go? && s.p.pos == |t|;
    assert Parse(t, Mode.Count, s.p) == AtEnd(s.p);
  }

  lemma BracketFails(json: bytes, q: PState)
    requires q.pos < |json| && IsBracket(json[q.pos])
    ensures var s := StepAt(json, Mode.Count, q); s.Stop? ==> s.rc == if ExpectsValue(q) then TooDeep else Inval
  {
    hide Accept, ExpectsValue;
  }

  lemma BrokenString(json: bytes, t: bytes, q: PState)
    requires q.pos < |json| && json[q.pos] == QUOTE && q.pos < |t| && t[q.pos] == QUOTE
    requires var s := StepAt(json, Mode.Count, q); s.Stop? && IsError(s.rc) && s.at > q.pos
    ensures ScanString(json, q.pos + 1) == Bad(StepAt(json, Mode.Count, q).at)
    ensures ScanString(t, q.pos + 1).Bad? ==> IsError(Parse(t, Mode.Count, q).rc)
    ensures StepAt(json, Mode.Count, q).rc == Inval
  {
    hide ScanString, Accept, ExpectsValue, ExpectsKey, WithTop;
    if ExpectsValue(q) { AcceptSame(q); }
  }

  lemma BrokenPrimitive(json: bytes, t: bytes, q: PState)
    requires q.pos < |json| && PrimitiveByte(json[q.pos]) && q.pos < |t| && t[q.pos] == json[q.pos]
    requires var s := StepAt(json, Mode.Count, q); s.Stop? && IsError(s.rc) && s.at > q.pos
    ensures ScanPrimitive(json, q.pos) == Bad(StepAt(json, Mode.Count, q).at)
    ensures ScanPrimitive(t, q.pos).Bad? ==> IsError(Parse(t, Mode.Count, q).rc)
    ensures StepAt(json, Mode.Count, q).rc == Inval
  {
    hide ScanPrimitive, Accept, ExpectsValue;
  }

  /** Other bytes fail where they stand. */
  lemma OthersFailAtOnce(json: bytes, q: PState)
    requires q.pos < |json| && json[q.pos] != QUOTE && !PrimitiveByte(json[q.pos])
    ensures var s := StepAt(json, Mode.Count, q); s.Stop? ==> s.at == q.pos
  {
    hide Accept, ExpectsValue, MayEnd, WithTop;
    if ExpectsValue(q) { AcceptSame(q); }
  }

  /** A step that fails at a bracket behind it: in a token, which a digit or a quote would break too. */
  lemma BreaksToken(json: bytes, n: nat, q: PState)
    requires q.pos < n < |json| && IsBracket(json[n])
    requires var s := StepAt(json, Mode.Count, q); s.Stop? && IsError(s.rc) && s.at == n
    ensures StepAt(json, Mode.Count, q).rc == Inval
    ensures IsError(Parse(json[..n] + DIGIT, Mode.Count, q).rc) || IsError(Parse(json[..n] + NO_TEXT, Mode.Count, q).rc)
  {
    hide ScanString, ScanPrimitive, StepAt, Parse, PrimitiveByte;
    var a, b := json[..n] + DIGIT, json[..n] + NO_TEXT;
    assert a[q.pos] == json[q.pos] && b[q.pos] == json[q.pos];
    if json[q.pos] == QUOTE {
      BrokenString(json, a, q);
      BrokenString(json, b, q);
      StringDies(json, q.pos + 1, n);
    } else if PrimitiveByte(json[q.pos]) {
      BrokenPrimitive(json, b, q);
      PrimitiveDies(json, q.pos, n);
    } else {
      OthersFailAtOnce(json, q);
      assert false;
    }
  }

  /**
   Main result. An error is the depth limit exactly if it is at an opening bracket in the place of which a number and a
   string could stand; every other error is INVAL.
   */
  lemma DepthExactly(json: bytes)
    requires IsError(Parse(json, Mode.Count, START).rc)
    ensures var r := Parse(json, Mode.Count, START);
      && 0 <= r.at < |json| && (r.rc == TooDeep || r.rc == Inval)
      && (r.rc == TooDeep <==>
            && json[r.at] in Ascii("[{")
            && CanGoOn(json[..r.at] + Ascii("0")) && CanGoOn(json[..r.at] + Ascii("\"\"")))
  {
    hide Parse, CanGoOn, StepAt, ExpectsValue;
    var r := Parse(json, Mode.Count, START);
    var n := r.at;
    Codes(json, START);
    assert Ascii("[{") == [91, 123] && Ascii("0") == DIGIT && Ascii("\"\"") == NO_TEXT;
    if IsBracket(json[n]) {
      var a, b := json[..n] + DIGIT, json[..n] + NO_TEXT;
      GoesOnExactly(a);
      GoesOnExactly(b);
      var q := Reaches(json, a, b, n, START);
      if q.pos < n {
        BreaksToken(json, n, q);
      } else {
        BracketFails(json, q);
        DigitStands(json[..n], q);
        if ExpectsValue(q) { TextStands(json[..n], q); }
      }
    }
  }

  lemma GoesOnExactly(json: bytes)
    ensures CanGoOn(json) <==> !IsError(Parse(json, Mode.Count, START).rc)
  {
    hide Parse, IsText;
    CodeSaysWhatCanFollow(json);
    assert json + [] == json;
  }
}
