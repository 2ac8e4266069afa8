/**
 The tokenizer of include/jstok.h in its own form: a parser object with a fixed frame stack that fills the
 caller's token array (or, without one, counts). Every method is tied to the transition function of `Jstok`.
 */
module JstokParser {
  import opened Bytes
  import opened JsonLexer
  import opened Jstok

  // --- scanning loops -------------------------------------------------------------------------------------

  method ReadDigits(json: bytes, i: nat) returns (e: nat)
    requires i <= |json|
    ensures e == DigitsEnd(json, i)
  {
    e := i;
    while e < |json| && IsDigit(json[e])
      invariant i <= e <= |json| && DigitsEnd(json, i) == DigitsEnd(json, e)
    {
      e := e + 1;
    }
  }

  lemma {:induction false} AgreementIs(json: bytes, i: nat, lit: bytes, k: nat)
    requires k <= |lit| && i + k <= |json| && forall j :: 0 <= j < k ==> json[i + j] == lit[j]
    requires k == |lit| || i + k == |json| || json[i + k] != lit[k]
    ensures Agreement(json, i, lit) == k
    decreases k
  {
    if k > 0 {
      assert forall j :: 0 <= j < k - 1 ==> json[i + 1 + j] == json[i + (j + 1)] == lit[1..][j];
      AgreementIs(json, i + 1, lit[1..], k - 1);
    }
  }

  /** `jstok_parse_literal` */
  method ReadLiteral(json: bytes, i: nat, lit: bytes) returns (r: Scan)
    requires i <= |json|
    ensures r == ScanLiteral(json, i, lit)
  {
    hide Agreement;
    var k := 0;
    while k < |lit|
      invariant k <= |lit| && i + k <= |json|
      invariant forall j :: 0 <= j < k ==> json[i + j] == lit[j]
    {
      if i + k >= |json| {
        AgreementIs(json, i, lit, k);
        return Partial(i + k);
      }
      if json[i + k] != lit[k] {
        AgreementIs(json, i, lit, k);
        return Bad(i + k);
      }
      k := k + 1;
    }
    AgreementIs(json, i, lit, k);
    if i + k < |json| && !IsDelim(json[i + k]) { return Bad(i + k); }
    return Done(i + k);
  }

  /** `jstok_parse_number_span` */
  method ReadNumber(json: bytes, start: nat) returns (r: Scan)
    requires start <= |json|
    ensures r == ScanNumber(json, start)
  {
    var i := start;
    if i >= |json| { return Partial(i); }
    if json[i] == MINUS {
      i := i + 1;
      if i >= |json| { return Partial(i); }
    }
    if json[i] == ZERO {
      i := i + 1;
    } else if 49 <= json[i] <= 57 {
      assert DigitsEnd(json, i) == DigitsEnd(json, i + 1);
      i := ReadDigits(json, i + 1);
    } else {
      return Bad(i);
    }
    assert ScanInt(json, start) == Done(i);
    var stop := ReadFraction(json, i);
    if !stop.Done? { return stop; }
    i := stop.end;
    stop := ReadExponent(json, i);
    if !stop.Done? { return stop; }
    i := stop.end;
    if i >= |json| { return Partial(i); }
    if !IsDelim(json[i]) { return Bad(i); }
    return Done(i);
  }

  method ReadFraction(json: bytes, start: nat) returns (r: Scan)
    requires start <= |json|
    ensures r == ScanFraction(json, start)
  {
    var i := start;
    if i < |json| && json[i] == DOT {
      i := i + 1;
      if i >= |json| { return Partial(i); }
      if !IsDigit(json[i]) { return Bad(i); }
      i := ReadDigits(json, i);
    }
    return Done(i);
  }

  method ReadExponent(json: bytes, start: nat) returns (r: Scan)
    requires start <= |json|
    ensures r == ScanExponent(json, start)
  {
    var i := start;
    if i < |json| && IsExponentMark(json[i]) {
      i := i + 1;
      if i >= |json| { return Partial(i); }
      if IsSign(json[i]) {
        i := i + 1;
        if i >= |json| { return Partial(i); }
      }
      if !IsDigit(json[i]) { return Bad(i); }
      i := ReadDigits(json, i);
    }
    return Done(i);
  }

  /** The four digits of `\uXXXX`, from just behind the `u`. */
  method ReadHex(json: bytes, i: nat) returns (h: nat)
    requires i <= |json|
    ensures h == HexRun(json, i, 4)
  {
    h := 0;
    while h < 4 && i + h < |json| && IsHex(json[i + h])
      invariant h <= 4 && i + h <= |json|
      invariant HexRun(json, i, 4) == h + HexRun(json, i + h, 4 - h)
    {
      h := h + 1;
    }
  }

  /** The loop of `jstok_parse_string_token`, from just behind the opening quote. */
  method ReadString(json: bytes, start: nat) returns (r: Scan)
    requires start <= |json|
    ensures r == ScanString(json, start)
  {
    var i := start;
    while i < |json|
      invariant start <= i <= |json|
      invariant ScanString(json, start) == ScanString(json, i)
    {
      var c := json[i];
      if c < 0x20 { return Bad(i); }
      if c == QUOTE { return Done(i); }
      if c == BACKSLASH {
        if i + 1 >= |json| { return Partial(i + 1); }
        c := json[i + 1];
        if IsShortEscape(c) {
          i := i + 2;
        } else if c == LETTER_U {
          var h := ReadHex(json, i + 2);
          if h < 4 {
            return if i + 2 + h >= |json| then Partial(i + 2 + h) else Bad(i + 2 + h);
          }
          i := i + 6;
        } else {
          return Bad(i + 1);
        }
      } else {
        i := i + 1;
      }
    }
    return Partial(i);
  }

  // --- the parser -----------------------------------------------------------------------------------------

  class Parser {
    var pos: nat
    var toknext: nat
    var depth: nat
    var rootDone: bool
    var errorPos: int
    var errorCode: Option<Rc>
    const stack: array<Frame>

    ghost predicate Shape(toks: array?<Tok>)
      reads this
    {
      stack.Length == MAX_DEPTH && depth <= MAX_DEPTH && (toks != null ==> toknext <= toks.Length)
    }

    ghost function Now(toks: array?<Tok>): PState
      requires Shape(toks)
      reads this, stack, toks
    {
      PState(pos, toknext, if toks == null then [] else toks[..toknext], stack[..depth], rootDone)
    }

    ghost function ModeOf(toks: array?<Tok>, max: nat): Mode {
      if toks == null then Mode.Count else Fill(max)
    }

    ghost predicate Ready(toks: array?<Tok>, max: nat)
      reads this, stack, toks
    {
      Shape(toks) && (toks != null ==> max <= toks.Length) && WellFormed(ModeOf(toks, max), Now(toks))
    }

    /** `jstok_init` */
    constructor ()
      ensures forall toks: array?<Tok> :: Shape(toks) && Now(toks) == START
      ensures fresh(stack)
    {
      pos, toknext, depth, rootDone := 0, 0, 0, false;
      errorPos, errorCode := -1, None;
      stack := new Frame[MAX_DEPTH](_ => Frame(Undefined, KeyOrEnd, 0));
    }

    method Fail(code: Rc, at: int) returns (rc: Rc)
      modifies this`errorPos, this`errorCode
      ensures rc == code && errorPos == at && errorCode == Some(code)
    {
      errorCode, errorPos := Some(code), at;
      return code;
    }

    method SetTop(st: FrameState, ghost toks: array?<Tok>)
      requires Shape(toks) && depth > 0
      modifies stack
      ensures Now(toks) == WithTop(old(Now(toks)), st)
    {
      stack[depth - 1] := stack[depth - 1].(st := st);
    }

    /** `jstok_new_token`; the answer is the index, or NOMEM. */
    method AddToken(toks: array?<Tok>, max: nat, kind: Kind, start: int, end: int) returns (idx: Option<nat>)
      requires Ready(toks, max)
      modifies this`toknext, this`errorPos, this`errorCode, toks
      ensures Shape(toks)
      ensures var mode, p := ModeOf(toks, max), old(Now(toks));
        if HasRoom(mode, p) then idx == Some(p.toknext) && Now(toks) == NewToken(mode, p, Tok(kind, start, end, 0))
             && errorPos == old(errorPos) && errorCode == old(errorCode)
        else idx == None && Now(toks) == p && errorPos == p.pos && errorCode == Some(NoMem)
    {
      if toks != null {
        if toknext >= max {
          var _ := Fail(NoMem, pos);
          return None;
        }
        toks[toknext] := Tok(kind, start, end, 0);
      }
      idx := Some(toknext);
      toknext := toknext + 1;
      assert toks != null ==> toks[..toknext] == old(toks[..toknext]) + [Tok(kind, start, end, 0)];
    }

    /** `jstok_accept_value` */
    method AcceptValue(toks: array?<Tok>, ghost max: nat) returns (ok: bool)
      requires Ready(toks, max)
      modifies this`rootDone, this`errorPos, this`errorCode, stack, toks
      ensures Shape(toks) && ok == ExpectsValue(old(Now(toks)))
      ensures ok ==> Now(toks) == Accept(old(Now(toks))) && errorPos == old(errorPos) && errorCode == old(errorCode)
      ensures !ok ==> Now(toks) == old(Now(toks)) && errorPos == pos && errorCode == Some(Inval)
    {
      ghost var p := Now(toks);
      if depth == 0 {
        rootDone := true;
        return true;
      }
      var fr := stack[depth - 1];
      assert fr == Top(p);
      var fits := if fr.kind == Array then fr.st == ValueOrEnd || fr.st == ArrValue
                  else fr.kind == Object && fr.st == ObjValue;
      if !fits {
        var _ := Fail(Inval, pos);
        return false;
      }
      if toks != null && fr.tok >= 0 {
        assert FrameOk(ModeOf(toks, max), p, fr);
        toks[fr.tok] := toks[fr.tok].(size := toks[fr.tok].size + 1);
        assert toks[..toknext] == Bump(p).toks;
      }
      SetTop(if fr.kind == Array then ArrCommaOrEnd else ObjCommaOrEnd, toks);
      return true;
    }

    /** What the callers of `jstok_accept_value` do when the value itself then runs out of input. */
    method UndoAccept(toks: array?<Tok>, ghost max: nat, st: FrameState, done: bool, ghost p: PState)
      requires Shape(toks) && (toks != null ==> max <= toks.Length)
      requires WellFormed(ModeOf(toks, max), p) && ExpectsValue(p) && Now(toks) == Accept(p)
      requires p.rootDone == done && (p.stack != [] ==> Top(p).st == st)
      modifies this`rootDone, stack, toks
      ensures Shape(toks) && Now(toks) == p
    {
      if depth > 0 {
        var fr := stack[depth - 1];
        assert fr.tok == Top(p).tok && FrameOk(ModeOf(toks, max), p, Top(p));
        SetTop(st, toks);
        if toks != null && fr.tok >= 0 {
          toks[fr.tok] := toks[fr.tok].(size := toks[fr.tok].size - 1);
          assert toks[..toknext] == p.toks;
        }
        assert stack[..depth] == p.stack;
      } else {
        rootDone := done;
      }
    }

    lemma ElsewhereFormed(mode: Mode, p: PState, pos: nat)
      requires WellFormed(mode, p)
      ensures WellFormed(mode, p.(pos := pos))
    {
      FramesStay(mode, p, p.(pos := pos));
    }

    /** `jstok_parse_string_token` at an opening quote. */
    method TakeString(json: bytes, toks: array?<Tok>, max: nat, ghost back: PState) returns (rc: Option<Rc>)
      requires Ready(toks, max) && pos < |json| && json[pos] == QUOTE
      modifies this`pos, this`toknext, this`errorPos, this`errorCode, toks
      ensures Shape(toks)
      ensures var s := StringToken(json, ModeOf(toks, max), old(Now(toks)), back);
        match s
        case Go(q) => rc == None && Now(toks) == q && errorPos == old(errorPos) && errorCode == old(errorCode)
        case Stop(code, at, q) => rc == Some(code) && errorPos == at && errorCode == Some(code)
                                  && Now(toks) == if code == Part then old(Now(toks)) else q
    {
      hide WellFormed, ScanString;
      var startQuote := pos;
      var s := ReadString(json, pos + 1);
      match s {
        case Bad(at) =>
          pos := at;
          var code := Fail(Inval, at);
          return Some(code);
        case Partial(at) =>
          var code := Fail(Part, at);
          return Some(code);
        case Done(end) =>
          pos := end;
          ElsewhereFormed(ModeOf(toks, max), old(Now(toks)), pos);
          var idx := AddToken(toks, max, String, startQuote + 1, pos);
          if idx.None? { return Some(NoMem); }
          pos := pos + 1;
          return None;
      }
    }

    method StringByte(json: bytes, toks: array?<Tok>, max: nat) returns (rc: Option<Rc>)
      requires Ready(toks, max) && pos < |json| && json[pos] == QUOTE
      modifies this, stack, toks
      ensures Shape(toks)
      ensures var s := StringStep(json, ModeOf(toks, max), old(Now(toks)));
        match s
        case Go(q) => rc == None && Now(toks) == q && errorPos == old(errorPos) && errorCode == old(errorCode)
        case Stop(code, at, q) => rc == Some(code) && errorPos == at && errorCode == Some(code) && Now(toks) == q
    {
      hide StringToken, Accept;
      ghost var p := Now(toks);
      ghost var mode := ModeOf(toks, max);
      if depth > 0 && stack[depth - 1].kind == Object
         && (stack[depth - 1].st == KeyOrEnd || stack[depth - 1].st == KeyOnly)
      {
        assert ExpectsKey(p);
        StringTokenIs(json, mode, p, p);
        rc := TakeString(json, toks, max, p);
        if rc.Some? { return; }
        SetTop(Colon, toks);
        return;
      }
      assert !ExpectsKey(p);
      var savedSt := if depth > 0 then stack[depth - 1].st else KeyOrEnd;
      var savedDone := rootDone;
      var ok := AcceptValue(toks, max);
      if !ok { return Some(Inval); }
      AcceptKeeps(mode, p);
      ghost var q := Now(toks);
      AcceptedSame(p);
      StringTokenIs(json, mode, q, p);
      rc := TakeString(json, toks, max, p);
      if rc == Some(Part) {
        UndoAccept(toks, max, savedSt, savedDone, p);
      }
    }

    lemma AcceptedSame(p: PState)
      requires ExpectsValue(p)
      ensures Accept(p).pos == p.pos && Accept(p).toknext == p.toknext && |Accept(p).stack| == |p.stack|
    {
    }

    lemma StringTokenIs(json: bytes, mode: Mode, q: PState, back: PState)
      requires q.pos < |json|
      ensures var s := StringToken(json, mode, q, back);
        if s.Go? then s.p.stack == q.stack && s.p.rootDone == q.rootDone else (s.rc == Part ==> s.p == back)
    {
      hide ScanString;
    }

    /** A literal or a number; the first byte decides. */
    method ReadPrimitive(json: bytes) returns (s: Scan)
      requires pos < |json|
      ensures s == ScanPrimitive(json, pos)
    {
      if json[pos] == TRUE[0] {
        s := ReadLiteral(json, pos, TRUE);
      } else if json[pos] == FALSE[0] {
        s := ReadLiteral(json, pos, FALSE);
      } else if json[pos] == NULL[0] {
        s := ReadLiteral(json, pos, NULL);
      } else {
        s := ReadNumber(json, pos);
      }
    }

    method PrimitiveByte(json: bytes, toks: array?<Tok>, max: nat) returns (rc: Option<Rc>)
      requires Ready(toks, max) && pos < |json|
      modifies this, stack, toks
      ensures Shape(toks)
      ensures var s := PrimitiveStep(json, ModeOf(toks, max), old(Now(toks)));
        match s
        case Go(q) => rc == None && Now(toks) == q && errorPos == old(errorPos) && errorCode == old(errorCode)
        case Stop(code, at, q) => rc == Some(code) && errorPos == at && errorCode == Some(code) && Now(toks) == q
    {
      hide ScanPrimitive, Accept;
      ghost var p := Now(toks);
      ghost var mode := ModeOf(toks, max);
      var savedSt := if depth > 0 then stack[depth - 1].st else KeyOrEnd;
      var savedDone := rootDone;
      var start := pos;
      var ok := AcceptValue(toks, max);
      if !ok { return Some(Inval); }
      AcceptKeeps(mode, p);
      AcceptedSame(p);
      var s := ReadPrimitive(json);
      match s {
        case Bad(at) =>
          var code := Fail(Inval, at);
          return Some(code);
        case Partial(at) =>
          UndoAccept(toks, max, savedSt, savedDone, p);
          var code := Fail(Part, at);
          return Some(code);
        case Done(end) =>
          pos := end;
          ElsewhereFormed(mode, Accept(p), pos);
          var idx := AddToken(toks, max, Primitive, start, pos);
          return if idx.None? then Some(NoMem) else None;
      }
    }

    /** `jstok_start_container` */
    method OpenByte(toks: array?<Tok>, max: nat, kind: Kind) returns (rc: Option<Rc>)
      requires Ready(toks, max) && (kind == Object || kind == Array)
      modifies this, stack, toks
      ensures Shape(toks)
      ensures var s := StartContainer(ModeOf(toks, max), old(Now(toks)), kind);
        match s
        case Go(q) => rc == None && Now(toks) == q && errorPos == old(errorPos) && errorCode == old(errorCode)
        case Stop(code, at, q) => rc == Some(code) && errorPos == at && errorCode == Some(code) && Now(toks) == q
    {
      hide Accept, WellFormed, ExpectsValue;
      ghost var p := Now(toks);
      var ok := AcceptValue(toks, max);
      if !ok { return Some(Inval); }
      AcceptKeeps(ModeOf(toks, max), p);
      AcceptedSame(p);
      var idx := AddToken(toks, max, kind, pos, -1);
      if idx.None? { return Some(NoMem); }
      if depth >= MAX_DEPTH {
        var code := Fail(TooDeep, pos);
        return Some(code);
      }
      var fr := Frame(kind, if kind == Object then KeyOrEnd else ValueOrEnd, if toks != null then idx.value else -1);
      stack[depth] := fr;
      depth := depth + 1;
      assert stack[..depth] == Accept(p).stack + [fr];
      pos := pos + 1;
      return None;
    }

    /** `jstok_end_container` */
    method CloseByte(toks: array?<Tok>, ghost max: nat, kind: Kind) returns (rc: Option<Rc>)
      requires Ready(toks, max) && (kind == Object || kind == Array)
      modifies this, toks
      ensures Shape(toks)
      ensures var s := EndContainer(ModeOf(toks, max), old(Now(toks)), kind);
        match s
        case Go(q) => rc == None && Now(toks) == q && errorPos == old(errorPos) && errorCode == old(errorCode)
        case Stop(code, at, q) => rc == Some(code) && errorPos == at && errorCode == Some(code) && Now(toks) == q
    {
      ghost var p := Now(toks);
      if depth == 0 || stack[depth - 1].kind != kind {
        var code := Fail(Inval, pos);
        return Some(code);
      }
      var fr := stack[depth - 1];
      assert fr == Top(p);
      var closable := if kind == Object then fr.st == KeyOrEnd || fr.st == ObjCommaOrEnd
                      else fr.st == ValueOrEnd || fr.st == ArrCommaOrEnd;
      if !closable {
        var code := Fail(Inval, pos);
        return Some(code);
      }
      if toks != null && fr.tok >= 0 {
        assert FrameOk(ModeOf(toks, max), p, fr);
        toks[fr.tok] := toks[fr.tok].(end := pos + 1, kind := kind);
        assert toks[..toknext] == p.toks[fr.tok := p.toks[fr.tok].(end := pos + 1, kind := kind)];
      }
      depth := depth - 1;
      assert stack[..depth] == p.stack[..|p.stack| - 1];
      pos := pos + 1;
      return None;
    }

    /** `:` and `,` */
    method PunctuationByte(c: byte, ghost toks: array?<Tok>) returns (rc: Option<Rc>)
      requires Shape(toks) && (c == COLON || c == COMMA)
      modifies this`pos, this`errorPos, this`errorCode, stack
      ensures Shape(toks)
      ensures var s := if c == COLON then Colons(old(Now(toks))) else Commas(old(Now(toks)));
        match s
        case Go(q) => rc == None && Now(toks) == q && errorPos == old(errorPos) && errorCode == old(errorCode)
        case Stop(code, at, q) => rc == Some(code) && errorPos == at && errorCode == Some(code) && Now(toks) == q
    {
      var next: Option<FrameState> := None;
      if depth > 0 {
        var fr := stack[depth - 1];
        assert fr == Top(Now(toks));
        if c == COLON {
          if fr.kind == Object && fr.st == Colon { next := Some(ObjValue); }
        } else if fr.kind == Object {
          if fr.st == ObjCommaOrEnd { next := Some(KeyOnly); }
        } else if fr.st == ArrCommaOrEnd {
          next := Some(ArrValue);
        }
      }
      if next.None? {
        var code := Fail(Inval, pos);
        return Some(code);
      }
      SetTop(next.value, toks);
      pos := pos + 1;
      return None;
    }

    /** One round of the main loop. */
    method OneByte(json: bytes, toks: array?<Tok>, max: nat) returns (rc: Option<Rc>)
      requires Ready(toks, max) && pos < |json|
      modifies this, stack, toks
      ensures Shape(toks)
      ensures var s := StepAt(json, ModeOf(toks, max), old(Now(toks)));
        match s
        case Go(q) => rc == None && Now(toks) == q && errorPos == old(errorPos) && errorCode == old(errorCode)
        case Stop(code, at, q) => rc == Some(code) && errorPos == at && errorCode == Some(code) && Now(toks) == q
    {
      hide StartContainer, EndContainer, Colons, Commas, StringStep, PrimitiveStep, WellFormed;
      var c := json[pos];
      if IsSpace(c) {
        pos := pos + 1;
        rc := None;
      } else if c == LBRACE {
        rc := OpenByte(toks, max, Object);
      } else if c == LBRACKET {
        rc := OpenByte(toks, max, Array);
      } else if c == RBRACE {
        rc := CloseByte(toks, max, Object);
      } else if c == RBRACKET {
        rc := CloseByte(toks, max, Array);
      } else if c == COLON || c == COMMA {
        rc := PunctuationByte(c, toks);
      } else if c == QUOTE {
        rc := StringByte(json, toks, max);
      } else {
        rc := PrimitiveByte(json, toks, max);
      }
    }

    /** `jstok_parse`; a null buffer is refused and leaves the state alone. */
    method Parse(json: Option<bytes>, toks: array?<Tok>, max: nat) returns (rc: Rc)
      requires Ready(toks, max)
      modifies this, stack, toks
      ensures Ready(toks, max)
      ensures json.None? ==> rc == Inval && errorPos == 0 && Now(toks) == old(Now(toks))
      ensures json.Some? ==> Outcome(rc, errorPos, Now(toks)) == Jstok.Parse(json.value, ModeOf(toks, max), old(Now(toks)))
    {
      hide StepAt, WellFormed, AtEnd;
      if json.None? {
        rc := Fail(Inval, 0);
        return;
      }
      var text := json.value;
      errorPos, errorCode := -1, None;
      ghost var mode, start := ModeOf(toks, max), Now(toks);
      while pos < |text|
        invariant Ready(toks, max) && errorPos == -1
        invariant Jstok.Parse(text, mode, start) == Jstok.Parse(text, mode, Now(toks))
        decreases |text| - pos
      {
        StepKeeps(text, mode, Now(toks));
        var stop := OneByte(text, toks, max);
        if stop.Some? { return stop.value; }
      }
      if depth != 0 {
        rc := Finish(toks, Part);
        return;
      }
      rc := Finish(toks, Tokens(toknext));
    }

    method Finish(ghost toks: array?<Tok>, code: Rc) returns (rc: Rc)
      requires Shape(toks) && errorPos == -1 && code == (if depth != 0 then Part else Tokens(toknext))
      modifies this`errorPos, this`errorCode
      ensures Outcome(rc, errorPos, Now(toks)) == AtEnd(old(Now(toks)))
    {
      if code == Part {
        rc := Fail(Part, pos);
      } else {
        rc := code;
      }
    }
  }
}
