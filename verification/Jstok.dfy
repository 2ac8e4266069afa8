/**
 The tokenizer of include/jstok.h as a transition function on values: one token or structural byte per step.
 `JstokParser` is the imperative form. JSTOK_STRICT is not defined, so several top-level values are allowed.
 */
module Jstok {
  import opened Bytes
  import opened JsonLexer

  const MAX_DEPTH: nat := 64

  datatype Kind = Undefined | Object | Array | String | Primitive

  datatype Tok = Tok(kind: Kind, start: int, end: int, size: int)

  datatype FrameState = KeyOrEnd | KeyOnly | Colon | ObjValue | ObjCommaOrEnd | ValueOrEnd | ArrValue | ArrCommaOrEnd

  /** An open container; `tok` is the index of its token, or -1 when only counting. */
  datatype Frame = Frame(kind: Kind, st: FrameState, tok: int)

  /** Without a token array tokens are only counted; with one, it has room for `max`. */
  datatype Mode = Count | Fill(max: nat)

  datatype PState = PState(pos: nat, toknext: nat, toks: seq<Tok>, stack: seq<Frame>, rootDone: bool)

  const START := PState(0, 0, [], [], false)

  datatype Rc = Tokens(n: nat) | NoMem | Inval | Part | TooDeep

  /** A step goes on, or ends the call with a return code and an error position. */
  datatype Step = Go(p: PState) | Stop(rc: Rc, at: int, p: PState)

  datatype Outcome = Outcome(rc: Rc, at: int, p: PState)

  // --- pieces of a step -----------------------------------------------------------------------------------

  function Top(p: PState): Frame
    requires p.stack != []
  {
    p.stack[|p.stack| - 1]
  }

  function WithTop(p: PState, st: FrameState): PState
    requires p.stack != []
  {
    p.(stack := p.stack[|p.stack| - 1 := Top(p).(st := st)])
  }

  /** One more child for the innermost container. */
  function Bump(p: PState): PState {
    if p.stack == [] || !(0 <= Top(p).tok < |p.toks|) then p
    else
      var i := Top(p).tok;
      p.(toks := p.toks[i := p.toks[i].(size := p.toks[i].size + 1)])
  }

  predicate HasRoom(mode: Mode, p: PState) {
    mode.Fill? ==> p.toknext < mode.max
  }

  function NewToken(mode: Mode, p: PState, t: Tok): PState {
    p.(toknext := p.toknext + 1, toks := if mode.Fill? then p.toks + [t] else p.toks)
  }

  predicate ExpectsValue(p: PState) {
    p.stack == [] || (Top(p).kind == Array && (Top(p).st == ValueOrEnd || Top(p).st == ArrValue))
    || (Top(p).kind == Object && Top(p).st == ObjValue)
  }

  predicate ExpectsKey(p: PState) {
    p.stack != [] && Top(p).kind == Object && (Top(p).st == KeyOrEnd || Top(p).st == KeyOnly)
  }

  /** `jstok_accept_value` where a value is expected. */
  function Accept(p: PState): PState
    requires ExpectsValue(p)
  {
    if p.stack == [] then p.(rootDone := true)
    else WithTop(Bump(p), if Top(p).kind == Array then ArrCommaOrEnd else ObjCommaOrEnd)
  }

  function StartContainer(mode: Mode, p: PState, kind: Kind): Step {
    if !ExpectsValue(p) then Stop(Inval, p.pos, p)
    else
      var p1 := Accept(p);
      if !HasRoom(mode, p1) then Stop(NoMem, p.pos, p1)
      else
        var p2 := NewToken(mode, p1, Tok(kind, p.pos, -1, 0));
        if |p2.stack| >= MAX_DEPTH then Stop(TooDeep, p.pos, p2)
        else
          var f := Frame(kind, if kind == Object then KeyOrEnd else ValueOrEnd, if mode.Fill? then p1.toknext else -1);
          Go(p2.(stack := p2.stack + [f], pos := p.pos + 1))
  }

  predicate MayEnd(p: PState, kind: Kind) {
    p.stack != [] && Top(p).kind == kind &&
    if kind == Object then Top(p).st == KeyOrEnd || Top(p).st == ObjCommaOrEnd
    else Top(p).st == ValueOrEnd || Top(p).st == ArrCommaOrEnd
  }

  function EndContainer(mode: Mode, p: PState, kind: Kind): Step {
    if !MayEnd(p, kind) then Stop(Inval, p.pos, p)
    else
      var i := Top(p).tok;
      var toks := if mode.Fill? && 0 <= i < |p.toks| then p.toks[i := p.toks[i].(end := p.pos + 1, kind := kind)] else p.toks;
      Go(p.(toks := toks, stack := p.stack[..|p.stack| - 1], pos := p.pos + 1))
  }

  function Colons(p: PState): Step {
    if p.stack != [] && Top(p).kind == Object && Top(p).st == Colon then Go(WithTop(p, ObjValue).(pos := p.pos + 1))
    else Stop(Inval, p.pos, p)
  }

  function Commas(p: PState): Step {
    if p.stack != [] && Top(p).kind == Object && Top(p).st == ObjCommaOrEnd then
      Go(WithTop(p, KeyOnly).(pos := p.pos + 1))
    else if p.stack != [] && Top(p).kind != Object && Top(p).st == ArrCommaOrEnd then
      Go(WithTop(p, ArrValue).(pos := p.pos + 1))
    else Stop(Inval, p.pos, p)
  }

  /** A string token from the quote at `q.pos`; on running out of input the state is `back`. */
  function StringToken(json: bytes, mode: Mode, q: PState, back: PState): (r: Step)
    requires q.pos < |json|
    ensures r.Go? ==> q.pos < r.p.pos <= |json|
  {
    var s := ScanString(json, q.pos + 1);
    if s.Bad? then Stop(Inval, s.at, q.(pos := s.at))
    else if s.Partial? then Stop(Part, s.at, back)
    else if !HasRoom(mode, q) then Stop(NoMem, s.end, q.(pos := s.end))
    else Go(NewToken(mode, q, Tok(String, q.pos + 1, s.end, 0)).(pos := s.end + 1))
  }

  function StringStep(json: bytes, mode: Mode, p: PState): (r: Step)
    requires p.pos < |json|
    ensures r.Go? ==> p.pos < r.p.pos <= |json|
  {
    if ExpectsKey(p) then
      var r := StringToken(json, mode, p, p);
      if r.Go? then Go(WithTop(r.p, Colon)) else r
    else if !ExpectsValue(p) then Stop(Inval, p.pos, p)
    else StringToken(json, mode, Accept(p), p)
  }

  function PrimitiveStep(json: bytes, mode: Mode, p: PState): (r: Step)
    requires p.pos < |json|
    ensures r.Go? ==> p.pos < r.p.pos <= |json|
  {
    if !ExpectsValue(p) then Stop(Inval, p.pos, p)
    else
      var q := Accept(p);
      var s := ScanPrimitive(json, p.pos);
      if s.Bad? then Stop(Inval, s.at, q)
      else if s.Partial? then Stop(Part, s.at, p)
      else if !HasRoom(mode, q) then Stop(NoMem, s.end, q.(pos := s.end))
      else Go(NewToken(mode, q, Tok(Primitive, p.pos, s.end, 0)).(pos := s.end))
  }

  /** What the byte at the scan position makes the parser do. */
  function StepAt(json: bytes, mode: Mode, p: PState): (r: Step)
    requires p.pos < |json|
    ensures r.Go? ==> p.pos < r.p.pos <= |json|
    ensures r.Stop? ==> !r.rc.Tokens?
  {
    var c := json[p.pos];
    if IsSpace(c) then Go(p.(pos := p.pos + 1))
    else if c == LBRACE then StartContainer(mode, p, Object)
    else if c == LBRACKET then StartContainer(mode, p, Array)
    else if c == RBRACE then EndContainer(mode, p, Object)
    else if c == RBRACKET then EndContainer(mode, p, Array)
    else if c == COLON then Colons(p)
    else if c == COMMA then Commas(p)
    else if c == QUOTE then StringStep(json, mode, p)
    else PrimitiveStep(json, mode, p)
  }

  const LBRACE: byte := 123
  const RBRACE: byte := 125
  const LBRACKET: byte := 91
  const RBRACKET: byte := 93

  /** The end of the buffer: success when nothing is open. */
  function AtEnd(p: PState): Outcome {
    if p.stack != [] then Outcome(Part, p.pos, p) else Outcome(Tokens(p.toknext), -1, p)
  }

  /** `jstok_parse` from state `p`. */
  function Parse(json: bytes, mode: Mode, p: PState): Outcome
    decreases |json| - p.pos
  {
    if p.pos >= |json| then AtEnd(p)
    else
      match StepAt(json, mode, p)
      case Go(q) => Parse(json, mode, q)
      case Stop(rc, at, q) => Outcome(rc, at, q)
  }

  // --- well-formed parser states --------------------------------------------------------------------------

  predicate FrameOk(mode: Mode, p: PState, f: Frame) {
    && (if f.kind == Object then f.st == KeyOrEnd || f.st == KeyOnly || f.st == Colon || f.st == ObjValue || f.st == ObjCommaOrEnd
        else f.kind == Array && (f.st == ValueOrEnd || f.st == ArrValue || f.st == ArrCommaOrEnd))
    && (if mode.Fill? then 0 <= f.tok < p.toknext else f.tok == -1)
  }

  /** What every call keeps: the stack is bounded, frames point at tokens, the array is used up to `toknext`. */
  predicate WellFormed(mode: Mode, p: PState) {
    && |p.stack| <= MAX_DEPTH
    && (if mode.Fill? then |p.toks| == p.toknext <= mode.max else p.toks == [])
    && forall i :: 0 <= i < |p.stack| ==> FrameOk(mode, p, p.stack[i])
  }

  lemma FramesStay(mode: Mode, p: PState, q: PState)
    requires WellFormed(mode, p) && q.stack == p.stack && q.toknext >= p.toknext
    ensures forall i :: 0 <= i < |q.stack| ==> FrameOk(mode, q, q.stack[i])
  {
    assert forall i :: 0 <= i < |q.stack| ==> FrameOk(mode, p, p.stack[i]);
  }

  lemma AcceptKeeps(mode: Mode, p: PState)
    requires WellFormed(mode, p) && ExpectsValue(p)
    ensures WellFormed(mode, Accept(p)) && Accept(p).toknext == p.toknext && |Accept(p).stack| == |p.stack|
  {
    FramesStay(mode, p, p);
    if p.stack != [] {
      assert FrameOk(mode, p, Top(p));
    }
  }

  lemma NewTokenKeeps(mode: Mode, p: PState, t: Tok)
    requires WellFormed(mode, p) && HasRoom(mode, p)
    ensures WellFormed(mode, NewToken(mode, p, t))
  {
    FramesStay(mode, p, NewToken(mode, p, t));
  }

  lemma StartKeeps(mode: Mode, p: PState, kind: Kind)
    requires WellFormed(mode, p) && (kind == Object || kind == Array)
    ensures var q := StartContainer(mode, p, kind).p; WellFormed(mode, q) && q.toknext >= p.toknext
  {
    if ExpectsValue(p) {
      AcceptKeeps(mode, p);
      var p1 := Accept(p);
      if HasRoom(mode, p1) {
        NewTokenKeeps(mode, p1, Tok(kind, p.pos, -1, 0));
      }
    }
  }

  lemma EndKeeps(mode: Mode, p: PState, kind: Kind)
    requires WellFormed(mode, p)
    ensures var q := EndContainer(mode, p, kind).p; WellFormed(mode, q) && q.toknext == p.toknext
  {
  }

  lemma PunctuationKeeps(mode: Mode, p: PState)
    requires WellFormed(mode, p)
    ensures WellFormed(mode, Colons(p).p) && Colons(p).p.toknext == p.toknext
    ensures WellFormed(mode, Commas(p).p) && Commas(p).p.toknext == p.toknext
  {
    if p.stack != [] {
      assert FrameOk(mode, p, Top(p));
    }
  }

  lemma StringTokenKeeps(json: bytes, mode: Mode, q: PState, back: PState)
    requires q.pos < |json| && WellFormed(mode, q) && WellFormed(mode, back) && back.toknext == q.toknext
    ensures var r := StringToken(json, mode, q, back); WellFormed(mode, r.p) && r.p.toknext >= q.toknext
    ensures var r := StringToken(json, mode, q, back); r.Go? ==> r.p.stack == q.stack
  {
    var s := ScanString(json, q.pos + 1);
    if s.Done? && HasRoom(mode, q) {
      NewTokenKeeps(mode, q, Tok(String, q.pos + 1, s.end, 0));
    }
  }

  lemma StringKeeps(json: bytes, mode: Mode, p: PState)
    requires WellFormed(mode, p) && p.pos < |json|
    ensures var r := StringStep(json, mode, p); WellFormed(mode, r.p) && r.p.toknext >= p.toknext
  {
    hide StringToken;
    if ExpectsKey(p) {
      StringTokenKeeps(json, mode, p, p);
      var r := StringToken(json, mode, p, p);
      if r.Go? {
        assert FrameOk(mode, p, Top(p));
        FramesStay(mode, p, r.p);
      }
    } else if ExpectsValue(p) {
      AcceptKeeps(mode, p);
      StringTokenKeeps(json, mode, Accept(p), p);
    }
  }

  lemma PrimitiveKeeps(json: bytes, mode: Mode, p: PState)
    requires WellFormed(mode, p) && p.pos < |json|
    ensures var r := PrimitiveStep(json, mode, p); WellFormed(mode, r.p) && r.p.toknext >= p.toknext
  {
    if ExpectsValue(p) {
      AcceptKeeps(mode, p);
      var s := ScanPrimitive(json, p.pos);
      if s.Done? && HasRoom(mode, Accept(p)) {
        NewTokenKeeps(mode, Accept(p), Tok(Primitive, p.pos, s.end, 0));
      }
    }
  }

  lemma StepKeeps(json: bytes, mode: Mode, p: PState)
    requires WellFormed(mode, p) && p.pos < |json|
    ensures var q := StepAt(json, mode, p).p; WellFormed(mode, q) && q.toknext >= p.toknext
  {
    hide StartContainer, EndContainer, Colons, Commas, StringStep, PrimitiveStep;
    StartKeeps(mode, p, Object);
    StartKeeps(mode, p, Array);
    EndKeeps(mode, p, Object);
    EndKeeps(mode, p, Array);
    PunctuationKeeps(mode, p);
    StringKeeps(json, mode, p);
    PrimitiveKeeps(json, mode, p);
    FramesStay(mode, p, p);
  }

  lemma {:induction false} ParseKeeps(json: bytes, mode: Mode, p: PState)
    requires WellFormed(mode, p)
    ensures WellFormed(mode, Parse(json, mode, p).p)
    decreases |json| - p.pos
  {
    if p.pos < |json| {
      StepKeeps(json, mode, p);
      var s := StepAt(json, mode, p);
      if s.Go? {
        ParseKeeps(json, mode, s.p);
      }
    }
  }
}
