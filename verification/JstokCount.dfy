/**
 The two passes of `tokenize` in src/protocol_chat.c: a counting parse, then a parse into an array of exactly
 that many tokens.
 */
module JstokCount {
  import opened Bytes
  import opened JsonLexer
  import opened Jstok

  function Uncount(s: seq<Frame>): seq<Frame> {
    seq(|s|, i requires 0 <= i < |s| => s[i].(tok := -1))
  }

  /** What is left of a filling parser's state when it only counts. */
  function Counted(p: PState): PState {
    p.(toks := [], stack := Uncount(p.stack))
  }

  function CountedStep(s: Step): Step {
    match s
    case Go(p) => Go(Counted(p))
    case Stop(rc, at, p) => Stop(rc, at, Counted(p))
  }

  lemma UncountUpdate(s: seq<Frame>, f: Frame)
    requires s != []
    ensures Uncount(s[|s| - 1 := f]) == Uncount(s)[|s| - 1 := f.(tok := -1)]
    ensures Uncount(s[..|s| - 1]) == Uncount(s)[..|s| - 1]
  {
  }

  lemma UncountPush(s: seq<Frame>, f: Frame)
    ensures Uncount(s + [f]) == Uncount(s) + [f.(tok := -1)]
  {
  }

  lemma CountedSees(p: PState)
    ensures ExpectsValue(Counted(p)) == ExpectsValue(p) && ExpectsKey(Counted(p)) == ExpectsKey(p)
    ensures forall k :: MayEnd(Counted(p), k) == MayEnd(p, k)
  {
  }

  lemma CountedAccept(p: PState)
    requires ExpectsValue(p)
    ensures ExpectsValue(Counted(p)) && Accept(Counted(p)) == Counted(Accept(p))
    ensures Accept(p).toknext == p.toknext && Accept(p).pos == p.pos
  {
    if p.stack != [] {
      UncountUpdate(p.stack, Top(p).(st := if Top(p).kind == Array then ArrCommaOrEnd else ObjCommaOrEnd));
    }
  }

  /** The fill step does what the count step does, or lacks room for the token the count step counts. */
  predicate StepsAgree(m: nat, p: PState, fill: Step, count: Step) {
    count == CountedStep(fill) || (p.toknext == m && fill.Stop? && fill.rc == NoMem && count.p.toknext == m + 1)
  }

  lemma StartAgrees(m: nat, p: PState, kind: Kind)
    requires p.toknext <= m
    ensures StepsAgree(m, p, StartContainer(Fill(m), p, kind), StartContainer(Mode.Count, Counted(p), kind))
  {
    hide Accept;
    CountedSees(p);
    if ExpectsValue(p) {
      CountedAccept(p);
      var f := Frame(kind, if kind == Object then KeyOrEnd else ValueOrEnd, p.toknext);
      UncountPush(Accept(p).stack, f);
    }
  }

  lemma EndAgrees(m: nat, p: PState, kind: Kind)
    ensures EndContainer(Mode.Count, Counted(p), kind) == CountedStep(EndContainer(Fill(m), p, kind))
  {
    CountedSees(p);
    if p.stack != [] {
      UncountUpdate(p.stack, Top(p));
    }
  }

  lemma PunctuationAgrees(p: PState)
    ensures Colons(Counted(p)) == CountedStep(Colons(p)) && Commas(Counted(p)) == CountedStep(Commas(p))
  {
    if p.stack != [] {
      UncountUpdate(p.stack, Top(p).(st := ObjValue));
      UncountUpdate(p.stack, Top(p).(st := KeyOnly));
      UncountUpdate(p.stack, Top(p).(st := ArrValue));
    }
  }

  lemma StringTokenAgrees(json: bytes, m: nat, q: PState, back: PState)
    requires q.pos < |json| && q.toknext <= m
    ensures StepsAgree(m, q, StringToken(json, Fill(m), q, back), StringToken(json, Mode.Count, Counted(q), Counted(back)))
    ensures var r := StringToken(json, Fill(m), q, back); r.Go? ==> r.p.stack == q.stack
  {
    hide ScanString;
  }

  lemma StringAgrees(json: bytes, m: nat, p: PState)
    requires p.pos < |json| && p.toknext <= m
    ensures StepsAgree(m, p, StringStep(json, Fill(m), p), StringStep(json, Mode.Count, Counted(p)))
  {
    hide StringToken, Accept, ExpectsValue, ExpectsKey;
    CountedSees(p);
    if ExpectsKey(p) {
      KeyHasFrame(p);
      StringTokenAgrees(json, m, p, p);
      UncountUpdate(p.stack, Top(p).(st := Colon));
    } else if ExpectsValue(p) {
      CountedAccept(p);
      StringTokenAgrees(json, m, Accept(p), p);
    }
  }

  lemma KeyHasFrame(p: PState)
    requires ExpectsKey(p)
    ensures p.stack != []
  {
  }

  lemma PrimitiveAgrees(json: bytes, m: nat, p: PState)
    requires p.pos < |json| && p.toknext <= m
    ensures StepsAgree(m, p, PrimitiveStep(json, Fill(m), p), PrimitiveStep(json, Mode.Count, Counted(p)))
  {
    hide ScanPrimitive, Accept, ExpectsValue;
    CountedSees(p);
    if ExpectsValue(p) {
      CountedAccept(p);
    }
  }

  lemma StepAgrees(json: bytes, m: nat, p: PState)
    requires p.pos < |json| && p.toknext <= m
    ensures StepsAgree(m, p, StepAt(json, Fill(m), p), StepAt(json, Mode.Count, Counted(p)))
  {
    hide StartContainer, EndContainer, Colons, Commas, StringStep, PrimitiveStep;
    StartAgrees(m, p, Object);
    StartAgrees(m, p, Array);
    EndAgrees(m, p, Object);
    EndAgrees(m, p, Array);
    PunctuationAgrees(p);
    StringAgrees(json, m, p);
    PrimitiveAgrees(json, m, p);
  }

  lemma {:induction false} CountGrows(json: bytes, p: PState)
    requires WellFormed(Mode.Count, p)
    ensures Parse(json, Mode.Count, p).p.toknext >= p.toknext
    decreases |json| - p.pos
  {
    hide StepAt, WellFormed;
    if p.pos < |json| {
      StepKeeps(json, Mode.Count, p);
      var s := StepAt(json, Mode.Count, p);
      if s.Go? {
        CountGrows(json, s.p);
      }
    }
  }

  lemma CountedKeeps(m: nat, p: PState)
    requires WellFormed(Fill(m), p)
    ensures WellFormed(Mode.Count, Counted(p)) && p.toknext <= m
  {
    assert forall i :: 0 <= i < |p.stack| ==> FrameOk(Fill(m), p, p.stack[i]);
  }

  /**
   Counting agrees with filling: with room for `m` tokens the fill pass returns what the count pass returns
   (code, error position and state up to tokens) when the count stays within `m`, and NOMEM otherwise.
   */
  lemma {:induction false} CountAgreesWithFill(json: bytes, m: nat, p: PState)
    requires WellFormed(Fill(m), p)
    ensures var c, f := Parse(json, Mode.Count, Counted(p)), Parse(json, Fill(m), p);
      if c.p.toknext <= m then f.rc == c.rc && f.at == c.at && Counted(f.p) == c.p else f.rc == NoMem
    decreases |json| - p.pos
  {
    hide StepAt, WellFormed;
    CountedKeeps(m, p);
    if p.pos < |json| {
      StepAgrees(json, m, p);
      StepKeeps(json, Fill(m), p);
      StepKeeps(json, Mode.Count, Counted(p));
      var s, c := StepAt(json, Fill(m), p), StepAt(json, Mode.Count, Counted(p));
      if s.Go? {
        CountAgreesWithFill(json, m, s.p);
      } else if c.Go? {
        CountGrows(json, c.p);
      }
      StepRoom(json, m, p);
    }
  }

  lemma StepRoom(json: bytes, m: nat, p: PState)
    requires WellFormed(Fill(m), p) && p.pos < |json|
    ensures StepAt(json, Fill(m), p).p.toknext <= m
  {
    hide StepAt;
    StepKeeps(json, Fill(m), p);
  }

  /** The second pass of `tokenize` cannot fail: a count of n is matched by n tokens in an array of n. */
  lemma SecondPassSucceeds(json: bytes, n: nat)
    requires Parse(json, Mode.Count, START).rc == Tokens(n)
    ensures Parse(json, Fill(n), START).rc == Tokens(n) && |Parse(json, Fill(n), START).p.toks| == n
  {
    hide StepAt;
    assert Counted(START) == START;
    CountAgreesWithFill(json, n, START);
    ParseKeeps(json, Fill(n), START);
    ParseCounts(json, Mode.Count, START);
    ParseCounts(json, Fill(n), START);
  }

  lemma {:induction false} ParseCounts(json: bytes, mode: Mode, p: PState)
    ensures var r := Parse(json, mode, p); r.rc.Tokens? ==> r.rc.n == r.p.toknext && r.p.stack == []
    decreases |json| - p.pos
  {
    hide StepAt;
    if p.pos < |json| {
      var s := StepAt(json, mode, p);
      if s.Go? {
        ParseCounts(json, mode, s.p);
      }
    }
  }
}
