/**
 Parsing inverts printing: every well-formed document nested at most 64 deep, with any white space, parses to
 exactly its preorder token array.
 */
module JstokComplete {
  import opened Bytes
  import opened JsonLexer
  import opened Jstok
  import opened JsonTree

  // What a structural byte makes the parser do.

  lemma StepSpace(json: bytes, mode: Mode, p: PState)
    requires p.pos < |json| && IsSpace(json[p.pos])
    ensures StepAt(json, mode, p) == Go(p.(pos := p.pos + 1))
  {
  }

  lemma StepPunctuation(json: bytes, mode: Mode, p: PState)
    requires p.pos < |json|
    ensures json[p.pos] == COLON ==> StepAt(json, mode, p) == Colons(p)
    ensures json[p.pos] == COMMA ==> StepAt(json, mode, p) == Commas(p)
  {
    hide Colons, Commas, StartContainer, EndContainer, StringStep, PrimitiveStep;
  }

  lemma StepBracket(json: bytes, mode: Mode, p: PState, kind: ConKind)
    requires p.pos < |json| && kind != Root
    ensures json[p.pos] == OpenText(kind)[0] ==> StepAt(json, mode, p) == StartContainer(mode, p, TokKind(kind))
    ensures json[p.pos] == CloseText(kind)[0] ==> StepAt(json, mode, p) == EndContainer(mode, p, TokKind(kind))
  {
    hide Colons, Commas, StartContainer, EndContainer, StringStep, PrimitiveStep;
  }

  lemma StepScalar(json: bytes, mode: Mode, p: PState)
    requires p.pos < |json|
    ensures json[p.pos] == QUOTE ==> StepAt(json, mode, p) == StringStep(json, mode, p)
    ensures StartsPrimitive(json[p.pos]) ==> StepAt(json, mode, p) == PrimitiveStep(json, mode, p)
  {
    hide Colons, Commas, StartContainer, EndContainer, StringStep, PrimitiveStep;
  }

  lemma StepGo(json: bytes, mode: Mode, p: PState, q: PState)
    requires p.pos < |json| && StepAt(json, mode, p) == Go(q)
    ensures Parse(json, mode, p) == Parse(json, mode, q)
  {
  }

  lemma FirstSpace(json: bytes, pos: nat, ws: bytes)
    requires At(json, pos, ws) && AllSpace(ws) && ws != []
    ensures pos < |json| && IsSpace(json[pos]) && At(json, pos + 1, ws[1..]) && AllSpace(ws[1..])
  {
    AtFirst(json, pos, ws);
  }

  lemma {:induction false} SkipSpace(json: bytes, mode: Mode, p: PState, ws: bytes)
    requires At(json, p.pos, ws) && AllSpace(ws)
    ensures Parse(json, mode, p) == Parse(json, mode, p.(pos := p.pos + |ws|))
    decreases |ws|
  {
    hide StepAt, At, Parse, AllSpace, IsSpace;
    if ws == [] {
      assert p.(pos := p.pos + 0) == p;
    } else {
      FirstSpace(json, p.pos, ws);
      var q := p.(pos := p.pos + 1);
      StepSpace(json, mode, p);
      StepGo(json, mode, p, q);
      SkipSpace(json, mode, q, ws[1..]);
    }
  }

  // --- scalars --------------------------------------------------------------------------------------------

  /** The parser after it has taken the value `v` at its position. */
  function AfterValue(p: PState, v: Node): PState
    requires ExpectsValue(p)
  {
    var q := Accept(p);
    q.(pos := p.pos + |Print(v)|, toknext := p.toknext + Size(v), toks := q.toks + Flatten(v, p.pos))
  }

  lemma StringScans(json: bytes, pos: nat, body: bytes)
    requires At(json, pos, [QUOTE] + body + [QUOTE]) && StringBody(body)
    ensures pos + 2 + |body| <= |json| && json[pos] == QUOTE && ScanString(json, pos + 1) == Done(pos + 1 + |body|)
  {
    hide At, ScanString, StringBody;
    AtSplit(json, pos, [QUOTE] + body, [QUOTE]);
    AtSplit(json, pos, [QUOTE], body);
    var e := pos + 1 + |body|;
    AtFirst(json, pos, [QUOTE]);
    AtFirst(json, e, [QUOTE]);
    AtIs(json, e, [QUOTE]);
    AtIs(json, pos + 1, body);
    ScanStringComplete(json, pos + 1, e);
  }

  lemma CompleteString(json: bytes, m: nat, p: PState, v: Node)
    requires v.Str? && ExpectsValue(p) && Wf(v) && At(json, p.pos, Print(v)) && p.toknext + 1 <= m
    ensures Parse(json, Fill(m), p) == Parse(json, Fill(m), AfterValue(p, v))
  {
    hide StepAt, Parse, At, ScanString, StringBody, Accept;
    StringScans(json, p.pos, v.body);
    StepScalar(json, Fill(m), p);
    assert !ExpectsKey(p);
    AcceptSame(p);
    StepGo(json, Fill(m), p, AfterValue(p, v));
  }

  /** Accepting a value moves nothing and makes no token. */
  lemma AcceptSame(p: PState)
    requires ExpectsValue(p)
    ensures var q := Accept(p); q.pos == p.pos && q.toknext == p.toknext && |q.stack| == |p.stack| && |q.toks| == |p.toks|
  {
  }

  lemma PrimitiveStarts(s: bytes)
    requires JsonLexer.Primitive(s)
    ensures s != []
  {
    if !Literal(s) { NumberStarts(s); }
  }

  lemma CompletePrimitive(json: bytes, m: nat, p: PState, v: Node)
    requires v.Prim? && ExpectsValue(p) && Wf(v) && At(json, p.pos, Print(v)) && p.toknext + 1 <= m
    requires Settled(json, p.pos + |v.text|, Literal(v.text))
    ensures Parse(json, Fill(m), p) == Parse(json, Fill(m), AfterValue(p, v))
  {
    hide StepAt, Parse, ScanPrimitive, Accept, Literal, Number, StartsPrimitive, Settled;
    PrimitiveStarts(v.text);
    AtIs(json, p.pos, v.text);
    ScanPrimitiveComplete(json, p.pos, p.pos + |v.text|);
    StepScalar(json, Fill(m), p);
    AcceptSame(p);
    StepGo(json, Fill(m), p, AfterValue(p, v));
  }

  // --- what stands in front of a value in a container -----------------------------------------------------

  function FirstState(kind: ConKind): FrameState {
    if kind == Obj then KeyOrEnd else ValueOrEnd
  }

  function LastState(kind: ConKind): FrameState {
    if kind == Obj then ObjCommaOrEnd else ArrCommaOrEnd
  }

  function ReadyState(kind: ConKind, first: bool): FrameState {
    if kind == Obj then ObjValue else if first then ValueOrEnd else ArrValue
  }

  /** Between two children, or before the first. */
  predicate Between(p: PState, kind: ConKind, first: bool) {
    kind != Root && p.stack != [] && Top(p).kind == TokKind(kind)
    && Top(p).st == if first then FirstState(kind) else LastState(kind)
  }

  lemma CompleteComma(json: bytes, mode: Mode, p: PState, kind: ConKind, k: Kid)
    requires Between(p, kind, false) && AllSpace(k.c) && At(json, p.pos, k.c + [COMMA])
    ensures Parse(json, mode, p)
         == Parse(json, mode, WithTop(p, if kind == Obj then KeyOnly else ArrValue).(pos := p.pos + |k.c| + 1))
  {
    hide StepAt, Parse, At;
    AtSplit(json, p.pos, k.c, [COMMA]);
    SkipSpace(json, mode, p, k.c);
    var q := p.(pos := p.pos + |k.c|);
    AtFirst(json, q.pos, [COMMA]);
    AtIs(json, q.pos, [COMMA]);
    StepPunctuation(json, mode, q);
    StepGo(json, mode, q, WithTop(p, if kind == Obj then KeyOnly else ArrValue).(pos := p.pos + |k.c| + 1));
  }

  /** The parser behind the key string that starts at its position. */
  function AfterKey(p: PState, key: bytes): PState
    requires p.stack != []
  {
    WithTop(p, Colon).(pos := p.pos + |key| + 2, toknext := p.toknext + 1,
                       toks := p.toks + [Tok(String, p.pos + 1, p.pos + 1 + |key|, 0)])
  }

  lemma CompleteKeyString(json: bytes, m: nat, p: PState, key: bytes)
    requires ExpectsKey(p) && StringBody(key) && At(json, p.pos, [QUOTE] + key + [QUOTE]) && p.toknext + 1 <= m
    ensures Parse(json, Fill(m), p) == Parse(json, Fill(m), AfterKey(p, key))
  {
    hide StepAt, Parse, At, ScanString, StringBody;
    StringScans(json, p.pos, key);
    StepScalar(json, Fill(m), p);
    StepGo(json, Fill(m), p, AfterKey(p, key));
  }

  lemma CompleteColon(json: bytes, mode: Mode, p: PState)
    requires p.stack != [] && Top(p).kind == Object && Top(p).st == Colon && At(json, p.pos, [COLON])
    ensures Parse(json, mode, p) == Parse(json, mode, WithTop(p, ObjValue).(pos := p.pos + 1))
  {
    hide StepAt, Parse;
    AtFirst(json, p.pos, [COLON]);
    StepPunctuation(json, mode, p);
    StepGo(json, mode, p, WithTop(p, ObjValue).(pos := p.pos + 1));
  }

  lemma CompleteKey(json: bytes, m: nat, p: PState, k: Kid)
    requires ExpectsKey(p) && AllSpace(k.k0) && StringBody(k.key) && AllSpace(k.k1)
    requires At(json, p.pos, KeyText(Obj, k)) && p.toknext + 1 <= m
    ensures Parse(json, Fill(m), p)
         == Parse(json, Fill(m), WithTop(p, ObjValue).(pos := p.pos + |KeyText(Obj, k)|, toknext := p.toknext + 1,
              toks := p.toks + [Tok(String, p.pos + |k.k0| + 1, p.pos + |k.k0| + 1 + |k.key|, 0)]))
  {
    hide Parse, At, StringBody, AllSpace;
    var text := [QUOTE] + k.key + [QUOTE];
    AtSplit(json, p.pos, k.k0 + text + k.k1, [COLON]);
    AtSplit(json, p.pos, k.k0 + text, k.k1);
    AtSplit(json, p.pos, k.k0, text);
    SkipSpace(json, Fill(m), p, k.k0);
    var p1 := p.(pos := p.pos + |k.k0|);
    CompleteKeyString(json, m, p1, k.key);
    var p2 := AfterKey(p1, k.key);
    SkipSpace(json, Fill(m), p2, k.k1);
    var p3 := p2.(pos := p2.pos + |k.k1|);
    CompleteColon(json, Fill(m), p3);
    assert WithTop(p3, ObjValue).stack == WithTop(p, ObjValue).stack;
  }

  /** The parser when only the value of the child is still to come. */
  function AfterHead(p: PState, kind: ConKind, first: bool, k: Kid): PState
    requires p.stack != []
  {
    var keys := KeyToks(kind, first, k, p.pos);
    WithTop(p, ReadyState(kind, first)).(pos := p.pos + |Head(kind, first, k)|, toknext := p.toknext + |keys|,
                                         toks := p.toks + keys)
  }

  /** The parser behind the comma of a child. */
  function AfterComma(p: PState, kind: ConKind, first: bool, k: Kid): PState
    requires p.stack != []
  {
    if first then p
    else WithTop(p, if kind == Obj then KeyOnly else ArrValue).(pos := p.pos + |k.c| + 1)
  }

  lemma CompleteHead(json: bytes, m: nat, p: PState, kind: ConKind, first: bool, k: Kid)
    requires Between(p, kind, first) && WfKid(k) && At(json, p.pos, Head(kind, first, k))
    requires p.toknext + (if kind == Obj then 1 else 0) <= m
    ensures Parse(json, Fill(m), p) == Parse(json, Fill(m), AfterHead(p, kind, first, k))
  {
    hide Parse, At, StringBody, AllSpace, Wf;
    var comma, key := CommaText(kind, first, k), KeyText(kind, k);
    AtSplit(json, p.pos, comma + key, k.v0);
    AtSplit(json, p.pos, comma, key);
    var p1 := AfterComma(p, kind, first, k);
    if !first {
      CompleteComma(json, Fill(m), p, kind, k);
    }
    if kind == Obj {
      CompleteKey(json, m, p1, k);
    }
    var p2 := AfterHead(p, kind, first, k).(pos := p.pos + |comma| + |key|);
    AfterKeyIs(p, kind, first, k);
    SkipSpace(json, Fill(m), p2, k.v0);
  }

  lemma AfterKeyIs(p: PState, kind: ConKind, first: bool, k: Kid)
    requires Between(p, kind, first)
    ensures var p1 := AfterComma(p, kind, first, k);
      var p2 := AfterHead(p, kind, first, k).(pos := p.pos + |CommaText(kind, first, k)| + |KeyText(kind, k)|);
      p2 == if kind == Obj then
        WithTop(p1, ObjValue).(pos := p1.pos + |KeyText(Obj, k)|, toknext := p1.toknext + 1,
              toks := p1.toks + [Tok(String, p1.pos + |k.k0| + 1, p1.pos + |k.k0| + 1 + |k.key|, 0)])
        else p1
  {
    assert p.toks + [] == p.toks;
  }

  // --- children of a bracketed container ------------------------------------------------------------------

  /** The last child, in tokens. */
  lemma LastKidTokens(kind: ConKind, ks: Kids, off: nat)
    requires ks.Snoc?
    ensures var k, first := ks.last, ks.init.NoKids?;
      var at := off + |PrintKids(kind, ks.init)|;
      FlattenKids(kind, ks, off)
      == FlattenKids(kind, ks.init, off) + (KeyToks(kind, first, k, at) + Flatten(k.value, at + |Head(kind, first, k)|))
  {
    hide Print, Flatten, Size, Depth, Head;
  }

  /** The last child, in lengths and counts. */
  lemma LastKidSizes(kind: ConKind, ks: Kids)
    requires ks.Snoc?
    ensures |PrintKids(kind, ks)| == |PrintKids(kind, ks.init)| + |Head(kind, ks.init.NoKids?, ks.last)| + |Print(ks.last.value)|
    ensures KidsSize(kind, ks) == KidsSize(kind, ks.init) + (if kind == Obj then 1 else 0) + Size(ks.last.value)
    ensures KidCount(ks) == KidCount(ks.init) + 1
    ensures KidsDepth(ks.init) <= KidsDepth(ks) && Depth(ks.last.value) <= KidsDepth(ks)
  {
    hide Print, Flatten, Size, Depth, Head;
  }

  lemma LastKidText(kind: ConKind, ks: Kids)
    requires ks.Snoc?
    ensures PrintKids(kind, ks) == PrintKids(kind, ks.init) + (Head(kind, ks.init.NoKids?, ks.last) + Print(ks.last.value))
  {
    hide Print, Head;
  }

  /** The parser inside a container that opened in state `p`, after the children `ks`. */
  function Inside(p: PState, kind: ConKind, ks: Kids): PState
    requires ExpectsValue(p)
  {
    var q := Accept(p);
    PState(p.pos + 1 + |PrintKids(kind, ks)|, p.toknext + 1 + KidsSize(kind, ks),
           q.toks + ([Tok(TokKind(kind), p.pos, -1, KidCount(ks))] + FlattenKids(kind, ks, p.pos + 1)),
           q.stack + [Frame(TokKind(kind), if ks.NoKids? then FirstState(kind) else LastState(kind), p.toknext)],
           q.rootDone)
  }

  lemma PushKeeps(m: nat, q: PState, r: PState, f: Frame)
    requires WellFormed(Fill(m), q) && |q.stack| < MAX_DEPTH && r.stack == q.stack + [f]
    requires q.toknext <= r.toknext == |r.toks| <= m && FrameOk(Fill(m), r, f)
    ensures WellFormed(Fill(m), r)
  {
    FramesStay(Fill(m), q, q.(toknext := r.toknext));
    assert forall i :: 0 <= i < |q.stack| ==> FrameOk(Fill(m), q.(toknext := r.toknext), q.stack[i]);
    assert forall i :: 0 <= i < |r.stack| ==> r.stack[i] == if i < |q.stack| then q.stack[i] else f;
  }

  lemma InsideKeeps(m: nat, p: PState, kind: ConKind, ks: Kids)
    requires WellFormed(Fill(m), p) && ExpectsValue(p) && kind != Root
    requires |p.stack| < MAX_DEPTH && p.toknext + 1 + KidsSize(kind, ks) <= m
    ensures WellFormed(Fill(m), Inside(p, kind, ks)) && |Inside(p, kind, ks).stack| == |p.stack| + 1
  {
    hide WellFormed, Accept, ExpectsValue, FlattenKids, PrintKids, KidsSize;
    AcceptKeeps(Fill(m), p);
    FlattenKidsSize(kind, ks, p.pos + 1);
    var q, r := Accept(p), Inside(p, kind, ks);
    RoomUsed(m, q);
    PushKeeps(m, q, r, Frame(TokKind(kind), if ks.NoKids? then FirstState(kind) else LastState(kind), p.toknext));
  }

  /** Replacing the container's own token leaves what is before and behind it. */
  lemma TokenReplaced(pre: seq<Tok>, t: Tok, t': Tok, post: seq<Tok>)
    ensures var s := pre + ([t] + post); s[|pre|] == t && s[|pre| := t'] == pre + ([t'] + post)
  {
  }

  lemma KidTokens(Q: seq<Tok>, t: Tok, t': Tok, F: seq<Tok>, K: seq<Tok>, V: seq<Tok>)
    ensures var s := Q + ([t] + F) + K;
      s[|Q|] == t && s[|Q| := t'] + V == Q + ([t'] + (F + (K + V)))
  {
    assert Q + ([t] + F) + K == Q + ([t] + (F + K));
    TokenReplaced(Q, t, t', F + K);
    assert Q + ([t'] + (F + K)) + V == Q + ([t'] + (F + (K + V)));
  }

  /** Accepting the value of a child counts it and leaves the frame behind the child. */
  lemma HeadThenAccept(a: PState, kind: ConKind, first: bool, k: Kid, i: nat)
    requires Between(a, kind, first) && Top(a).tok == i && i < |a.toks|
    ensures var h := AfterHead(a, kind, first, k);
      && ExpectsValue(h)
      && var q := Accept(h);
      && h.toks == a.toks + KeyToks(kind, first, k, a.pos)
      && q.toks == h.toks[i := h.toks[i].(size := h.toks[i].size + 1)]
      && h.pos == a.pos + |Head(kind, first, k)|
      && q.rootDone == a.rootDone
      && q.stack == a.stack[..|a.stack| - 1] + [Top(a).(st := LastState(kind))]
  {
  }

  lemma InsideToken(m: nat, p: PState, kind: ConKind, ks: Kids)
    requires WellFormed(Fill(m), p) && ExpectsValue(p) && kind != Root
    ensures var a := Inside(p, kind, ks); var q := Accept(p);
      && |q.toks| == p.toknext < |a.toks| && a.stack == q.stack + [Top(a)] && Top(a).tok == p.toknext
      && a.toks == q.toks + ([Tok(TokKind(kind), p.pos, -1, KidCount(ks))] + FlattenKids(kind, ks, p.pos + 1))
      && a.rootDone == q.rootDone && Top(a).kind == TokKind(kind)
  {
    hide WellFormed, Accept, ExpectsValue, FlattenKids, PrintKids, KidsSize, KidCount;
    AcceptKeeps(Fill(m), p);
    RoomUsed(m, Accept(p));
  }

  lemma InsideFrame(m: nat, p: PState, kind: ConKind, ks: Kids)
    requires WellFormed(Fill(m), p) && ExpectsValue(p) && kind != Root
    ensures var a := Inside(p, kind, ks);
      p.toknext < |a.toks| && a.stack != [] && Top(a).tok == p.toknext && a.rootDone == Accept(p).rootDone
  {
    hide WellFormed, Accept;
    InsideToken(m, p, kind, ks);
  }

  lemma KidTakenTokens(m: nat, p: PState, kind: ConKind, ks: Kids)
    requires WellFormed(Fill(m), p) && ExpectsValue(p) && kind != Root && ks.Snoc?
    ensures var h := AfterHead(Inside(p, kind, ks.init), kind, ks.init.NoKids?, ks.last);
      ExpectsValue(h) && Accept(h).toks + Flatten(ks.last.value, h.pos) == Inside(p, kind, ks).toks
  {
    hide WellFormed, Accept, ExpectsValue, AfterHead, Inside, Between, FlattenKids, PrintKids, KidsSize, KidsDepth,
      KeyToks, Head, Flatten, Print, Size, Depth, TokKind, KidCount, Top, LastState;
    LastKidTokens(kind, ks, p.pos + 1);
    LastKidSizes(kind, ks);
    var k, first, n := ks.last, ks.init.NoKids?, KidCount(ks.init);
    var a := Inside(p, kind, ks.init);
    InsideShape(p, kind, ks.init);
    InsideToken(m, p, kind, ks.init);
    var h := AfterHead(a, kind, first, k);
    var q := Accept(p);
    HeadThenAccept(a, kind, first, k, p.toknext);
    InsideToken(m, p, kind, ks);
    var F, K, V := FlattenKids(kind, ks.init, p.pos + 1), KeyToks(kind, first, k, a.pos), Flatten(k.value, h.pos);
    var t := Tok(TokKind(kind), p.pos, -1, n);
    KidTokens(q.toks, t, t.(size := n + 1), F, K, V);
  }

  /** Taking the value after the head of a child ends up behind that child. */
  lemma KidTaken(m: nat, p: PState, kind: ConKind, ks: Kids)
    requires WellFormed(Fill(m), p) && ExpectsValue(p) && kind != Root && ks.Snoc?
    requires |p.stack| < MAX_DEPTH && p.toknext + 1 + KidsSize(kind, ks) <= m
    ensures var h := AfterHead(Inside(p, kind, ks.init), kind, ks.init.NoKids?, ks.last);
      ExpectsValue(h) && AfterValue(h, ks.last.value) == Inside(p, kind, ks)
  {
    hide WellFormed, Accept, ExpectsValue, Between, FlattenKids, PrintKids, KidsSize, KidsDepth, KeyToks,
      Head, Flatten, Print, Size, Depth, WithTop, Top, FirstState, LastState, ReadyState, TokKind;
    LastKidSizes(kind, ks);
    var a := Inside(p, kind, ks.init);
    InsideShape(p, kind, ks.init);
    InsideFrame(m, p, kind, ks.init);
    HeadThenAccept(a, kind, ks.init.NoKids?, ks.last, p.toknext);
    SameFrame(p, kind, ks);
    KidTakenTokens(m, p, kind, ks);
    KeyTokCount(kind, ks.init.NoKids?, ks.last, a.pos);
  }

  lemma SameFrame(p: PState, kind: ConKind, ks: Kids)
    requires ExpectsValue(p) && ks.Snoc?
    ensures var b := Inside(p, kind, ks); var a := Inside(p, kind, ks.init);
      b.stack == a.stack[..|a.stack| - 1] + [Top(a).(st := LastState(kind))]
  {
    hide Accept;
  }

  lemma KeyTokCount(kind: ConKind, first: bool, k: Kid, off: nat)
    ensures |KeyToks(kind, first, k, off)| == if kind == Obj then 1 else 0
  {
  }

  lemma RoomUsed(m: nat, p: PState)
    requires WellFormed(Fill(m), p)
    ensures |p.toks| == p.toknext
  {
  }

  /** The byte after a child that is not the last delimits it. */
  lemma HeadDelimits(json: bytes, pos: nat, kind: ConKind, k: Kid)
    requires kind != Root && WfKid(k) && At(json, pos, Head(kind, false, k))
    ensures pos < |json| && IsDelim(json[pos])
  {
    AtSplit(json, pos, CommaText(kind, false, k) + KeyText(kind, k), k.v0);
    AtSplit(json, pos, CommaText(kind, false, k), KeyText(kind, k));
    AtFirst(json, pos, k.c + [COMMA]);
  }

  lemma {:induction false} CompleteKids(json: bytes, m: nat, p: PState, kind: ConKind, ks: Kids)
    requires WellFormed(Fill(m), p) && ExpectsValue(p) && kind != Root && WfKids(ks)
    requires |p.stack| + 1 + KidsDepth(ks) <= MAX_DEPTH && p.toknext + 1 + KidsSize(kind, ks) <= m
    requires At(json, p.pos + 1, PrintKids(kind, ks))
    requires var e := p.pos + 1 + |PrintKids(kind, ks)|; e < |json| && IsDelim(json[e])
    ensures Parse(json, Fill(m), Inside(p, kind, NoKids)) == Parse(json, Fill(m), Inside(p, kind, ks))
    decreases ks
  {
    hide Parse, WellFormed, Inside, AfterHead, AfterValue, StepAt, Head, Settled, At, ExpectsValue, IsDelim, WfKid;
    hide PrintKids, KidsSize, Size, KidsDepth, Depth, KeyToks, Between;
    if ks.Snoc? {
      LastKidSizes(kind, ks);
      LastKidText(kind, ks);
      var k, first := ks.last, ks.init.NoKids?;
      var head, before := Head(kind, first, k), PrintKids(kind, ks.init);
      var at := p.pos + 1 + |before|;
      AtSplit(json, p.pos + 1, before, head + Print(k.value));
      AtSplit(json, at, head, Print(k.value));
      var a := Inside(p, kind, ks.init);
      InsideShape(p, kind, ks.init);
      if !first {
        HeadDelimits(json, at, kind, k);
        CompleteKids(json, m, p, kind, ks.init);
      }
      CompleteHead(json, m, a, kind, first, k);
      KidTaken(m, p, kind, ks);
      InsideKeeps(m, p, kind, ks.init);
      var h := AfterHead(a, kind, first, k);
      AfterHeadKeeps(m, a, kind, first, k);
      ValueOfWf(k);
      SettledByDelim(json, h.pos + |Print(k.value)|);
      CompleteValue(json, m, h, k.value);
    }
  }

  lemma ValueOfWf(k: Kid)
    requires WfKid(k)
    ensures Wf(k.value)
  {
  }

  lemma SettledByDelim(json: bytes, e: nat)
    requires e < |json| && IsDelim(json[e])
    ensures Settled(json, e, true) && Settled(json, e, false)
  {
  }

  lemma InsideShape(p: PState, kind: ConKind, ks: Kids)
    requires ExpectsValue(p) && kind != Root
    ensures var a := Inside(p, kind, ks);
      && a.pos == p.pos + 1 + |PrintKids(kind, ks)| && a.toknext == p.toknext + 1 + KidsSize(kind, ks)
      && Between(a, kind, ks.NoKids?)
  {
    hide Accept, PrintKids, KidsSize;
  }

  lemma AfterHeadKeeps(m: nat, a: PState, kind: ConKind, first: bool, k: Kid)
    requires WellFormed(Fill(m), a) && Between(a, kind, first) && a.toknext + (if kind == Obj then 1 else 0) <= m
    ensures var h := AfterHead(a, kind, first, k);
      && WellFormed(Fill(m), h) && |h.stack| == |a.stack| && h.pos == a.pos + |Head(kind, first, k)|
      && h.toknext == a.toknext + (if kind == Obj then 1 else 0)
  {
    var h := AfterHead(a, kind, first, k);
    assert FrameOk(Fill(m), a, Top(a));
    FramesStay(Fill(m), a, a.(toknext := h.toknext));
  }

  // --- values ---------------------------------------------------------------------------------------------

  lemma OpenGoes(json: bytes, m: nat, p: PState, kind: ConKind)
    requires ExpectsValue(p) && kind != Root && At(json, p.pos, OpenText(kind))
    requires WellFormed(Fill(m), p) && |p.stack| < MAX_DEPTH && p.toknext < m
    ensures Parse(json, Fill(m), p) == Parse(json, Fill(m), Inside(p, kind, NoKids))
  {
    hide StepAt, Parse, Accept;
    AtFirst(json, p.pos, OpenText(kind));
    StepBracket(json, Fill(m), p, kind);
    var t := Tok(TokKind(kind), p.pos, -1, 0);
    assert [t] + [] == [t];
    AcceptSame(p);
    StepGo(json, Fill(m), p, Inside(p, kind, NoKids));
  }

  /** The closing bracket fills in the end of the container's token and forgets its frame. */
  lemma CloseStep(m: nat, p: PState, v: Node)
    requires v.Con? && v.kind != Root && WellFormed(Fill(m), p) && ExpectsValue(p)
    ensures var a := Inside(p, v.kind, v.kids); var b := a.(pos := a.pos + |v.tail|);
      EndContainer(Fill(m), b, TokKind(v.kind)) == Go(AfterValue(p, v))
  {
    hide Accept, WellFormed, ExpectsValue, Print, PrintKids, Size, KidsSize, FlattenKids;
    ContainerParts(v);
    ContainerToks(v, p.pos);
    var a := Inside(p, v.kind, v.kids);
    var b := a.(pos := a.pos + |v.tail|);
    InsideToken(m, p, v.kind, v.kids);
    var q := Accept(p);
    var t := Tok(TokKind(v.kind), p.pos, -1, KidCount(v.kids));
    TokenReplaced(q.toks, t, t.(end := b.pos + 1), FlattenKids(v.kind, v.kids, p.pos + 1));
    assert b.stack[..|b.stack| - 1] == q.stack;
    assert |Print(v)| == b.pos + 1 - p.pos;
  }

  lemma ContainerToks(v: Node, off: nat)
    requires v.Con? && v.kind != Root
    ensures Flatten(v, off)
         == [Tok(TokKind(v.kind), off, off + |Print(v)|, KidCount(v.kids))] + FlattenKids(v.kind, v.kids, off + 1)
  {
    hide Print, FlattenKids;
  }

  lemma CloseGoes(json: bytes, m: nat, p: PState, v: Node)
    requires v.Con? && v.kind != Root && AllSpace(v.tail) && WellFormed(Fill(m), p) && ExpectsValue(p)
    requires At(json, p.pos + 1 + |PrintKids(v.kind, v.kids)|, v.tail + CloseText(v.kind))
    ensures Parse(json, Fill(m), Inside(p, v.kind, v.kids)) == Parse(json, Fill(m), AfterValue(p, v))
  {
    hide StepAt, Parse, Inside, AfterValue, WellFormed, EndContainer, At, ExpectsValue, AllSpace, PrintKids, Between,
      KidsSize;
    var a := Inside(p, v.kind, v.kids);
    InsideShape(p, v.kind, v.kids);
    AtSplit(json, a.pos, v.tail, CloseText(v.kind));
    SkipSpace(json, Fill(m), a, v.tail);
    var b := a.(pos := a.pos + |v.tail|);
    AtFirst(json, b.pos, CloseText(v.kind));
    AtIs(json, b.pos, CloseText(v.kind));
    StepBracket(json, Fill(m), b, v.kind);
    CloseStep(m, p, v);
    StepGo(json, Fill(m), b, AfterValue(p, v));
  }

  lemma CloseDelimits(kind: ConKind, tail: bytes)
    requires kind != Root && AllSpace(tail)
    ensures IsDelim((tail + CloseText(kind))[0])
  {
  }

  /** A container, taken apart. */
  lemma ContainerParts(v: Node)
    requires v.Con? && v.kind != Root
    ensures |Print(v)| == 1 + |PrintKids(v.kind, v.kids)| + |v.tail| + 1
    ensures Size(v) == 1 + KidsSize(v.kind, v.kids) && Depth(v) == 1 + KidsDepth(v.kids)
    ensures Wf(v) ==> WfKids(v.kids) && AllSpace(v.tail)
    ensures |OpenText(v.kind)| == |CloseText(v.kind)| == 1
  {
    hide PrintKids, KidsSize, KidsDepth, WfKids;
  }

  lemma ContainerText(v: Node)
    requires v.Con?
    ensures Print(v) == OpenText(v.kind) + (PrintKids(v.kind, v.kids) + (v.tail + CloseText(v.kind)))
  {
    hide PrintKids, OpenText, CloseText;
    var a, b, c, d := OpenText(v.kind), PrintKids(v.kind, v.kids), v.tail, CloseText(v.kind);
    assert a + b + c + d == a + (b + (c + d));
  }

  lemma ContainerAt(json: bytes, pos: nat, v: Node)
    requires v.Con? && v.kind != Root && At(json, pos, Print(v)) && AllSpace(v.tail)
    ensures var e := pos + 1 + |PrintKids(v.kind, v.kids)|;
      && At(json, pos, OpenText(v.kind)) && At(json, pos + 1, PrintKids(v.kind, v.kids))
      && At(json, e, v.tail + CloseText(v.kind))
      && e < |json| && IsDelim(json[e])
  {
    hide At, Print, PrintKids, AllSpace, OpenText, CloseText, IsDelim;
    ContainerParts(v);
    ContainerText(v);
    var inner, close := PrintKids(v.kind, v.kids), v.tail + CloseText(v.kind);
    AtSplit(json, pos, OpenText(v.kind), inner + close);
    AtSplit(json, pos + 1, inner, close);
    var e := pos + 1 + |inner|;
    AtFirst(json, e, close);
    AtIs(json, e, close);
    CloseDelimits(v.kind, v.tail);
  }

  lemma NeverRoot(v: Node)
    requires v.Con? && Wf(v)
    ensures v.kind != Root
  {
  }

  /** The brackets of a container; its children remain. */
  lemma Brackets(json: bytes, m: nat, p: PState, v: Node)
    requires WellFormed(Fill(m), p) && ExpectsValue(p) && Wf(v) && At(json, p.pos, Print(v))
    requires |p.stack| + Depth(v) <= MAX_DEPTH && p.toknext + Size(v) <= m
    requires v.Con?
    ensures var e := p.pos + 1 + |PrintKids(v.kind, v.kids)|;
      && v.kind != Root && WfKids(v.kids)
      && |p.stack| + 1 + KidsDepth(v.kids) <= MAX_DEPTH && p.toknext + 1 + KidsSize(v.kind, v.kids) <= m
      && At(json, p.pos + 1, PrintKids(v.kind, v.kids)) && e < |json| && IsDelim(json[e])
    ensures Parse(json, Fill(m), p) == Parse(json, Fill(m), Inside(p, v.kind, NoKids))
    ensures Parse(json, Fill(m), Inside(p, v.kind, v.kids)) == Parse(json, Fill(m), AfterValue(p, v))
  {
    hide Parse, WellFormed, Inside, AfterValue, StepAt, At, WfKids, ExpectsValue, Wf, Print, PrintKids, Size,
      KidsSize, Depth, KidsDepth, OpenText, CloseText, AllSpace, IsDelim;
    NeverRoot(v);
    ContainerParts(v);
    ContainerAt(json, p.pos, v);
    OpenGoes(json, m, p, v.kind);
    CloseGoes(json, m, p, v);
  }

  lemma {:induction false} CompleteContainer(json: bytes, m: nat, p: PState, v: Node)
    requires WellFormed(Fill(m), p) && ExpectsValue(p) && Wf(v) && At(json, p.pos, Print(v))
    requires |p.stack| + Depth(v) <= MAX_DEPTH && p.toknext + Size(v) <= m
    requires v.Con?
    ensures Parse(json, Fill(m), p) == Parse(json, Fill(m), AfterValue(p, v))
    decreases v, 0
  {
    hide Parse, WellFormed, Inside, AfterValue, StepAt, At, WfKids, ExpectsValue, Wf, Print, PrintKids, Size,
      KidsSize, Depth, KidsDepth, IsDelim;
    Brackets(json, m, p, v);
    CompleteKids(json, m, p, v.kind, v.kids);
  }

  lemma {:induction false} CompleteValue(json: bytes, m: nat, p: PState, v: Node)
    requires WellFormed(Fill(m), p) && ExpectsValue(p) && Wf(v) && At(json, p.pos, Print(v))
    requires |p.stack| + Depth(v) <= MAX_DEPTH && p.toknext + Size(v) <= m
    requires v.Prim? ==> Settled(json, p.pos + |v.text|, Literal(v.text))
    ensures Parse(json, Fill(m), p) == Parse(json, Fill(m), AfterValue(p, v))
    decreases v
  {
    hide Parse, WellFormed, AfterValue, StepAt, At, ExpectsValue, Wf;
    match v
    case Str(_) => CompleteString(json, m, p, v);
    case Prim(_) => CompletePrimitive(json, m, p, v);
    case Con(_, _, _) => CompleteContainer(json, m, p, v);
  }

  // --- documents ------------------------------------------------------------------------------------------

  /** The parser after the top-level values `ks`. */
  function AtTop(ks: Kids): PState {
    PState(|PrintKids(Root, ks)|, KidsSize(Root, ks), FlattenKids(Root, ks, 0), [], ks.Snoc?)
  }

  lemma AtTopKeeps(m: nat, ks: Kids)
    requires KidsSize(Root, ks) <= m
    ensures WellFormed(Fill(m), AtTop(ks))
  {
    hide PrintKids, FlattenKids, KidsSize;
    FlattenKidsSize(Root, ks, 0);
  }

  lemma MovedKeeps(m: nat, p: PState, pos: nat)
    requires WellFormed(Fill(m), p)
    ensures WellFormed(Fill(m), p.(pos := pos))
  {
    FramesStay(Fill(m), p, p.(pos := pos));
  }

  lemma RootHead(first: bool, k: Kid)
    ensures Head(Root, first, k) == k.v0
  {
    assert [] + [] + k.v0 == k.v0;
  }

  lemma TopTaken(ks: Kids)
    requires ks.Snoc?
    ensures var k := ks.last; var p := AtTop(ks.init).(pos := |PrintKids(Root, ks.init)| + |k.v0|);
      ExpectsValue(p) && AfterValue(p, k.value) == AtTop(ks)
  {
    hide Print, Flatten, Size, Head;
    RootHead(ks.init.NoKids?, ks.last);
    var pos := |PrintKids(Root, ks.init)| + |ks.last.v0|;
    assert [] + Flatten(ks.last.value, pos) == Flatten(ks.last.value, pos);
  }

  /** The white space behind a top-level primitive, or the end of the input, settles it. */
  lemma SettledBySpace(json: bytes, e: nat, after: bytes, literal: bool)
    requires At(json, e, after) && AllSpace(after) && (after == [] ==> literal && e == |json|)
    ensures e <= |json| && Settled(json, e, literal)
  {
    if after != [] { AtFirst(json, e, after); }
  }

  lemma NoTop()
    ensures AtTop(NoKids) == START
  {
  }

  lemma {:induction false} CompleteTop(json: bytes, m: nat, ks: Kids, after: bytes, atEnd: bool)
    requires WfKids(ks) && KidsDepth(ks) <= MAX_DEPTH && KidsSize(Root, ks) <= m
    requires At(json, 0, PrintKids(Root, ks)) && At(json, |PrintKids(Root, ks)|, after) && AllSpace(after)
    requires SetApart(ks, after, atEnd) && (atEnd ==> |PrintKids(Root, ks)| + |after| == |json|)
    ensures Parse(json, Fill(m), START) == Parse(json, Fill(m), AtTop(ks))
    decreases ks
  {
    hide Parse, WellFormed, StepAt, Settled, At, Literal, AfterValue, ExpectsValue, KidsDepth, Depth, AllSpace, KeyToks,
      FlattenKids, KidsSize, Size, Wf, StringBody, Head, PrintKids;
    if ks.NoKids? {
      NoTop();
    } else {
      var k, before := ks.last, PrintKids(Root, ks.init);
      LastKidText(Root, ks);
      LastKidSizes(Root, ks);
      RootHead(ks.init.NoKids?, k);
      AtSplit(json, 0, before, k.v0 + Print(k.value));
      AtSplit(json, |before|, k.v0, Print(k.value));
      CompleteTop(json, m, ks.init, k.v0, false);
      AtTopKeeps(m, ks.init);
      SkipSpace(json, Fill(m), AtTop(ks.init), k.v0);
      var p := AtTop(ks.init).(pos := |before| + |k.v0|);
      MovedKeeps(m, AtTop(ks.init), p.pos);
      TopTaken(ks);
      if k.value.Prim? {
        SettledBySpace(json, p.pos + |k.value.text|, after, Literal(k.value.text));
      }
      CompleteValue(json, m, p, k.value);
    }
  }

  /**
   Main result. Parsing the text of a well-formed document, nested at most 64 deep and with room for its
   tokens, returns its number of nodes and its preorder token array: kinds, spans, pair and element counts.
   */
  lemma ParseInvertsPrint(doc: Node, m: nat)
    requires WfDocument(doc) && Depth(doc) <= MAX_DEPTH && Size(doc) <= m
    ensures var r := Parse(Print(doc), Fill(m), START); r.rc == Tokens(Size(doc)) && r.p.toks == Flatten(doc, 0)
  {
    hide PrintKids, FlattenKids, KidsSize, KidsDepth, WfKids, StepAt;
    var json := Print(doc);
    var inner := PrintKids(Root, doc.kids);
    assert json == inner + doc.tail;
    assert json[0..|json|] == json;
    AtSplit(json, 0, inner, doc.tail);
    CompleteTop(json, m, doc.kids, doc.tail, true);
    SkipSpace(json, Fill(m), AtTop(doc.kids), doc.tail);
  }
}
