/**
 The converse: whatever the parser accepts is the text of a well-formed document nested at most 64 deep, and
 the token array is its preorder flattening. The proof rebuilds the tree while the parser runs.
 */
module JstokSound {
  import opened Bytes
  import opened JsonLexer
  import opened Jstok
  import opened JsonTree
  import opened JstokComplete

  /** The child in progress: what has been read of it so far. */
  datatype Part =
    | NoPart
    | CommaPart(c: bytes)
    | KeyPart(c: bytes, k0: bytes, key: bytes)
    | ColonPart(c: bytes, k0: bytes, key: bytes, k1: bytes)

  /** A container that is still open: finished children, the child in progress, white space since. */
  datatype Open = Open(kind: ConKind, kids: Kids, part: Part, gap: bytes)

  /** The open containers, innermost outermost; at the bottom the whole input. */
  datatype Opens = Bottom(top: Open) | Above(below: Opens, top: Open)

  // --- text -----------------------------------------------------------------------------------------------

  function CommaOf(o: Open, c: bytes): bytes {
    if o.kids.NoKids? then [] else c + [COMMA]
  }

  function PartText(o: Open): bytes {
    match o.part
    case NoPart => []
    case CommaPart(c) => c + [COMMA]
    case KeyPart(c, k0, key) => CommaOf(o, c) + (k0 + ([QUOTE] + key + [QUOTE]))
    case ColonPart(c, k0, key, k1) => CommaOf(o, c) + (k0 + ([QUOTE] + key + [QUOTE]) + k1 + [COLON])
  }

  function OpenedText(o: Open): bytes {
    OpenText(o.kind) + PrintKids(o.kind, o.kids) + PartText(o) + o.gap
  }

  function Text(os: Opens): bytes {
    match os
    case Bottom(o) => OpenedText(o)
    case Above(b, o) => Text(b) + OpenedText(o)
  }

  // --- tokens and frames ----------------------------------------------------------------------------------

  /** Offset of the key string in an object whose child in progress has one. */
  function KeyStart(o: Open, off: nat): nat {
    match o.part
    case KeyPart(c, k0, _) => off + 1 + |PrintKids(o.kind, o.kids)| + |CommaOf(o, c)| + |k0| + 1
    case ColonPart(c, k0, _, _) => off + 1 + |PrintKids(o.kind, o.kids)| + |CommaOf(o, c)| + |k0| + 1
    case _ => 0
  }

  function PartToks(o: Open, off: nat): seq<Tok> {
    match o.part
    case KeyPart(_, _, key) => [Tok(String, KeyStart(o, off), KeyStart(o, off) + |key|, 0)]
    case ColonPart(_, _, key, _) => [Tok(String, KeyStart(o, off), KeyStart(o, off) + |key|, 0)]
    case _ => []
  }

  /** The container's own token; a child in progress has been counted once its value has begun. */
  function OwnTok(o: Open, off: nat, busy: bool): Tok {
    Tok(TokKind(o.kind), off, -1, KidCount(o.kids) + if busy then 1 else 0)
  }

  function InnerToks(o: Open, off: nat): seq<Tok> {
    FlattenKids(o.kind, o.kids, off + 1) + PartToks(o, off)
  }

  function Toks(os: Opens, busy: bool): seq<Tok> {
    match os
    case Bottom(o) => FlattenKids(Root, o.kids, 0)
    case Above(b, o) => Toks(b, true) + ([OwnTok(o, |Text(b)|, busy)] + InnerToks(o, |Text(b)|))
  }

  function StateOf(o: Open): FrameState {
    match o.part
    case NoPart => if o.kids.NoKids? then FirstState(o.kind) else LastState(o.kind)
    case CommaPart(_) => if o.kind == Obj then KeyOnly else ArrValue
    case KeyPart(_, _, _) => Colon
    case ColonPart(_, _, _, _) => ObjValue
  }

  function FrameOf(o: Open, tok: int, busy: bool): Frame {
    Frame(TokKind(o.kind), if busy then LastState(o.kind) else StateOf(o), tok)
  }

  function Frames(os: Opens, busy: bool): seq<Frame> {
    match os
    case Bottom(_) => []
    case Above(b, o) => Frames(b, true) + [FrameOf(o, |Toks(b, true)|, busy)]
  }

  // --- well-formed open containers ------------------------------------------------------------------------

  predicate PartOk(o: Open) {
    match o.part
    case NoPart => true
    case CommaPart(c) => o.kind != Root && o.kids.Snoc? && AllSpace(c)
    case KeyPart(c, k0, key) => o.kind == Obj && AllSpace(c) && AllSpace(k0) && StringBody(key)
    case ColonPart(c, k0, key, k1) => o.kind == Obj && AllSpace(c) && AllSpace(k0) && StringBody(key) && AllSpace(k1)
  }

  ghost predicate OpenOk(o: Open, height: nat) {
    WfKids(o.kids) && AllSpace(o.gap) && PartOk(o) && height + KidsDepth(o.kids) <= MAX_DEPTH
  }

  /** A value may begin here. */
  predicate Ready(o: Open) {
    match o.kind
    case Root => o.part.NoPart?
    case Arr => (o.part.NoPart? && o.kids.NoKids?) || o.part.CommaPart?
    case Obj => o.part.ColonPart?
  }

  function Height(os: Opens): nat {
    if os.Bottom? then 0 else Height(os.below) + 1
  }

  ghost predicate OpensOk(os: Opens) {
    && OpenOk(os.top, Height(os))
    && match os
       case Bottom(o) => o.kind == Root
       case Above(b, o) => o.kind != Root && OpensOk(b) && Ready(b.top)
                           && (b.Bottom? ==> SetApart(b.top.kids, b.top.gap, false))
  }

  /** At top level, what follows the last value so far settles it. */
  predicate TopOk(json: bytes, pos: nat, o: Open) {
    o.kids.Snoc? ==>
      && (o.kids.last.value.Prim? ==> o.gap != [] || (pos <= |json| && Settled(json, pos, Literal(o.kids.last.value.text))))
      && SetApart(o.kids.init, o.kids.last.v0, false)
  }

  /** The parser state `p` is what reading the open containers leaves. */
  ghost predicate Reads(json: bytes, p: PState, os: Opens) {
    && p.pos <= |json| && json[..p.pos] == Text(os)
    && p.toks == Toks(os, false) && p.toknext == |p.toks| && p.stack == Frames(os, false)
    && OpensOk(os) && (os.Bottom? ==> TopOk(json, p.pos, os.top))
  }

  // --- taking a value -------------------------------------------------------------------------------------

  function WithTopOpen(os: Opens, o: Open): Opens {
    match os
    case Bottom(_) => Bottom(o)
    case Above(b, _) => Above(b, o)
  }

  /** The child that `v` completes. */
  function KidOf(o: Open, v: Node): Kid {
    match o.part
    case NoPart => Kid([], [], [], [], o.gap, v)
    case CommaPart(c) => Kid(c, [], [], [], o.gap, v)
    case KeyPart(c, k0, key) => Kid(c, k0, key, [], o.gap, v)
    case ColonPart(c, k0, key, k1) => Kid(c, k0, key, k1, o.gap, v)
  }

  function Taken(o: Open, v: Node): Open {
    Open(o.kind, Snoc(o.kids, KidOf(o, v)), NoPart, [])
  }

  lemma HeadIsPart(o: Open, v: Node)
    requires Ready(o) && PartOk(o)
    ensures Head(o.kind, o.kids.NoKids?, KidOf(o, v)) == PartText(o) + o.gap
  {
    var k := KidOf(o, v);
    if o.part.ColonPart? {
      assert CommaText(o.kind, o.kids.NoKids?, k) == CommaOf(o, o.part.c);
    } else {
      assert CommaText(o.kind, o.kids.NoKids?, k) + [] == PartText(o);
    }
  }

  lemma TakenText(o: Open, v: Node)
    requires Ready(o) && PartOk(o)
    ensures OpenedText(Taken(o, v)) == OpenedText(o) + Print(v)
  {
    hide PartText, Head, Print, PrintKids, OpenText;
    HeadIsPart(o, v);
    var a, b, c := OpenText(o.kind), PrintKids(o.kind, o.kids), PartText(o);
    LastKidText(o.kind, Taken(o, v).kids);
    NoPartText(Taken(o, v));
    assert a + (b + (c + o.gap + Print(v))) + [] + [] == a + b + c + o.gap + Print(v);
  }

  lemma NoPartText(o: Open)
    requires o.part.NoPart?
    ensures PartText(o) == []
  {
  }

  lemma {:induction false} TakenToks(o: Open, off: nat, v: Node)
    requires Ready(o) && PartOk(o) && o.kind != Root
    ensures [OwnTok(Taken(o, v), off, false)] + InnerToks(Taken(o, v), off)
         == [OwnTok(o, off, true)] + InnerToks(o, off) + Flatten(v, off + |OpenedText(o)|)
  {
    hide Head, Print, Flatten, PrintKids, FlattenKids, PartText, PartToks, KidOf, Ready, PartOk;
    var k, first := KidOf(o, v), o.kids.NoKids?;
    KidValue(o, v);
    NoPartToks(Taken(o, v), off);
    HeadIsPart(o, v);
    var ks := Snoc(o.kids, k);
    LastKidTokens(o.kind, ks, off + 1);
    LastKidSizes(o.kind, ks);
    var at := off + 1 + |PrintKids(o.kind, o.kids)|;
    PartKeyToks(o, off, v);
    var F, K, V := FlattenKids(o.kind, o.kids, off + 1), PartToks(o, off), Flatten(v, off + |OpenedText(o)|);
    assert |OpenedText(o)| == 1 + |PrintKids(o.kind, o.kids)| + |Head(o.kind, first, k)|;
    assert FlattenKids(o.kind, ks, off + 1) == F + (K + V);
    assert F + (K + V) + [] == F + K + V;
    assert [OwnTok(o, off, true)] + (F + K) + V == [OwnTok(o, off, true)] + (F + K + V);
  }

  lemma KidValue(o: Open, v: Node)
    ensures KidOf(o, v).value == v
  {
  }

  lemma PartKeyToks(o: Open, off: nat, v: Node)
    requires Ready(o) && PartOk(o) && o.kind != Root
    ensures KeyToks(o.kind, o.kids.NoKids?, KidOf(o, v), off + 1 + |PrintKids(o.kind, o.kids)|) == PartToks(o, off)
  {
    hide PrintKids;
  }

  /** Reading the value `v` turns busy containers into containers with one more child. */
  lemma TakeValue(os: Opens, v: Node)
    requires OpensOk(os) && Ready(os.top)
    ensures var t := WithTopOpen(os, Taken(os.top, v));
      && Text(t) == Text(os) + Print(v)
      && Toks(t, false) == Toks(os, true) + Flatten(v, |Text(os)|)
      && Frames(t, false) == Frames(os, true)
  {
    hide Print, Flatten, PrintKids, FlattenKids, OpenedText, Head, PartText, InnerToks, OwnTok, WfKids;
    TakenText(os.top, v);
    match os
    case Bottom(o) =>
      TakenRoot(o, v);
    case Above(b, o) =>
      var off := |Text(b)|;
      TakenToks(o, off, v);
      assert Text(b) + (OpenedText(o) + Print(v)) == Text(b) + OpenedText(o) + Print(v);
      var A, V := [OwnTok(o, off, true)] + InnerToks(o, off), Flatten(v, off + |OpenedText(o)|);
      assert Toks(b, true) + A + V == Toks(b, true) + (A + V);
      TakenState(o, v);
  }

  lemma TakenRoot(o: Open, v: Node)
    requires o.kind == Root && o.part.NoPart?
    ensures FlattenKids(Root, Taken(o, v).kids, 0) == FlattenKids(Root, o.kids, 0) + Flatten(v, |OpenedText(o)|)
  {
    hide Print, Flatten;
    LastKidTokens(Root, Taken(o, v).kids, 0);
    RootHead(o.kids.NoKids?, KidOf(o, v));
    assert [] + Flatten(v, |OpenedText(o)|) == Flatten(v, |OpenedText(o)|);
  }

  lemma TakenState(o: Open, v: Node)
    ensures forall tok :: FrameOf(Taken(o, v), tok, false) == FrameOf(o, tok, true)
  {
  }

  lemma TakenOk(os: Opens, v: Node)
    requires OpensOk(os) && Ready(os.top) && Wf(v) && Height(os) + Depth(v) <= MAX_DEPTH
    ensures OpensOk(WithTopOpen(os, Taken(os.top, v)))
  {
    hide Depth, Wf, SetApart;
    var o := os.top;
    var k := KidOf(o, v);
    assert WfKid(k);
    assert WfKids(Snoc(o.kids, k));
  }

  /** Accepting a value marks the innermost container busy. */
  lemma AcceptMarks(json: bytes, p: PState, os: Opens)
    requires Reads(json, p, os) && ExpectsValue(p)
    ensures Ready(os.top) && Accept(p).toks == Toks(os, true) && Accept(p).stack == Frames(os, true)
  {
    hide PrintKids, FlattenKids, WfKids, KidsDepth, InnerToks, Text;
    if os.Above? {
      var b, o := os.below, os.top;
      TokenReplaced(Toks(b, true), OwnTok(o, |Text(b)|, false), OwnTok(o, |Text(b)|, true), InnerToks(o, |Text(b)|));
      assert Top(p) == FrameOf(o, |Toks(b, true)|, false);
      assert Accept(p).stack == Frames(b, true) + [FrameOf(o, |Toks(b, true)|, true)];
    }
  }

  lemma TextGrows(json: bytes, pos: nat, q: nat, t: bytes)
    requires pos <= q <= |json| && json[..pos] == t
    ensures json[..q] == t + json[pos..q]
  {
  }

  // --- steps ----------------------------------------------------------------------------------------------

  /** The parser behind a scalar value printed at its position, tokens and all. */
  lemma ScalarReads(json: bytes, p: PState, os: Opens, q: PState, v: Node) returns (t: Opens)
    requires Reads(json, p, os) && ExpectsValue(p) && Wf(v) && Depth(v) == 0
    requires p.pos <= q.pos <= |json| && json[p.pos..q.pos] == Print(v)
    requires q.toks == Accept(p).toks + Flatten(v, p.pos) && q.toknext == p.toknext + 1 && |Flatten(v, p.pos)| == 1
    requires q.stack == Accept(p).stack
    requires v.Prim? ==> Settled(json, q.pos, Literal(v.text))
    requires p.pos < q.pos && !IsDelim(json[p.pos])
    ensures Reads(json, q, t)
  {
    hide OpensOk, Wf, Depth, Print, Flatten, PrintKids, FlattenKids, Accept, ExpectsValue, Text, Toks, Frames, Literal;
    AcceptMarks(json, p, os);
    TakeValue(os, v);
    ReadsHeight(json, p, os);
    TakenOk(os, v);
    TextGrows(json, p.pos, q.pos, Text(os));
    AcceptSame(p);
    t := WithTopOpen(os, Taken(os.top, v));
    if os.Bottom? {
      TopApart(json, p.pos, os.top);
    }
  }

  lemma ReadsHeight(json: bytes, p: PState, os: Opens)
    requires Reads(json, p, os)
    ensures |p.stack| == Height(os) <= MAX_DEPTH && |Text(os)| == p.pos
  {
    FramesCount(os, false);
  }

  lemma {:induction false} FramesCount(os: Opens, busy: bool)
    ensures |Frames(os, busy)| == Height(os)
    decreases os
  {
    if os.Above? {
      FramesCount(os.below, true);
    }
  }

  /** Before the next top-level value begins, the last one is set apart. */
  lemma TopApart(json: bytes, pos: nat, o: Open)
    requires TopOk(json, pos, o) && pos < |json| && !IsDelim(json[pos])
    ensures SetApart(o.kids, o.gap, false)
  {
  }

  lemma StringStepReads(json: bytes, m: nat, p: PState, os: Opens) returns (t: Opens)
    requires Reads(json, p, os) && p.pos < |json| && json[p.pos] == QUOTE && !ExpectsKey(p)
    requires StringStep(json, Fill(m), p).Go?
    ensures Reads(json, StringStep(json, Fill(m), p).p, t)
  {
    hide Reads, Accept, StringBody, ScanString;
    AcceptSame(p);
    var q := StringStep(json, Fill(m), p).p;
    var e := ScanString(json, p.pos + 1).end;
    ScanStringSound(json, p.pos + 1);
    var v := Str(json[p.pos + 1..e]);
    assert json[p.pos..q.pos] == [QUOTE] + json[p.pos + 1..e] + [QUOTE];
    t := ScalarReads(json, p, os, q, v);
  }

  lemma PrimitiveStepReads(json: bytes, m: nat, p: PState, os: Opens) returns (t: Opens)
    requires Reads(json, p, os) && p.pos < |json| && !IsDelim(json[p.pos])
    requires PrimitiveStep(json, Fill(m), p).Go?
    ensures Reads(json, PrimitiveStep(json, Fill(m), p).p, t)
  {
    hide Reads, Accept, ScanPrimitive, IsDelim, Literal, Number, JsonLexer.Primitive;
    var q := PrimitiveStep(json, Fill(m), p).p;
    ScanPrimitiveSound(json, p.pos);
    var v := Prim(json[p.pos..q.pos]);
    AcceptSame(p);
    t := ScalarReads(json, p, os, q, v);
  }

  lemma SpaceReads(json: bytes, p: PState, os: Opens) returns (t: Opens)
    requires Reads(json, p, os) && p.pos < |json| && IsSpace(json[p.pos])
    ensures Reads(json, p.(pos := p.pos + 1), t)
  {
    hide PrintKids, FlattenKids, WfKids, PartText, PartToks, SetApart, KidsDepth;
    var o := os.top;
    var o' := o.(gap := o.gap + [json[p.pos]]);
    t := WithTopOpen(os, o');
    TextGrows(json, p.pos, p.pos + 1, Text(os));
    assert json[p.pos..p.pos + 1] == [json[p.pos]];
    PartUnmoved(o, o'.gap);
    var s := OpenText(o.kind) + PrintKids(o.kind, o.kids) + PartText(o);
    assert s + o'.gap == s + o.gap + [json[p.pos]];
    match os
    case Bottom(_) =>
    case Above(b, _) =>
      assert Text(b) + (OpenedText(o) + [json[p.pos]]) == Text(b) + OpenedText(o) + [json[p.pos]];
  }

  lemma PartUnmoved(o: Open, gap: bytes)
    ensures var o' := o.(gap := gap); PartText(o') == PartText(o) && forall off: nat :: PartToks(o', off) == PartToks(o, off)
  {
    hide PrintKids;
  }

  /** A step inside the innermost container that only extends its child in progress by text. */
  lemma PartReads(json: bytes, p: PState, os: Opens, o': Open, q: PState)
    requires Reads(json, p, os) && os.Above? && o'.kind == os.top.kind && o'.kids == os.top.kids
    requires OpenOk(o', Height(os)) && p.pos <= q.pos <= |json|
    requires OpenedText(o') == OpenedText(os.top) + json[p.pos..q.pos]
    requires var K, K' := PartToks(os.top, |Text(os.below)|), PartToks(o', |Text(os.below)|);
      K <= K' && q.toks == p.toks + K'[|K|..]
    requires q.toknext == |q.toks| && q.stack == WithTop(p, StateOf(o')).stack
    ensures Reads(json, q, Above(os.below, o'))
  {
    hide OpenOk, OpenedText, PrintKids, FlattenKids, PartToks, Ready, SetApart, StateOf;
    var b, o := os.below, os.top;
    var off := |Text(b)|;
    TextGrows(json, p.pos, q.pos, Text(os));
    assert Text(b) + (OpenedText(o) + json[p.pos..q.pos]) == Text(b) + OpenedText(o) + json[p.pos..q.pos];
    var F, K, K' := FlattenKids(o.kind, o.kids, off + 1), PartToks(o, off), PartToks(o', off);
    var T, t := Toks(b, true), OwnTok(o, off, false);
    assert T + ([t] + (F + K)) + K'[|K|..] == T + ([t] + (F + (K + K'[|K|..])));
    assert K' == K + K'[|K|..];
    assert WithTop(p, StateOf(o')).stack == Frames(b, true) + [FrameOf(o', |T|, false)];
  }

  lemma ColonReads(json: bytes, p: PState, os: Opens) returns (t: Opens)
    requires Reads(json, p, os) && p.pos < |json| && json[p.pos] == COLON && Colons(p).Go?
    ensures Reads(json, Colons(p).p, t)
  {
    hide OpensOk, Text, Toks, Frames, PrintKids, WfKids, KidsDepth, OpenedText, PartToks, StringBody;
    var o := os.top;
    TopFrame(json, p, os);
    TopOpenOk(json, p, os);
    var o' := Open(o.kind, o.kids, ColonPart(o.part.c, o.part.k0, o.part.key, o.gap), []);
    t := Above(os.below, o');
    ColonText(o);
    assert json[p.pos..p.pos + 1] == [COLON];
    assert PartToks(o, |Text(os.below)|)[|PartToks(o, |Text(os.below)|)|..] == [];
    assert p.toks + [] == p.toks;
    PartReads(json, p, os, o', Colons(p).p);
  }

  lemma ColonText(o: Open)
    requires o.part.KeyPart? && PartOk(o)
    ensures var o' := Open(o.kind, o.kids, ColonPart(o.part.c, o.part.k0, o.part.key, o.gap), []);
      OpenedText(o') == OpenedText(o) + [COLON]
      && (forall off: nat :: PartToks(o', off) == PartToks(o, off))
  {
    hide PrintKids;
    var s := OpenText(o.kind) + PrintKids(o.kind, o.kids);
    var a, b := CommaOf(o, o.part.c), o.part.k0 + ([QUOTE] + o.part.key + [QUOTE]);
    assert s + (a + (b + o.gap + [COLON])) + [] == s + (a + b) + o.gap + [COLON];
  }

  /** What the innermost frame says about the innermost open container. */
  lemma TopFrame(json: bytes, p: PState, os: Opens)
    requires Reads(json, p, os) && p.stack != []
    ensures os.Above? && Top(p) == FrameOf(os.top, |Toks(os.below, true)|, false)
    ensures Top(p).kind == Object <==> os.top.kind == Obj
    ensures PartOk(os.top) && os.top.kind != Root
    ensures Top(p).st == Colon <==> os.top.part.KeyPart?
  {
    hide PrintKids, FlattenKids, WfKids, Text, Toks, KidsDepth;
  }

  lemma CommaReads(json: bytes, p: PState, os: Opens) returns (t: Opens)
    requires Reads(json, p, os) && p.pos < |json| && json[p.pos] == COMMA && Commas(p).Go?
    ensures Reads(json, Commas(p).p, t)
  {
    hide OpensOk, Text, Toks, Frames, PrintKids, WfKids, KidsDepth;
    var o := os.top;
    TopFrame(json, p, os);
    TopOpenOk(json, p, os);
    assert o.part.NoPart? && o.kids.Snoc?;
    var o' := Open(o.kind, o.kids, CommaPart(o.gap), []);
    t := Above(os.below, o');
    var s := OpenText(o.kind) + PrintKids(o.kind, o.kids);
    assert s + (o.gap + [COMMA]) + [] == s + [] + o.gap + [COMMA];
    assert json[p.pos..p.pos + 1] == [COMMA];
    assert p.toks + [] == p.toks;
    PartReads(json, p, os, o', Commas(p).p);
  }

  lemma TopOpenOk(json: bytes, p: PState, os: Opens)
    requires Reads(json, p, os)
    ensures OpenOk(os.top, Height(os)) && p.toknext == |p.toks|
  {
  }

  function KeyedOpen(o: Open, key: bytes): Open {
    Open(o.kind, o.kids, KeyPart(if o.part.CommaPart? then o.part.c else [], o.gap, key), [])
  }

  lemma KeyedText(o: Open, key: bytes)
    requires o.kind == Obj && ((o.part.NoPart? && o.kids.NoKids?) || (o.part.CommaPart? && o.kids.Snoc?))
    ensures OpenedText(KeyedOpen(o, key)) == OpenedText(o) + ([QUOTE] + key + [QUOTE])
    ensures forall off: nat ::
      PartToks(KeyedOpen(o, key), off) == [Tok(String, off + |OpenedText(o)| + 1, off + |OpenedText(o)| + 1 + |key|, 0)]
  {
    hide PrintKids;
    var s := OpenText(o.kind) + PrintKids(o.kind, o.kids);
    var o' := KeyedOpen(o, key);
    var q := [QUOTE] + key + [QUOTE];
    assert CommaOf(o', o'.part.c) == PartText(o);
    assert s + (PartText(o) + (o.gap + q)) + [] == s + PartText(o) + o.gap + q;
  }

  lemma KeyReads(json: bytes, m: nat, p: PState, os: Opens) returns (t: Opens)
    requires Reads(json, p, os) && p.pos < |json| && json[p.pos] == QUOTE && ExpectsKey(p)
    requires StringStep(json, Fill(m), p).Go?
    ensures Reads(json, StringStep(json, Fill(m), p).p, t)
  {
    hide OpensOk, Text, Toks, Frames, PrintKids, WfKids, KidsDepth, ScanString, StringBody, OpenedText, PartToks;
    var q := StringStep(json, Fill(m), p).p;
    var e := ScanString(json, p.pos + 1).end;
    ScanStringSound(json, p.pos + 1);
    var o, key := os.top, json[p.pos + 1..e];
    TopFrame(json, p, os);
    TopOpenOk(json, p, os);
    var o' := KeyedOpen(o, key);
    KeyedText(o, key);
    assert json[p.pos..q.pos] == [QUOTE] + key + [QUOTE];
    t := Above(os.below, o');
    ReadsHeight(json, p, os);
    TextAbove(os);
    NoPartToks(o, |Text(os.below)|);
    PartReads(json, p, os, o', q);
  }

  lemma TextAbove(os: Opens)
    requires os.Above?
    ensures |Text(os)| == |Text(os.below)| + |OpenedText(os.top)|
  {
  }

  lemma NoPartToks(o: Open, off: nat)
    requires o.part.NoPart? || o.part.CommaPart?
    ensures PartToks(o, off) == []
  {
  }

  lemma OpenReads(json: bytes, m: nat, p: PState, os: Opens, kind: ConKind) returns (t: Opens)
    requires Reads(json, p, os) && kind != Root && p.pos < |json| && json[p.pos] == OpenText(kind)[0]
    requires StartContainer(Fill(m), p, TokKind(kind)).Go?
    ensures Reads(json, StartContainer(Fill(m), p, TokKind(kind)).p, t)
  {
    hide Text, Toks, Frames, Accept, ExpectsValue, OpensOk, SetApart;
    var q := StartContainer(Fill(m), p, TokKind(kind)).p;
    AcceptMarks(json, p, os);
    ReadsHeight(json, p, os);
    AcceptSame(p);
    t := Above(os, Open(kind, NoKids, NoPart, []));
    TextGrows(json, p.pos, p.pos + 1, Text(os));
    assert json[p.pos..p.pos + 1] == OpenText(kind);
    FreshOpen(os, kind);
    FreshOk(json, p, os, kind);
    FramesCount(os, true);
  }

  lemma FreshOpen(os: Opens, kind: ConKind)
    requires kind != Root
    ensures var t := Above(os, Open(kind, NoKids, NoPart, []));
      && Text(t) == Text(os) + OpenText(kind)
      && Toks(t, false) == Toks(os, true) + [Tok(TokKind(kind), |Text(os)|, -1, 0)]
      && Frames(t, false) == Frames(os, true) + [Frame(TokKind(kind), FirstState(kind), |Toks(os, true)|)]
  {
    assert OpenText(kind) + [] + [] + [] == OpenText(kind);
    var x := Tok(TokKind(kind), |Text(os)|, -1, 0);
    assert [x] + ([] + []) == [x];
  }

  lemma FreshOk(json: bytes, p: PState, os: Opens, kind: ConKind)
    requires Reads(json, p, os) && kind != Root && Ready(os.top) && Height(os) < MAX_DEPTH
    requires p.pos < |json| && !IsDelim(json[p.pos])
    ensures OpensOk(Above(os, Open(kind, NoKids, NoPart, [])))
  {
    hide Text, Toks, Frames;
    if os.Bottom? {
      TopApart(json, p.pos, os.top);
    }
  }

  /** The node that a closing bracket completes. */
  function Closed(o: Open): Node {
    Con(o.kind, o.kids, o.gap)
  }

  lemma ClosedText(o: Open, off: nat)
    requires o.part.NoPart? && o.kind != Root
    ensures Print(Closed(o)) == OpenedText(o) + CloseText(o.kind)
    ensures Flatten(Closed(o), off)
         == [OwnTok(o, off, false).(end := off + |OpenedText(o)| + 1)] + InnerToks(o, off)
    ensures Depth(Closed(o)) == 1 + KidsDepth(o.kids)
  {
    hide PrintKids, FlattenKids, KidsDepth;
    assert InnerToks(o, off) == FlattenKids(o.kind, o.kids, off + 1) + [];
    assert OpenText(o.kind) + PrintKids(o.kind, o.kids) + [] + o.gap == OpenText(o.kind) + PrintKids(o.kind, o.kids) + o.gap;
  }

  lemma CloseReads(json: bytes, m: nat, p: PState, os: Opens, kind: ConKind) returns (t: Opens)
    requires Reads(json, p, os) && kind != Root && p.pos < |json| && json[p.pos] == CloseText(kind)[0]
    requires EndContainer(Fill(m), p, TokKind(kind)).Go?
    ensures Reads(json, EndContainer(Fill(m), p, TokKind(kind)).p, t)
  {
    hide Text, Toks, Frames, PrintKids, FlattenKids, KidsDepth, WfKids, InnerToks, OpenedText, Depth, Wf, Print,
      Flatten, SetApart, TopOk, OpensOk, Ready, EndContainer, OwnTok, Taken, MayEnd;
    ClosingTop(json, m, p, os, kind);
    var b, o := os.below, os.top;
    var v := Closed(o);
    var off := |Text(b)|;
    ClosedText(o, off);
    ClosedWf(os);
    TakeValue(b, v);
    TakenOk(b, v);
    TextAbove(os);
    ReadsHeight(json, p, os);
    t := WithTopOpen(b, Taken(b.top, v));
    TextGrows(json, p.pos, p.pos + 1, Text(os));
    assert json[p.pos..p.pos + 1] == CloseText(kind);
    CloseTokens(m, p, os, kind);
    TextOf(os);
    assert Text(b) + OpenedText(o) + CloseText(kind) == Text(b) + (OpenedText(o) + CloseText(kind));
    CloseTop(json, p.pos + 1, b, v);
  }

  lemma ClosingTop(json: bytes, m: nat, p: PState, os: Opens, kind: ConKind)
    requires Reads(json, p, os) && kind != Root && EndContainer(Fill(m), p, TokKind(kind)).Go?
    ensures os.Above? && os.top.kind == kind && os.top.part.NoPart?
  {
    hide Text, Toks, PrintKids, FlattenKids, KidsDepth, WfKids;
    TopFrame(json, p, os);
  }

  lemma TextOf(os: Opens)
    requires os.Above?
    ensures Text(os) == Text(os.below) + OpenedText(os.top)
  {
  }

  lemma CloseTop(json: bytes, pos: nat, b: Opens, v: Node)
    requires v.Con? && (b.Bottom? ==> SetApart(b.top.kids, b.top.gap, false))
    ensures b.Bottom? ==> TopOk(json, pos, Taken(b.top, v))
  {
  }

  lemma ClosedWf(os: Opens)
    requires OpensOk(os) && os.Above?
    ensures Wf(Closed(os.top)) && OpensOk(os.below) && Ready(os.below.top)
    ensures Height(os.below) + 1 + KidsDepth(os.top.kids) <= MAX_DEPTH
    ensures os.below.Bottom? ==> SetApart(os.below.top.kids, os.below.top.gap, false)
  {
    hide SetApart, WfKids, KidsDepth;
  }

  lemma CloseTokens(m: nat, p: PState, os: Opens, kind: ConKind)
    requires os.Above? && os.top.kind == kind != Root && p.toks == Toks(os, false) && p.stack == Frames(os, false)
    requires EndContainer(Fill(m), p, TokKind(kind)).Go? && p.pos == |Text(os)|
    ensures var q := EndContainer(Fill(m), p, TokKind(kind)).p; var off := |Text(os.below)|;
      && os.top.part.NoPart?
      && q.toks == Toks(os.below, true) + ([OwnTok(os.top, off, false).(end := p.pos + 1)] + InnerToks(os.top, off))
      && q.stack == Frames(os.below, true) && q.pos == p.pos + 1 && q.toknext == p.toknext && |q.toks| == |p.toks|
  {
    hide Text, PrintKids, FlattenKids, InnerToks, OpenedText;
    var b, o := os.below, os.top;
    var off := |Text(b)|;
    var t := OwnTok(o, off, false);
    assert Top(p) == FrameOf(o, |Toks(b, true)|, false);
    TokenReplaced(Toks(b, true), t, t.(end := p.pos + 1), InnerToks(o, off));
    assert p.stack[..|p.stack| - 1] == Frames(b, true);
  }

  // --- runs -----------------------------------------------------------------------------------------------

  /** Every step that goes on reads a little more of some open document. */
  lemma StepReads(json: bytes, m: nat, p: PState, os: Opens) returns (t: Opens)
    requires Reads(json, p, os) && p.pos < |json| && StepAt(json, Fill(m), p).Go?
    ensures Reads(json, StepAt(json, Fill(m), p).p, t)
  {
    hide Reads, StartContainer, EndContainer, Colons, Commas, StringStep, PrimitiveStep, ExpectsKey;
    var c := json[p.pos];
    if IsSpace(c) {
      t := SpaceReads(json, p, os);
    } else if c == LBRACE {
      t := OpenReads(json, m, p, os, Obj);
    } else if c == LBRACKET {
      t := OpenReads(json, m, p, os, Arr);
    } else if c == RBRACE {
      t := CloseReads(json, m, p, os, Obj);
    } else if c == RBRACKET {
      t := CloseReads(json, m, p, os, Arr);
    } else if c == COLON {
      t := ColonReads(json, p, os);
    } else if c == COMMA {
      t := CommaReads(json, p, os);
    } else if c == QUOTE && ExpectsKey(p) {
      t := KeyReads(json, m, p, os);
    } else if c == QUOTE {
      t := StringStepReads(json, m, p, os);
    } else {
      t := PrimitiveStepReads(json, m, p, os);
    }
  }

  /** The whole input, once nothing is open any more. */
  lemma EndReads(json: bytes, p: PState, os: Opens) returns (doc: Node)
    requires Reads(json, p, os) && p.pos == |json| && p.stack == []
    ensures WfDocument(doc) && Print(doc) == json && Depth(doc) <= MAX_DEPTH
    ensures Flatten(doc, 0) == p.toks && p.toknext == |p.toks|
  {
    hide PrintKids, FlattenKids, WfKids, KidsDepth;
    ReadsHeight(json, p, os);
    var o := os.top;
    doc := Con(Root, o.kids, o.gap);
    assert o.part.NoPart?;
    assert json[..|json|] == json;
    assert [] + PrintKids(Root, o.kids) + [] + o.gap == [] + PrintKids(Root, o.kids) + o.gap + [];
  }

  lemma {:induction false} RunReads(json: bytes, m: nat, p: PState, os: Opens) returns (doc: Node)
    requires Reads(json, p, os) && Parse(json, Fill(m), p).rc.Tokens?
    ensures var r := Parse(json, Fill(m), p);
      && WfDocument(doc) && Print(doc) == json && Depth(doc) <= MAX_DEPTH
      && Flatten(doc, 0) == r.p.toks && r.rc == Tokens(|r.p.toks|)
    decreases |json| - p.pos
  {
    hide StepAt, WfDocument, Print, Flatten, Depth, OpensOk, Text, Toks, Frames, TopOk;
    if p.pos >= |json| {
      doc := EndReads(json, p, os);
    } else {
      var t := StepReads(json, m, p, os);
      doc := RunReads(json, m, StepAt(json, Fill(m), p).p, t);
    }
  }

  lemma StartReads(json: bytes)
    ensures Reads(json, START, Bottom(Open(Root, NoKids, NoPart, [])))
  {
  }

  /**
   Main result, the converse of `ParseInvertsPrint`: every success is the flattening of a document. So the
   parser accepts exactly the texts of well-formed documents nested at most 64 deep, given room.
   */
  lemma ParseIsFlattening(json: bytes, m: nat) returns (doc: Node)
    requires Parse(json, Fill(m), START).rc.Tokens?
    ensures var r := Parse(json, Fill(m), START);
      && WfDocument(doc) && Print(doc) == json && Depth(doc) <= MAX_DEPTH
      && r.p.toks == Flatten(doc, 0) && r.rc == Tokens(Size(doc)) && Size(doc) <= m
  {
    hide Flatten, WfDocument, Print, Depth, StepAt, Size;
    StartReads(json);
    doc := RunReads(json, m, START, Bottom(Open(Root, NoKids, NoPart, [])));
    FlattenSize(doc, 0);
    ParseKeeps(json, Fill(m), START);
  }

  /** Acceptance, both ways. */
  lemma AcceptsExactlyDocuments(json: bytes, m: nat)
    ensures Parse(json, Fill(m), START).rc.Tokens?
       <==> exists doc :: WfDocument(doc) && Depth(doc) <= MAX_DEPTH && Size(doc) <= m && Print(doc) == json
  {
    hide WfDocument, Print, Depth, StepAt, Size, Flatten, Parse;
    if Parse(json, Fill(m), START).rc.Tokens? {
      var doc := ParseIsFlattening(json, m);
    }
    forall doc | WfDocument(doc) && Depth(doc) <= MAX_DEPTH && Size(doc) <= m && Print(doc) == json
      ensures Parse(json, Fill(m), START).rc.Tokens?
    {
      ParseInvertsPrint(doc, m);
    }
  }
}
