/**
 Concrete syntax trees of JSON (section 2 of RFC 8259): a tree with all its white space, the text it prints
 to, and the flat preorder token array that stands for it. White space belongs to the token it precedes.
 */
module JsonTree {
  import opened Bytes
  import opened JsonLexer
  import opened Jstok

  /** `Root` is the whole input: top-level values side by side, without brackets or commas. */
  datatype ConKind = Root | Arr | Obj

  datatype Node =
    | Str(body: bytes)
    | Prim(text: bytes)
    | Con(kind: ConKind, kids: Kids, tail: bytes)

  /**
   A child: white space before its comma (if it is not the first), its key with the white space around it (in
   an object), white space before the value, the value.
   */
  datatype Kid = Kid(c: bytes, k0: bytes, key: bytes, k1: bytes, v0: bytes, value: Node)

  /** The children of a container, the last one outermost. */
  datatype Kids = NoKids | Snoc(init: Kids, last: Kid)

  function KidCount(ks: Kids): nat {
    if ks.NoKids? then 0 else KidCount(ks.init) + 1
  }

  // --- printing -------------------------------------------------------------------------------------------

  function OpenText(kind: ConKind): bytes {
    match kind case Root => [] case Arr => [LBRACKET] case Obj => [LBRACE]
  }

  function CloseText(kind: ConKind): bytes {
    match kind case Root => [] case Arr => [RBRACKET] case Obj => [RBRACE]
  }

  function CommaText(kind: ConKind, first: bool, k: Kid): bytes {
    if kind == Root || first then [] else k.c + [COMMA]
  }

  function KeyText(kind: ConKind, k: Kid): bytes {
    if kind == Obj then k.k0 + ([QUOTE] + k.key + [QUOTE]) + k.k1 + [COLON] else []
  }

  function Head(kind: ConKind, first: bool, k: Kid): bytes {
    CommaText(kind, first, k) + KeyText(kind, k) + k.v0
  }

  function Print(n: Node): bytes
    decreases n
  {
    match n
    case Str(body) => [QUOTE] + body + [QUOTE]
    case Prim(text) => text
    case Con(kind, kids, tail) => OpenText(kind) + PrintKids(kind, kids) + tail + CloseText(kind)
  }

  function PrintKids(kind: ConKind, ks: Kids): bytes
    decreases ks
  {
    match ks
    case NoKids => []
    case Snoc(init, k) => PrintKids(kind, init) + (Head(kind, init.NoKids?, k) + Print(k.value))
  }

  // --- flattening -----------------------------------------------------------------------------------------

  function TokKind(kind: ConKind): Kind {
    if kind == Obj then Object else Array
  }

  function KeyToks(kind: ConKind, first: bool, k: Kid, off: nat): seq<Tok> {
    if kind == Obj then
      var start := off + |CommaText(kind, first, k)| + |k.k0| + 1;
      [Tok(String, start, start + |k.key|, 0)]
    else []
  }

  /** The tokens of a node printed at offset `off`, in preorder. */
  function Flatten(n: Node, off: nat): seq<Tok>
    decreases n
  {
    match n
    case Str(body) => [Tok(String, off + 1, off + 1 + |body|, 0)]
    case Prim(text) => [Tok(Primitive, off, off + |text|, 0)]
    case Con(kind, kids, tail) =>
      if kind == Root then FlattenKids(kind, kids, off)
      else [Tok(TokKind(kind), off, off + |Print(n)|, KidCount(kids))] + FlattenKids(kind, kids, off + 1)
  }

  function FlattenKids(kind: ConKind, ks: Kids, off: nat): seq<Tok>
    decreases ks
  {
    match ks
    case NoKids => []
    case Snoc(init, k) =>
      var at := off + |PrintKids(kind, init)|;
      var first := init.NoKids?;
      FlattenKids(kind, init, off) + (KeyToks(kind, first, k, at) + Flatten(k.value, at + |Head(kind, first, k)|))
  }

  function Size(n: Node): nat
    decreases n
  {
    match n
    case Str(_) => 1
    case Prim(_) => 1
    case Con(kind, kids, _) => (if kind == Root then 0 else 1) + KidsSize(kind, kids)
  }

  function KidsSize(kind: ConKind, ks: Kids): nat
    decreases ks
  {
    match ks
    case NoKids => 0
    case Snoc(init, k) => KidsSize(kind, init) + (if kind == Obj then 1 else 0) + Size(k.value)
  }

  lemma {:induction false} FlattenSize(n: Node, off: nat)
    ensures |Flatten(n, off)| == Size(n)
    decreases n
  {
    hide PrintKids, KidsSize, FlattenKids;
    if n.Con? {
      FlattenKidsSize(n.kind, n.kids, if n.kind == Root then off else off + 1);
    }
  }

  lemma {:induction false} FlattenKidsSize(kind: ConKind, ks: Kids, off: nat)
    ensures |FlattenKids(kind, ks, off)| == KidsSize(kind, ks)
    decreases ks
  {
    hide Print, Flatten, Size, Head;
    if ks.Snoc? {
      FlattenKidsSize(kind, ks.init, off);
      FlattenSize(ks.last.value, off + |PrintKids(kind, ks.init)| + |Head(kind, ks.init.NoKids?, ks.last)|);
    }
  }

  /** Nesting of brackets. */
  function Depth(n: Node): nat
    decreases n
  {
    match n
    case Str(_) => 0
    case Prim(_) => 0
    case Con(kind, kids, _) => (if kind == Root then 0 else 1) + KidsDepth(kids)
  }

  function KidsDepth(ks: Kids): nat
    decreases ks
  {
    match ks
    case NoKids => 0
    case Snoc(init, k) =>
      var d, e := KidsDepth(init), Depth(k.value);
      if d > e then d else e
  }

  // --- which trees are JSON -------------------------------------------------------------------------------

  /** Section 2 of RFC 8259, with the scalars of `JsonLexer`; a value is never a root. */
  ghost predicate Wf(n: Node)
    decreases n
  {
    match n
    case Str(body) => StringBody(body)
    case Prim(text) => JsonLexer.Primitive(text)
    case Con(kind, kids, tail) => kind != Root && AllSpace(tail) && WfKids(kids)
  }

  ghost predicate WfKids(ks: Kids)
    decreases ks
  {
    ks.Snoc? ==> WfKids(ks.init) && WfKid(ks.last)
  }

  ghost predicate WfKid(k: Kid)
    decreases k
  {
    && AllSpace(k.c) && AllSpace(k.k0) && StringBody(k.key) && AllSpace(k.k1) && AllSpace(k.v0)
    && Wf(k.value)
  }

  /**
   Top-level primitives are set apart: a number by white space behind it, a literal by white space or the end
   of the input. Without brackets nothing else can delimit them. `after` is the white space behind the values
   `ks`, and `atEnd` says that nothing follows that.
   */
  predicate SetApart(ks: Kids, after: bytes, atEnd: bool) {
    ks.Snoc? ==>
      && (ks.last.value.Prim? ==> after != [] || (atEnd && Literal(ks.last.value.text)))
      && SetApart(ks.init, ks.last.v0, false)
  }

  /** A whole input. */
  ghost predicate WfDocument(n: Node) {
    n.Con? && n.kind == Root && AllSpace(n.tail) && WfKids(n.kids) && SetApart(n.kids, n.tail, true)
  }
}
