/**
 A node of a syntax tree that stands at once in the token array and in the text, and how navigation leads from
 one such place to the next.
 */
module Places {
  import opened Bytes
  import opened JsonLexer
  import opened Jstok
  import opened JsonTree
  import opened JstokComplete
  import opened JstokSound
  import opened Navigation

  /** Well formed and at most `d` deep. */
  ghost predicate Good(v: Node, d: nat) {
    Wf(v) && Depth(v) <= d
  }

  /** The node stands in the token array at `i` and in the text at `off`. */
  ghost predicate Placed(json: bytes, toks: seq<Tok>, i: int, v: Node, off: nat) {
    0 <= i && At(toks, i, Flatten(v, off)) && At(json, off, Print(v)) && Good(v, MAX_DEPTH)
  }

  function KindOf(v: Node): Kind {
    match v case Str(_) => Kind.String case Prim(_) => Kind.Primitive case Con(kind, _, _) => TokKind(kind)
  }

  /** What the token of a node says. */
  lemma PlacedToken(json: bytes, toks: seq<Tok>, i: int, v: Node, off: nat)
    requires Placed(json, toks, i, v, off)
    ensures 0 <= i < |toks| && toks[i].kind == KindOf(v)
    ensures v.Con? ==> v.kind != Root && toks[i].size == KidCount(v.kids)
    ensures !v.Con? ==>
      var t := toks[i]; 0 <= t.start <= t.end <= |json| && json[t.start..t.end] == if v.Str? then v.body else v.text
  {
    hide At, FlattenKids, PrintKids, WfKids, Depth, Size;
    if v.Con? {
      ContainerAtToks(toks, i, v, off);
    } else {
      AtFirst(toks, i, Flatten(v, off));
      if v.Str? {
        AtSplit(json, off, [QUOTE] + v.body, [QUOTE]);
        AtSplit(json, off, [QUOTE], v.body);
        AtIs(json, off + 1, v.body);
      } else {
        AtIs(json, off, v.text);
      }
    }
  }

  /** The span of a container's token is its text. */
  lemma PlacedSpan(json: bytes, toks: seq<Tok>, i: int, v: Node, off: nat)
    requires Placed(json, toks, i, v, off) && v.Con?
    ensures 0 <= i < |toks|
    ensures var t := toks[i]; 0 <= t.start <= t.end <= |json| && json[t.start..t.end] == Print(v)
  {
    hide At, FlattenKids, PrintKids, WfKids, Depth, Print, Size;
    NeverRoot(v);
    ContainerToks(v, off);
    AtFirst(toks, i, Flatten(v, off));
    AtIs(json, off, Print(v));
  }

  lemma NthGood(toks: seq<Tok>, i: nat, v: Node, off: nat, n: nat)
    requires v.Con? && Good(v, MAX_DEPTH) && At(toks, i, Flatten(v, off)) && n < KidCount(v.kids)
    ensures Good(Nth(v.kids, n).value, MAX_DEPTH)
  {
    hide At, Flatten, FlattenKids, Wf, WfKids, Depth, KidsDepth, Size, Nth;
    ContainerAtToks(toks, i, v, off);
    NthAt(toks, i + 1, v.kind, v.kids, off + 1, n);
  }

  /** `jstok_object_get` leads to the first pair with the key. */
  lemma PlacedMember(json: bytes, toks: seq<Tok>, i: int, v: Node, off: nat, key: bytes) returns (voff: nat)
    requires Placed(json, toks, i, v, off) && v.Con? && v.kind == Obj && FirstWithKey(v.kids, key).Some?
    ensures Placed(json, toks, MemberAt(json, toks, i, key), Nth(v.kids, FirstWithKey(v.kids, key).value).value, voff)
  {
    hide At, Flatten, FlattenKids, Print, PrintKids, Wf, WfKids, Depth, KidsDepth, Size, MemberAt, Nth, FirstWithKey,
      ValueOffset;
    var n := FirstWithKey(v.kids, key).value;
    voff := ValueOffset(off + 1, Obj, v.kids, n);
    ObjectGetIsMember(json, toks, i, v, off, key);
    ValueText(json, off, v, n);
    NthGood(toks, i, v, off, n);
  }

  lemma PlacedNoMember(json: bytes, toks: seq<Tok>, i: int, v: Node, off: nat, key: bytes)
    requires Placed(json, toks, i, v, off) && v.Con? && v.kind == Obj && FirstWithKey(v.kids, key) == None
    ensures MemberAt(json, toks, i, key) == -1
  {
    hide At, Flatten, Print, Wf, Depth, MemberAt, FirstWithKey;
    ObjectGetIsMember(json, toks, i, v, off, key);
  }

  /** `jstok_array_at` leads to the element. */
  lemma PlacedElement(json: bytes, toks: seq<Tok>, i: int, v: Node, off: nat, n: nat) returns (voff: nat)
    requires Placed(json, toks, i, v, off) && v.Con? && v.kind == Arr && n < KidCount(v.kids)
    ensures Placed(json, toks, ElementAt(toks, i, n), Nth(v.kids, n).value, voff)
  {
    hide At, Flatten, FlattenKids, Print, PrintKids, Wf, WfKids, Depth, KidsDepth, Size, ElementAt, Nth, ValueOffset;
    voff := ValueOffset(off + 1, Arr, v.kids, n);
    ArrayAtIsElement(toks, i, v, off, n);
    ValueText(json, off, v, n);
    NthGood(toks, i, v, off, n);
  }

  /** The first top-level value of a parsed document is at token 0. */
  lemma PlacedRoot(json: bytes, doc: Node) returns (off: nat)
    requires WfDocument(doc) && Depth(doc) <= MAX_DEPTH && Print(doc) == json && doc.kids.Snoc?
    ensures Placed(json, Flatten(doc, 0), 0, Nth(doc.kids, 0).value, off)
  {
    hide At, FlattenKids, PrintKids, WfKids, KidsDepth, KidsSize, Wf, Head, SetApart, ValueOffset, Flatten, Print,
      Depth;
    var ks := doc.kids;
    DocumentText(doc);
    AtAll(FlattenKids(Root, ks, 0));
    AtAll(json);
    AtSplit(json, 0, PrintKids(Root, ks), doc.tail);
    off := ValueOffset(0, Root, ks, 0);
    NthAt(Flatten(doc, 0), 0, Root, ks, 0, 0);
    PrefixText(json, 0, Root, ks, 0);
    EmptyPrefix(Root, ks);
  }
}
