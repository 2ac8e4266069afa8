/**
 What the JSON writer writes, the tokenizer reads back: every string of a list, and every id, name and arguments
 string of a list of tool calls.
 */
module ToolCallsRoundTrip {
  import opened Bytes
  import opened JsonLexer
  import opened Jstok
  import opened JsonTree
  import opened JstokComplete
  import opened JstokCount
  import opened JstokSound
  import opened Navigation
  import opened Places
  import opened Unescape
  import opened JsonWriter

  // --- the trees that are written -------------------------------------------------------------------------

  function Text(s: bytes): Node {
    Str(Escaped(s))
  }

  function Item(v: Node): Kid {
    Kid([], [], [], [], [], v)
  }

  function Pair(key: bytes, v: Node): Kid {
    Kid([], [], key, [], [], v)
  }

  function ObjNode(kids: Kids): Node {
    Con(Obj, kids, [])
  }

  function Items(nodes: seq<Node>): (ks: Kids)
    ensures KidCount(ks) == |nodes|
  {
    if nodes == [] then NoKids else Snoc(Items(nodes[..|nodes| - 1]), Item(nodes[|nodes| - 1]))
  }

  function ArrNode(nodes: seq<Node>): Node {
    Con(Arr, Items(nodes), [])
  }

  function Document(v: Node): Node {
    Con(Root, Snoc(NoKids, Item(v)), [])
  }

  function FunctionKids(name: bytes, args: bytes): Kids {
    Snoc(Snoc(NoKids, Pair(NAME, Text(name))), Pair(ARGUMENTS, Text(args)))
  }

  function IdKids(id: Span): Kids {
    if id.Null? then NoKids else Snoc(NoKids, Pair(ID, Text(id.text)))
  }

  function CallKids(c: Call): Kids
    requires c.name.Of? && c.args.Of?
  {
    Snoc(Snoc(IdKids(c.id), Pair(TYPE, Str(FUNCTION))), Pair(FUNCTION, ObjNode(FunctionKids(c.name.text, c.args.text))))
  }

  function CallNode(c: Call): Node
    requires c.name.Of? && c.args.Of?
  {
    ObjNode(CallKids(c))
  }

  function CallNodes(calls: seq<Call>): seq<Node>
    requires HaveStrings(calls)
  {
    seq(|calls|, i requires 0 <= i < |calls| => CallNode(calls[i]))
  }

  function TextNodes(items: seq<bytes>): seq<Node> {
    seq(|items|, i requires 0 <= i < |items| => Text(items[i]))
  }

  // --- they print to what is written ----------------------------------------------------------------------

  lemma TextPrints(s: bytes)
    ensures Print(Text(s)) == JsonString(s) && Wf(Text(s)) && Depth(Text(s)) == 0
  {
    EscapeRoundTrip(s);
  }

  lemma ItemHead(first: bool, v: Node)
    ensures Head(Arr, first, Item(v)) == if first then [] else [COMMA]
  {
  }

  lemma PairHead(first: bool, key: bytes, v: Node)
    ensures Head(Obj, first, Pair(key, v)) == (if first then [] else [COMMA]) + Member(key)
  {
  }

  lemma {:induction false} ItemsPrint(nodes: seq<Node>, texts: seq<bytes>)
    requires |nodes| == |texts| && forall i :: 0 <= i < |nodes| ==> Print(nodes[i]) == texts[i]
    ensures PrintKids(Arr, Items(nodes)) == Separated(texts)
  {
    hide Print, Head;
    if nodes != [] {
      var n := |nodes| - 1;
      ItemsPrint(nodes[..n], texts[..n]);
      LastKidText(Arr, Items(nodes));
      ItemHead(Items(nodes[..n]).NoKids?, nodes[n]);
    }
  }

  lemma BracketsPrint(v: Node)
    requires v.Con? && v.kind != Root && v.tail == []
    ensures Print(v) == OpenText(v.kind) + PrintKids(v.kind, v.kids) + CloseText(v.kind)
  {
    hide PrintKids;
  }

  lemma {:induction false} ItemsGood(nodes: seq<Node>, d: nat)
    requires forall i :: 0 <= i < |nodes| ==> Good(nodes[i], d)
    ensures WfKids(Items(nodes)) && KidsDepth(Items(nodes)) <= d
  {
    hide Wf, Depth;
    if nodes != [] {
      var n := |nodes| - 1;
      ItemsGood(nodes[..n], d);
      assert Good(nodes[n], d);
    }
  }

  lemma {:induction false} NthItem(nodes: seq<Node>, i: nat)
    requires i < |nodes|
    ensures Nth(Items(nodes), i) == Item(nodes[i])
  {
    var n := |nodes| - 1;
    if i < n {
      NthItem(nodes[..n], i);
    }
  }

  lemma PairPrints(init: Kids, key: bytes, v: Node)
    ensures PrintKids(Obj, Snoc(init, Pair(key, v)))
         == PrintKids(Obj, init) + ((if init.NoKids? then [] else [COMMA]) + Member(key) + Print(v))
  {
    hide Print, Member, Head;
    LastKidText(Obj, Snoc(init, Pair(key, v)));
    PairHead(init.NoKids?, key, v);
  }

  lemma FunctionPrints(name: bytes, args: bytes)
    ensures Print(ObjNode(FunctionKids(name, args)))
         == [LBRACE] + (Member(NAME) + JsonString(name) + ([COMMA] + Member(ARGUMENTS)) + JsonString(args)) + [RBRACE]
  {
    hide Print, PrintKids, Member, JsonString, Escaped;
    var kids := FunctionKids(name, args);
    BracketsPrint(ObjNode(kids));
    FunctionKidsPrint(name, args);
  }

  lemma FunctionKidsPrint(name: bytes, args: bytes)
    ensures PrintKids(Obj, FunctionKids(name, args))
         == Member(NAME) + JsonString(name) + ([COMMA] + Member(ARGUMENTS)) + JsonString(args)
  {
    hide Print, PrintKids, Member, JsonString, Escaped;
    var kids := FunctionKids(name, args);
    PairPrints(NoKids, NAME, Text(name));
    PairPrints(kids.init, ARGUMENTS, Text(args));
    TextPrints(name);
    TextPrints(args);
    NothingPrints();
    Empties(Member(NAME), JsonString(name));
    Assoc(Member(NAME) + JsonString(name), [COMMA] + Member(ARGUMENTS), JsonString(args));
  }

  lemma Empties(a: bytes, b: bytes)
    ensures [] + ([] + a + b) == a + b
  {
  }

  lemma NothingPrints()
    ensures PrintKids(Obj, NoKids) == []
  {
  }

  /** A call's object up to its function. */
  lemma CallHeadPrints(c: Call)
    requires c.name.Of? && c.args.Of?
    ensures PrintKids(Obj, CallKids(c).init) == IdText(c.id) + (Member(TYPE) + Quoted(FUNCTION))
  {
    hide Print, PrintKids, Member, JsonString, Quoted;
    var head := Member(TYPE) + Quoted(FUNCTION);
    NothingPrints();
    KeywordPrints();
    PairPrints(IdKids(c.id), TYPE, Str(FUNCTION));
    if c.id.Of? {
      var t := JsonString(c.id.text);
      PairPrints(NoKids, ID, Text(c.id.text));
      TextPrints(c.id.text);
      assert [] + ([] + Member(ID) + t) == Member(ID) + t;
      assert Member(ID) + t + ([COMMA] + Member(TYPE) + Quoted(FUNCTION)) == (Member(ID) + t + [COMMA]) + head;
    } else {
      assert [] + ([] + Member(TYPE) + Quoted(FUNCTION)) == [] + head;
    }
  }

  /** A call's tree prints to the text the writer emits. */
  lemma CallPrints(c: Call)
    requires c.name.Of? && c.args.Of?
    ensures Print(CallNode(c)) == CallText(c)
  {
    hide Print, PrintKids, Member, JsonString, Quoted, IdText, FunctionText;
    var f := ObjNode(FunctionKids(c.name.text, c.args.text));
    var kids := CallKids(c);
    BracketsPrint(CallNode(c));
    FunctionPrints(c.name.text, c.args.text);
    CallHeadPrints(c);
    PairPrints(kids.init, FUNCTION, f);
    var inner := Member(NAME) + JsonString(c.name.text) + ([COMMA] + Member(ARGUMENTS)) + JsonString(c.args.text);
    var I, head := IdText(c.id), Member(TYPE) + Quoted(FUNCTION);
    var lit := head + [COMMA] + Member(FUNCTION) + [LBRACE];
    assert (I + head) + ([COMMA] + Member(FUNCTION) + ([LBRACE] + inner + [RBRACE])) == I + (lit + inner + [RBRACE]);
    FunctionTextIs(lit, c.name.text, c.args.text);
    assert [LBRACE] + (I + (lit + inner + [RBRACE])) + [RBRACE] == [LBRACE] + I + (lit + inner + [RBRACE, RBRACE]);
  }

  lemma KeywordPrints()
    ensures Print(Str(FUNCTION)) == Quoted(FUNCTION)
  {
  }

  lemma FunctionTextIs(lit: bytes, name: bytes, args: bytes)
    requires lit == FUNCTION_LIT
    ensures FunctionText(name, args)
         == lit + (Member(NAME) + JsonString(name) + ([COMMA] + Member(ARGUMENTS)) + JsonString(args)) + [RBRACE, RBRACE]
  {
    hide Member, JsonString;
    var a, b, c, d := Member(NAME), JsonString(name), [COMMA] + Member(ARGUMENTS), JsonString(args);
    assert lit + a + b + c + d == lit + (a + b + c + d);
  }

  lemma KeywordsPlain()
    ensures StringBody(ID) && StringBody(TYPE) && StringBody(FUNCTION) && StringBody(NAME) && StringBody(ARGUMENTS)
  {
    hide StringBody;
    PlainBody(ID);
    PlainBody(TYPE);
    PlainBody(FUNCTION);
    PlainBody(NAME);
    PlainBody(ARGUMENTS);
  }

  lemma {:induction false} PlainBody(s: bytes)
    requires forall i :: 0 <= i < |s| ==> IsPlain(s[i])
    ensures StringBody(s)
  {
    if s != [] {
      PlainBody(s[1..]);
    }
  }

  ghost predicate GoodKids(ks: Kids, d: nat) {
    WfKids(ks) && KidsDepth(ks) <= d
  }

  lemma PairGood(init: Kids, key: bytes, v: Node, d: nat)
    requires GoodKids(init, d) && StringBody(key) && Good(v, d)
    ensures GoodKids(Snoc(init, Pair(key, v)), d)
  {
  }

  lemma ObjectGood(kids: Kids, d: nat)
    requires GoodKids(kids, d)
    ensures Good(ObjNode(kids), d + 1)
  {
    hide WfKids, KidsDepth;
  }

  lemma CallGood(c: Call)
    requires c.name.Of? && c.args.Of?
    ensures Good(CallNode(c), 2)
  {
    hide StringBody, Good, WfKids, KidsDepth;
    KeywordsPlain();
    StringGood(c.name.text);
    StringGood(c.args.text);
    NoKidsGood();
    if c.id.Of? {
      StringGood(c.id.text);
      PairGood(NoKids, ID, Text(c.id.text), 1);
    }
    KeywordGood();
    PairGood(NoKids, NAME, Text(c.name.text), 0);
    PairGood(Snoc(NoKids, Pair(NAME, Text(c.name.text))), ARGUMENTS, Text(c.args.text), 0);
    var f := FunctionKids(c.name.text, c.args.text);
    ObjectGood(f, 0);
    PairGood(IdKids(c.id), TYPE, Str(FUNCTION), 1);
    PairGood(CallKids(c).init, FUNCTION, ObjNode(f), 1);
    ObjectGood(CallKids(c), 1);
  }

  lemma StringGood(s: bytes)
    ensures Good(Text(s), 0) && Good(Text(s), 1)
  {
    TextPrints(s);
  }

  lemma KeywordGood()
    ensures Good(Str(FUNCTION), 1)
  {
    KeywordsPlain();
  }

  lemma NoKidsGood()
    ensures GoodKids(NoKids, 0) && GoodKids(NoKids, 1)
  {
  }

  // --- parsing the text -----------------------------------------------------------------------------------

  /** The string token at `i` unescapes to `s`. */
  predicate Recovers(json: bytes, toks: seq<Tok>, i: int, s: bytes) {
    && 0 <= i < |toks| && HasSpan(toks[i]) && toks[i].end <= |json|
    && Unescaped(json[toks[i].start..toks[i].end]) == Some(s)
  }

  lemma PlacedText(json: bytes, toks: seq<Tok>, i: int, body: bytes, off: nat, s: bytes)
    requires Placed(json, toks, i, Str(body), off) && Unescaped(body) == Some(s)
    ensures Recovers(json, toks, i, s)
  {
    hide Placed, Unescaped;
    PlacedToken(json, toks, i, Str(body), off);
  }

  /** A container on its own: the count pass and the fill pass agree, and the node is the whole array. */
  lemma ParsesBack(v: Node) returns (n: nat)
    requires v.Con? && Good(v, MAX_DEPTH)
    ensures Parse(Print(v), Mode.Count, START).rc == Tokens(n)
    ensures var r := Parse(Print(v), Fill(n), START); r.rc == Tokens(n) && Placed(Print(v), r.p.toks, 0, v, 0)
  {
    hide Parse, Print, PrintKids, Flatten, FlattenKids, Depth, KidsDepth, Size, KidsSize, Wf, WfKids, SetApart;
    var doc := Document(v);
    n := Size(doc);
    DocumentIs(v);
    ParseInvertsPrint(doc, n);
    CountWorksToo(Print(v), n);
    AtAll(Flatten(v, 0));
    AtAll(Print(v));
  }

  lemma DocumentIs(v: Node)
    requires v.Con? && Good(v, MAX_DEPTH)
    ensures var doc := Document(v);
      && WfDocument(doc) && Depth(doc) <= MAX_DEPTH
      && Print(doc) == Print(v) && Flatten(doc, 0) == Flatten(v, 0)
  {
    hide Wf, Depth, Size, Print, Flatten, Head;
    RootHead(true, Item(v));
    LastKidText(Root, Document(v).kids);
    LastKidTokens(Root, Document(v).kids, 0);
    DocumentWf(v);
    DocumentText(Document(v));
    DocumentEmpty();
    assert [] + ([] + Print(v)) + [] == Print(v);
    assert [] + ([] + Flatten(v, 0)) == Flatten(v, 0);
  }

  lemma DocumentEmpty()
    ensures PrintKids(Root, NoKids) == [] && FlattenKids(Root, NoKids, 0) == []
  {
  }

  lemma DocumentWf(v: Node)
    requires v.Con? && Good(v, MAX_DEPTH)
    ensures WfDocument(Document(v)) && Depth(Document(v)) <= MAX_DEPTH
  {
    hide Wf;
    var ks := Snoc(NoKids, Item(v));
    assert SetApart(NoKids, [], false) && SetApart(ks, [], true);
    assert WfKids(NoKids) && WfKid(Item(v)) && WfKids(ks);
    assert KidsDepth(NoKids) == 0 && KidsDepth(ks) == Depth(v);
    assert Depth(Document(v)) == KidsDepth(ks);
  }

  /** If the fill pass succeeds with `n` tokens, the count pass returns `n`. */
  lemma CountWorksToo(json: bytes, n: nat)
    requires Parse(json, Fill(n), START).rc == Tokens(n)
    ensures Parse(json, Mode.Count, START).rc == Tokens(n)
  {
    hide StepAt;
    assert Counted(START) == START;
    CountAgreesWithFill(json, n, START);
  }

  // --- main results ---------------------------------------------------------------------------------------

  /** Both passes succeed, and the tokens are an array of `count` elements. */
  ghost predicate ReadAsArray(json: bytes, count: nat, toks: seq<Tok>) {
    && Parse(json, Mode.Count, START).rc == Tokens(|toks|)
    && Parse(json, Fill(|toks|), START).rc == Tokens(|toks|)
    && Parse(json, Fill(|toks|), START).p.toks == toks
    && toks != [] && toks[0].kind == Kind.Array && toks[0].size == count
  }

  lemma ArrayReadsBack(nodes: seq<Node>, texts: seq<bytes>, d: nat) returns (toks: seq<Tok>)
    requires |nodes| == |texts| && d + 1 <= MAX_DEPTH
    requires forall i :: 0 <= i < |nodes| ==> Print(nodes[i]) == texts[i] && Good(nodes[i], d)
    ensures ReadAsArray(ArrayText(texts), |texts|, toks)
    ensures Placed(ArrayText(texts), toks, 0, ArrNode(nodes), 0)
  {
    hide Parse, Print, PrintKids, Flatten, FlattenKids, Depth, KidsDepth, Wf, WfKids, Separated;
    var v := ArrNode(nodes);
    ItemsPrint(nodes, texts);
    BracketsPrint(v);
    ItemsGood(nodes, d);
    ArrayGood(nodes, d);
    var n := ParsesBack(v);
    toks := Parse(Print(v), Fill(n), START).p.toks;
    FillsAll(Print(v), n);
    ContainerAtToks(toks, 0, v, 0);
  }

  lemma FillsAll(json: bytes, n: nat)
    requires Parse(json, Fill(n), START).rc == Tokens(n)
    ensures |Parse(json, Fill(n), START).p.toks| == n
  {
    hide StepAt;
    ParseKeeps(json, Fill(n), START);
    ParseCounts(json, Fill(n), START);
  }

  lemma ArrayGood(nodes: seq<Node>, d: nat)
    requires WfKids(Items(nodes)) && KidsDepth(Items(nodes)) <= d && d + 1 <= MAX_DEPTH
    ensures Good(ArrNode(nodes), MAX_DEPTH)
  {
    hide WfKids, KidsDepth;
  }

  /** A list of strings written by the JSON writer comes back, element by element. */
  lemma StringsRoundTrip(items: seq<bytes>) returns (toks: seq<Tok>)
    ensures var json := ArrayText(StringTexts(items));
      && ReadAsArray(json, |items|, toks)
      && forall i :: 0 <= i < |items| ==> Recovers(json, toks, ElementAt(toks, 0, i), items[i])
  {
    hide Print, Good, Placed, ElementAt, Recovers, Items, Nth, ReadAsArray, ArrayText, Escaped, Unescaped;
    var json, nodes := ArrayText(StringTexts(items)), TextNodes(items);
    forall i | 0 <= i < |items|
      ensures Print(nodes[i]) == StringTexts(items)[i] && Good(nodes[i], 0)
    {
      TextPrints(items[i]);
      StringGood(items[i]);
    }
    toks := ArrayReadsBack(nodes, StringTexts(items), 0);
    forall i | 0 <= i < |items|
      ensures Recovers(json, toks, ElementAt(toks, 0, i), items[i])
    {
      var voff := PlacedElement(json, toks, 0, ArrNode(nodes), 0, i);
      NthItem(nodes, i);
      EscapeRoundTrip(items[i]);
      PlacedText(json, toks, ElementAt(toks, 0, i), Escaped(items[i]), voff, items[i]);
    }
  }

  /** The object at `i` gives back every string of the call, and no `id` when there was none. */
  ghost predicate CallRecovered(json: bytes, toks: seq<Tok>, i: int, c: Call)
    requires c.name.Of? && c.args.Of?
  {
    && 0 <= i < |toks| && toks[i].kind == Kind.Object
    && (var id := MemberAt(json, toks, i, ID);
        if c.id.Null? then id == -1 else Recovers(json, toks, id, c.id.text))
    && Recovers(json, toks, MemberAt(json, toks, i, TYPE), FUNCTION)
    && (var f := MemberAt(json, toks, i, FUNCTION);
        && Recovers(json, toks, MemberAt(json, toks, f, NAME), c.name.text)
        && Recovers(json, toks, MemberAt(json, toks, f, ARGUMENTS), c.args.text))
  }

  lemma SnocKey(init: Kids, key: bytes, v: Node, wanted: bytes)
    ensures var ks := Snoc(init, Pair(key, v)); var f := FirstWithKey(init, wanted);
      && KidCount(ks) == KidCount(init) + 1 && Nth(ks, KidCount(init)).value == v
      && (forall n :: 0 <= n < KidCount(init) ==> Nth(ks, n) == Nth(init, n))
      && FirstWithKey(ks, wanted) == (if f.Some? then f else if key == wanted then Some(KidCount(init)) else None)
  {
  }

  lemma NoKey(wanted: bytes)
    ensures FirstWithKey(NoKids, wanted) == None && KidCount(NoKids) == 0
  {
  }

  /** The value the first pair with this key has. */
  ghost predicate Has(ks: Kids, key: bytes, v: Node) {
    var f := FirstWithKey(ks, key);
    f.Some? && Nth(ks, f.value).value == v
  }

  lemma FunctionMembers(name: bytes, args: bytes)
    ensures var ks := FunctionKids(name, args); Has(ks, NAME, Text(name)) && Has(ks, ARGUMENTS, Text(args))
  {
    hide FirstWithKey, Nth, KidCount, Escaped;
    NoKey(NAME);
    NoKey(ARGUMENTS);
    var init := Snoc(NoKids, Pair(NAME, Text(name)));
    SnocKey(NoKids, NAME, Text(name), NAME);
    SnocKey(init, ARGUMENTS, Text(args), NAME);
    SnocKey(NoKids, NAME, Text(name), ARGUMENTS);
    SnocKey(init, ARGUMENTS, Text(args), ARGUMENTS);
  }

  lemma CallMembers(c: Call)
    requires c.name.Of? && c.args.Of?
    ensures var ks := CallKids(c);
      && (if c.id.Null? then FirstWithKey(ks, ID) == None else Has(ks, ID, Text(c.id.text)))
      && Has(ks, TYPE, Str(FUNCTION)) && Has(ks, FUNCTION, ObjNode(FunctionKids(c.name.text, c.args.text)))
  {
    CallMember(c, ID);
    CallMember(c, TYPE);
    CallMember(c, FUNCTION);
  }

  lemma CallMember(c: Call, key: bytes)
    requires c.name.Of? && c.args.Of?
    ensures var ks := CallKids(c);
      && (key == ID ==> if c.id.Null? then FirstWithKey(ks, ID) == None else Has(ks, ID, Text(c.id.text)))
      && (key == TYPE ==> Has(ks, TYPE, Str(FUNCTION)))
      && (key == FUNCTION ==> Has(ks, FUNCTION, ObjNode(FunctionKids(c.name.text, c.args.text))))
  {
    hide FirstWithKey, Nth, KidCount, Escaped;
    NoKey(key);
    var ids, init := IdKids(c.id), CallKids(c).init;
    if c.id.Of? {
      SnocKey(NoKids, ID, Text(c.id.text), key);
    }
    SnocKey(ids, TYPE, Str(FUNCTION), key);
    SnocKey(init, FUNCTION, CallKids(c).last.value, key);
  }

  lemma PlacedCall(json: bytes, toks: seq<Tok>, i: int, c: Call, off: nat)
    requires c.name.Of? && c.args.Of? && Placed(json, toks, i, CallNode(c), off)
    ensures CallRecovered(json, toks, i, c)
  {
    hide Placed, FirstWithKey, Nth, MemberAt, Recovers, CallKids, FunctionKids, Escaped, Unescaped;
    PlacedToken(json, toks, i, CallNode(c), off);
    CallMembers(c);
    FunctionMembers(c.name.text, c.args.text);
    if c.id.Of? {
      PlacedString(json, toks, i, CallKids(c), off, ID, c.id.text);
    } else {
      PlacedNoMember(json, toks, i, CallNode(c), off, ID);
    }
    var toff := PlacedMember(json, toks, i, CallNode(c), off, TYPE);
    FunctionUnescapes();
    PlacedText(json, toks, MemberAt(json, toks, i, TYPE), FUNCTION, toff, FUNCTION);
    var foff := PlacedMember(json, toks, i, CallNode(c), off, FUNCTION);
    var f, fs := MemberAt(json, toks, i, FUNCTION), FunctionKids(c.name.text, c.args.text);
    PlacedString(json, toks, f, fs, foff, NAME, c.name.text);
    PlacedString(json, toks, f, fs, foff, ARGUMENTS, c.args.text);
  }

  lemma FunctionUnescapes()
    ensures Unescaped(FUNCTION) == Some(FUNCTION)
  {
    PlainEscaped(FUNCTION);
    EscapeRoundTrip(FUNCTION);
  }

  lemma {:induction false} PlainEscaped(s: bytes)
    requires forall i :: 0 <= i < |s| ==> IsPlain(s[i])
    ensures Escaped(s) == s
  {
    hide EscapeByte;
    if s != [] {
      var n := |s| - 1;
      PlainEscaped(s[..n]);
      PlainByte(s[n]);
      assert s[..n] + [s[n]] == s;
    }
  }

  lemma PlainByte(b: byte)
    requires IsPlain(b)
    ensures EscapeByte(b) == [b]
  {
  }

  lemma PlacedString(json: bytes, toks: seq<Tok>, i: int, kids: Kids, off: nat, key: bytes, s: bytes)
    requires Placed(json, toks, i, ObjNode(kids), off) && Has(kids, key, Text(s))
    ensures Recovers(json, toks, MemberAt(json, toks, i, key), s)
  {
    hide Placed, FirstWithKey, Nth, MemberAt, Recovers, Escaped, Unescaped;
    var voff := PlacedMember(json, toks, i, ObjNode(kids), off, key);
    EscapeRoundTrip(s);
    PlacedText(json, toks, MemberAt(json, toks, i, key), Escaped(s), voff, s);
  }

  /**
   Main result. Whenever tool calls are written, the tokenizer accepts the text as an array of that many
   objects, and array access, member access and unescaping recover every id, name and arguments string exactly.
   */
  lemma ToolCallsRoundTrip(calls: seq<Call>) returns (toks: seq<Tok>)
    requires HaveStrings(calls)
    ensures var json := ToolCallsText(calls);
      && ReadAsArray(json, |calls|, toks)
      && forall i :: 0 <= i < |calls| ==> CallRecovered(json, toks, ElementAt(toks, 0, i), calls[i])
  {
    hide Print, Good, Placed, ElementAt, CallRecovered, Items, Nth, ReadAsArray, ArrayText, CallText, CallNode;
    var json, nodes := ToolCallsText(calls), CallNodes(calls);
    forall i | 0 <= i < |calls|
      ensures Print(nodes[i]) == CallTexts(calls)[i] && Good(nodes[i], 2)
    {
      CallPrints(calls[i]);
      CallGood(calls[i]);
    }
    toks := ArrayReadsBack(nodes, CallTexts(calls), 2);
    forall i | 0 <= i < |calls|
      ensures CallRecovered(json, toks, ElementAt(toks, 0, i), calls[i])
    {
      var voff := PlacedElement(json, toks, 0, ArrNode(nodes), 0, i);
      NthItem(nodes, i);
      PlacedCall(json, toks, ElementAt(toks, 0, i), calls[i], voff);
    }
  }
}
