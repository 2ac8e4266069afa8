/**
 The messages of a request body (`build_chat_request` of src/json_build.c): strings are escaped, the JSON content and
 the raw `tool_calls` text of a message are spliced in as they are. What is written is read back message by message.
 */
module ChatRequest {
  import opened Bytes
  import opened JsonLexer
  import opened Jstok
  import opened JsonTree
  import opened JstokComplete
  import opened Navigation
  import opened Places
  import opened Unescape
  import opened JsonWriter
  import opened ToolCallsRoundTrip
  import opened ChatChunk
  import opened ChunkTree
  import opened ToolLoop
  import StreamTools

  const ROLE: bytes := [114, 111, 108, 101]                                              // role
  const TOOL_CALL_ID: bytes := [116, 111, 111, 108, 95, 99, 97, 108, 108, 95, 105, 100]  // tool_call_id
  const SYSTEM: bytes := [115, 121, 115, 116, 101, 109]                                  // system
  const USER: bytes := [117, 115, 101, 114]                                              // user
  const ASSISTANT: bytes := [97, 115, 115, 105, 115, 116, 97, 110, 116]                  // assistant
  const TOOL: bytes := [116, 111, 111, 108]                                              // tool

  // --- the text -------------------------------------------------------------------------------------------

  function RoleName(r: Role): bytes {
    match r case System => SYSTEM case User => USER case Assistant => ASSISTANT case Tool => TOOL
  }

  /** `validate_content_json_array`; 0 is "no limit". Only the first top-level value is looked at. */
  predicate ContentOk(text: bytes, maxParts: nat, maxBytes: nat) {
    && text != [] && |text| <= StreamTools.INT_MAX && (maxBytes == 0 || |text| <= maxBytes)
    && var toks := Tokenized(text);
    && toks.Some? && KindAt(toks.value, 0, Kind.Array)
    && (maxParts == 0 || 0 <= toks.value[0].size <= maxParts)
  }

  /** Whether a message can be written at all. */
  predicate Postable(m: Message, maxParts: nat, maxBytes: nat) {
    if m.json.Of? then m.content.Null? && ContentOk(m.json.text, maxParts, maxBytes) else m.json.len == 0
  }

  predicate HasCalls(m: Message) {
    m.role == Assistant && m.callsJson.Of? && m.callsJson.text != []
  }

  predicate HasCallId(m: Message) {
    m.role == Tool && m.callId.Of?
  }

  function ContentText(m: Message): bytes {
    if m.json.Of? then m.json.text else if m.content.Of? then JsonString(m.content.text) else NULL
  }

  /** The members of a message, in order. */
  function MemberTexts(m: Message): seq<bytes> {
    [Member(ROLE) + Quoted(RoleName(m.role)), Member(CONTENT) + ContentText(m)]
    + (if HasCalls(m) then [Member(TOOL_CALLS) + m.callsJson.text] else [])
    + (if HasCallId(m) then [Member(TOOL_CALL_ID) + JsonString(m.callId.text)] else [])
    + (if m.name.Of? then [Member(NAME) + JsonString(m.name.text)] else [])
  }

  function MessageText(m: Message): bytes {
    [LBRACE] + Separated(MemberTexts(m)) + [RBRACE]
  }

  function MessageTexts(ms: seq<Message>): seq<bytes> {
    seq(|ms|, i requires 0 <= i < |ms| => MessageText(ms[i]))
  }

  // --- writing it -----------------------------------------------------------------------------------------

  method CheckContent(text: bytes, maxParts: nat, maxBytes: nat) returns (ok: bool)
    ensures ok == ContentOk(text, maxParts, maxBytes)
  {
    hide Tokenized;
    if |text| == 0 || |text| > StreamTools.INT_MAX { return false; }
    if maxBytes != 0 && |text| > maxBytes { return false; }
    var toks := Tokenize(text);
    if toks.None? || |toks.value| == 0 { return false; }
    ok := toks.value[0].kind == Kind.Array;
    if ok && maxParts != 0 {
      if toks.value[0].size < 0 || toks.value[0].size > maxParts { ok := false; }
    }
  }

  /** One round of the loop: the message behind the text so far, or nothing. */
  method WriteMessage(b0: bytes, m: Message, maxParts: nat, maxBytes: nat) returns (b: Option<bytes>)
    ensures b == match m.json
      case Null(len) => if len == 0 then Some(b0 + MessageText(m)) else None
      case Of(text) =>
        if m.content.Null? && ContentOk(text, maxParts, maxBytes) then Some(b0 + MessageText(m)) else None
  {
    hide Tokenized, Member, Quoted, JsonString;
    ghost var texts := [Member(ROLE) + Quoted(RoleName(m.role))];
    var out := [LBRACE] + Member(ROLE) + Quoted(RoleName(m.role));
    FirstMember(texts[0]);
    assert out == [LBRACE] + Separated(texts);
    if m.json.Of? {
      if m.content.Of? || |m.json.text| == 0 { return None; }
      var ok := CheckContent(m.json.text, maxParts, maxBytes);
      if !ok { return None; }
    } else if m.json.len != 0 {
      return None;
    }
    out := out + [COMMA] + Member(CONTENT) + ContentText(m);
    MoreMembers(texts, CONTENT, ContentText(m));
    texts := texts + [Member(CONTENT) + ContentText(m)];
    if m.role == Assistant && m.callsJson.Of? && |m.callsJson.text| > 0 {
      out := out + [COMMA] + Member(TOOL_CALLS) + m.callsJson.text;
      MoreMembers(texts, TOOL_CALLS, m.callsJson.text);
      texts := texts + [Member(TOOL_CALLS) + m.callsJson.text];
    }
    if m.role == Tool && m.callId.Of? {
      out := out + [COMMA] + Member(TOOL_CALL_ID) + JsonString(m.callId.text);
      MoreMembers(texts, TOOL_CALL_ID, JsonString(m.callId.text));
      texts := texts + [Member(TOOL_CALL_ID) + JsonString(m.callId.text)];
    }
    if m.name.Of? {
      out := out + [COMMA] + Member(NAME) + JsonString(m.name.text);
      MoreMembers(texts, NAME, JsonString(m.name.text));
      texts := texts + [Member(NAME) + JsonString(m.name.text)];
    }
    assert texts == MemberTexts(m);
    return Some(b0 + (out + [RBRACE]));
  }

  lemma FirstMember(t: bytes)
    ensures Separated([t]) == t
  {
    assert [t][..0] == [];
  }

  lemma MoreMembers(texts: seq<bytes>, key: bytes, value: bytes)
    requires texts != []
    ensures [LBRACE] + Separated(texts + [Member(key) + value])
         == [LBRACE] + Separated(texts) + [COMMA] + Member(key) + value
  {
    assert (texts + [Member(key) + value])[..|texts|] == texts;
  }

  /** The `messages` array of `build_chat_request`; nothing if one of them cannot be written. */
  method WriteMessages(ms: seq<Message>, maxParts: nat, maxBytes: nat) returns (text: Option<bytes>)
    ensures text == if forall i :: 0 <= i < |ms| ==> Postable(ms[i], maxParts, maxBytes)
                    then Some(ArrayText(MessageTexts(ms))) else None
  {
    hide ContentOk, MessageText, Separated;
    var b := [LBRACKET];
    var i := 0;
    NothingSeparated();
    assert MessageTexts(ms)[..0] == [];
    while i < |ms|
      invariant i <= |ms| && forall k :: 0 <= k < i ==> Postable(ms[k], maxParts, maxBytes)
      invariant b == [LBRACKET] + Separated(MessageTexts(ms)[..i])
    {
      SeparatedGrows(MessageTexts(ms), i);
      ghost var before := Separated(MessageTexts(ms)[..i]);
      if i > 0 { b := b + [COMMA]; }
      var more := WriteMessage(b, ms[i], maxParts, maxBytes);
      if more.None? { return None; }
      b := more.value;
      Assoc4([LBRACKET], before, if i > 0 then [COMMA] else [], MessageText(ms[i]));
      i := i + 1;
    }
    assert MessageTexts(ms)[..i] == MessageTexts(ms);
    return Some(b + [RBRACKET]);
  }

  // --- the trees ------------------------------------------------------------------------------------------

  /** A member with the white space around its value. */
  datatype Memb = Memb(key: bytes, lead: bytes, v: Node, trail: bytes)

  function MembText(m: Memb): bytes {
    Member(m.key) + (m.lead + Print(m.v) + m.trail)
  }

  function MembTexts(ms: seq<Memb>): seq<bytes> {
    seq(|ms|, i requires 0 <= i < |ms| => MembText(ms[i]))
  }

  /** White space behind a value belongs to the next comma, or to the closing brace. */
  function TrailOf(ms: seq<Memb>): bytes {
    if ms == [] then [] else ms[|ms| - 1].trail
  }

  function MembKids(ms: seq<Memb>): (ks: Kids)
    ensures KidCount(ks) == |ms|
  {
    if ms == [] then NoKids
    else
      var front, m := ms[..|ms| - 1], ms[|ms| - 1];
      Snoc(MembKids(front), Kid(TrailOf(front), [], m.key, [], m.lead, m.v))
  }

  function MembNode(ms: seq<Memb>): Node {
    Con(Obj, MembKids(ms), TrailOf(ms))
  }

  lemma MembHead(first: bool, c: bytes, m: Memb)
    ensures Head(Obj, first, Kid(c, [], m.key, [], m.lead, m.v))
         == (if first then [] else c + [COMMA]) + Member(m.key) + m.lead
  {
    hide Print;
    assert [] + ([QUOTE] + m.key + [QUOTE]) + [] + [COLON] == Member(m.key);
  }

  lemma Behind(p: bytes, c: bytes, key: bytes, lead: bytes, v: bytes, trail: bytes)
    ensures p + (c + [COMMA] + key + lead + v) + trail == (p + c) + [COMMA] + (key + (lead + v + trail))
  {
  }

  lemma {:induction false} MembKidsPrint(ms: seq<Memb>)
    ensures PrintKids(Obj, MembKids(ms)) + TrailOf(ms) == Separated(MembTexts(ms))
    decreases |ms|
  {
    hide Print, Head, Member;
    if ms != [] {
      var n := |ms| - 1;
      var front, m := ms[..n], ms[n];
      MembKidsPrint(front);
      LastKidText(Obj, MembKids(ms));
      MembHead(n == 0, TrailOf(front), m);
      assert MembTexts(ms)[..n] == MembTexts(front);
      var p, c := PrintKids(Obj, MembKids(front)), TrailOf(front);
      if n == 0 {
        assert PrintKids(Obj, MembKids(front)) == [] by { NothingPrints(); }
        assert [] + ([] + Member(m.key) + m.lead + Print(m.v)) + m.trail == [] + [] + MembText(m);
      } else {
        Behind(p, c, Member(m.key), m.lead, Print(m.v), m.trail);
      }
    }
  }

  lemma MembNodePrints(ms: seq<Memb>)
    ensures Print(MembNode(ms)) == [LBRACE] + Separated(MembTexts(ms)) + [RBRACE]
  {
    hide PrintKids, Separated;
    MembKidsPrint(ms);
    assert [LBRACE] + PrintKids(Obj, MembKids(ms)) + TrailOf(ms) + [RBRACE]
        == [LBRACE] + (PrintKids(Obj, MembKids(ms)) + TrailOf(ms)) + [RBRACE];
  }

  ghost predicate MembGood(m: Memb, d: nat) {
    StringBody(m.key) && AllSpace(m.lead) && AllSpace(m.trail) && Good(m.v, d)
  }

  lemma {:induction false} MembKidsGood(ms: seq<Memb>, d: nat)
    requires forall i :: 0 <= i < |ms| ==> MembGood(ms[i], d)
    ensures GoodKids(MembKids(ms), d)
    decreases |ms|
  {
    hide Good, StringBody, GoodKids;
    if ms == [] {
      NothingGood(d);
    } else {
      var n := |ms| - 1;
      MembKidsGood(ms[..n], d);
      assert MembGood(ms[n], d);
      if n > 0 { assert MembGood(ms[n - 1], d); }
      OneKidMore(MembKids(ms[..n]), TrailOf(ms[..n]), ms[n], d);
    }
  }

  lemma NothingGood(d: nat)
    ensures GoodKids(NoKids, d)
  {
  }

  lemma OneKidMore(init: Kids, c: bytes, m: Memb, d: nat)
    requires GoodKids(init, d) && AllSpace(c) && MembGood(m, d)
    ensures GoodKids(Snoc(init, Kid(c, [], m.key, [], m.lead, m.v)), d)
  {
  }

  lemma MembNodeGood(ms: seq<Memb>, d: nat)
    requires forall i :: 0 <= i < |ms| ==> MembGood(ms[i], d)
    ensures Good(MembNode(ms), d + 1)
  {
    hide WfKids, KidsDepth, StringBody, Good;
    MembKidsGood(ms, d);
    if ms != [] { assert MembGood(ms[|ms| - 1], d); }
    NodeGood(MembKids(ms), TrailOf(ms), d);
  }

  lemma NodeGood(ks: Kids, tail: bytes, d: nat)
    requires GoodKids(ks, d) && AllSpace(tail)
    ensures Good(Con(Obj, ks, tail), d + 1)
  {
    hide WfKids, KidsDepth;
  }

  lemma {:induction false} MembFound(ms: seq<Memb>, key: bytes, i: nat)
    requires i < |ms| && ms[i].key == key && forall j :: 0 <= j < i ==> ms[j].key != key
    ensures Find(MembNode(ms), key) == Some(ms[i].v)
  {
    hide FirstWithKey, Nth;
    forall j | 0 <= j < |ms|
      ensures var k := Nth(MembKids(ms), j); k.key == ms[j].key && k.value == ms[j].v
    {
      MembNth(ms, j);
    }
    assert Nth(MembKids(ms), i).key == key;
  }

  lemma MembMissing(ms: seq<Memb>, key: bytes)
    requires forall j :: 0 <= j < |ms| ==> ms[j].key != key
    ensures Find(MembNode(ms), key) == None
  {
    hide FirstWithKey, Nth;
    var f := FirstWithKey(MembKids(ms), key);
    if f.Some? { MembNth(ms, f.value); }
  }

  lemma {:induction false} MembNth(ms: seq<Memb>, j: nat)
    requires j < |ms|
    ensures var k := Nth(MembKids(ms), j); k.key == ms[j].key && k.value == ms[j].v
    decreases |ms|
  {
    var n := |ms| - 1;
    if j < n {
      MembNth(ms[..n], j);
    }
  }

  // --- the members of a message ---------------------------------------------------------------------------

  /** What may be spliced in below the body, its messages and a message. */
  const SPLICE_DEPTH: nat := MAX_DEPTH - 3

  ghost predicate IsSplice(text: bytes, lead: bytes, v: Node, trail: bytes) {
    && AllSpace(lead) && AllSpace(trail) && v.Con? && Good(v, SPLICE_DEPTH)
    && text == lead + Print(v) + trail
  }

  /** One JSON object or array, with white space around it. */
  ghost predicate OneContainer(text: bytes) {
    exists lead, v, trail :: IsSplice(text, lead, v, trail)
  }

  /** The texts that are spliced in are such. */
  ghost predicate Splices(m: Message) {
    (m.json.Of? ==> OneContainer(m.json.text)) && (HasCalls(m) ==> OneContainer(m.callsJson.text))
  }

  /** A member whose value is this text. */
  ghost predicate Carries(p: Memb, key: bytes, text: bytes) {
    p.key == key && p.lead + Print(p.v) + p.trail == text && MembGood(p, SPLICE_DEPTH)
  }

  ghost function SpliceOf(key: bytes, text: bytes): (p: Memb)
    requires OneContainer(text) && StringBody(key)
    ensures Carries(p, key, text) && IsSplice(text, p.lead, p.v, p.trail)
  {
    var lead, v, trail :| IsSplice(text, lead, v, trail);
    Memb(key, lead, v, trail)
  }

  function TextPart(key: bytes, s: bytes): Memb {
    Memb(key, [], Text(s), [])
  }

  function Parts(m: Message, content: Memb, calls: Memb): seq<Memb> {
    [Memb(ROLE, [], Str(RoleName(m.role)), []), content]
    + (if HasCalls(m) then [calls] else [])
    + (if HasCallId(m) then [TextPart(TOOL_CALL_ID, m.callId.text)] else [])
    + (if m.name.Of? then [TextPart(NAME, m.name.text)] else [])
  }

  lemma KeysPlain()
    ensures StringBody(ROLE) && StringBody(CONTENT) && StringBody(TOOL_CALLS) && StringBody(TOOL_CALL_ID) && StringBody(NAME)
  {
    hide StringBody;
    PlainBody(ROLE);
    PlainBody(CONTENT);
    PlainBody(TOOL_CALLS);
    PlainBody(TOOL_CALL_ID);
    PlainBody(NAME);
  }

  lemma RolePlain(r: Role)
    ensures StringBody(RoleName(r))
  {
    hide StringBody;
    PlainBody(RoleName(r));
  }

  ghost function ContentPart(m: Message): (p: Memb)
    requires m.json.Of? ==> OneContainer(m.json.text)
    ensures Carries(p, CONTENT, ContentText(m))
    ensures p.v == if m.json.Of? then p.v else if m.content.Of? then Text(m.content.text) else Prim(NULL)
    ensures m.json.Of? ==> IsSplice(m.json.text, p.lead, p.v, p.trail)
  {
    KeysPlain();
    if m.json.Of? then SpliceOf(CONTENT, m.json.text)
    else if m.content.Of? then
      TextCarries(CONTENT, m.content.text);
      TextPart(CONTENT, m.content.text)
    else
      NullCarries();
      Memb(CONTENT, [], Prim(NULL), [])
  }

  lemma TextCarries(key: bytes, s: bytes)
    requires StringBody(key)
    ensures Carries(TextPart(key, s), key, JsonString(s))
  {
    hide StringBody, JsonString;
    TextPrints(s);
    assert [] + JsonString(s) + [] == JsonString(s);
  }

  lemma NullCarries()
    ensures Carries(Memb(CONTENT, [], Prim(NULL), []), CONTENT, NULL)
  {
    KeysPlain();
    assert [] + NULL + [] == NULL;
  }

  lemma RoleCarries(r: Role)
    ensures Carries(Memb(ROLE, [], Str(RoleName(r)), []), ROLE, Quoted(RoleName(r)))
  {
    hide StringBody;
    KeysPlain();
    RolePlain(r);
    assert [] + Quoted(RoleName(r)) + [] == Quoted(RoleName(r));
  }

  /** The members of a message print to its text. */
  ghost predicate Writes(m: Message, ps: seq<Memb>) {
    MembTexts(ps) == MemberTexts(m) && forall i :: 0 <= i < |ps| ==> MembGood(ps[i], SPLICE_DEPTH)
  }

  lemma PartsFit(m: Message, content: Memb, calls: Memb)
    requires Carries(content, CONTENT, ContentText(m))
    requires HasCalls(m) ==> Carries(calls, TOOL_CALLS, m.callsJson.text)
    ensures Writes(m, Parts(m, content, calls))
  {
    hide StringBody, JsonString, Member, ContentText, RoleName, Quoted, Print, MembGood;
    KeysPlain();
    RoleCarries(m.role);
    if HasCallId(m) { TextCarries(TOOL_CALL_ID, m.callId.text); }
    if m.name.Of? { TextCarries(NAME, m.name.text); }
    var ps := Parts(m, content, calls);
    assert |MembTexts(ps)| == |MemberTexts(m)|;
    assert forall i :: 0 <= i < |ps| ==> MembTexts(ps)[i] == MemberTexts(m)[i];
  }

  /** Where the members of a message are found. */
  lemma PartsFound(m: Message, content: Memb, calls: Memb)
    requires content.key == CONTENT && (HasCalls(m) ==> calls.key == TOOL_CALLS)
    ensures var v := MembNode(Parts(m, content, calls));
      && Find(v, ROLE) == Some(Str(RoleName(m.role))) && Find(v, CONTENT) == Some(content.v)
      && Find(v, TOOL_CALLS) == (if HasCalls(m) then Some(calls.v) else None)
      && Find(v, TOOL_CALL_ID) == (if HasCallId(m) then Some(Text(m.callId.text)) else None)
      && Find(v, NAME) == (if m.name.Of? then Some(Text(m.name.text)) else None)
  {
    hide MembNode, Find, RoleName;
    KeysDiffer();
    var ps := Parts(m, content, calls);
    MembFound(ps, ROLE, 0);
    MembFound(ps, CONTENT, 1);
    if HasCalls(m) { MembFound(ps, TOOL_CALLS, 2); } else { MembMissing(ps, TOOL_CALLS); }
    if HasCallId(m) { MembFound(ps, TOOL_CALL_ID, 2); } else { MembMissing(ps, TOOL_CALL_ID); }
    if m.name.Of? { MembFound(ps, NAME, |ps| - 1); } else { MembMissing(ps, NAME); }
  }

  lemma KeysDiffer()
    ensures ROLE != CONTENT && ROLE != TOOL_CALLS && ROLE != TOOL_CALL_ID && ROLE != NAME
    ensures CONTENT != TOOL_CALLS && CONTENT != TOOL_CALL_ID && CONTENT != NAME
    ensures TOOL_CALLS != TOOL_CALL_ID && TOOL_CALLS != NAME && TOOL_CALL_ID != NAME
  {
    assert |ROLE| == |NAME| && ROLE[0] != NAME[0];
  }

  // --- reading it back ------------------------------------------------------------------------------------

  function MembNodes(parts: seq<seq<Memb>>): seq<Node> {
    seq(|parts|, i requires 0 <= i < |parts| => MembNode(parts[i]))
  }

  ghost predicate Stands(json: bytes, toks: seq<Tok>, i: int, v: Node) {
    exists off :: Placed(json, toks, i, v, off)
  }

  /** The whole array is parsed, and every message stands where array access finds it. */
  lemma MessagesPlaced(ms: seq<Message>, parts: seq<seq<Memb>>) returns (toks: seq<Tok>)
    requires |parts| == |ms| && forall i :: 0 <= i < |ms| ==> Writes(ms[i], parts[i])
    ensures var body := ArrayText(MessageTexts(ms));
      && ReadAsArray(body, |ms|, toks)
      && forall i :: 0 <= i < |ms| ==> Stands(body, toks, ElementAt(toks, 0, i), MembNode(parts[i]))
  {
    hide Placed, Good, ElementAt, MembNode, MessageText, Print, MembTexts, MemberTexts, ReadAsArray;
    var nodes, texts := MembNodes(parts), MessageTexts(ms);
    forall i | 0 <= i < |ms|
      ensures Print(nodes[i]) == texts[i] && Good(nodes[i], SPLICE_DEPTH + 1)
    {
      assert Writes(ms[i], parts[i]);
      MessagePrints(ms[i], parts[i]);
    }
    toks := ArrayReadsBack(nodes, texts, SPLICE_DEPTH + 1);
    var body := ArrayText(texts);
    forall i | 0 <= i < |ms|
      ensures Stands(body, toks, ElementAt(toks, 0, i), MembNode(parts[i]))
    {
      NthItem(nodes, i);
      var off := PlacedElement(body, toks, 0, ArrNode(nodes), 0, i);
      assert Placed(body, toks, ElementAt(toks, 0, i), MembNode(parts[i]), off);
    }
  }

  lemma MessagePrints(m: Message, ps: seq<Memb>)
    requires Writes(m, ps)
    ensures Print(MembNode(ps)) == MessageText(m) && Good(MembNode(ps), SPLICE_DEPTH + 1)
  {
    hide MembNode, Good, Print, MembTexts, MemberTexts, Separated;
    MembNodePrints(ps);
    MembNodeGood(ps, SPLICE_DEPTH);
  }

  /** The token of a string member unescapes to `s`, and without a string there is no such member. */
  predicate ReadsString(json: bytes, toks: seq<Tok>, e: int, key: bytes, s: Option<bytes>) {
    var i := MemberAt(json, toks, e, key);
    if s.Some? then Recovers(json, toks, i, s.value) else i == -1
  }

  /** The text is this value with white space around it. */
  ghost predicate Trimmed(text: bytes, value: bytes) {
    exists lead, trail :: AllSpace(lead) && AllSpace(trail) && text == lead + value + trail
  }

  ghost predicate ReadsContent(json: bytes, toks: seq<Tok>, e: int, m: Message) {
    var i := MemberAt(json, toks, e, CONTENT);
    if m.json.Of? then
      0 <= i < |toks| && SpanText(json, toks[i]).Some?
      && Trimmed(m.json.text, SpanText(json, toks[i]).value)
    else if m.content.Of? then Recovers(json, toks, i, m.content.text)
    else KindAt(toks, i, Kind.Primitive) && SpanText(json, toks[i]) == Some(NULL)
  }

  ghost predicate ReadsCalls(json: bytes, toks: seq<Tok>, e: int, m: Message) {
    var i := MemberAt(json, toks, e, TOOL_CALLS);
    if m.role == Assistant && m.callsJson.Of? && m.callsJson.text != [] then
      0 <= i < |toks| && SpanText(json, toks[i]).Some?
      && Trimmed(m.callsJson.text, SpanText(json, toks[i]).value)
    else i == -1
  }

  function TextIf(present: bool, s: Span): Option<bytes> {
    if present && s.Of? then Some(s.text) else None
  }

  /** The role as it is spelled in a request. */
  function RoleText(r: Role): bytes {
    match r
    case System => Ascii("system")
    case User => Ascii("user")
    case Assistant => Ascii("assistant")
    case Tool => Ascii("tool")
  }

  lemma RolesSpelled(r: Role)
    ensures RoleName(r) == RoleText(r)
  {
    match r
    case System => assert Ascii("system") == SYSTEM;
    case User => assert Ascii("user") == USER;
    case Assistant => assert Ascii("assistant") == ASSISTANT;
    case Tool => assert Ascii("tool") == TOOL;
  }

  /** The object at this token says what the message says. */
  ghost predicate ReadsAs(json: bytes, toks: seq<Tok>, e: int, m: Message) {
    && KindAt(toks, e, Kind.Object) && StringAt(json, toks, e, ROLE) == Some(RoleText(m.role))
    && ReadsContent(json, toks, e, m) && ReadsCalls(json, toks, e, m)
    && ReadsString(json, toks, e, TOOL_CALL_ID, TextIf(m.role == Tool, m.callId))
    && ReadsString(json, toks, e, NAME, TextIf(true, m.name))
  }

  lemma StringReads(json: bytes, toks: seq<Tok>, e: int, v: Node, off: nat, key: bytes, s: Option<bytes>)
    requires Placed(json, toks, e, v, off)
    requires Find(v, key) == if s.Some? then Some(Text(s.value)) else None
    ensures ReadsString(json, toks, e, key, s)
  {
    hide Placed, Find, MemberAt, Recovers;
    var voff := MemberMeans(json, toks, e, v, off, key);
    if s.Some? {
      EscapeRoundTrip(s.value);
      PlacedText(json, toks, MemberAt(json, toks, e, key), Escaped(s.value), voff, s.value);
    }
  }

  /** A placed container between white space. */
  lemma SpliceReads(json: bytes, toks: seq<Tok>, i: int, text: bytes, lead: bytes, v: Node, trail: bytes, off: nat)
    requires Placed(json, toks, i, v, off) && IsSplice(text, lead, v, trail)
    ensures 0 <= i < |toks| && SpanText(json, toks[i]) == Some(Print(v))
    ensures Trimmed(text, SpanText(json, toks[i]).value)
  {
    hide Placed, Print, Good;
    PlacedSpan(json, toks, i, v, off);
  }

  lemma ContentReads(json: bytes, toks: seq<Tok>, e: int, m: Message, v: Node, off: nat)
    requires Placed(json, toks, e, v, off) && (m.json.Of? ==> OneContainer(m.json.text))
    requires Find(v, CONTENT) == Some(ContentPart(m).v)
    ensures ReadsContent(json, toks, e, m)
  {
    hide Placed, Find, MemberAt, Recovers, IsSplice, Print, SpanText, OneContainer;
    var i, p := MemberAt(json, toks, e, CONTENT), ContentPart(m);
    var voff := MemberMeans(json, toks, e, v, off, CONTENT);
    if m.json.Of? {
      SpliceReads(json, toks, i, m.json.text, p.lead, p.v, p.trail, voff);
    } else if m.content.Of? {
      EscapeRoundTrip(m.content.text);
      PlacedText(json, toks, i, Escaped(m.content.text), voff, m.content.text);
    } else {
      NullReads(json, toks, i, voff);
    }
  }

  lemma NullReads(json: bytes, toks: seq<Tok>, i: int, off: nat)
    requires Placed(json, toks, i, Prim(NULL), off)
    ensures KindAt(toks, i, Kind.Primitive) && SpanText(json, toks[i]) == Some(NULL)
  {
    hide Placed;
    PlacedToken(json, toks, i, Prim(NULL), off);
  }

  ghost function CallsPart(m: Message): (p: Memb)
    requires HasCalls(m) ==> OneContainer(m.callsJson.text)
    ensures HasCalls(m) ==>
      Carries(p, TOOL_CALLS, m.callsJson.text) && IsSplice(m.callsJson.text, p.lead, p.v, p.trail)
  {
    KeysPlain();
    if HasCalls(m) then SpliceOf(TOOL_CALLS, m.callsJson.text) else TextPart(TOOL_CALLS, [])
  }

  ghost function PartsOf(m: Message): (ps: seq<Memb>)
    requires Splices(m)
    ensures Writes(m, ps)
  {
    PartsFit(m, ContentPart(m), CallsPart(m));
    Parts(m, ContentPart(m), CallsPart(m))
  }

  lemma MessageReads(json: bytes, toks: seq<Tok>, e: int, m: Message, off: nat)
    requires Splices(m) && Placed(json, toks, e, MembNode(PartsOf(m)), off)
    ensures ReadsAs(json, toks, e, m)
  {
    hide Placed, Find, MemberAt, MembNode, Recovers, OneContainer, Carries, IsSplice, ReadsContent, ReadsString,
      Writes, RoleName;
    hide SpanText, Print, RoleText;
    RolesSpelled(m.role);
    var v := MembNode(PartsOf(m));
    var content, calls := ContentPart(m), CallsPart(m);
    CarriesKey(content, CONTENT, ContentText(m));
    if HasCalls(m) { CarriesKey(calls, TOOL_CALLS, m.callsJson.text); }
    PartsFound(m, content, calls);
    PlacedToken(json, toks, e, v, off);
    MembIsObject(PartsOf(m));
    StringMeans(json, toks, e, v, off, ROLE);
    ContentReads(json, toks, e, m, v, off);
    StringReads(json, toks, e, v, off, TOOL_CALL_ID, TextIf(m.role == Tool, m.callId));
    StringReads(json, toks, e, v, off, NAME, TextIf(true, m.name));
    var voff := MemberMeans(json, toks, e, v, off, TOOL_CALLS);
    if HasCalls(m) {
      SpliceReads(json, toks, MemberAt(json, toks, e, TOOL_CALLS), m.callsJson.text, calls.lead, calls.v, calls.trail, voff);
    }
  }

  lemma CarriesKey(p: Memb, key: bytes, text: bytes)
    requires Carries(p, key, text)
    ensures p.key == key
  {
  }

  lemma MembIsObject(ms: seq<Memb>)
    ensures MembNode(ms).Con? && KindOf(MembNode(ms)) == Object
  {
  }

  /**
   Main result. When the texts spliced into the messages are JSON objects or arrays, what is written parses as an
   array of as many objects, each with exactly the members of its message: every string unescapes to the original
   bytes, and every spliced text is one value, between the same white space.
   */
  lemma MessagesReadBack(ms: seq<Message>) returns (toks: seq<Tok>)
    requires forall i :: 0 <= i < |ms| ==> Splices(ms[i])
    ensures var body := ArrayText(MessageTexts(ms));
      ReadAsArray(body, |ms|, toks) && forall i :: 0 <= i < |ms| ==> ReadsAs(body, toks, ElementAt(toks, 0, i), ms[i])
  {
    hide Splices, Writes, Placed, ReadsAs, ElementAt, ReadAsArray, MessageText, MembNode;
    var parts := seq(|ms|, i requires 0 <= i < |ms| => PartsOf(ms[i]));
    toks := MessagesPlaced(ms, parts);
    var body := ArrayText(MessageTexts(ms));
    forall i | 0 <= i < |ms|
      ensures ReadsAs(body, toks, ElementAt(toks, 0, i), ms[i])
    {
      assert Stands(body, toks, ElementAt(toks, 0, i), MembNode(parts[i]));
      var off :| Placed(body, toks, ElementAt(toks, 0, i), MembNode(parts[i]), off);
      MessageReads(body, toks, ElementAt(toks, 0, i), ms[i], off);
    }
  }
}
