/**
 One chunk of a streamed chat completion (src/protocol_chat.c): tokenized in two passes, searched for the wanted
 choice, and reduced to the spans the stream handler needs.
 */
module ChatChunk {
  import opened Bytes
  import opened JsonLexer
  import opened Jstok
  import opened JstokCount
  import opened JstokParser
  import opened JsonTree
  import opened Navigation
  import opened Unescape
  import opened JsonWriter
  import EventStream

  const INDEX: bytes := [105, 110, 100, 101, 120]                          // index
  const CHOICES: bytes := [99, 104, 111, 105, 99, 101, 115]                // choices
  const DELTA: bytes := [100, 101, 108, 116, 97]                           // delta
  const CONTENT: bytes := [99, 111, 110, 116, 101, 110, 116]               // content
  const THINKING: bytes := [116, 104, 105, 110, 107, 105, 110, 103]        // thinking
  const REASONING: bytes := [114, 101, 97, 115, 111, 110, 105, 110, 103, 95] + CONTENT // reasoning_content
  const TOOL_CALLS: bytes := [116, 111, 111, 108, 95, 99, 97, 108, 108, 115] // tool_calls
  const USAGE: bytes := [117, 115, 97, 103, 101]                           // usage
  const TOKENS: bytes := [95, 116, 111, 107, 101, 110, 115]                // _tokens
  const PROMPT: bytes := [112, 114, 111, 109, 112, 116] + TOKENS           // prompt_tokens
  const COMPLETION: bytes := [99, 111, 109, 112, 108, 101, 116, 105, 111, 110] + TOKENS // completion_tokens
  const TOTAL: bytes := [116, 111, 116, 97, 108] + TOKENS                  // total_tokens
  const FINISH: bytes := [102, 105, 110, 105, 115, 104, 95, 114, 101, 97, 115, 111, 110] // finish_reason
  const STOP: bytes := [115, 116, 111, 112]                                // stop
  const LENGTH: bytes := [108, 101, 110, 103, 116, 104]                    // length
  const FILTER: bytes := CONTENT + [95, 102, 105, 108, 116, 101, 114]      // content_filter

  datatype Finish = Unknown | Stopped | TooLong | ToolCalls | Filtered

  /** A piece of a tool call; the strings are the raw text between the quotes. */
  datatype ToolDelta = ToolDelta(index: nat, id: Option<bytes>, name: Option<bytes>, fragment: Option<bytes>)

  datatype Delta = Delta(content: Option<bytes>, reasoning: Option<bytes>, tools: seq<ToolDelta>, finish: Finish)

  const NO_DELTA := Delta(None, None, [], Unknown)

  /** Token counts, as far as they are given. */
  datatype Usage = Usage(prompt: Option<nat>, completion: Option<nat>, total: Option<nat>)

  datatype Chunk = Chunk(delta: Delta, usage: Option<Usage>)

  // --- two passes -----------------------------------------------------------------------------------------

  /** The tokens of the text, when it parses. */
  function Tokenized(json: bytes): Option<seq<Tok>> {
    var n := Parse(json, Mode.Count, START).rc;
    if n.Tokens? then Some(Parse(json, Fill(n.n), START).p.toks) else None
  }

  /** `tokenize`: count, allocate, fill. The second pass never fails. */
  method Tokenize(json: bytes) returns (toks: Option<seq<Tok>>)
    ensures toks == Tokenized(json)
  {
    hide Jstok.Parse;
    var parser := new Parser();
    var needed := parser.Parse(Some(json), null, 0);
    if !needed.Tokens? { return None; }
    var tokens := new Tok[needed.n];
    parser := new Parser();
    var parsed := parser.Parse(Some(json), tokens, needed.n);
    SecondPassSucceeds(json, needed.n);
    if !parsed.Tokens? {
      toks := None;
      assert false;
    } else {
      assert parser.Now(tokens) == Jstok.Parse(json, Fill(needed.n), START).p;
      assert tokens[..parser.toknext] == tokens[..];
      toks := Some(tokens[..]);
    }
  }

  // --- fields ---------------------------------------------------------------------------------------------

  predicate Inside(json: bytes, toks: seq<Tok>) {
    forall i :: 0 <= i < |toks| ==> toks[i].end <= |json|
  }

  predicate KindAt(toks: seq<Tok>, i: int, kind: Kind) {
    0 <= i < |toks| && toks[i].kind == kind
  }

  function SpanText(json: bytes, t: Tok): Option<bytes> {
    if 0 <= t.start <= t.end <= |json| then Some(json[t.start..t.end]) else None
  }

  /** The raw text of a string member. */
  function StringAt(json: bytes, toks: seq<Tok>, obj: int, key: bytes): Option<bytes> {
    var i := MemberAt(json, toks, obj, key);
    if KindAt(toks, i, Kind.String) then SpanText(json, toks[i]) else None
  }

  method ReadString(json: bytes, toks: seq<Tok>, obj: int, key: bytes) returns (s: Option<bytes>)
    requires Inside(json, toks)
    ensures s == StringAt(json, toks, obj, key)
  {
    var i := ObjectGet(json, toks, obj, key);
    if i < 0 || toks[i].kind != Kind.String { return None; }
    return SpanText(json, toks[i]);
  }

  const TWO64: nat := SIZE_MAX + 1

  /** `parse_choice_index`: decimal digits only, modulo the width of a size_t. */
  function IndexValue(json: bytes, t: Tok): Option<nat> {
    var s := SpanText(json, t);
    if t.kind != Kind.Primitive || s.None? || s.value == [] || !EventStream.AllDigits(s.value) then None
    else Some(EventStream.DecimalValue(s.value) % TWO64)
  }

  method ReadIndex(json: bytes, t: Tok) returns (v: Option<nat>)
    ensures v == IndexValue(json, t)
  {
    if t.kind != Kind.Primitive { return None; }
    var s := SpanText(json, t);
    if s.None? || |s.value| == 0 { return None; }
    var val: nat := 0;
    var i := 0;
    while i < |s.value|
      invariant i <= |s.value| && EventStream.AllDigits(s.value[..i])
      invariant val == EventStream.DecimalValue(s.value[..i]) % TWO64
    {
      var c := s.value[i];
      if !IsDigit(c) { return None; }
      assert s.value[..i + 1][..i] == s.value[..i];
      WrapDigit(EventStream.DecimalValue(s.value[..i]), c - 48);
      val := (val * 10 + (c - 48)) % TWO64;
      i := i + 1;
    }
    assert s.value[..i] == s.value;
    return Some(val);
  }

  /** Wrapping at every digit is wrapping once at the end. */
  lemma WrapDigit(a: nat, d: nat)
    ensures (a % TWO64 * 10 + d) % TWO64 == (10 * a + d) % TWO64
  {
    var q, r := a / TWO64, a % TWO64;
    assert 10 * a + d == (r * 10 + d) + TWO64 * (10 * q);
    WrapAdd(r * 10 + d, 10 * q);
  }

  lemma {:induction false} WrapAdd(x: nat, k: nat)
    ensures (x + TWO64 * k) % TWO64 == x % TWO64
    decreases k
  {
    if k > 0 {
      WrapAdd(x, k - 1);
      assert x + TWO64 * k == x + TWO64 * (k - 1) + TWO64;
    }
  }

  // --- usage ----------------------------------------------------------------------------------------------

  /** A non-negative whole number, possibly written `-0`. */
  function CountValue(text: bytes): Option<nat> {
    var minus := text != [] && text[0] == MINUS;
    var s := if minus then text[1..] else text;
    if s == [] || !EventStream.AllDigits(s) || (minus && EventStream.DecimalValue(s) != 0) then None
    else Some(EventStream.DecimalValue(s))
  }

  function CountAt(json: bytes, toks: seq<Tok>, obj: int, key: bytes): Option<nat> {
    var i := MemberAt(json, toks, obj, key);
    if !KindAt(toks, i, Kind.Primitive) || SpanText(json, toks[i]).None? then None
    else CountValue(SpanText(json, toks[i]).value)
  }

  function UsageAt(json: bytes, toks: seq<Tok>): Option<Usage> {
    var u := MemberAt(json, toks, 0, USAGE);
    if !KindAt(toks, u, Kind.Object) then None
    else
      Some(Usage(CountAt(json, toks, u, PROMPT), CountAt(json, toks, u, COMPLETION), CountAt(json, toks, u, TOTAL)))
  }

  /** The digit loop shared by `usage_parse_field` and `jstok_atoi64`. */
  method ReadCount(text: bytes) returns (v: Option<nat>)
    ensures v == CountValue(text)
  {
    var minus := |text| > 0 && text[0] == MINUS;
    var start := if minus then 1 else 0;
    ghost var s := text[start..];
    if start >= |text| { return None; }
    var val: nat := 0;
    var i := start;
    assert s[..0] == [];
    while i < |text|
      invariant start <= i <= |text| && EventStream.AllDigits(s[..i - start])
      invariant val == EventStream.DecimalValue(s[..i - start])
    {
      if !IsDigit(text[i]) {
        assert s[i - start] == text[i];
        return None;
      }
      assert s[..i + 1 - start][..i - start] == s[..i - start];
      val := val * 10 + (text[i] - 48);
      i := i + 1;
    }
    assert s[..i - start] == s;
    if minus && val != 0 { return None; }
    return Some(val);
  }

  method ReadField(json: bytes, toks: seq<Tok>, obj: int, key: bytes) returns (v: Option<nat>)
    requires Inside(json, toks)
    ensures v == CountAt(json, toks, obj, key)
  {
    hide CountValue;
    var i := ObjectGet(json, toks, obj, key);
    if i < 0 || toks[i].kind != Kind.Primitive { return None; }
    var text := SpanText(json, toks[i]);
    if text.None? { return None; }
    v := ReadCount(text.value);
  }

  /** `usage_parse` */
  method ReadUsage(json: bytes, toks: seq<Tok>) returns (usage: Option<Usage>)
    requires Inside(json, toks)
    ensures usage == UsageAt(json, toks)
  {
    hide CountAt, MemberAt;
    var u := ObjectGet(json, toks, 0, USAGE);
    if u < 0 || toks[u].kind != Kind.Object { return None; }
    var prompt := ReadField(json, toks, u, PROMPT);
    var completion := ReadField(json, toks, u, COMPLETION);
    var total := ReadField(json, toks, u, TOTAL);
    return Some(Usage(prompt, completion, total));
  }

  // --- the choice -----------------------------------------------------------------------------------------

  /** An object, with the wanted index if one is wanted. */
  predicate Fits(json: bytes, toks: seq<Tok>, e: int, wanted: Option<nat>) {
    && KindAt(toks, e, Kind.Object)
    && (wanted.Some? ==>
          var i := MemberAt(json, toks, e, INDEX); i >= 0 && IndexValue(json, toks[i]) == wanted)
  }

  /** The first of the elements below `n` that fits. */
  function FirstFit(json: bytes, toks: seq<Tok>, arr: int, wanted: Option<nat>, n: nat): (r: Option<int>)
    ensures r.Some? ==>
      && 0 <= r.value < |toks| && Fits(json, toks, r.value, wanted)
      && exists i :: 0 <= i < n && ElementAt(toks, arr, i) == r.value
           && forall k :: 0 <= k < i ==> !Fits(json, toks, ElementAt(toks, arr, k), wanted)
    ensures r.None? ==> forall k :: 0 <= k < n ==> !Fits(json, toks, ElementAt(toks, arr, k), wanted)
  {
    if n == 0 then None
    else
      var r := FirstFit(json, toks, arr, wanted, n - 1);
      if r.Some? then r
      else
        var e := ElementAt(toks, arr, n - 1);
        if Fits(json, toks, e, wanted) then Some(e) else None
  }

  /** The first choice with this index; for index 0 otherwise the first choice at all; else -1. */
  function Choice(json: bytes, toks: seq<Tok>, arr: int, n: nat, index: nat): int {
    var exact := FirstFit(json, toks, arr, Some(index), n);
    var any := FirstFit(json, toks, arr, None, n);
    if exact.Some? then exact.value else if index == 0 && any.Some? then any.value else -1
  }

  lemma FitRound(json: bytes, toks: seq<Tok>, arr: int, wanted: Option<nat>, i: nat)
    ensures FirstFit(json, toks, arr, wanted, 0).None?
    ensures var r, e := FirstFit(json, toks, arr, wanted, i), ElementAt(toks, arr, i);
      FirstFit(json, toks, arr, wanted, i + 1)
        == if r.Some? then r else if Fits(json, toks, e, wanted) then Some(e) else None
  {
  }

  /** `find_choice_token` */
  method FindChoice(json: bytes, toks: seq<Tok>, arr: int, index: nat) returns (choice: int)
    requires Inside(json, toks) && 0 <= arr < |toks|
    ensures choice == if toks[arr].size > 0 then Choice(json, toks, arr, toks[arr].size, index) else -1
  {
    hide MemberAt, ElementAt, IndexValue, FirstFit;
    var size := toks[arr].size;
    if size <= 0 { return -1; }
    var fallback := -1;
    FitRound(json, toks, arr, Some(index), 0);
    FitRound(json, toks, arr, None, 0);
    var i := 0;
    while i < size
      invariant 0 <= i <= size && FirstFit(json, toks, arr, Some(index), i).None?
      invariant var any := FirstFit(json, toks, arr, None, i);
        fallback == if index == 0 && any.Some? then any.value else -1
    {
      FitRound(json, toks, arr, Some(index), i);
      FitRound(json, toks, arr, None, i);
      var e := ArrayAt(toks, arr, i);
      if 0 <= e < |toks| && toks[e].kind == Kind.Object {
        if index == 0 && fallback < 0 { fallback := e; }
        var at := ObjectGet(json, toks, e, INDEX);
        if at >= 0 {
          var val := ReadIndex(json, toks[at]);
          if val == Some(index) {
            FitStays(json, toks, arr, Some(index), i + 1, size);
            return e;
          }
        }
      }
      i := i + 1;
    }
    return if index == 0 then fallback else -1;
  }

  lemma {:induction false} FitStays(json: bytes, toks: seq<Tok>, arr: int, wanted: Option<nat>, i: nat, n: nat)
    requires i <= n && FirstFit(json, toks, arr, wanted, i).Some?
    ensures FirstFit(json, toks, arr, wanted, n) == FirstFit(json, toks, arr, wanted, i)
    decreases n - i
  {
    hide Fits, ElementAt, KindAt;
    if i < n {
      FitStays(json, toks, arr, wanted, i + 1, n);
    }
  }

  // --- the delta ------------------------------------------------------------------------------------------

  function FinishOf(s: Option<bytes>): Finish {
    if s == Some(STOP) then Stopped
    else if s == Some(LENGTH) then TooLong
    else if s == Some(TOOL_CALLS) then ToolCalls
    else if s == Some(FILTER) then Filtered
    else Unknown
  }

  function ToolDeltaOf(json: bytes, toks: seq<Tok>, e: int): ToolDelta {
    var i, f := MemberAt(json, toks, e, INDEX), MemberAt(json, toks, e, FUNCTION);
    var v := if i >= 0 then IndexValue(json, toks[i]) else None;
    var isObject := KindAt(toks, f, Kind.Object);
    ToolDelta(
      if v.Some? then v.value else 0,
      StringAt(json, toks, e, ID),
      if isObject then StringAt(json, toks, f, NAME) else None,
      if isObject then StringAt(json, toks, f, ARGUMENTS) else None)
  }

  /** The first `n` elements, if all of them are objects. */
  function ToolDeltas(json: bytes, toks: seq<Tok>, arr: int, n: nat): Option<seq<ToolDelta>> {
    if n == 0 then Some([])
    else
      var front, e := ToolDeltas(json, toks, arr, n - 1), ElementAt(toks, arr, n - 1);
      if front.None? || !KindAt(toks, e, Kind.Object) then None
      else Some(front.value + [ToolDeltaOf(json, toks, e)])
  }

  function ToolsOf(json: bytes, toks: seq<Tok>, obj: int): Option<seq<ToolDelta>> {
    var t := MemberAt(json, toks, obj, TOOL_CALLS);
    if KindAt(toks, t, Kind.Array) && toks[t].size > 0 then ToolDeltas(json, toks, t, toks[t].size) else Some([])
  }

  function ReasoningOf(json: bytes, toks: seq<Tok>, obj: int): Option<bytes> {
    var r := StringAt(json, toks, obj, REASONING);
    if r.Some? then r else StringAt(json, toks, obj, THINKING)
  }

  function DeltaOf(json: bytes, toks: seq<Tok>, choice: int): Option<Delta> {
    var finish := FinishOf(StringAt(json, toks, choice, FINISH));
    var d := MemberAt(json, toks, choice, DELTA);
    if !KindAt(toks, d, Kind.Object) then Some(NO_DELTA.(finish := finish))
    else
      var tools := ToolsOf(json, toks, d);
      if tools.None? then None
      else Some(Delta(StringAt(json, toks, d, CONTENT), ReasoningOf(json, toks, d), tools.value, finish))
  }

  /** What a chunk says about the wanted choice; nothing if it is no such JSON. */
  function ChunkIn(json: bytes, toks: seq<Tok>, index: nat): Option<Chunk> {
    if !KindAt(toks, 0, Kind.Object) then None
    else
      var usage := UsageAt(json, toks);
      var arr := MemberAt(json, toks, 0, CHOICES);
      if !KindAt(toks, arr, Kind.Array) || toks[arr].size <= 0 then Some(Chunk(NO_DELTA, usage))
      else
        var choice := Choice(json, toks, arr, toks[arr].size, index);
        if choice < 0 then Some(Chunk(NO_DELTA, usage))
        else
          var d := DeltaOf(json, toks, choice);
          if d.None? then None else Some(Chunk(d.value, usage))
  }

  function ChunkOf(json: bytes, index: nat): Option<Chunk> {
    var toks := Tokenized(json);
    if toks.None? then None else ChunkIn(json, toks.value, index)
  }

  method ReadTool(json: bytes, toks: seq<Tok>, e: int) returns (t: ToolDelta)
    requires Inside(json, toks)
    ensures t == ToolDeltaOf(json, toks, e)
  {
    hide MemberAt, IndexValue, StringAt;
    var index: nat := 0;
    var i := ObjectGet(json, toks, e, INDEX);
    if i >= 0 {
      var v := ReadIndex(json, toks[i]);
      if v.Some? { index := v.value; }
    }
    var id := ReadString(json, toks, e, ID);
    var name, fragment: Option<bytes> := None, None;
    var f := ObjectGet(json, toks, e, FUNCTION);
    if f >= 0 && toks[f].kind == Kind.Object {
      name := ReadString(json, toks, f, NAME);
      fragment := ReadString(json, toks, f, ARGUMENTS);
    }
    return ToolDelta(index, id, name, fragment);
  }

  method ReadTools(json: bytes, toks: seq<Tok>, arr: int, n: nat) returns (tools: Option<seq<ToolDelta>>)
    requires Inside(json, toks)
    ensures tools == ToolDeltas(json, toks, arr, n)
  {
    hide ToolDeltaOf, ElementAt;
    var read: seq<ToolDelta> := [];
    var i := 0;
    while i < n
      invariant i <= n && ToolDeltas(json, toks, arr, i) == Some(read)
    {
      var e := ArrayAt(toks, arr, i);
      if e < 0 || e >= |toks| || toks[e].kind != Kind.Object {
        NoToolsLater(json, toks, arr, i + 1, n);
        return None;
      }
      var t := ReadTool(json, toks, e);
      read := read + [t];
      i := i + 1;
    }
    return Some(read);
  }

  lemma {:induction false} NoToolsLater(json: bytes, toks: seq<Tok>, arr: int, i: nat, n: nat)
    requires i <= n && ToolDeltas(json, toks, arr, i) == None
    ensures ToolDeltas(json, toks, arr, n) == None
    decreases n - i
  {
    if i < n {
      NoToolsLater(json, toks, arr, i + 1, n);
    }
  }

  method ReadDelta(json: bytes, toks: seq<Tok>, choice: int) returns (delta: Option<Delta>)
    requires Inside(json, toks)
    ensures delta == DeltaOf(json, toks, choice)
  {
    hide MemberAt, StringAt, ToolDeltas;
    var reason := ReadString(json, toks, choice, FINISH);
    var finish := FinishOf(reason);
    var d := ObjectGet(json, toks, choice, DELTA);
    if d < 0 || toks[d].kind != Kind.Object { return Some(NO_DELTA.(finish := finish)); }
    var content := ReadString(json, toks, d, CONTENT);
    var reasoning := ReadString(json, toks, d, REASONING);
    if reasoning.None? {
      reasoning := ReadString(json, toks, d, THINKING);
    }
    var tools: Option<seq<ToolDelta>> := Some([]);
    var t := ObjectGet(json, toks, d, TOOL_CALLS);
    if t >= 0 && toks[t].kind == Kind.Array && toks[t].size > 0 {
      tools := ReadTools(json, toks, t, toks[t].size);
      if tools.None? { return None; }
    }
    return Some(Delta(content, reasoning, tools.value, finish));
  }

  /** `parse_chat_chunk_choice` */
  method ReadChunk(json: bytes, index: nat) returns (chunk: Option<Chunk>)
    ensures chunk == ChunkOf(json, index)
  {
    hide MemberAt, DeltaOf, Choice, Tokenized, UsageAt;
    var tokenized := Tokenize(json);
    if tokenized.None? { return None; }
    var toks := tokenized.value;
    TokensInside(json);
    if |toks| == 0 || toks[0].kind != Kind.Object { return None; }
    var usage := ReadUsage(json, toks);
    var arr := ObjectGet(json, toks, 0, CHOICES);
    if arr < 0 || toks[arr].kind != Kind.Array || toks[arr].size <= 0 { return Some(Chunk(NO_DELTA, usage)); }
    var choice := FindChoice(json, toks, arr, index);
    if choice < 0 { return Some(Chunk(NO_DELTA, usage)); }
    var delta := ReadDelta(json, toks, choice);
    if delta.None? { return None; }
    return Some(Chunk(delta.value, usage));
  }

  // --- what the spans are ---------------------------------------------------------------------------------

  lemma TokensInside(json: bytes)
    requires Tokenized(json).Some?
    ensures Inside(json, Tokenized(json).value)
  {
    hide Jstok.Parse;
    var n := Jstok.Parse(json, Mode.Count, START).rc.n;
    SecondPassSucceeds(json, n);
    forall i | 0 <= i < n
      ensures Tokenized(json).value[i].end <= |json|
    {
      TokenInside(json, n, i);
    }
  }

  lemma TokenInside(json: bytes, m: nat, i: nat)
    requires var r := Jstok.Parse(json, Fill(m), START); r.rc.Tokens? && i < |r.p.toks|
    ensures Jstok.Parse(json, Fill(m), START).p.toks[i].end <= |json|
  {
    hide Jstok.Parse, At, Wf, Depth, SkipFrom, Print;
    var v, off := EveryTokenIsANode(json, m, i);
    var toks := Jstok.Parse(json, Fill(m), START).p.toks;
    AtIs(json, off, Print(v));
    FirstTokenEnds(v, off);
    AtFirst(toks, i, Flatten(v, off));
  }

  lemma FirstTokenEnds(v: Node, off: nat)
    requires Wf(v)
    ensures Flatten(v, off) != [] && Flatten(v, off)[0].end <= off + |Print(v)|
  {
    hide FlattenKids, PrintKids, WfKids;
  }

  ghost predicate IsBody(s: Option<bytes>) {
    s.Some? ==> StringBody(s.value)
  }

  /** Every string a chunk yields is the inside of a string token: plain bytes and complete escapes. */
  ghost predicate AllBodies(d: Delta) {
    && IsBody(d.content) && IsBody(d.reasoning)
    && forall i :: 0 <= i < |d.tools| ==> IsBody(d.tools[i].id) && IsBody(d.tools[i].name) && IsBody(d.tools[i].fragment)
  }

  lemma StringIsBody(json: bytes, obj: int, key: bytes)
    requires Tokenized(json).Some?
    ensures IsBody(StringAt(json, Tokenized(json).value, obj, key))
  {
    hide Jstok.Parse, MemberAt, StringBody;
    var n := Jstok.Parse(json, Mode.Count, START).rc.n;
    SecondPassSucceeds(json, n);
    var toks := Tokenized(json).value;
    var i := MemberAt(json, toks, obj, key);
    if KindAt(toks, i, Kind.String) {
      StringTokensAreBodies(json, n, i);
    }
  }

  lemma {:induction false} ToolsAreBodies(json: bytes, arr: int, n: nat)
    requires Tokenized(json).Some?
    ensures var tools := ToolDeltas(json, Tokenized(json).value, arr, n);
      tools.Some? ==> AllBodies(NO_DELTA.(tools := tools.value))
    decreases n
  {
    hide Tokenized, StringAt, ElementAt, MemberAt, IndexValue, StringBody;
    var toks := Tokenized(json).value;
    if n > 0 && ToolDeltas(json, toks, arr, n).Some? {
      ToolsAreBodies(json, arr, n - 1);
      var e := ElementAt(toks, arr, n - 1);
      var f := MemberAt(json, toks, e, FUNCTION);
      StringIsBody(json, e, ID);
      StringIsBody(json, f, NAME);
      StringIsBody(json, f, ARGUMENTS);
    }
  }

  /** Main result: whatever a chunk yields can be unescaped piece by piece. */
  lemma ChunkYieldsBodies(json: bytes, index: nat)
    ensures ChunkOf(json, index).Some? ==> AllBodies(ChunkOf(json, index).value.delta)
  {
    hide Tokenized, StringAt, MemberAt, ToolDeltas, Choice, StringBody;
    if ChunkOf(json, index).Some? {
      var toks := Tokenized(json).value;
      var arr := MemberAt(json, toks, 0, CHOICES);
      if KindAt(toks, arr, Kind.Array) && toks[arr].size > 0 {
        var d := MemberAt(json, toks, Choice(json, toks, arr, toks[arr].size, index), DELTA);
        var t := MemberAt(json, toks, d, TOOL_CALLS);
        StringIsBody(json, d, CONTENT);
        StringIsBody(json, d, REASONING);
        StringIsBody(json, d, THINKING);
        if KindAt(toks, t, Kind.Array) && toks[t].size > 0 {
          ToolsAreBodies(json, t, toks[t].size);
        }
      }
    }
  }
}
