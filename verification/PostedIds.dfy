/**
 The ids of tool calls on the wire. The tool loop posts an id as it stood, still escaped, in the reply, and the
 request escapes it once more, while the raw `tool_calls` text goes back as it is. So the two agree as JSON values
 exactly for ids without escapes.
 */
module PostedIds {
  import opened Bytes
  import opened JsonLexer
  import opened Jstok
  import opened JsonTree
  import opened JstokCount
  import opened JstokSound
  import opened Navigation
  import opened Places
  import opened Unescape
  import opened JsonWriter
  import opened ChatChunk
  import opened ChunkTree
  import opened ChatRequest
  import opened ChatResponse
  import opened TurnHash
  import opened ToolLoop
  import opened ToolIds
  import T = ToolCallsRoundTrip

  // --- one call -------------------------------------------------------------------------------------------

  /** The JSON value of a string token. */
  function ValueAt(json: bytes, toks: seq<Tok>, i: int): Option<bytes> {
    if KindAt(toks, i, Kind.String) && SpanText(json, toks[i]).Some? then Unescaped(SpanText(json, toks[i]).value) else None
  }

  /** The id of call `i` in the `tool_calls` of message `a` of a posted array. */
  function GivenId(body: bytes, toks: seq<Tok>, a: nat, i: nat): Option<bytes> {
    var calls := MemberAt(body, toks, ElementAt(toks, 0, a), TOOL_CALLS);
    ValueAt(body, toks, MemberAt(body, toks, ElementAt(toks, calls, i), ID))
  }

  /** The `tool_call_id` of message `b`. */
  function PostedId(body: bytes, toks: seq<Tok>, b: nat): Option<bytes> {
    ValueAt(body, toks, MemberAt(body, toks, ElementAt(toks, 0, b), TOOL_CALL_ID))
  }

  /** What the posted messages say about a call whose id stands in its reply as `raw`. */
  ghost predicate IdsOnTheWire(ms: seq<Message>, a: nat, b: nat, i: nat, raw: bytes) {
    var body := ArrayText(MessageTexts(ms));
    exists toks :: T.ReadAsArray(body, |ms|, toks)
      && PostedId(body, toks, b) == Some(raw) && GivenId(body, toks, a, i) == Unescaped(raw)
      && (PostedId(body, toks, b) == GivenId(body, toks, a, i) <==> BACKSLASH !in raw)
  }

  lemma PlacedValue(json: bytes, toks: seq<Tok>, i: int, body: bytes, off: nat)
    requires Placed(json, toks, i, Str(body), off)
    ensures ValueAt(json, toks, i) == Unescaped(body) && StringBody(body)
  {
    hide Placed, Unescaped;
    PlacedToken(json, toks, i, Str(body), off);
    PlacedBody(json, toks, i, body, off);
  }

  lemma PlacedBody(json: bytes, toks: seq<Tok>, i: int, body: bytes, off: nat)
    requires Placed(json, toks, i, Str(body), off)
    ensures StringBody(body)
  {
  }

  /** The string with this key in a placed object. */
  lemma MemberValue(json: bytes, toks: seq<Tok>, e: int, v: Node, off: nat, key: bytes, body: bytes)
    requires Placed(json, toks, e, v, off) && Find(v, key) == Some(Str(body))
    ensures ValueAt(json, toks, MemberAt(json, toks, e, key)) == Unescaped(body) && StringBody(body)
  {
    hide Placed, Find, MemberAt, ValueAt, Unescaped;
    var voff := MemberMeans(json, toks, e, v, off, key);
    PlacedValue(json, toks, MemberAt(json, toks, e, key), body, voff);
  }

  /** Message `a` with its `tool_calls` split no further. */
  ghost function PartsWith(m: Message, arr: Node): (ps: seq<Memb>)
    requires Splices(m) && HasCalls(m) && m.callsJson.text == Print(arr) && Good(arr, SPLICE_DEPTH)
    ensures Writes(m, ps)
    ensures Find(MembNode(ps), TOOL_CALLS) == Some(arr)
  {
    var calls := Memb(TOOL_CALLS, [], arr, []);
    CallsCarried(m, arr);
    PartsFit(m, ContentPart(m), calls);
    PartsFound(m, ContentPart(m), calls);
    Parts(m, ContentPart(m), calls)
  }

  lemma CallsCarried(m: Message, arr: Node)
    requires m.callsJson.Of? && m.callsJson.text == Print(arr) && Good(arr, SPLICE_DEPTH)
    ensures Carries(Memb(TOOL_CALLS, [], arr, []), TOOL_CALLS, m.callsJson.text)
  {
    hide StringBody, Print, Good;
    KeysPlain();
    assert [] + Print(arr) + [] == Print(arr);
  }

  lemma CallIdFound(m: Message)
    requires Splices(m) && HasCallId(m)
    ensures Find(MembNode(PartsOf(m)), TOOL_CALL_ID) == Some(T.Text(m.callId.text))
  {
    hide Find, MembNode, Writes, OneContainer;
    PartsFound(m, ContentPart(m), CallsPart(m));
  }

  /**
   Main result, for any posted messages: a tool message under the raw id of a call carries that id as its JSON value,
   and this is the value of the id in the posted `tool_calls` exactly if the raw id has no backslash.
   */
  lemma IdsAgreeExactly(ms: seq<Message>, a: nat, b: nat, arr: Node, i: nat, raw: bytes)
    requires (forall k :: 0 <= k < |ms| ==> Splices(ms[k])) && a < |ms| && b < |ms|
    requires HasCalls(ms[a]) && ms[a].callsJson.text == Print(arr) && IsArray(arr) && Good(arr, SPLICE_DEPTH)
    requires i < KidCount(arr.kids) && Find(Nth(arr.kids, i).value, ID) == Some(Str(raw))
    requires HasCallId(ms[b]) && ms[b].callId.text == raw
    ensures IdsOnTheWire(ms, a, b, i, raw)
  {
    hide Splices, Writes, Placed, Find, MemberAt, ElementAt, ValueAt, Unescaped, Print, Good, Nth, T.ReadAsArray,
      MessageText, MembNode, Escaped;
    var parts := seq(|ms|, k requires 0 <= k < |ms| => if k == a then PartsWith(ms[a], arr) else PartsOf(ms[k]));
    var toks := MessagesPlaced(ms, parts);
    var body := ArrayText(MessageTexts(ms));
    var ea, eb := ElementAt(toks, 0, a), ElementAt(toks, 0, b);
    assert Stands(body, toks, ea, MembNode(parts[a])) && Stands(body, toks, eb, MembNode(parts[b]));
    var aoff :| Placed(body, toks, ea, MembNode(parts[a]), aoff);
    var boff :| Placed(body, toks, eb, MembNode(parts[b]), boff);
    var coff := MemberMeans(body, toks, ea, MembNode(parts[a]), aoff, TOOL_CALLS);
    var calls := MemberAt(body, toks, ea, TOOL_CALLS);
    var ioff := PlacedElement(body, toks, calls, arr, coff, i);
    MemberValue(body, toks, ElementAt(toks, calls, i), Nth(arr.kids, i).value, ioff, ID, raw);
    CallIdFound(ms[b]);
    MemberValue(body, toks, eb, MembNode(parts[b]), boff, TOOL_CALL_ID, Escaped(raw));
    EscapeRoundTrip(raw);
    UnescapedSameExactly(raw);
  }

  // --- the calls of a reply -------------------------------------------------------------------------------

  lemma LastIsGood(ks: Kids, d: nat)
    requires T.GoodKids(ks, d) && ks.Snoc?
    ensures Good(ks.last.value, d)
  {
    assert WfKid(ks.last);
  }

  lemma {:induction false} KidIsGood(ks: Kids, n: nat, d: nat)
    requires T.GoodKids(ks, d) && n < KidCount(ks)
    ensures Good(Nth(ks, n).value, d)
    decreases ks
  {
    hide Wf, Depth;
    if n < KidCount(ks.init) {
      KidIsGood(ks.init, n, d);
      assert Nth(ks, n) == Nth(ks.init, n);
    } else {
      assert Nth(ks, n) == ks.last;
      LastIsGood(ks, d);
    }
  }

  /** What is in an object is less deep. */
  lemma FoundIsGood(v: Node, key: bytes, d: nat)
    requires Good(v, d) && Find(v, key).Some?
    ensures d > 0 && Good(Find(v, key).value, d - 1)
  {
    hide FirstWithKey, Nth;
    KidIsGood(v.kids, FirstWithKey(v.kids, key).value, d - 1);
  }

  lemma ElementIsGood(arr: Node, n: nat, d: nat)
    requires Good(arr, d) && IsArray(arr) && n < KidCount(arr.kids)
    ensures d > 0 && Good(Nth(arr.kids, n).value, d - 1)
  {
    hide Nth;
    KidIsGood(arr.kids, n, d - 1);
  }

  /** The array of calls behind a reply. */
  ghost predicate IsCallArray(arr: Node, r: Reply) {
    && IsArray(arr) && Good(arr, SPLICE_DEPTH) && r.callsJson == Of(Print(arr))
    && CallsIn(arr, KidCount(arr.kids)) == Some(r.calls)
  }

  /** The array stands four containers deep in the response. */
  lemma ReplyTree(r: Reply) returns (arr: Node)
    requires WasRead(r) && r.callsJson.Of?
    ensures IsCallArray(arr, r)
  {
    hide Jstok.Parse, Print, Flatten, Depth, WfDocument, Placed, ResponseIn, Nth, ReplyIn, RepliesIn, Find, Good;
    var json :| ResponseOf(json) == Some(r);
    var n := Jstok.Parse(json, Mode.Count, START).rc.n;
    SecondPassSucceeds(json, n);
    var doc := ParseIsFlattening(json, n);
    DocumentShape(doc);
    if doc.kids.NoKids? {
      NothingInside(doc);
      ChatResponse.NoReply(json);
    }
    var v := Nth(doc.kids, 0).value;
    var off := PlacedRoot(json, doc);
    ResponseMeans(json, Flatten(doc, 0), v, off);
    PlacedGood(json, Flatten(doc, 0), 0, v, off);
    var choices := Find(v, CHOICES).value;
    FoundIsGood(v, CHOICES, MAX_DEPTH);
    RepliesOneByOne(choices, KidCount(choices.kids));
    ElementIsGood(choices, 0, MAX_DEPTH - 1);
    arr := ReplyArray(Nth(choices.kids, 0).value, r);
  }

  lemma ReplyArray(choice: Node, r: Reply) returns (arr: Node)
    requires Good(choice, MAX_DEPTH - 2) && ReplyIn(choice) == Some(r) && r.callsJson.Of?
    ensures IsCallArray(arr, r)
  {
    hide Find, Good, Print, CallsIn, StringIn;
    var m := Find(choice, MESSAGE).value;
    FoundIsGood(choice, MESSAGE, MAX_DEPTH - 2);
    arr := Find(m, TOOL_CALLS).value;
    FoundIsGood(m, TOOL_CALLS, MAX_DEPTH - 3);
    LessDeep(arr, MAX_DEPTH - 4, SPLICE_DEPTH);
  }

  lemma LessDeep(v: Node, d: nat, e: nat)
    requires Good(v, d) && d <= e
    ensures Good(v, e)
  {
  }

  lemma {:induction false} CallsInOneByOne(arr: Node, n: nat)
    requires IsArray(arr) && n <= KidCount(arr.kids) && CallsIn(arr, n).Some?
    ensures |CallsIn(arr, n).value| == n
    ensures forall i :: 0 <= i < n ==> CallsIn(arr, n).value[i] == CallIn(Nth(arr.kids, i).value)
    decreases n
  {
    hide CallIn, Nth;
    if n > 0 {
      CallsInOneByOne(arr, n - 1);
    }
  }

  lemma CallHasId(v: Node)
    requires CallIn(v).id.Of?
    ensures Find(v, ID) == Some(Str(CallIn(v).id.text))
  {
    hide Find;
  }

  // --- the requests of a run ------------------------------------------------------------------------------

  ghost predicate AllSplice(ms: seq<Message>) {
    forall k :: 0 <= k < |ms| ==> Splices(ms[k])
  }

  ghost predicate AllRead(turns: seq<Exchange>) {
    forall t :: 0 <= t < |turns| ==>
      WasRead(turns[t].reply) && turns[t].reply.callsJson.Of? && turns[t].reply.callsJson.text != []
  }

  lemma AssistantSplices(r: Reply)
    requires WasRead(r) && r.callsJson.Of?
    ensures Splices(AssistantMessage(r))
  {
    hide WasRead, Good, Print, CallsIn;
    var arr := ReplyTree(r);
    assert [] + Print(arr) + [] == Print(arr);
    assert IsSplice(r.callsJson.text, [], arr, []);
  }

  lemma ToolSplices(c: Call, output: bytes)
    ensures Splices(ToolMessage(c, output))
  {
  }

  lemma {:induction false} RequestSplices(initial: seq<Message>, turns: seq<Exchange>)
    requires AllComplete(turns) && AllSplice(initial) && AllRead(turns)
    ensures AllSplice(Request(initial, turns))
    decreases |turns|
  {
    hide WasRead, Splices, AssistantMessage, ToolMessage;
    if turns != [] {
      var n := |turns| - 1;
      var x := turns[n];
      assert Complete(x);
      RequestSplices(initial, turns[..n]);
      AssistantSplices(x.reply);
      forall i | 0 <= i < |x.outputs|
        ensures Splices(Answers(x.reply.calls, x.outputs)[i])
      {
        ToolSplices(x.reply.calls[i], x.outputs[i]);
      }
    }
  }

  /** Where the messages of a turn stand in a request. */
  lemma {:induction false} TurnStands(initial: seq<Message>, turns: seq<Exchange>, t: nat)
    requires AllComplete(turns) && t < |turns|
    ensures var a, x := |Request(initial, turns[..t])|, turns[t];
      && a + |x.reply.calls| < |Request(initial, turns)| && Request(initial, turns)[a] == AssistantMessage(x.reply)
      && |x.outputs| == |x.reply.calls|
      && forall i :: 0 <= i < |x.reply.calls| ==>
           Request(initial, turns)[a + 1 + i] == ToolMessage(x.reply.calls[i], x.outputs[i])
    decreases |turns|
  {
    hide AssistantMessage, ToolMessage;
    var n := |turns| - 1;
    assert Complete(turns[n]) && Complete(turns[t]);
    if t < n {
      TurnStands(initial, turns[..n], t);
      assert turns[..n][..t] == turns[..t];
    }
  }

  /** Every call of every turn in a request. */
  lemma RequestIds(initial: seq<Message>, turns: seq<Exchange>, t: nat, i: nat)
    requires AllComplete(turns) && AllSplice(initial) && AllRead(turns)
    requires t < |turns| && i < |turns[t].reply.calls| && turns[t].reply.calls[i].id.Of?
    ensures var a := |Request(initial, turns[..t])|;
      IdsOnTheWire(Request(initial, turns), a, a + 1 + i, i, turns[t].reply.calls[i].id.text)
  {
    hide Request, WasRead, Splices, Find, Good, Print, CallsIn, CallIn, Nth, IdsOnTheWire;
    var ms, a, r := Request(initial, turns), |Request(initial, turns[..t])|, turns[t].reply;
    RequestSplices(initial, turns);
    TurnStands(initial, turns, t);
    var arr := ReplyTree(r);
    CallsInOneByOne(arr, KidCount(arr.kids));
    CallHasId(Nth(arr.kids, i).value);
    IdsAgreeExactly(ms, a, a + 1 + i, arr, i, r.calls[i].id.text);
  }

  /**
   Main result. When every reply is read from the text of a completion and what the initial messages splice is JSON,
   every request of a run posts, for every call of its finished turns that has an id, this id as it stood in the
   reply, and it agrees with the one in the posted `tool_calls` exactly if it has no escapes there.
   */
  lemma EveryPostedIdAgreesExactly(env: Env, limits: Limits, initial: seq<Message>) returns (turns: seq<Exchange>)
    requires forall before, ms :: env.chat(before, ms).Some? ==> WasRead(env.chat(before, ms).value)
    requires AllSplice(Copies(initial))
    ensures AllComplete(turns)
    ensures var all, posts := Copies(initial), Posts(LogOf(Run(env, limits, initial)));
      forall k :: 0 <= k < |posts| ==>
        && k <= |turns| && posts[k] == Request(all, turns[..k])
        && forall t, i :: 0 <= t < k && 0 <= i < |turns[t].reply.calls| && turns[t].reply.calls[i].id.Of? ==>
             var a := |Request(all, turns[..t])|;
             IdsOnTheWire(posts[k], a, a + 1 + i, i, turns[t].reply.calls[i].id.text)
  {
    hide WasRead, Run, TurnsFine, Request, Log, Posts, EndLog, Genuine, IdsOnTheWire, Splices, AllSplice;
    var o, all := Run(env, limits, initial), Copies(initial);
    var c := EveryRun(env, limits, initial);
    RunIsFaithful(env, limits, initial);
    turns := c.turns;
    if AllClean(initial) && limits.maxTurns > 0 {
      FaithfulIsHeard(env, o.log);
      TurnsAreHeard(all, turns, EndLog(Request(all, turns), c.end));
      EveryPostIsClosed(limits, all, o, c);
      FinishedTurnsPost(limits, turns);
      forall k, t, i | 0 <= k < |Posts(o.log)| && 0 <= t < k && 0 <= i < |turns[t].reply.calls|
                       && turns[t].reply.calls[i].id.Of?
        ensures var a := |Request(all, turns[..t])|;
          IdsOnTheWire(Posts(o.log)[k], a, a + 1 + i, i, turns[t].reply.calls[i].id.text)
      {
        assert turns[..k][..t] == turns[..t];
        RequestIds(all, turns[..k], t, i);
      }
    } else {
      turns := [];
      NoPosts([]);
    }
  }

  lemma FinishedTurnsPost(limits: Limits, turns: seq<Exchange>)
    requires TurnsFine(limits, turns)
    ensures forall t :: 0 <= t < |turns| ==> turns[t].reply.callsJson.Of? && turns[t].reply.callsJson.text != []
  {
    hide Within, ArgsFine, Hash, Hashable;
    forall t | 0 <= t < |turns|
      ensures turns[t].reply.callsJson.Of? && turns[t].reply.callsJson.text != []
    {
      assert TurnFine(limits, turns, t);
    }
  }
}
