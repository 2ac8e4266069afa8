/**
 A whole chat completion (`parse_chat_response` of src/protocol_chat.c): every choice is read, the first one is the
 reply; and the raw `tool_calls` array of a reply holds exactly the calls that were read from it.
 */
module ChatResponse {
  import opened Bytes
  import opened Jstok
  import opened JsonTree
  import opened JstokCount
  import opened JstokSound
  import opened Navigation
  import opened Places
  import opened JsonWriter
  import opened ChatChunk
  import opened ChunkTree
  import opened TurnHash
  import ToolCallsRoundTrip

  const MESSAGE: bytes := [109, 101, 115, 115, 97, 103, 101] // message

  /** A missing string is a null pointer of length 0. */
  function AsSpan(s: Option<bytes>): Span {
    if s.Some? then Of(s.value) else Null(0)
  }

  // --- the reader -----------------------------------------------------------------------------------------

  function CallAt(json: bytes, toks: seq<Tok>, e: int): Call {
    var f := MemberAt(json, toks, e, FUNCTION);
    var isObject := KindAt(toks, f, Kind.Object);
    Call(
      AsSpan(StringAt(json, toks, e, ID)),
      if isObject then AsSpan(StringAt(json, toks, f, NAME)) else Null(0),
      if isObject then AsSpan(StringAt(json, toks, f, ARGUMENTS)) else Null(0))
  }

  /** The first `n` elements, if all of them are objects. */
  function CallsAt(json: bytes, toks: seq<Tok>, arr: int, n: nat): Option<seq<Call>> {
    if n == 0 then Some([])
    else
      var front, e := CallsAt(json, toks, arr, n - 1), ElementAt(toks, arr, n - 1);
      if front.None? || !KindAt(toks, e, Kind.Object) then None else Some(front.value + [CallAt(json, toks, e)])
  }

  function ReplyAt(json: bytes, toks: seq<Tok>, choice: int): Option<Reply> {
    var m := MemberAt(json, toks, choice, MESSAGE);
    if !KindAt(toks, choice, Kind.Object) || !KindAt(toks, m, Kind.Object) then None
    else
      var t := MemberAt(json, toks, m, TOOL_CALLS);
      var isArray := KindAt(toks, t, Kind.Array);
      var calls := if isArray && toks[t].size > 0 then CallsAt(json, toks, t, toks[t].size) else Some([]);
      if calls.None? then None
      else
        Some(Reply(FinishOf(StringAt(json, toks, choice, FINISH)), calls.value,
                   if isArray then AsSpan(SpanText(json, toks[t])) else Null(0),
                   AsSpan(StringAt(json, toks, m, CONTENT)), AsSpan(ReasoningOf(json, toks, m))))
  }

  /** The first `n` choices, if all of them are well formed. */
  function RepliesAt(json: bytes, toks: seq<Tok>, arr: int, n: nat): (r: Option<seq<Reply>>)
    ensures r.Some? ==> |r.value| == n
  {
    if n == 0 then Some([])
    else
      var front, reply := RepliesAt(json, toks, arr, n - 1), ReplyAt(json, toks, ElementAt(toks, arr, n - 1));
      if front.None? || reply.None? then None else Some(front.value + [reply.value])
  }

  function ResponseIn(json: bytes, toks: seq<Tok>): Option<Reply> {
    var arr := MemberAt(json, toks, 0, CHOICES);
    if !KindAt(toks, 0, Kind.Object) || !KindAt(toks, arr, Kind.Array) || toks[arr].size <= 0 then None
    else
      var replies := RepliesAt(json, toks, arr, toks[arr].size);
      if replies.None? then None else Some(replies.value[0])
  }

  function ResponseOf(json: bytes): Option<Reply> {
    var toks := Tokenized(json);
    if toks.None? then None else ResponseIn(json, toks.value)
  }

  // --- its loops ------------------------------------------------------------------------------------------

  method ReadCall(json: bytes, toks: seq<Tok>, e: int) returns (c: Call)
    requires Inside(json, toks)
    ensures c == CallAt(json, toks, e)
  {
    hide MemberAt, StringAt;
    var id := ReadString(json, toks, e, ID);
    var name, args: Option<bytes> := None, None;
    var f := ObjectGet(json, toks, e, FUNCTION);
    if f >= 0 && toks[f].kind == Kind.Object {
      name := ReadString(json, toks, f, NAME);
      args := ReadString(json, toks, f, ARGUMENTS);
    }
    return Call(AsSpan(id), AsSpan(name), AsSpan(args));
  }

  method ReadCalls(json: bytes, toks: seq<Tok>, arr: int, n: nat) returns (calls: Option<seq<Call>>)
    requires Inside(json, toks)
    ensures calls == CallsAt(json, toks, arr, n)
  {
    hide CallAt, ElementAt, Inside;
    var read: seq<Call> := [];
    var i := 0;
    while i < n
      invariant i <= n && CallsAt(json, toks, arr, i) == Some(read)
    {
      var e := ArrayAt(toks, arr, i);
      if e < 0 || e >= |toks| || toks[e].kind != Kind.Object {
        NoCallsLater(json, toks, arr, i + 1, n);
        return None;
      }
      var c := ReadCall(json, toks, e);
      read := read + [c];
      i := i + 1;
    }
    return Some(read);
  }

  lemma {:induction false} NoCallsLater(json: bytes, toks: seq<Tok>, arr: int, i: nat, n: nat)
    requires i <= n && CallsAt(json, toks, arr, i) == None
    ensures CallsAt(json, toks, arr, n) == None
    decreases n - i
  {
    if i < n {
      NoCallsLater(json, toks, arr, i + 1, n);
    }
  }

  method ReadReply(json: bytes, toks: seq<Tok>, choice: int) returns (r: Option<Reply>)
    requires Inside(json, toks)
    ensures r == ReplyAt(json, toks, choice)
  {
    hide MemberAt, StringAt, CallsAt;
    if choice < 0 || choice >= |toks| || toks[choice].kind != Kind.Object { return None; }
    var reason := ReadString(json, toks, choice, FINISH);
    var m := ObjectGet(json, toks, choice, MESSAGE);
    if m < 0 || toks[m].kind != Kind.Object { return None; }
    var content := ReadString(json, toks, m, CONTENT);
    var reasoning := ReadString(json, toks, m, REASONING);
    if reasoning.None? {
      reasoning := ReadString(json, toks, m, THINKING);
    }
    var callsJson := Null(0);
    var calls: Option<seq<Call>> := Some([]);
    var t := ObjectGet(json, toks, m, TOOL_CALLS);
    if t >= 0 && toks[t].kind == Kind.Array {
      callsJson := AsSpan(SpanText(json, toks[t]));
      if toks[t].size > 0 {
        calls := ReadCalls(json, toks, t, toks[t].size);
        if calls.None? { return None; }
      }
    }
    return Some(Reply(FinishOf(reason), calls.value, callsJson, AsSpan(content), AsSpan(reasoning)));
  }

  /** `parse_chat_response` */
  method ReadResponse(json: bytes) returns (r: Option<Reply>)
    ensures r == ResponseOf(json)
  {
    hide MemberAt, ElementAt, ReplyAt, Tokenized;
    var tokenized := Tokenize(json);
    if tokenized.None? { return None; }
    var toks := tokenized.value;
    TokensInside(json);
    if |toks| == 0 || toks[0].kind != Kind.Object { return None; }
    var arr := ObjectGet(json, toks, 0, CHOICES);
    if arr < 0 || toks[arr].kind != Kind.Array || toks[arr].size <= 0 { return None; }
    var replies := ReadReplies(json, toks, arr, toks[arr].size);
    if replies.None? { return None; }
    return Some(replies.value[0]);
  }

  method ReadReplies(json: bytes, toks: seq<Tok>, arr: int, n: nat) returns (replies: Option<seq<Reply>>)
    requires Inside(json, toks)
    ensures replies == RepliesAt(json, toks, arr, n)
  {
    hide ReplyAt, ElementAt, Inside;
    var read: seq<Reply> := [];
    var i := 0;
    while i < n
      invariant i <= n && RepliesAt(json, toks, arr, i) == Some(read)
    {
      var e := ArrayAt(toks, arr, i);
      var reply := ReadReply(json, toks, e);
      if reply.None? {
        NoRepliesLater(json, toks, arr, i + 1, n);
        return None;
      }
      read := read + [reply.value];
      i := i + 1;
    }
    return Some(read);
  }

  lemma {:induction false} NoRepliesLater(json: bytes, toks: seq<Tok>, arr: int, i: nat, n: nat)
    requires i <= n && RepliesAt(json, toks, arr, i) == None
    ensures RepliesAt(json, toks, arr, n) == None
    decreases n - i
  {
    if i < n {
      NoRepliesLater(json, toks, arr, i + 1, n);
    }
  }

  // --- the reading of a tree ------------------------------------------------------------------------------

  function CallIn(v: Node): Call {
    var f := Find(v, FUNCTION);
    var isObject := f.Some? && IsObject(f.value);
    Call(
      AsSpan(StringIn(v, ID)),
      if isObject then AsSpan(StringIn(f.value, NAME)) else Null(0),
      if isObject then AsSpan(StringIn(f.value, ARGUMENTS)) else Null(0))
  }

  function CallsIn(arr: Node, n: nat): Option<seq<Call>>
    requires IsArray(arr) && n <= KidCount(arr.kids)
  {
    if n == 0 then Some([])
    else
      var front, v := CallsIn(arr, n - 1), Nth(arr.kids, n - 1).value;
      if front.None? || !IsObject(v) then None else Some(front.value + [CallIn(v)])
  }

  function ReplyIn(choice: Node): Option<Reply> {
    var m := Find(choice, MESSAGE);
    if !IsObject(choice) || m.None? || !IsObject(m.value) then None
    else
      var t := Find(m.value, TOOL_CALLS);
      var isArray := t.Some? && IsArray(t.value);
      var calls := if isArray then CallsIn(t.value, KidCount(t.value.kids)) else Some([]);
      var reasoning := StringIn(m.value, REASONING);
      if calls.None? then None
      else
        Some(Reply(FinishOf(StringIn(choice, FINISH)), calls.value, if isArray then Of(Print(t.value)) else Null(0),
                   AsSpan(StringIn(m.value, CONTENT)),
                   AsSpan(if reasoning.Some? then reasoning else StringIn(m.value, THINKING))))
  }

  function RepliesIn(arr: Node, n: nat): (r: Option<seq<Reply>>)
    requires IsArray(arr) && n <= KidCount(arr.kids)
    ensures r.Some? ==> |r.value| == n
  {
    if n == 0 then Some([])
    else
      var front, reply := RepliesIn(arr, n - 1), ReplyIn(Nth(arr.kids, n - 1).value);
      if front.None? || reply.None? then None else Some(front.value + [reply.value])
  }

  /** What a response object says: its first choice, if all of them are well formed. */
  function ResponseMeaning(v: Node): Option<Reply> {
    var arr := Find(v, CHOICES);
    if arr.None? || !IsArray(arr.value) || KidCount(arr.value.kids) == 0 then None
    else
      var replies := RepliesIn(arr.value, KidCount(arr.value.kids));
      if replies.None? then None else Some(replies.value[0])
  }

  // --- the reader finds it --------------------------------------------------------------------------------

  lemma CallMeans(json: bytes, toks: seq<Tok>, i: int, v: Node, off: nat)
    requires Placed(json, toks, i, v, off)
    ensures CallAt(json, toks, i) == CallIn(v)
  {
    hide Placed, Find, MemberAt, StringAt, StringIn;
    StringMeans(json, toks, i, v, off, ID);
    var foff := MemberMeans(json, toks, i, v, off, FUNCTION);
    if Find(v, FUNCTION).Some? {
      var f, w := MemberAt(json, toks, i, FUNCTION), Find(v, FUNCTION).value;
      PlacedToken(json, toks, f, w, foff);
      StringMeans(json, toks, f, w, foff, NAME);
      StringMeans(json, toks, f, w, foff, ARGUMENTS);
    }
  }

  lemma {:induction false} CallsMean(json: bytes, toks: seq<Tok>, a: int, arr: Node, off: nat, n: nat)
    requires Placed(json, toks, a, arr, off) && IsArray(arr) && n <= KidCount(arr.kids)
    ensures CallsAt(json, toks, a, n) == CallsIn(arr, n)
    decreases n
  {
    hide Placed, ElementAt, Nth, CallAt, CallIn;
    if n > 0 {
      CallsMean(json, toks, a, arr, off, n - 1);
      var voff := PlacedElement(json, toks, a, arr, off, n - 1);
      PlacedToken(json, toks, ElementAt(toks, a, n - 1), Nth(arr.kids, n - 1).value, voff);
      CallMeans(json, toks, ElementAt(toks, a, n - 1), Nth(arr.kids, n - 1).value, voff);
    }
  }

  /** The calls of a message and their raw text. */
  lemma CallListMeans(json: bytes, toks: seq<Tok>, m: int, w: Node, off: nat)
    requires Placed(json, toks, m, w, off)
    ensures var t, v := MemberAt(json, toks, m, TOOL_CALLS), Find(w, TOOL_CALLS);
      var isArray := v.Some? && IsArray(v.value);
      && KindAt(toks, t, Kind.Array) == isArray
      && (isArray ==>
            && toks[t].size == KidCount(v.value.kids) && SpanText(json, toks[t]) == Some(Print(v.value))
            && CallsAt(json, toks, t, toks[t].size) == CallsIn(v.value, KidCount(v.value.kids)))
  {
    hide Placed, Find, MemberAt, CallsAt, CallsIn, Print;
    var toff := MemberMeans(json, toks, m, w, off, TOOL_CALLS);
    if Find(w, TOOL_CALLS).Some? {
      var t, arr := MemberAt(json, toks, m, TOOL_CALLS), Find(w, TOOL_CALLS).value;
      PlacedToken(json, toks, t, arr, toff);
      if IsArray(arr) {
        PlacedSpan(json, toks, t, arr, toff);
        CallsMean(json, toks, t, arr, toff, KidCount(arr.kids));
      }
    }
  }

  lemma NoCalls(json: bytes, toks: seq<Tok>, arr: int)
    ensures CallsAt(json, toks, arr, 0) == Some([])
  {
  }

  lemma ReplyMeans(json: bytes, toks: seq<Tok>, i: int, v: Node, off: nat)
    requires Placed(json, toks, i, v, off)
    ensures ReplyAt(json, toks, i) == ReplyIn(v)
  {
    hide Placed, Find, MemberAt, StringAt, StringIn, CallsAt, CallsIn, Print, SpanText;
    PlacedToken(json, toks, i, v, off);
    StringMeans(json, toks, i, v, off, FINISH);
    var moff := MemberMeans(json, toks, i, v, off, MESSAGE);
    if Find(v, MESSAGE).Some? {
      var m, w := MemberAt(json, toks, i, MESSAGE), Find(v, MESSAGE).value;
      PlacedToken(json, toks, m, w, moff);
      StringMeans(json, toks, m, w, moff, CONTENT);
      StringMeans(json, toks, m, w, moff, REASONING);
      StringMeans(json, toks, m, w, moff, THINKING);
      CallListMeans(json, toks, m, w, moff);
      NoCalls(json, toks, MemberAt(json, toks, m, TOOL_CALLS));
    }
  }

  lemma {:induction false} RepliesMean(json: bytes, toks: seq<Tok>, a: int, arr: Node, off: nat, n: nat)
    requires Placed(json, toks, a, arr, off) && IsArray(arr) && n <= KidCount(arr.kids)
    ensures RepliesAt(json, toks, a, n) == RepliesIn(arr, n)
    decreases n
  {
    hide Placed, ElementAt, Nth, ReplyAt, ReplyIn;
    if n > 0 {
      RepliesMean(json, toks, a, arr, off, n - 1);
      var voff := PlacedElement(json, toks, a, arr, off, n - 1);
      ReplyMeans(json, toks, ElementAt(toks, a, n - 1), Nth(arr.kids, n - 1).value, voff);
    }
  }

  lemma ResponseMeans(json: bytes, toks: seq<Tok>, v: Node, off: nat)
    requires Placed(json, toks, 0, v, off)
    ensures ResponseIn(json, toks) == ResponseMeaning(v)
  {
    hide Placed, Find, MemberAt, RepliesAt, RepliesIn;
    PlacedToken(json, toks, 0, v, off);
    var coff := MemberMeans(json, toks, 0, v, off, CHOICES);
    if Find(v, CHOICES).Some? {
      var a, arr := MemberAt(json, toks, 0, CHOICES), Find(v, CHOICES).value;
      PlacedToken(json, toks, a, arr, coff);
      if IsArray(arr) {
        RepliesMean(json, toks, a, arr, coff, KidCount(arr.kids));
      }
    }
    OnlyObjectsHaveMembers(v);
  }

  lemma OnlyObjectsHaveMembers(v: Node)
    ensures Find(v, CHOICES).Some? ==> IsObject(v)
  {
  }

  /** Main result. For every text that parses, the reply read is what the first top-level value means. */
  lemma ReaderFindsReply(json: bytes) returns (doc: Node)
    requires Tokenized(json).Some?
    ensures WfDocument(doc) && Print(doc) == json
    ensures ResponseOf(json) == if doc.kids.NoKids? then None else ResponseMeaning(Nth(doc.kids, 0).value)
  {
    hide Jstok.Parse, Print, Flatten, Depth, WfDocument, Placed, ResponseIn, ResponseMeaning, Nth;
    var n := Jstok.Parse(json, Mode.Count, START).rc.n;
    SecondPassSucceeds(json, n);
    doc := ParseIsFlattening(json, n);
    DocumentShape(doc);
    if doc.kids.Snoc? {
      var off := PlacedRoot(json, doc);
      ResponseMeans(json, Flatten(doc, 0), Nth(doc.kids, 0).value, off);
    } else {
      NothingInside(doc);
      NoReply(json);
    }
  }

  lemma NoReply(json: bytes)
    ensures ResponseIn(json, []) == None
  {
  }

  // --- the raw array --------------------------------------------------------------------------------------

  /** The text is an array, and reading its elements as calls gives these calls. */
  ghost predicate HoldsCalls(text: bytes, calls: seq<Call>) {
    var toks := Tokenized(text);
    && toks.Some? && KindAt(toks.value, 0, Kind.Array) && toks.value[0].size == |calls|
    && forall i :: 0 <= i < |calls| ==>
         && KindAt(toks.value, ElementAt(toks.value, 0, i), Kind.Object)
         && CallAt(text, toks.value, ElementAt(toks.value, 0, i)) == calls[i]
  }

  lemma {:induction false} CallsOneByOne(json: bytes, toks: seq<Tok>, arr: int, n: nat)
    requires CallsAt(json, toks, arr, n).Some?
    ensures var calls := CallsAt(json, toks, arr, n).value;
      && |calls| == n
      && forall i :: 0 <= i < n ==>
           KindAt(toks, ElementAt(toks, arr, i), Kind.Object) && CallAt(json, toks, ElementAt(toks, arr, i)) == calls[i]
    decreases n
  {
    hide CallAt, ElementAt;
    if n > 0 {
      CallsOneByOne(json, toks, arr, n - 1);
    }
  }

  /** The text of a well-formed array of calls holds them. */
  lemma ArrayHoldsCalls(arr: Node)
    requires IsArray(arr) && Good(arr, MAX_DEPTH) && CallsIn(arr, KidCount(arr.kids)).Some?
    ensures HoldsCalls(Print(arr), CallsIn(arr, KidCount(arr.kids)).value)
  {
    hide Jstok.Parse, Print, Good, Placed, CallsIn, CallAt, ElementAt;
    var text := Print(arr);
    var n := ToolCallsRoundTrip.ParsesBack(arr);
    var toks := Jstok.Parse(text, Fill(n), START).p.toks;
    PlacedToken(text, toks, 0, arr, 0);
    CallsMean(text, toks, 0, arr, 0, KidCount(arr.kids));
    CallsOneByOne(text, toks, 0, KidCount(arr.kids));
  }

  /** The calls in the raw array of a reply. */
  lemma ReplyHoldsCalls(json: bytes, toks: seq<Tok>, i: int, v: Node, off: nat)
    requires Placed(json, toks, i, v, off) && ReplyIn(v).Some?
    ensures var r := ReplyIn(v).value;
      if r.callsJson.Of? then HoldsCalls(r.callsJson.text, r.calls) else r.callsJson == Null(0) && r.calls == []
  {
    hide Placed, Find, MemberAt, StringIn, CallsIn, HoldsCalls, Print;
    var m := Find(v, MESSAGE).value;
    var moff := MemberMeans(json, toks, i, v, off, MESSAGE);
    var toff := MemberMeans(json, toks, MemberAt(json, toks, i, MESSAGE), m, moff, TOOL_CALLS);
    var t := Find(m, TOOL_CALLS);
    if t.Some? && IsArray(t.value) {
      PlacedGood(json, toks, MemberAt(json, toks, MemberAt(json, toks, i, MESSAGE), TOOL_CALLS), t.value, toff);
      ArrayHoldsCalls(t.value);
    }
  }

  lemma PlacedGood(json: bytes, toks: seq<Tok>, i: int, v: Node, off: nat)
    requires Placed(json, toks, i, v, off)
    ensures Good(v, MAX_DEPTH)
  {
  }

  /** Some text was read as this reply. */
  ghost predicate WasRead(r: Reply) {
    exists json :: ResponseOf(json) == Some(r)
  }

  lemma {:induction false} RepliesOneByOne(arr: Node, n: nat)
    requires IsArray(arr) && n <= KidCount(arr.kids) && RepliesIn(arr, n).Some?
    ensures forall i :: 0 <= i < n ==> ReplyIn(Nth(arr.kids, i).value) == Some(RepliesIn(arr, n).value[i])
    decreases n
  {
    hide ReplyIn, Nth;
    if n > 0 {
      RepliesOneByOne(arr, n - 1);
    }
  }

  /**
   Main result. The raw array that goes back to the model and the calls that are run agree: reading that array
   again gives exactly those calls, ids, names and arguments, in order; without an array there are none.
   */
  lemma RawCallsAgree(json: bytes)
    requires ResponseOf(json).Some?
    ensures var r := ResponseOf(json).value;
      if r.callsJson.Of? then HoldsCalls(r.callsJson.text, r.calls) else r.callsJson == Null(0) && r.calls == []
  {
    hide Jstok.Parse, Print, Flatten, Depth, WfDocument, Placed, ResponseIn, Nth, HoldsCalls, ReplyIn, RepliesIn, Find;
    var n := Jstok.Parse(json, Mode.Count, START).rc.n;
    SecondPassSucceeds(json, n);
    var doc := ParseIsFlattening(json, n);
    DocumentShape(doc);
    var toks := Flatten(doc, 0);
    if doc.kids.Snoc? {
      var v := Nth(doc.kids, 0).value;
      var off := PlacedRoot(json, doc);
      ResponseMeans(json, toks, v, off);
      var arr := Find(v, CHOICES).value;
      var a := MemberAt(json, toks, 0, CHOICES);
      var coff := MemberMeans(json, toks, 0, v, off, CHOICES);
      RepliesOneByOne(arr, KidCount(arr.kids));
      var voff := PlacedElement(json, toks, a, arr, coff, 0);
      ReplyHoldsCalls(json, toks, ElementAt(toks, a, 0), Nth(arr.kids, 0).value, voff);
    } else {
      NothingInside(doc);
      NoReply(json);
      assert false;
    }
  }
}
