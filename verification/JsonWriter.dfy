/**
 The bounded JSON writer of src/json_build.c: a buffer that refuses what does not fit, escaped strings, and the
 text of a list of tool calls.
 */
module JsonWriter {
  import opened Bytes
  import opened JsonLexer
  import opened Jstok
  import opened Unescape

  const ID: bytes := [105, 100]                                         // id
  const TYPE: bytes := [116, 121, 112, 101]                             // type
  const FUNCTION: bytes := [102, 117, 110, 99, 116, 105, 111, 110]      // function
  const NAME: bytes := [110, 97, 109, 101]                              // name
  const ARGUMENTS: bytes := [97, 114, 103, 117, 109, 101, 110, 116, 115] // arguments

  // --- texts ----------------------------------------------------------------------------------------------

  function Quoted(body: bytes): bytes {
    [QUOTE] + body + [QUOTE]
  }

  /** A key that needs no escapes, with its colon. */
  function Member(key: bytes): bytes {
    Quoted(key) + [COLON]
  }

  function JsonString(s: bytes): bytes {
    Quoted(Escaped(s))
  }

  /** Strings side by side, with commas between them. */
  function Separated(items: seq<bytes>): bytes {
    if items == [] then []
    else
      var n := |items| - 1;
      Separated(items[..n]) + (if n > 0 then [COMMA] else []) + items[n]
  }

  function ArrayText(items: seq<bytes>): bytes {
    [LBRACKET] + Separated(items) + [RBRACKET]
  }

  datatype Call = Call(id: Span, name: Span, args: Span)

  /** What a call must satisfy to be written; `maxArgs == 0` is "no limit". */
  predicate Writable(c: Call, maxArgs: nat) {
    && c.name.Of? && c.name.text != [] && c.args.Of?
    && Usable(c.id)
    && (maxArgs == 0 || |c.args.text| <= maxArgs)
  }

  function IdText(id: Span): bytes {
    if id.Null? then [] else Member(ID) + JsonString(id.text) + [COMMA]
  }

  const FUNCTION_LIT: bytes := Member(TYPE) + Quoted(FUNCTION) + [COMMA] + Member(FUNCTION) + [LBRACE]

  function FunctionText(name: bytes, args: bytes): bytes {
    FUNCTION_LIT + Member(NAME) + JsonString(name) + ([COMMA] + Member(ARGUMENTS)) + JsonString(args) + [RBRACE, RBRACE]
  }

  function CallText(c: Call): bytes
    requires c.name.Of? && c.args.Of?
  {
    [LBRACE] + IdText(c.id) + FunctionText(c.name.text, c.args.text)
  }

  predicate AllWritable(calls: seq<Call>, maxArgs: nat) {
    forall i :: 0 <= i < |calls| ==> Writable(calls[i], maxArgs)
  }

  predicate HaveStrings(calls: seq<Call>) {
    forall i :: 0 <= i < |calls| ==> calls[i].name.Of? && calls[i].args.Of?
  }

  function CallTexts(calls: seq<Call>): seq<bytes>
    requires HaveStrings(calls)
  {
    seq(|calls|, i requires 0 <= i < |calls| => CallText(calls[i]))
  }

  function ItemText(first: bool, item: bytes): bytes {
    (if first then [] else [COMMA]) + JsonString(item)
  }

  function StringTexts(items: seq<bytes>): seq<bytes> {
    seq(|items|, i requires 0 <= i < |items| => JsonString(items[i]))
  }

  lemma {:induction false} EscapedGrows(s: bytes, i: nat)
    requires i < |s|
    ensures Escaped(s[..i + 1]) == Escaped(s[..i]) + EscapeByte(s[i])
    ensures |Escaped(s[..i + 1])| <= |Escaped(s)|
    decreases |s| - i
  {
    hide EscapeByte;
    assert s[..i + 1][..i] == s[..i];
    if i + 1 < |s| {
      EscapedGrows(s, i + 1);
    } else {
      assert s[..i + 1] == s;
    }
  }

  lemma {:induction false} SeparatedGrows(items: seq<bytes>, i: nat)
    requires i < |items|
    ensures Separated(items[..i + 1]) == Separated(items[..i]) + (if i > 0 then [COMMA] else []) + items[i]
    ensures |Separated(items[..i + 1])| <= |Separated(items)|
    decreases |items| - i
  {
    assert items[..i + 1][..i] == items[..i];
    if i + 1 < |items| {
      SeparatedGrows(items, i + 1);
    } else {
      assert items[..i + 1] == items;
    }
  }

  // --- the buffer -----------------------------------------------------------------------------------------

  /** `struct fixedbuf` over the caller's array, of which the first `cap` bytes may be used. */
  class FixedBuf {
    const data: array<byte>
    const cap: nat
    var len: nat
    var overflow: bool

    ghost predicate Valid()
      reads this
    {
      len <= cap <= data.Length
    }

    ghost function Contents(): bytes
      requires Valid()
      reads this, data
    {
      data[..len]
    }

    constructor (out: array<byte>, room: nat)
      requires room <= out.Length
      ensures Valid() && data == out && cap == room && Contents() == [] && !overflow
    {
      data, cap, len, overflow := out, room, 0, false;
    }

    /** What every append promises: all of `s` or a failure for good, and nothing behind the capacity. */
    twostate predicate Appended(ok: bool, s: bytes)
      reads this, data
    {
      && old(Valid()) && Valid() && data[cap..] == old(data[cap..])
      && (ok <==> !old(overflow) && |old(Contents())| + |s| <= cap)
      && (ok ==> !overflow && Contents() == old(Contents()) + s)
      && (!ok ==> overflow && old(Contents()) <= Contents())
    }

    /** `fixedbuf_append` */
    method Append(s: bytes) returns (ok: bool)
      requires Valid()
      modifies this, data
      ensures Appended(ok, s)
    {
      if overflow { return false; }
      if |s| == 0 { return true; }
      if len + |s| > cap {
        overflow := true;
        return false;
      }
      forall k | 0 <= k < |s| {
        data[len + k] := s[k];
      }
      len := len + |s|;
      return true;
    }

    /** `fixedbuf_append_json_string` */
    method AppendJsonString(s: bytes) returns (ok: bool)
      requires Valid()
      modifies this, data
      ensures Appended(ok, JsonString(s))
    {
      hide EscapeByte;
      ghost var before := Contents();
      ok := Append([QUOTE]);
      if !ok { return; }
      var i := 0;
      assert before + [QUOTE] + Escaped(s[..0]) == before + [QUOTE];
      while i < |s|
        invariant i <= |s| && Valid() && !overflow && data[cap..] == old(data[cap..])
        invariant Contents() == before + [QUOTE] + Escaped(s[..i])
        invariant !old(overflow)
      {
        EscapedGrows(s, i);
        EscapeNotEmpty(s[i]);
        ok := Append(EscapeByte(s[i]));
        if !ok { return; }
        assert before + [QUOTE] + Escaped(s[..i + 1]) == before + [QUOTE] + Escaped(s[..i]) + EscapeByte(s[i]);
        i := i + 1;
      }
      assert s[..i] == s;
      ok := Append([QUOTE]);
      assert before + JsonString(s) == before + [QUOTE] + Escaped(s) + [QUOTE];
    }

    /** The members of a call that surround its three strings; `id` may be absent. */
    method AppendCall(c: Call) returns (ok: bool)
      requires Valid() && c.name.Of? && c.args.Of?
      modifies this, data
      ensures Appended(ok, CallText(c))
    {
      hide JsonString, Member, Quoted;
      ghost var before := Contents();
      ok := Append([LBRACE]);
      if !ok { return; }
      if c.id.Of? {
        ok := AppendId(c.id.text);
        if !ok { return; }
      }
      assert Contents() == before + ([LBRACE] + IdText(c.id));
      ok := AppendFunction(c.name.text, c.args.text);
      Assoc(before, [LBRACE] + IdText(c.id), FunctionText(c.name.text, c.args.text));
    }

    method AppendId(id: bytes) returns (ok: bool)
      requires Valid()
      modifies this, data
      ensures Appended(ok, IdText(Of(id)))
    {
      hide JsonString, Member;
      ghost var before := Contents();
      ok := Append(Member(ID));
      if !ok { return; }
      ok := AppendJsonString(id);
      if !ok { return; }
      Assoc(before, Member(ID), JsonString(id));
      ok := Append([COMMA]);
      Assoc(before, Member(ID) + JsonString(id), [COMMA]);
    }

    method AppendFunction(name: bytes, args: bytes) returns (ok: bool)
      requires Valid()
      modifies this, data
      ensures Appended(ok, FunctionText(name, args))
    {
      hide JsonString, Member, Quoted, FixedBuf.Valid;
      ghost var before := Contents();
      ok := Append(FUNCTION_LIT);
      if !ok { return; }
      ghost var text := FUNCTION_LIT;
      ok := Append(Member(NAME));
      if !ok { return; }
      Assoc(before, text, Member(NAME));
      text := text + Member(NAME);
      ok := AppendJsonString(name);
      if !ok { return; }
      Assoc(before, text, JsonString(name));
      text := text + JsonString(name);
      ok := Append([COMMA] + Member(ARGUMENTS));
      if !ok { return; }
      Assoc(before, text, [COMMA] + Member(ARGUMENTS));
      text := text + ([COMMA] + Member(ARGUMENTS));
      ok := AppendJsonString(args);
      if !ok { return; }
      Assoc(before, text, JsonString(args));
      text := text + JsonString(args);
      ok := Append([RBRACE, RBRACE]);
      Assoc(before, text, [RBRACE, RBRACE]);
    }

    method AppendItem(first: bool, item: bytes) returns (ok: bool)
      requires Valid()
      modifies this, data
      ensures Appended(ok, ItemText(first, item))
    {
      hide JsonString;
      ghost var before := Contents();
      if !first {
        ok := Append([COMMA]);
        if !ok { return; }
      }
      ok := AppendJsonString(item);
      Assoc(before, if first then [] else [COMMA], JsonString(item));
    }

    /** `fixedbuf_append_string_array` */
    method AppendStringArray(items: seq<bytes>) returns (ok: bool)
      requires Valid()
      modifies this, data
      ensures Appended(ok, ArrayText(StringTexts(items)))
    {
      hide Separated, JsonString;
      ghost var before, texts := Contents(), StringTexts(items);
      ok := Append([LBRACKET]);
      if !ok { return; }
      NothingSeparated();
      assert texts[..0] == [];
      var i := 0;
      while i < |items|
        invariant i <= |items| && Valid() && !overflow && !old(overflow) && data[cap..] == old(data[cap..])
        invariant Contents() == before + ([LBRACKET] + Separated(texts[..i]))
      {
        SeparatedGrows(texts, i);
        ok := AppendItem(i == 0, items[i]);
        if !ok { return; }
        Assoc4([LBRACKET], Separated(texts[..i]), if i > 0 then [COMMA] else [], JsonString(items[i]));
        Regroup(before, [LBRACKET], Separated(texts[..i]), ItemText(i == 0, items[i]));
        i := i + 1;
      }
      assert texts[..i] == texts;
      ok := Append([RBRACKET]);
      Assoc(before, [LBRACKET] + Separated(texts), [RBRACKET]);
    }
  }

  lemma Assoc(a: bytes, b: bytes, c: bytes)
    ensures a + b + c == a + (b + c)
  {
  }

  lemma Regroup(a: bytes, b: bytes, c: bytes, d: bytes)
    ensures a + (b + c) + d == a + (b + c + d)
  {
  }

  lemma Assoc4(a: bytes, b: bytes, c: bytes, d: bytes)
    ensures a + (b + c + d) == a + b + c + d
  {
  }

  lemma NothingSeparated()
    ensures Separated([]) == []
  {
  }

  lemma EscapeNotEmpty(b: byte)
    ensures EscapeByte(b) != []
  {
  }

  /** The texts of the first calls, which are fine, do not depend on the rest. */
  lemma WritableSoFar(calls: seq<Call>, maxArgs: nat, i: nat)
    requires i < |calls| && AllWritable(calls[..i], maxArgs)
    ensures Writable(calls[i], maxArgs) ==> AllWritable(calls[..i + 1], maxArgs)
    ensures !Writable(calls[i], maxArgs) ==> !AllWritable(calls, maxArgs)
    ensures AllWritable(calls, maxArgs) ==> CallTexts(calls)[..i] == CallTexts(calls[..i])
  {
  }

  /** When the next call does not fit, the whole list does not. */
  lemma TooMuch(calls: seq<Call>, maxArgs: nat, i: nat, len: nat, more: nat, room: nat)
    requires i < |calls| && AllWritable(calls[..i], maxArgs) && Writable(calls[i], maxArgs)
    requires len == 1 + |Separated(CallTexts(calls[..i]))| && len + more > room
    requires more <= (if i > 0 then 1 else 0) + |CallText(calls[i])|
    ensures AllWritable(calls, maxArgs) ==> |ArrayText(CallTexts(calls))| > room
  {
    hide CallText;
    if AllWritable(calls, maxArgs) {
      WritableSoFar(calls, maxArgs, i);
      SeparatedGrows(CallTexts(calls), i);
    }
  }

  /** One more call in the text. */
  lemma OneMore(calls: seq<Call>, maxArgs: nat, i: nat)
    requires i < |calls| && AllWritable(calls[..i], maxArgs) && Writable(calls[i], maxArgs)
    ensures AllWritable(calls[..i + 1], maxArgs)
    ensures Separated(CallTexts(calls[..i + 1]))
         == Separated(CallTexts(calls[..i])) + (if i > 0 then [COMMA] else []) + CallText(calls[i])
  {
    hide CallText;
    WritableSoFar(calls, maxArgs, i);
    SeparatedGrows(CallTexts(calls[..i + 1]), i);
    assert CallTexts(calls[..i + 1])[..i] == CallTexts(calls[..i]);
    assert CallTexts(calls[..i + 1])[..i + 1] == CallTexts(calls[..i + 1]);
  }

  function Given(calls: Option<seq<Call>>): seq<Call> {
    if calls.Some? then calls.value else []
  }

  function ToolCallsText(calls: seq<Call>): bytes
    requires HaveStrings(calls)
  {
    ArrayText(CallTexts(calls))
  }

  /**
   `llm_tool_calls_json_write`. It succeeds exactly when there is a buffer, every call is writable and the whole
   text fits; then the output is that text. It never writes behind the room it was given.
   */
  method ToolCallsWrite(calls: Option<seq<Call>>, count: nat, out: array?<byte>, room: nat, maxArgs: nat)
    returns (ok: bool, len: nat)
    requires (calls.Some? ==> |calls.value| == count) && (out != null ==> room <= out.Length)
    modifies if out == null then {} else {out}
    ensures ok <==>
      && out != null && room > 0 && (count > 0 ==> calls.Some?)
      && (forall i :: 0 <= i < count ==> var c := calls.value[i];
            && c.name.Of? && c.name.text != [] && c.args.Of? && (c.id.Null? ==> c.id.len == 0)
            && (maxArgs == 0 || |c.args.text| <= maxArgs))
      && |ToolCallsText(Given(calls))| <= room
    ensures ok ==> len <= room && out[..len] == ToolCallsText(Given(calls))
    ensures out != null ==> out[room..] == old(out[room..])
    ensures !ok ==> len == 0
  {
    if out == null || room == 0 { return false, 0; }
    if count > 0 && calls.None? { return false, 0; }
    ok, len := WriteCalls(Given(calls), out, room, maxArgs);
  }

  method WriteCalls(calls: seq<Call>, out: array<byte>, room: nat, maxArgs: nat) returns (ok: bool, len: nat)
    requires room <= out.Length
    modifies out
    ensures ok <==> AllWritable(calls, maxArgs) && |ToolCallsText(calls)| <= room
    ensures ok ==> len <= room && out[..len] == ToolCallsText(calls)
    ensures out[room..] == old(out[room..])
    ensures !ok ==> len == 0
  {
    hide Separated, CallText, IdText, FunctionText;
    var b := new FixedBuf(out, room);
    ok := b.Append([LBRACKET]);
    if !ok { return false, 0; }
    var i := 0;
    NothingSeparated();
    assert calls[..0] == [] && CallTexts([]) == [];
    while i < |calls|
      invariant i <= |calls| && b.Valid() && !b.overflow && fresh(b) && b.data == out && b.cap == room
      invariant AllWritable(calls[..i], maxArgs) && out[room..] == old(out[room..])
      invariant b.Contents() == [LBRACKET] + Separated(CallTexts(calls[..i]))
    {
      var c := calls[i];
      WritableSoFar(calls, maxArgs, i);
      if !Writable(c, maxArgs) { return false, 0; }
      OneMore(calls, maxArgs, i);
      ghost var text := Separated(CallTexts(calls[..i]));
      var before := b.len;
      if i > 0 {
        ok := b.Append([COMMA]);
        if !ok {
          TooMuch(calls, maxArgs, i, before, 1, room);
          return false, 0;
        }
      }
      ok := b.AppendCall(c);
      if !ok {
        TooMuch(calls, maxArgs, i, before, (if i > 0 then 1 else 0) + |CallText(c)|, room);
        return false, 0;
      }
      Assoc4([LBRACKET], text, if i > 0 then [COMMA] else [], CallText(c));
      i := i + 1;
    }
    assert calls[..i] == calls;
    ok := b.Append([RBRACKET]);
    if !ok || b.overflow { return false, 0; }
    return true, b.len;
  }

  // --- stop strings ---------------------------------------------------------------------------------------

  /** The two parallel arrays of the stop list: pointers and lengths. */
  datatype StopList = Neither | OnlyOne | Both(items: seq<Span>)

  function Texts(items: seq<Span>): seq<bytes>
    requires forall i :: 0 <= i < |items| ==> items[i].Of?
  {
    seq(|items|, i requires 0 <= i < |items| => items[i].text)
  }

  /**
   The checks of `llm_request_opts_json_write`: either a list of strings or a single string, within the limits, of
   which 0 is "no limit". The byte budget is compared without wrapping around.
   */
  method CheckStops(stop: Span, list: StopList, count: nat, maxStrings: nat, maxBytes: nat) returns (ok: bool)
    requires list.Both? ==> |list.items| == count
    ensures ok <==>
      && (stop.Null? ==> stop.len == 0) && (count > 0 ==> list.Both?)
      && match list
         case Neither => stop.Null? || maxBytes == 0 || |stop.text| <= maxBytes
         case OnlyOne => false
         case Both(items) =>
           && items != [] && stop.Null? && (maxStrings == 0 || |items| <= maxStrings)
           && (forall i :: 0 <= i < |items| ==> items[i].Of?)
           && (maxBytes == 0 || |Concat(Texts(items))| <= maxBytes)
  {
    if stop.Null? && stop.len != 0 { return false; }
    if count > 0 {
      if stop.Of? { return false; }
      if !list.Both? { return false; }
      if maxStrings != 0 && count > maxStrings { return false; }
      var items, total, i := list.items, 0, 0;
      while i < count
        invariant i <= count && forall k :: 0 <= k < i ==> items[k].Of?
        invariant total == |Concat(Texts(items[..i]))| && (maxBytes != 0 ==> total <= maxBytes)
      {
        if items[i].Null? { return false; }
        BytesSoFar(items, i);
        if maxBytes != 0 && |items[i].text| > maxBytes - total { return false; }
        total := total + |items[i].text|;
        i := i + 1;
      }
      assert items[..i] == items;
      return true;
    }
    if !list.Neither? { return false; }
    return stop.Null? || maxBytes == 0 || |stop.text| <= maxBytes;
  }

  lemma BytesSoFar(items: seq<Span>, i: nat)
    requires i < |items| && forall k :: 0 <= k <= i ==> items[k].Of?
    ensures |Concat(Texts(items[..i + 1]))| == |Concat(Texts(items[..i]))| + |items[i].text|
    ensures (forall k :: 0 <= k < |items| ==> items[k].Of?) ==>
      |Concat(Texts(items[..i + 1]))| <= |Concat(Texts(items))|
  {
    assert Texts(items[..i + 1]) == Texts(items[..i]) + [items[i].text];
    ConcatAppend(Texts(items[..i]), [items[i].text]);
    assert Concat([items[i].text]) == items[i].text by {
      assert [items[i].text][..0] == [] && Concat([]) == [];
    }
    if forall k :: 0 <= k < |items| ==> items[k].Of? {
      assert Texts(items) == Texts(items[..i + 1]) + Texts(items[i + 1..]);
      ConcatAppend(Texts(items[..i + 1]), Texts(items[i + 1..]));
    }
  }
}
