/**
 The letters, names and numbers of the protocol, spelled out: every set of bytes by its characters, every name by its
 text, every limit by its value, and the functions that read numbers and names by what they say of such texts.
 */
module Spelling {
  import opened Bytes
  import opened JsonLexer
  import opened EventStream
  import opened ChatChunk
  import ChatRequest
  import ChatResponse
  import Jstok
  import JsonWriter
  import RepeatGuard
  import SseWriter
  import StreamTools
  import TurnHash
  import Unescape
  import Utf8

  // --- characters -----------------------------------------------------------------------------------------

  const DIGITS: bytes := [48, 49, 50, 51, 52, 53, 54, 55, 56, 57]

  lemma DigitsSpelled(b: byte)
    ensures IsDigit(b) <==> b in Ascii("0123456789")
  {
    assert Ascii("0123456789") == DIGITS;
    if IsDigit(b) { assert DIGITS[b - 48] == b; }
  }

  lemma HexSpelled(b: byte)
    ensures IsHex(b) <==> b in Ascii("0123456789") || b in Ascii("abcdef") || b in Ascii("ABCDEF")
  {
    DigitsSpelled(b);
    assert Ascii("abcdef") == [97, 98, 99, 100, 101, 102];
    assert Ascii("ABCDEF") == [65, 66, 67, 68, 69, 70];
  }

  lemma WhiteSpaceSpelled(b: byte)
    ensures IsSpace(b) <==> b in Ascii(" \t\n\r")
    ensures IsDelim(b) <==> b in Ascii(" \t\n\r") || b in Ascii(",]}")
    ensures IsEol(b) <==> b in Ascii("\n\r")
  {
    assert Ascii(" \t\n\r") == [32, 9, 10, 13];
    assert Ascii(",]}") == [44, 93, 125];
    assert Ascii("\n\r") == [10, 13];
  }

  /** A string holds everything but control characters, quotes and backslashes as it is. */
  lemma StringBytesSpelled(b: byte)
    ensures IsPlain(b) <==> b >= 32 && b !in Ascii("\"\\")
    ensures IsShortEscape(b) <==> b in Ascii("\"\\/bfnrt")
  {
    assert Ascii("\"\\") == [34, 92];
    assert Ascii("\"\\/bfnrt") == [34, 92, 47, 98, 102, 110, 114, 116];
  }

  lemma NumberBytesSpelled(b: byte)
    ensures IsExponentMark(b) <==> b in Ascii("eE")
    ensures IsSign(b) <==> b in Ascii("+-")
    ensures StartsPrimitive(b) <==> b in Ascii("tfn-") || b in Ascii("0123456789")
  {
    DigitsSpelled(b);
    assert Ascii("eE") == [101, 69] && Ascii("+-") == [43, 45];
    assert Ascii("tfn-") == [116, 102, 110, 45];
  }

  lemma PunctuationSpelled()
    ensures [LF] == Ascii("\n") && [CR] == Ascii("\r") && [SPACE] == Ascii(" ") && [COLON] == Ascii(":")
    ensures [QUOTE] == Ascii("\"") && [BACKSLASH] == Ascii("\\") && [LETTER_U] == Ascii("u")
    ensures [MINUS] == Ascii("-") && [PLUS] == Ascii("+") && [DOT] == Ascii(".") && [ZERO] == Ascii("0")
    ensures [COMMA] == Ascii(",") && [Jstok.LBRACE, Jstok.RBRACE, Jstok.LBRACKET, Jstok.RBRACKET] == Ascii("{}[]")
  {
  }

  // --- names ----------------------------------------------------------------------------------------------

  lemma LiteralsSpelled()
    ensures TRUE == Ascii("true") && FALSE == Ascii("false") && NULL == Ascii("null")
  {
  }

  lemma EventFieldsSpelled()
    ensures EventStream.DATA == Ascii("data") && EventStream.EVENT == Ascii("event") && EventStream.ID == Ascii("id")
    ensures EventStream.RETRY == Ascii("retry") && EventStream.MESSAGE == Ascii("message")
    ensures SseWriter.EVENT_PREFIX == Ascii("event: ") && SseWriter.DATA_PREFIX == Ascii("data: ")
    ensures SseWriter.KEEPALIVE_TEXT == Ascii(": ping\n\n") && StreamTools.DONE == Ascii("[DONE]")
  {
  }

  lemma ChunkKeysSpelled()
    ensures INDEX == Ascii("index") && CHOICES == Ascii("choices") && DELTA == Ascii("delta")
    ensures CONTENT == Ascii("content") && THINKING == Ascii("thinking") && REASONING == Ascii("reasoning_content")
    ensures TOOL_CALLS == Ascii("tool_calls") && USAGE == Ascii("usage") && FINISH == Ascii("finish_reason")
  {
  }

  lemma UsageKeysSpelled()
    ensures PROMPT == Ascii("prompt_tokens") && COMPLETION == Ascii("completion_tokens") && TOTAL == Ascii("total_tokens")
  {
  }

  lemma CallKeysSpelled()
    ensures JsonWriter.ID == Ascii("id") && JsonWriter.TYPE == Ascii("type") && JsonWriter.FUNCTION == Ascii("function")
    ensures JsonWriter.NAME == Ascii("name") && JsonWriter.ARGUMENTS == Ascii("arguments")
    ensures ChatRequest.ROLE == Ascii("role") && ChatRequest.TOOL_CALL_ID == Ascii("tool_call_id")
    ensures ChatResponse.MESSAGE == Ascii("message")
  {
  }

  /** The four reasons for which a reply ends; any other text, or none, is unknown. */
  lemma ReasonsSpelled(s: Option<bytes>)
    ensures FinishOf(s) == Stopped <==> s == Some(Ascii("stop"))
    ensures FinishOf(s) == TooLong <==> s == Some(Ascii("length"))
    ensures FinishOf(s) == ToolCalls <==> s == Some(Ascii("tool_calls"))
    ensures FinishOf(s) == Filtered <==> s == Some(Ascii("content_filter"))
  {
    assert STOP == Ascii("stop") && LENGTH == Ascii("length");
    assert TOOL_CALLS == Ascii("tool_calls") && FILTER == Ascii("content_filter");
  }

  // --- numbers --------------------------------------------------------------------------------------------

  lemma LimitsSpelled()
    ensures SIZE_MAX == 18446744073709551615 && TWO64 == 18446744073709551616 && StreamTools.INT_MAX == 2147483647
    ensures Jstok.MAX_DEPTH == 64 && RepeatGuard.WINDOW == 8
    ensures TurnHash.BASIS == 1469598103934665603 && TurnHash.PRIME == 1099511628211
  {
  }

  /** The byte order mark and the replacement character are the code points FEFF and FFFD. */
  lemma MarksSpelled()
    ensures Utf8.IsUtf8Char(BOM) && Utf8.CodePoint(BOM) == 0xFEFF
    ensures Utf8.IsUtf8Char(Utf8.REPLACEMENT) && Utf8.CodePoint(Utf8.REPLACEMENT) == 0xFFFD
  {
  }

  /** Decimal: a further digit makes ten times the number and the value of the digit. */
  lemma DecimalSpelled(v: bytes, i: nat)
    requires AllDigits(v) && i < 10
    ensures DecimalValue([]) == 0
    ensures var w := v + [Ascii("0123456789")[i]]; AllDigits(w) && DecimalValue(w) == 10 * DecimalValue(v) + i
  {
    assert Ascii("0123456789") == DIGITS && DIGITS[i] == 48 + i;
    var w := v + [DIGITS[i]];
    assert w[..|w| - 1] == v;
  }

  lemma {:induction false} ZeroIsZeros(v: bytes)
    requires AllDigits(v)
    ensures DecimalValue(v) == 0 <==> forall i :: 0 <= i < |v| ==> v[i] == 48
  {
    if v != [] {
      ZeroIsZeros(v[..|v| - 1]);
    }
  }

  /** A token count is a text of digits, with its value; or a minus sign and zeros. */
  lemma CountExactly(text: bytes, n: nat)
    ensures CountValue(text) == Some(n) <==>
      || (text != [] && AllDigits(text) && DecimalValue(text) == n)
      || (n == 0 && |text| >= 2 && text[0] == 45 && forall i :: 1 <= i < |text| ==> text[i] == 48)
  {
    if text != [] && text[0] == 45 {
      var s := text[1..];
      assert forall i :: 0 <= i < |s| ==> s[i] == text[i + 1];
      assert forall i :: 1 <= i < |text| ==> text[i] == s[i - 1];
      if AllDigits(s) { ZeroIsZeros(s); }
    }
  }

  // --- fields ---------------------------------------------------------------------------------------------

  lemma {:induction false} FirstIndexFinds(name: bytes, b: byte, rest: bytes)
    requires b !in name
    ensures FirstIndex(name + [b] + rest, b) == |name|
    decreases |name|
  {
    var s := name + [b] + rest;
    if name != [] {
      assert s[1..] == name[1..] + [b] + rest && s[0] == name[0];
      FirstIndexFinds(name[1..], b, rest);
    }
  }

  /** A line is a name, or a name, a colon and a value behind at most one space. */
  lemma FieldsSpelled(name: bytes, value: bytes)
    requires COLON !in name
    ensures ParseField(name) == Field(name, [])
    ensures ParseField(name + Ascii(":") + Ascii(" ") + value) == Field(name, value)
    ensures !([SPACE] <= value) ==> ParseField(name + Ascii(":") + value) == Field(name, value)
  {
    assert Ascii(":") == [COLON] && Ascii(" ") == [SPACE];
    assert FirstIndex(name, COLON) == |name|;
    FirstIndexFinds(name, COLON, [SPACE] + value);
    FirstIndexFinds(name, COLON, value);
    var a, b := name + [COLON] + [SPACE] + value, name + [COLON] + value;
    assert a == name + [COLON] + ([SPACE] + value);
    assert a[..|name|] == name && a[|name| + 1..] == [SPACE] + value && ([SPACE] + value)[1..] == value;
    assert b[..|name|] == name && b[|name| + 1..] == value;
  }

  // --- what is written ------------------------------------------------------------------------------------

  /** What has a letter is written with it, but for the slash. */
  lemma LettersWritten(i: nat)
    requires i < 8 && i != 2
    ensures |Unescape.LETTERS| == 8 && |Unescape.MEANT| == 8 && (Unescape.LETTERS[i] as int) < 128
    ensures Unescape.EscapeByte(Unescape.MEANT[i]) == [92, Unescape.LETTERS[i] as int]
  {
    Unescape.LetterTable(i);
    assert i == 0 || i == 1 || i == 3 || i == 4 || i == 5 || i == 6 || i == 7;
  }

  /** Other control characters are written with four hex digits, and the rest as it is. */
  lemma OthersWritten(b: byte)
    requires b !in Unescape.MEANT || b == 47
    ensures Unescape.EscapeByte(b) ==
      if b < 32 then Ascii("\\u00") + [Unescape.LOWER[b / 16] as int, Unescape.LOWER[b % 16] as int] else [b]
  {
    var m := Unescape.MEANT;
    assert m[0] == 34 && m[1] == 92 && m[3] == 8 && m[4] == 12 && m[5] == 10 && m[6] == 13 && m[7] == 9;
    assert Ascii("\\u00") == [92, 117, 48, 48];
    if b < 32 {
      Unescape.DigitTable(b / 16);
      Unescape.DigitTable(b % 16);
    }
  }

  lemma TypeSpelled()
    ensures Ascii("\"type\":\"function\",")
         == JsonWriter.Member(JsonWriter.TYPE) + JsonWriter.Quoted(JsonWriter.FUNCTION) + [COMMA]
    ensures Ascii("\"function\":{") == JsonWriter.Member(JsonWriter.FUNCTION) + [Jstok.LBRACE]
  {
  }

  lemma MembersSpelled()
    ensures Ascii("\"id\":") == JsonWriter.Member(JsonWriter.ID) && Ascii("\"name\":") == JsonWriter.Member(JsonWriter.NAME)
    ensures Ascii(",\"arguments\":") == [COMMA] + JsonWriter.Member(JsonWriter.ARGUMENTS)
    ensures Ascii("{") == [Jstok.LBRACE] && Ascii("}}") == [Jstok.RBRACE, Jstok.RBRACE] && Ascii(",") == [COMMA]
  {
  }

  /** A call as it is written. */
  lemma CallSpelled(c: JsonWriter.Call)
    requires c.name.Of? && c.args.Of?
    ensures JsonWriter.CallText(c) ==
      Ascii("{") + (if c.id.Of? then Ascii("\"id\":") + JsonWriter.JsonString(c.id.text) + Ascii(",") else [])
      + Ascii("\"type\":\"function\",") + Ascii("\"function\":{")
      + Ascii("\"name\":") + JsonWriter.JsonString(c.name.text)
      + Ascii(",\"arguments\":") + JsonWriter.JsonString(c.args.text) + Ascii("}}")
  {
    hide Ascii, JsonWriter.JsonString, JsonWriter.Member, JsonWriter.Quoted;
    TypeSpelled();
    MembersSpelled();
  }

  /** Each line of a payload, with its prefix of six bytes, fits, and none has a CR. */
  predicate AllFine(maxLine: nat, lines: seq<bytes>) {
    forall i :: 0 <= i < |lines| ==> CR !in lines[i] && (maxLine == 0 || |lines[i]| + 6 <= maxLine)
  }

  lemma {:induction false} LinesAccepted(limits: SseWriter.Limits, lines: seq<bytes>)
    ensures SseWriter.LinesStatus(limits, lines) == Ok <==> AllFine(limits.maxLine, lines)
    decreases |lines|
  {
    if lines != [] {
      LinesAccepted(limits, lines[1..]);
      assert lines == [lines[0]] + lines[1..];
    }
  }

  /** When an event is written: no line end where it would end a field, within the limits, and it fits. */
  lemma WritesExactly(limits: SseWriter.Limits, t: bytes, d: bytes, room: nat)
    ensures SseWriter.WriteStatus(limits, t, d, room) == Ok <==>
      && (limits.maxFrame == 0 || |d| + 1 <= limits.maxFrame) && LF !in t && CR !in t
      && (limits.maxLine == 0 || t == [] || |t| + 7 <= limits.maxLine)
      && AllFine(limits.maxLine, SseWriter.DataLines(d)) && |SseWriter.EventText(t, d)| <= room
  {
    hide SseWriter.LinesStatus, SseWriter.EventText, SseWriter.DataLines, AllFine;
    LinesAccepted(limits, SseWriter.DataLines(d));
  }
}
