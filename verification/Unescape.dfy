/**
 Undoing the escapes of a JSON string (`jstok_unescape` of include/jstok.h): as a function of the text, and as
 the loop that writes into a buffer which may be the very one it reads from.
 */
module Unescape {
  import opened Bytes
  import opened JsonLexer
  import opened Jstok
  import Utf8

  function HexVal(b: byte): nat
    requires IsHex(b)
    ensures HexVal(b) < 16
  {
    if IsDigit(b) then b - 48 else if b >= 97 then b - 87 else b - 55
  }

  function HexCode(s: bytes): (code: nat)
    requires |s| == 4 && IsHex(s[0]) && IsHex(s[1]) && IsHex(s[2]) && IsHex(s[3])
    ensures code < 0x10000
  {
    HexVal(s[0]) * 4096 + HexVal(s[1]) * 256 + HexVal(s[2]) * 16 + HexVal(s[3])
  }

  /** One UTF-16 code unit as UTF-8; surrogates are encoded one by one. */
  function EncodeUnit(code: nat): (r: bytes)
    requires code < 0x10000
    ensures 1 <= |r| <= 3
  {
    if code <= 0x7F then [code]
    else if code <= 0x7FF then [0xC0 + code / 64, 0x80 + code % 64]
    else [0xE0 + code / 4096, 0x80 + code / 64 % 64, 0x80 + code % 64]
  }

  /** What `\x` stands for. */
  function ShortEscape(b: byte): byte
    requires IsShortEscape(b)
  {
    if b == 98 then 8 else if b == 102 then 12 else if b == 110 then 10 else if b == 114 then 13 else if b == 116 then 9 else b
  }

  /** The first escape or byte of a text: what it stands for and how long it is. */
  datatype Piece = Piece(out: bytes, len: nat)

  function FirstPiece(s: bytes): (r: Option<Piece>)
    requires s != []
    ensures r.Some? ==> 1 <= |r.value.out| <= r.value.len <= |s|
  {
    if s[0] != BACKSLASH then Some(Piece([s[0]], 1))
    else if |s| < 2 then None
    else if IsShortEscape(s[1]) then Some(Piece([ShortEscape(s[1])], 2))
    else if s[1] == LETTER_U && |s| >= 6 && IsHex(s[2]) && IsHex(s[3]) && IsHex(s[4]) && IsHex(s[5]) then
      Some(Piece(EncodeUnit(HexCode(s[2..6])), 6))
    else None
  }

  /** The text without its escapes; nothing if one is malformed. */
  function Unescaped(s: bytes): Option<bytes>
    decreases |s|
  {
    if s == [] then Some([])
    else
      var p := FirstPiece(s);
      if p.None? then None
      else
        var rest := Unescaped(s[p.value.len..]);
        if rest.None? then None else Some(p.value.out + rest.value)
  }

  /** Bytes already produced in front of what the rest produces. */
  function After(done: bytes, rest: Option<bytes>): Option<bytes> {
    if rest.None? then None else Some(done + rest.value)
  }

  lemma {:induction false} UnescapedShrinks(s: bytes)
    ensures Unescaped(s).Some? ==> |Unescaped(s).value| <= |s|
    decreases |s|
  {
    if s != [] && FirstPiece(s).Some? {
      UnescapedShrinks(s[FirstPiece(s).value.len..]);
    }
  }

  /** A well-formed text is its own value exactly if it has no escapes. */
  lemma {:induction false} UnescapedSameExactly(s: bytes)
    requires StringBody(s)
    ensures Unescaped(s) == Some(s) <==> BACKSLASH !in s
    ensures BACKSLASH in s && Unescaped(s).Some? ==> |Unescaped(s).value| < |s|
    decreases |s|
  {
    hide EncodeUnit, HexCode;
    if s != [] {
      var p := FirstPiece(s).value;
      var rest := s[p.len..];
      assert s == s[..p.len] + rest;
      UnescapedSameExactly(rest);
      UnescapedShrinks(rest);
      if s[0] == BACKSLASH {
        UnescapedLess(s);
      } else {
        assert s[..1] == [s[0]] && BACKSLASH !in s[..1];
      }
    }
  }

  /** An escape is longer than what it stands for. */
  lemma UnescapedLess(s: bytes)
    requires s != [] && s[0] == BACKSLASH && StringBody(s)
    ensures FirstPiece(s).Some? && |FirstPiece(s).value.out| < FirstPiece(s).value.len
  {
  }

  lemma FirstPieceMore(s: bytes, more: bytes)
    requires s != [] && FirstPiece(s).Some?
    ensures FirstPiece(s + more) == FirstPiece(s)
  {
    if |s| >= 6 {
      assert (s + more)[2..6] == s[2..6];
    }
  }

  /** A text whose escapes are complete can be unescaped on its own. */
  lemma {:induction false} UnescapedConcat(a: bytes, b: bytes)
    requires Unescaped(a).Some?
    ensures Unescaped(a + b) == After(Unescaped(a).value, Unescaped(b))
    decreases |a|
  {
    hide FirstPiece;
    if a == [] {
      assert a + b == b;
      assert Unescaped(b).Some? ==> [] + Unescaped(b).value == Unescaped(b).value;
    } else {
      FirstPieceMore(a, b);
      var p := FirstPiece(a).value;
      assert (a + b)[p.len..] == a[p.len..] + b;
      UnescapedConcat(a[p.len..], b);
      var ra, rb := Unescaped(a[p.len..]).value, Unescaped(b);
      assert rb.Some? ==> p.out + (ra + rb.value) == p.out + ra + rb.value;
    }
  }

  /** The contents of a string token always unescape. */
  lemma {:induction false} BodyUnescapes(s: bytes)
    requires StringBody(s)
    ensures Unescaped(s).Some?
    decreases |s|
  {
    if s != [] {
      var p := FirstPiece(s);
      assert p.Some? && StringBody(s[p.value.len..]);
      BodyUnescapes(s[p.value.len..]);
    }
  }

  function UnescapeAll(parts: seq<bytes>): seq<bytes>
    requires forall i :: 0 <= i < |parts| ==> Unescaped(parts[i]).Some?
  {
    seq(|parts|, i requires 0 <= i < |parts| => Unescaped(parts[i]).value)
  }

  /** Unescaping joined fragments is joining unescaped fragments, when each is a whole string token. */
  lemma {:induction false} FragmentsUnescape(parts: seq<bytes>)
    requires forall i :: 0 <= i < |parts| ==> StringBody(parts[i])
    ensures forall i :: 0 <= i < |parts| ==> Unescaped(parts[i]).Some?
    ensures Unescaped(Concat(parts)) == Some(Concat(UnescapeAll(parts)))
    decreases |parts|
  {
    forall i | 0 <= i < |parts|
      ensures Unescaped(parts[i]).Some?
    {
      BodyUnescapes(parts[i]);
    }
    if parts != [] {
      var n := |parts| - 1;
      FragmentsUnescape(parts[..n]);
      UnescapedConcat(Concat(parts[..n]), parts[n]);
      assert UnescapeAll(parts)[..n] == UnescapeAll(parts[..n]);
    }
  }

  // --- the loop -------------------------------------------------------------------------------------------

  /** Reads one escape or byte at `at`; nothing else of the buffer below `end` matters. */
  method ReadPiece(buf: array<byte>, at: nat, end: nat) returns (p: Option<Piece>)
    requires at < end <= buf.Length
    ensures p == FirstPiece(buf[at..end])
  {
    ghost var s := buf[at..end];
    var c := buf[at];
    if c != BACKSLASH { return Some(Piece([c], 1)); }
    if at + 1 >= end { return None; }
    c := buf[at + 1];
    if IsShortEscape(c) { return Some(Piece([ShortEscape(c)], 2)); }
    if c == LETTER_U {
      if at + 5 >= end { return None; }
      if !IsHex(buf[at + 2]) || !IsHex(buf[at + 3]) || !IsHex(buf[at + 4]) || !IsHex(buf[at + 5]) { return None; }
      var hex := buf[at + 2..at + 6];
      assert hex == s[2..6];
      return Some(Piece(EncodeUnit(HexCode(hex)), 6));
    }
    return None;
  }

  /** What unescaping the span of a token into `room` bytes gives, if it fits. */
  predicate HasSpan(t: Tok) {
    t.kind == String && 0 <= t.start <= t.end
  }

  /**
   `jstok_unescape`. It succeeds exactly when the token is a string with a proper span whose text unescapes
   into the room, and then the output is the unescaped text. The output may be the input buffer: the write
   position never passes the read position.
   */
  method UnescapeInto(json: array<byte>, t: Tok, out: array<byte>, room: nat) returns (ok: bool, len: nat)
    requires t.end <= json.Length && room <= out.Length
    modifies out
    ensures ok <==>
      && t.kind == String && 0 <= t.start <= t.end
      && var u := Unescaped(old(json[t.start..t.end])); u.Some? && |u.value| <= room
    ensures ok ==> len <= room && Unescaped(old(json[t.start..t.end])) == Some(out[..len])
    ensures ok ==> out[len..] == old(out[len..])
  {
    if !HasSpan(t) { return false, 0; }
    ok, len := UnescapeSpan(json, t.start, t.end, out, room);
  }

  /** The loop over the text between `start` and `end`. */
  method UnescapeSpan(json: array<byte>, start: nat, end: nat, out: array<byte>, room: nat) returns (ok: bool, w: nat)
    requires start <= end <= json.Length && room <= out.Length
    modifies out
    ensures var u := Unescaped(old(json[start..end])); ok <==> u.Some? && |u.value| <= room
    ensures ok ==> w <= room && Unescaped(old(json[start..end])) == Some(out[..w])
    ensures ok ==> out[w..] == old(out[w..])
  {
    hide FirstPiece, Unescaped, After;
    ghost var s := json[start..end];
    ghost var done: bytes := [];
    var i := start;
    w := 0;
    NothingDone(s);
    while i < end
      invariant start <= i <= end && w <= i - start && w <= room && |done| == w
      invariant Unescaped(s) == After(done, Unescaped(json[i..end]))
      invariant out[..w] == done
      invariant forall k :: w <= k < out.Length ==> out[k] == old(out[k])
      decreases end - i
    {
      ghost var rest := json[i..end];
      UnescapedStep(s, done, rest);
      var p := ReadPiece(json, i, end);
      if p.None? { return false, w; }
      var piece := p.value;
      if w + |piece.out| > room {
        TooLong(done + piece.out, Unescaped(rest[piece.len..]));
        return false, w;
      }
      assert json[i + piece.len..end] == rest[piece.len..];
      PutPiece(json, out, w, piece.out, i + piece.len, end);
      i, w, done := i + piece.len, w + |piece.out|, done + piece.out;
    }
    NothingLeft(done, json[i..end]);
    return true, w;
  }

  lemma UnescapedStep(s: bytes, done: bytes, rest: bytes)
    requires rest != [] && Unescaped(s) == After(done, Unescaped(rest))
    ensures FirstPiece(rest).None? ==> Unescaped(s) == None
    ensures FirstPiece(rest).Some? ==>
      var p := FirstPiece(rest).value; Unescaped(s) == After(done + p.out, Unescaped(rest[p.len..]))
  {
    hide FirstPiece;
    var p := FirstPiece(rest);
    if p.Some? {
      var u := Unescaped(rest[p.value.len..]);
      assert u.Some? ==> done + (p.value.out + u.value) == done + p.value.out + u.value;
    }
  }

  lemma NothingDone(s: bytes)
    ensures Unescaped(s) == After([], Unescaped(s))
  {
    assert Unescaped(s).Some? ==> [] + Unescaped(s).value == Unescaped(s).value;
  }

  lemma NothingLeft(done: bytes, s: bytes)
    requires s == []
    ensures After(done, Unescaped(s)) == Some(done)
  {
    assert done + [] == done;
  }

  lemma TooLong(done: bytes, rest: Option<bytes>)
    ensures After(done, rest).Some? ==> |After(done, rest).value| >= |done|
  {
  }

  /** Writes a piece; the text not yet read stays as it was even if it is in the same buffer. */
  method PutPiece(json: array<byte>, out: array<byte>, w: nat, s: bytes, i: nat, end: nat)
    requires w + |s| <= out.Length && w + |s| <= i <= end <= json.Length
    modifies out
    ensures out[..w + |s|] == old(out[..w]) + s
    ensures forall k :: w + |s| <= k < out.Length ==> out[k] == old(out[k])
    ensures json[i..end] == old(json[i..end])
  {
    forall k | 0 <= k < |s| {
      out[w + k] := s[k];
    }
  }

  // --- escaping -------------------------------------------------------------------------------------------

  function HexDigit(n: nat): byte
    requires n < 16
    ensures IsHex(HexDigit(n)) && HexVal(HexDigit(n)) == n
  {
    if n < 10 then 48 + n else 87 + n
  }

  /** How the JSON writers write one byte of a string. */
  function EscapeByte(b: byte): bytes {
    if b == QUOTE || b == BACKSLASH then [BACKSLASH, b]
    else if b == 8 then [BACKSLASH, 98]
    else if b == 12 then [BACKSLASH, 102]
    else if b == 10 then [BACKSLASH, 110]
    else if b == 13 then [BACKSLASH, 114]
    else if b == 9 then [BACKSLASH, 116]
    else if b < 0x20 then [BACKSLASH, LETTER_U, 48, 48, HexDigit(b / 16), HexDigit(b % 16)]
    else [b]
  }

  function Escaped(s: bytes): bytes {
    if s == [] then [] else Escaped(s[..|s| - 1]) + EscapeByte(s[|s| - 1])
  }

  // --- what the escapes stand for -------------------------------------------------------------------------

  const LOWER: string := "0123456789abcdef"
  const UPPER: string := "0123456789ABCDEF"

  /** The hex digit for `v`, in either case. */
  predicate Spells(b: byte, v: nat) {
    v < 16 && (b == LOWER[v] as int || b == UPPER[v] as int)
  }

  lemma DigitTable(v: nat)
    requires v < 16
    ensures LOWER[v] as int == if v < 10 then 48 + v else 87 + v
    ensures UPPER[v] as int == if v < 10 then 48 + v else 55 + v
  {
    assert v == 0 || v == 1 || v == 2 || v == 3 || v == 4 || v == 5 || v == 6 || v == 7
        || v == 8 || v == 9 || v == 10 || v == 11 || v == 12 || v == 13 || v == 14 || v == 15;
  }

  /** The hex digits are the ones in the table, with these values; the writer uses lower case. */
  lemma HexExactly(b: byte)
    ensures IsHex(b) <==> exists v :: Spells(b, v)
    ensures IsHex(b) ==> Spells(b, HexVal(b))
    ensures forall v: nat :: Spells(b, v) ==> IsHex(b) && HexVal(b) == v && HexDigit(v) == LOWER[v] as int
  {
    if IsHex(b) { DigitTable(HexVal(b)); }
    forall v: nat | Spells(b, v)
      ensures IsHex(b) && HexVal(b) == v && HexDigit(v) == LOWER[v] as int
    {
      DigitTable(v);
    }
  }

  /** A `\u` escape of four hex digits, in any case, stands for the code unit they spell. */
  lemma UnitUnescapes(u: bytes, a: nat, b: nat, c: nat, d: nat)
    requires |u| == 4 && Spells(u[0], a) && Spells(u[1], b) && Spells(u[2], c) && Spells(u[3], d)
    ensures a < 16 && b < 16 && c < 16 && d < 16
    ensures var s := [BACKSLASH, LETTER_U] + u;
      StringBody(s) && Unescaped(s) == Some(EncodeUnit(a * 4096 + b * 256 + c * 16 + d))
  {
    hide EncodeUnit, Spells, HexVal;
    HexExactly(u[0]);
    HexExactly(u[1]);
    HexExactly(u[2]);
    HexExactly(u[3]);
    Below16(u[0], a);
    Below16(u[1], b);
    Below16(u[2], c);
    Below16(u[3], d);
    var s := [BACKSLASH, LETTER_U] + u;
    var unit := EncodeUnit(a * 4096 + b * 256 + c * 16 + d);
    assert s[2..6] == u && s[6..] == [];
    assert FirstPiece(s) == Some(Piece(unit, 6));
    assert unit + [] == unit;
  }

  lemma Below16(b: byte, v: nat)
    requires Spells(b, v)
    ensures v < 16
  {
  }

  /** The escapes of one letter, and what they stand for: quote, backslash, slash, BS, FF, LF, CR and TAB. */
  const LETTERS: string := "\"\\/bfnrt"
  const MEANT: bytes := [34, 92, 47, 8, 12, 10, 13, 9]

  lemma LetterTable(i: nat)
    requires i < 8
    ensures |LETTERS| == 8 && |MEANT| == 8 && (LETTERS[i] as int) < 128
    ensures IsShortEscape(LETTERS[i] as int) && ShortEscape(LETTERS[i] as int) == MEANT[i]
  {
    assert i == 0 || i == 1 || i == 2 || i == 3 || i == 4 || i == 5 || i == 6 || i == 7;
  }

  lemma LettersUnescape(i: nat)
    requires i < 8
    ensures |LETTERS| == 8 && |MEANT| == 8 && (LETTERS[i] as int) < 128
    ensures var s: bytes := [92, LETTERS[i] as int]; StringBody(s) && Unescaped(s) == Some([MEANT[i]])
  {
    LetterTable(i);
    ShortUnescapes(LETTERS[i] as int);
  }

  lemma ShortUnescapes(b: byte)
    requires IsShortEscape(b)
    ensures var s: bytes := [92, b]; StringBody(s) && Unescaped(s) == Some([ShortEscape(b)])
  {
    hide ShortEscape;
    var s: bytes := [92, b];
    assert s[2..] == [] && StringBody(s[2..]);
    assert FirstPiece(s) == Some(Piece([ShortEscape(b)], 2));
    assert [ShortEscape(b)] + [] == [ShortEscape(b)];
  }

  predicate IsListed(b: byte) {
    exists i :: 0 <= i < |LETTERS| && b == LETTERS[i] as int
  }

  lemma ShortIsListed(b: byte)
    requires IsShortEscape(b)
    ensures IsListed(b)
  {
    var i := if b == 34 then 0 else if b == 92 then 1 else if b == 47 then 2 else if b == 98 then 3
             else if b == 102 then 4 else if b == 110 then 5 else if b == 114 then 6 else 7;
    assert b == LETTERS[i] as int;
  }

  /** There are no other escapes: after a backslash only these letters, or `u` and four hex digits. */
  lemma OtherEscapesFail(s: bytes)
    requires s != [] && s[0] == 92 && Unescaped(s).Some?
    ensures |s| >= 2 && (IsListed(s[1]) || (|s| >= 6 && s[1] == 117 && forall k :: 2 <= k < 6 ==> IsHexDigit(s[k])))
  {
    hide IsListed, IsHexDigit, EncodeUnit, IsShortEscape, IsHex;
    EscapeStarts(s);
    if IsShortEscape(s[1]) {
      ShortIsListed(s[1]);
    } else {
      forall k | 2 <= k < 6
        ensures IsHexDigit(s[k])
      {
        HexIsDigit(s[k]);
      }
    }
  }

  /** Some value is spelled by the byte. */
  ghost predicate IsHexDigit(b: byte) {
    exists v: nat :: Spells(b, v)
  }

  lemma HexIsDigit(b: byte)
    requires IsHex(b)
    ensures IsHexDigit(b)
  {
    HexExactly(b);
  }

  lemma EscapeStarts(s: bytes)
    requires s != [] && s[0] == 92 && Unescaped(s).Some?
    ensures |s| >= 2
    ensures IsShortEscape(s[1])
         || (|s| >= 6 && s[1] == 117 && IsHex(s[2]) && IsHex(s[3]) && IsHex(s[4]) && IsHex(s[5]))
  {
    hide IsShortEscape, IsHex, EncodeUnit;
  }

  /** Every other byte stands for itself. */
  lemma PlainUnescapes(b: byte)
    requires b != 92
    ensures Unescaped([b]) == Some([b])
  {
    assert [b][1..] == [] && [b] + [] == [b];
  }

  /** A code unit becomes the UTF-8 of its code point, exactly unless it is a surrogate. */
  lemma UnitIsUtf8(code: nat)
    requires code < 0x10000
    ensures Utf8.IsUtf8Char(EncodeUnit(code)) <==> !(0xD800 <= code <= 0xDFFF)
    ensures if code < 0x80 then EncodeUnit(code) == [code] else Utf8.CodePoint(EncodeUnit(code)) == code
    ensures 0xD800 <= code <= 0xDFFF ==>
      var s := EncodeUnit(code); |s| == 3 && s[0] == 0xED && Utf8.IsTail(s[1]) && Utf8.IsTail(s[2])
  {
    hide Utf8.CodePoint, Utf8.IsUtf8Char;
    if code > 0x7FF {
      SixBits(code);
      LongUnit(code / 4096, code / 64 % 64, code % 64);
    } else if code > 0x7F {
      ShortUnit(code / 64, code % 64);
    } else {
      AsciiUnit(code);
    }
  }

  lemma SixBits(code: nat)
    requires code < 0x10000
    ensures code == code / 4096 * 4096 + code / 64 % 64 * 64 + code % 64 && code / 4096 < 16
  {
    assert code == code / 64 * 64 + code % 64;
    assert code / 64 == code / 64 / 64 * 64 + code / 64 % 64 && code / 64 / 64 == code / 4096;
  }

  lemma AsciiUnit(code: nat)
    requires code < 0x80
    ensures Utf8.IsUtf8Char([code])
  {
  }

  lemma ShortUnit(hi: nat, lo: nat)
    requires hi < 32 && lo < 64 && hi * 64 + lo >= 0x80
    ensures var s := [0xC0 + hi, 0x80 + lo]; Utf8.IsUtf8Char(s) && Utf8.CodePoint(s) == hi * 64 + lo
  {
  }

  lemma LongUnit(hi: nat, mid: nat, lo: nat)
    requires hi < 16 && mid < 64 && lo < 64 && hi * 4096 + mid * 64 + lo >= 0x800
    ensures var s := [0xE0 + hi, 0x80 + mid, 0x80 + lo]; var code := hi * 4096 + mid * 64 + lo;
      && (Utf8.IsUtf8Char(s) <==> !(0xD800 <= code <= 0xDFFF)) && Utf8.CodePoint(s) == code
      && (0xD800 <= code <= 0xDFFF ==> s[0] == 0xED && Utf8.IsTail(s[1]) && Utf8.IsTail(s[2]))
  {
  }

  // --- strings that unescape to text ----------------------------------------------------------------------

  /** Some `\u` escape of the text spells one half of a surrogate pair. */
  predicate SpellsSurrogate(s: bytes)
    decreases |s|
  {
    && s != [] && FirstPiece(s).Some?
    && (|| (s[0] == BACKSLASH && s[1] == LETTER_U && 0xD800 <= HexCode(s[2..6]) <= 0xDFFF)
        || SpellsSurrogate(s[FirstPiece(s).value.len..]))
  }

  lemma ValidFront(c: bytes, rest: bytes)
    requires Utf8.IsUtf8Char(c)
    ensures Utf8.ValidUtf8(c + rest) <==> Utf8.ValidUtf8(rest)
  {
    hide Utf8.IsUtf8Char, Utf8.LeadLength;
    Utf8.CharShape(c);
    LongEnough(c);
    var s := c + rest;
    assert s[0] == c[0] && s[..|c|] == c && s[|c|..] == rest;
  }

  lemma LongEnough(c: bytes)
    requires Utf8.IsUtf8Char(c)
    ensures 1 <= |c| <= 4
  {
  }

  lemma BadFront(c: bytes, rest: bytes)
    requires |c| == 3 && Utf8.LeadLength(c[0]) == 3 && !Utf8.IsUtf8Char(c)
    ensures !Utf8.ValidUtf8(c + rest)
  {
    hide Utf8.IsUtf8Char;
    assert (c + rest)[0] == c[0] && (c + rest)[..3] == c;
  }

  lemma {:induction false} AsciiFront(s: bytes, n: nat)
    requires n <= |s| && Utf8.ValidUtf8(s) && forall i :: 0 <= i < n ==> s[i] < 0x80
    ensures Utf8.ValidUtf8(s[n..])
    decreases n
  {
    if n == 0 {
      assert s[0..] == s;
    } else {
      assert Utf8.LeadLength(s[0]) == 1;
      AsciiFront(s[1..], n - 1);
      assert s[1..][n - 1..] == s[n..];
    }
  }

  lemma PlainFront(s: bytes)
    requires s != [] && StringBody(s) && s[0] != BACKSLASH
    ensures StringBody(s[1..]) && Unescaped(s) == After([s[0]], Unescaped(s[1..]))
    ensures SpellsSurrogate(s) == SpellsSurrogate(s[1..])
  {
    hide HexCode, EncodeUnit;
    assert FirstPiece(s) == Some(Piece([s[0]], 1));
  }

  lemma AfterTwice(a: bytes, b: bytes, rest: Option<bytes>)
    ensures After(a, After(b, rest)) == After(a + b, rest)
  {
    assert rest.Some? ==> a + (b + rest.value) == a + b + rest.value;
  }

  /** Bytes that begin no escape pass unchanged. */
  lemma {:induction false} PlainRun(s: bytes, n: nat)
    requires n <= |s| && StringBody(s) && forall i :: 0 <= i < n ==> s[i] != BACKSLASH
    ensures StringBody(s[n..]) && Unescaped(s) == After(s[..n], Unescaped(s[n..]))
    ensures SpellsSurrogate(s) == SpellsSurrogate(s[n..])
    decreases n
  {
    hide StringBody, Unescaped, SpellsSurrogate, After;
    if n == 0 {
      assert s[0..] == s && s[..0] == [];
      NothingDone(s);
    } else {
      var rest := s[1..];
      PlainFront(s);
      PlainRun(rest, n - 1);
      assert rest[n - 1..] == s[n..] && [s[0]] + rest[..n - 1] == s[..n];
      AfterTwice([s[0]], rest[..n - 1], Unescaped(s[n..]));
    }
  }

  /** What an escape at the front contributes. */
  lemma EscapeFront(s: bytes)
    requires s != [] && StringBody(s) && s[0] == BACKSLASH && Utf8.ValidUtf8(s)
    ensures FirstPiece(s).Some? && |s| >= 2
    ensures var p := FirstPiece(s).value;
      && StringBody(s[p.len..]) && Utf8.ValidUtf8(s[p.len..])
      && if s[1] == LETTER_U then
           |s| >= 6 && IsHex(s[2]) && IsHex(s[3]) && IsHex(s[4]) && IsHex(s[5]) && p.out == EncodeUnit(HexCode(s[2..6]))
         else |p.out| == 1 && p.out[0] < 0x80
  {
    hide Utf8.ValidUtf8, EncodeUnit, HexCode;
    var p := FirstPiece(s).value;
    AsciiFront(s, p.len);
  }

  /** A unit that is no surrogate is a character, a surrogate spoils the text. */
  lemma UnitFront(code: nat, rest: bytes)
    requires code < 0x10000
    ensures Utf8.ValidUtf8(EncodeUnit(code) + rest) <==> !(0xD800 <= code <= 0xDFFF) && Utf8.ValidUtf8(rest)
  {
    hide Utf8.ValidUtf8, Utf8.IsUtf8Char, EncodeUnit;
    UnitIsUtf8(code);
    if 0xD800 <= code <= 0xDFFF {
      SurrogateShape(code);
      BadFront(EncodeUnit(code), rest);
    } else {
      ValidFront(EncodeUnit(code), rest);
    }
  }

  lemma SurrogateShape(code: nat)
    requires 0xD800 <= code <= 0xDFFF
    ensures |EncodeUnit(code)| == 3 && Utf8.LeadLength(EncodeUnit(code)[0]) == 3
  {
  }

  /**
   Main result for whole strings: what a string of valid UTF-8 unescapes to is valid UTF-8 exactly when none of its
   `\u` escapes spells a surrogate; pairs are no exception.
   */
  lemma {:induction false} UnescapedIsUtf8(s: bytes)
    requires StringBody(s) && Utf8.ValidUtf8(s)
    ensures Unescaped(s).Some? && (Utf8.ValidUtf8(Unescaped(s).value) <==> !SpellsSurrogate(s))
    decreases |s|
  {
    hide FirstPiece, EncodeUnit, HexCode, StringBody, Utf8.IsUtf8Char, Utf8.LeadLength;
    BodyUnescapes(s);
    if s == [] {
    } else if s[0] == BACKSLASH {
      EscapeFront(s);
      var p := FirstPiece(s).value;
      var rest := s[p.len..];
      UnescapedIsUtf8(rest);
      if s[1] == LETTER_U {
        UnitFront(HexCode(s[2..6]), Unescaped(rest).value);
      } else {
        AsciiUnit(p.out[0]);
        assert p.out == [p.out[0]];
        ValidFront(p.out, Unescaped(rest).value);
      }
    } else {
      var n := Utf8.LeadLength(s[0]);
      PlainChar(s);
      PlainRun(s, n);
      UnescapedIsUtf8(s[n..]);
      ValidFront(s[..n], Unescaped(s[n..]).value);
    }
  }

  /** The first character of a text that begins with no escape contains none. */
  lemma PlainChar(s: bytes)
    requires s != [] && s[0] != BACKSLASH && Utf8.ValidUtf8(s)
    ensures var n := Utf8.LeadLength(s[0]);
      && 0 < n <= |s| && Utf8.IsUtf8Char(s[..n]) && Utf8.ValidUtf8(s[n..])
      && forall i :: 0 <= i < n ==> s[i] != BACKSLASH
  {
    hide Utf8.LeadLength, Utf8.IsUtf8Char;
    var n := Utf8.LeadLength(s[0]);
    var c := s[..n];
    Utf8.CharShape(c);
    forall i | 0 <= i < n
      ensures s[i] != BACKSLASH
    {
      if i > 0 {
        assert Utf8.IsTail(c[1..][i - 1]);
      }
    }
  }

  lemma ByteRoundTrip(b: byte)
    ensures Unescaped(EscapeByte(b)) == Some([b]) && StringBody(EscapeByte(b))
  {
    var e := EscapeByte(b);
    var p := FirstPiece(e);
    if |e| == 6 {
      assert e[2..6] == [48, 48, HexDigit(b / 16), HexDigit(b % 16)];
      assert HexCode(e[2..6]) == b;
      assert e[6..] == [];
    } else if |e| == 2 {
      assert e[2..] == [];
    } else {
      assert e[1..] == [];
    }
    assert p == Some(Piece([b], |e|));
    assert [b] + [] == [b];
  }

  lemma {:induction false} BodyConcat(a: bytes, b: bytes)
    requires StringBody(a) && StringBody(b)
    ensures StringBody(a + b)
    decreases |a|
  {
    if a == [] {
      assert a + b == b;
    } else {
      var n := if IsPlain(a[0]) then 1 else if IsShortEscape(a[1]) then 2 else 6;
      assert (a + b)[n..] == a[n..] + b;
      BodyConcat(a[n..], b);
    }
  }

  /** Escaping yields the inside of a string token, and unescaping gives back the bytes. */
  lemma {:induction false} EscapeRoundTrip(s: bytes)
    ensures StringBody(Escaped(s)) && Unescaped(Escaped(s)) == Some(s)
    decreases |s|
  {
    hide FirstPiece, EscapeByte;
    if s != [] {
      var n := |s| - 1;
      EscapeRoundTrip(s[..n]);
      ByteRoundTrip(s[n]);
      BodyConcat(Escaped(s[..n]), EscapeByte(s[n]));
      UnescapedConcat(Escaped(s[..n]), EscapeByte(s[n]));
      assert s[..n] + [s[n]] == s;
    }
  }
}
