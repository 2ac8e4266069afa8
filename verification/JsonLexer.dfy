/**
 The scalars of JSON: the grammar of strings, numbers and literals (sections 3, 6 and 7 of RFC 8259, on
 bytes), and the scanners of include/jstok.h that recognise them in a buffer that may still grow.
 */
module JsonLexer {
  import opened Bytes

  const QUOTE: byte := 34
  const BACKSLASH: byte := 92
  const LETTER_U: byte := 117
  const MINUS: byte := 45
  const PLUS: byte := 43
  const DOT: byte := 46
  const ZERO: byte := 48
  const COMMA: byte := 44

  const TRUE: bytes := [116, 114, 117, 101]        // true
  const FALSE: bytes := [102, 97, 108, 115, 101]   // false
  const NULL: bytes := [110, 117, 108, 108]        // null

  predicate IsSpace(b: byte) {
    b == 32 || b == 9 || b == 10 || b == 13
  }

  predicate AllSpace(s: bytes) {
    forall i :: 0 <= i < |s| ==> IsSpace(s[i])
  }

  predicate IsHex(b: byte) {
    IsDigit(b) || 97 <= b <= 102 || 65 <= b <= 70
  }

  /** What may follow a literal or a number: `,`, `]`, `}` or white space. */
  predicate IsDelim(b: byte) {
    b == COMMA || b == 93 || b == 125 || IsSpace(b)
  }

  /** The escapes of one letter: `" \ / b f n r t`. */
  predicate IsShortEscape(b: byte) {
    b == QUOTE || b == BACKSLASH || b == 47 || b == 98 || b == 102 || b == 110 || b == 114 || b == 116
  }

  // --- grammar --------------------------------------------------------------------------------------------

  predicate IsPlain(b: byte) {
    b >= 0x20 && b != QUOTE && b != BACKSLASH
  }

  /** What may stand between the quotes of a string: plain bytes and complete escapes. */
  predicate StringBody(s: bytes) {
    || s == []
    || (IsPlain(s[0]) && StringBody(s[1..]))
    || (|s| >= 2 && s[0] == BACKSLASH && IsShortEscape(s[1]) && StringBody(s[2..]))
    || (|s| >= 6 && s[0] == BACKSLASH && s[1] == LETTER_U
        && IsHex(s[2]) && IsHex(s[3]) && IsHex(s[4]) && IsHex(s[5]) && StringBody(s[6..]))
  }

  predicate Digits(s: bytes) {
    s != [] && forall i :: 0 <= i < |s| ==> IsDigit(s[i])
  }

  /** `[ minus ] int` without a leading zero. */
  predicate IntPart(s: bytes) {
    var u := if s != [] && s[0] == MINUS then s[1..] else s;
    Digits(u) && (u[0] == ZERO ==> |u| == 1)
  }

  /** `[ frac ]` */
  predicate Fraction(s: bytes) {
    s == [] || (s[0] == DOT && Digits(s[1..]))
  }

  predicate IsExponentMark(b: byte) {
    b == 101 || b == 69
  }

  predicate IsSign(b: byte) {
    b == PLUS || b == MINUS
  }

  /** `[ exp ]` */
  predicate Exponent(s: bytes) {
    s == [] || (IsExponentMark(s[0]) && |s| >= 2 && Digits(if IsSign(s[1]) then s[2..] else s[1..]))
  }

  /** `[ minus ] int [ frac ] [ exp ]`, cut at `a` and `b`. */
  predicate NumberCut(s: bytes, a: nat, b: nat) {
    a <= b <= |s| && IntPart(s[..a]) && Fraction(s[a..b]) && Exponent(s[b..])
  }

  ghost predicate Number(s: bytes) {
    exists a: nat, b: nat :: NumberCut(s, a, b)
  }

  predicate Literal(s: bytes) {
    s == TRUE || s == FALSE || s == NULL
  }

  ghost predicate Primitive(s: bytes) {
    Literal(s) || Number(s)
  }

  // --- scanners -------------------------------------------------------------------------------------------

  /** Where the scan ended, where it ran out of input, or where it found an error. */
  datatype Scan = Done(end: nat) | Partial(at: nat) | Bad(at: nat)

  /** How many hex digits, at most `n`, stand at `i`. */
  function HexRun(json: bytes, i: nat, n: nat): (h: nat)
    requires i <= |json|
    ensures h <= n && i + h <= |json|
    ensures forall k :: i <= k < i + h ==> IsHex(json[k])
    ensures h < n && i + h < |json| ==> !IsHex(json[i + h])
    decreases n
  {
    if n == 0 || i == |json| || !IsHex(json[i]) then 0 else 1 + HexRun(json, i + 1, n - 1)
  }

  /** `jstok_parse_string_token` from just behind the opening quote. */
  function ScanString(json: bytes, i: nat): (r: Scan)
    requires i <= |json|
    ensures r.Done? ==> i <= r.end < |json| && json[r.end] == QUOTE
    ensures r.Partial? ==> r.at == |json|
    ensures r.Bad? ==> i <= r.at < |json|
    decreases |json| - i
  {
    if i == |json| then Partial(i)
    else if json[i] < 0x20 then Bad(i)
    else if json[i] == QUOTE then Done(i)
    else if json[i] != BACKSLASH then ScanString(json, i + 1)
    else if i + 1 == |json| then Partial(i + 1)
    else if IsShortEscape(json[i + 1]) then ScanString(json, i + 2)
    else if json[i + 1] != LETTER_U then Bad(i + 1)
    else
      var h := HexRun(json, i + 2, 4);
      if h == 4 then ScanString(json, i + 6)
      else if i + 2 + h == |json| then Partial(|json|)
      else Bad(i + 2 + h)
  }

  /** How far the literal agrees with the buffer at `i`. */
  function Agreement(json: bytes, i: nat, lit: bytes): (k: nat)
    requires i <= |json|
    ensures k <= |lit| && i + k <= |json| && json[i..i + k] == lit[..k]
    ensures k < |lit| && i + k < |json| ==> json[i + k] != lit[k]
    decreases |lit|
  {
    if lit == [] || i == |json| || json[i] != lit[0] then 0
    else
      var k := Agreement(json, i + 1, lit[1..]);
      assert json[i..i + 1 + k] == [json[i]] + json[i + 1..i + 1 + k];
      assert lit[..1 + k] == [lit[0]] + lit[1..][..k];
      1 + k
  }

  /** `jstok_parse_literal`; a literal may end the buffer. */
  function ScanLiteral(json: bytes, i: nat, lit: bytes): (r: Scan)
    requires i <= |json|
    ensures r.Done? ==> r.end == i + |lit| <= |json| && json[i..r.end] == lit
    ensures r.Partial? ==> r.at == |json|
    ensures r.Bad? ==> i <= r.at < |json|
  {
    var k := Agreement(json, i, lit);
    if k < |lit| then (if i + k == |json| then Partial(i + k) else Bad(i + k))
    else if i + k < |json| && !IsDelim(json[i + k]) then Bad(i + k)
    else Done(i + k)
  }

  function DigitsEnd(json: bytes, i: nat): (e: nat)
    requires i <= |json|
    ensures i <= e <= |json|
    ensures forall k :: i <= k < e ==> IsDigit(json[k])
    ensures e < |json| ==> !IsDigit(json[e])
    decreases |json| - i
  {
    if i < |json| && IsDigit(json[i]) then DigitsEnd(json, i + 1) else i
  }

  function ScanInt(json: bytes, i: nat): (r: Scan)
    requires i <= |json|
    ensures r.Done? ==> i < r.end <= |json|
    ensures r.Partial? ==> r.at == |json|
    ensures r.Bad? ==> i <= r.at < |json|
  {
    if i == |json| then Partial(i)
    else
      var j := if json[i] == MINUS then i + 1 else i;
      if j == |json| then Partial(j)
      else if json[j] == ZERO then Done(j + 1)
      else if IsDigit(json[j]) then Done(DigitsEnd(json, j))
      else Bad(j)
  }

  /** At least one digit at `i`, then all there are. */
  function ScanDigits(json: bytes, i: nat): (r: Scan)
    requires i <= |json|
    ensures r.Done? ==> i < r.end <= |json|
    ensures r.Partial? ==> r.at == |json|
    ensures r.Bad? ==> i <= r.at < |json|
  {
    if i == |json| then Partial(i) else if !IsDigit(json[i]) then Bad(i) else Done(DigitsEnd(json, i))
  }

  function ScanFraction(json: bytes, i: nat): (r: Scan)
    requires i <= |json|
    ensures r.Done? ==> i <= r.end <= |json|
    ensures r.Partial? ==> r.at == |json|
    ensures r.Bad? ==> i <= r.at < |json|
  {
    if i < |json| && json[i] == DOT then ScanDigits(json, i + 1) else Done(i)
  }

  function ScanExponent(json: bytes, i: nat): (r: Scan)
    requires i <= |json|
    ensures r.Done? ==> i <= r.end <= |json|
    ensures r.Partial? ==> r.at == |json|
    ensures r.Bad? ==> i <= r.at < |json|
  {
    if i < |json| && IsExponentMark(json[i]) then
      if i + 1 == |json| then Partial(i + 1)
      else ScanDigits(json, if IsSign(json[i + 1]) then i + 2 else i + 1)
    else Done(i)
  }

  /** `jstok_parse_number_span`; a number that runs to the end of the buffer may still grow. */
  function ScanNumber(json: bytes, i: nat): (r: Scan)
    requires i <= |json|
    ensures r.Done? ==> i < r.end < |json|
    ensures r.Partial? ==> r.at == |json|
    ensures r.Bad? ==> i <= r.at < |json|
  {
    var a := ScanInt(json, i);
    if !a.Done? then a
    else
      var b := ScanFraction(json, a.end);
      if !b.Done? then b
      else
        var c := ScanExponent(json, b.end);
        if !c.Done? then c
        else if c.end == |json| then Partial(c.end)
        else if !IsDelim(json[c.end]) then Bad(c.end)
        else c
  }

  /** `jstok_parse_primitive_token`: the first byte decides. */
  function ScanPrimitive(json: bytes, i: nat): (r: Scan)
    requires i < |json|
    ensures r.Done? ==> i < r.end <= |json|
    ensures r.Partial? ==> r.at == |json|
    ensures r.Bad? ==> i <= r.at < |json|
  {
    if json[i] == TRUE[0] then ScanLiteral(json, i, TRUE)
    else if json[i] == FALSE[0] then ScanLiteral(json, i, FALSE)
    else if json[i] == NULL[0] then ScanLiteral(json, i, NULL)
    else ScanNumber(json, i)
  }

  // --- scanners accept exactly the grammar ----------------------------------------------------------------

  lemma {:induction false} ScanStringSound(json: bytes, i: nat)
    requires i <= |json| && ScanString(json, i).Done?
    ensures StringBody(json[i..ScanString(json, i).end])
    decreases |json| - i
  {
    var e := ScanString(json, i).end;
    var s := json[i..e];
    if json[i] == QUOTE {
      assert s == [];
    } else if json[i] != BACKSLASH {
      ScanStringSound(json, i + 1);
      assert s[1..] == json[i + 1..e];
    } else if IsShortEscape(json[i + 1]) {
      ScanStringSound(json, i + 2);
      assert s[2..] == json[i + 2..e];
    } else {
      ScanStringSound(json, i + 6);
      assert s[6..] == json[i + 6..e];
    }
  }

  lemma HexRunFull(json: bytes, i: nat)
    requires i + 4 <= |json| && IsHex(json[i]) && IsHex(json[i + 1]) && IsHex(json[i + 2]) && IsHex(json[i + 3])
    ensures HexRun(json, i, 4) == 4
  {
    var h := HexRun(json, i, 4);
    assert h == 0 || h == 1 || h == 2 || h == 3 || h == 4;
  }

  lemma {:induction false} ScanStringComplete(json: bytes, i: nat, e: nat)
    requires i <= e < |json| && json[e] == QUOTE && StringBody(json[i..e])
    ensures ScanString(json, i) == Done(e)
    decreases e - i
  {
    var s := json[i..e];
    if i < e {
      if IsPlain(s[0]) {
        assert s[1..] == json[i + 1..e];
        ScanStringComplete(json, i + 1, e);
      } else if IsShortEscape(s[1]) {
        assert s[2..] == json[i + 2..e];
        ScanStringComplete(json, i + 2, e);
      } else {
        assert s[6..] == json[i + 6..e];
        assert s[2] == json[i + 2] && s[3] == json[i + 3] && s[4] == json[i + 4] && s[5] == json[i + 5];
        HexRunFull(json, i + 2);
        ScanStringComplete(json, i + 6, e);
      }
    }
  }

  lemma {:induction false} DigitsEndIs(json: bytes, i: nat, e: nat)
    requires i <= e <= |json| && (forall k :: i <= k < e ==> IsDigit(json[k])) && (e < |json| ==> !IsDigit(json[e]))
    ensures DigitsEnd(json, i) == e
    decreases e - i
  {
    if i < e {
      DigitsEndIs(json, i + 1, e);
    }
  }

  lemma ScanIntSound(json: bytes, i: nat, a: nat)
    requires i <= a <= |json| && ScanInt(json, i) == Done(a)
    ensures IntPart(json[i..a])
  {
    var s := json[i..a];
    var j := if json[i] == MINUS then i + 1 else i;
    assert s[0] == json[i];
    var u := if s[0] == MINUS then s[1..] else s;
    assert u == json[j..a] && u[0] == json[j];
    assert json[j] == ZERO ==> |u| == 1;
    forall k | 0 <= k < |u|
      ensures IsDigit(u[k])
    {
      assert u[k] == json[j + k];
    }
  }

  lemma ScanFractionSound(json: bytes, a: nat, b: nat)
    requires a <= b <= |json| && ScanFraction(json, a) == Done(b)
    ensures Fraction(json[a..b])
  {
    if a < b {
      assert json[a..b][1..] == json[a + 1..b];
    }
  }

  lemma ScanExponentSound(json: bytes, b: nat, e: nat)
    requires b <= e <= |json| && ScanExponent(json, b) == Done(e)
    ensures Exponent(json[b..e])
  {
    if b < e {
      var s := json[b..e];
      assert s[0] == json[b] && s[1] == json[b + 1];
      assert s[1..] == json[b + 1..e];
      assert |s| >= 2 ==> s[2..] == json[b + 2..e];
    }
  }

  lemma Cuts(json: bytes, i: nat, a: nat, b: nat, e: nat)
    requires i <= a <= b <= e <= |json|
    ensures var s := json[i..e];
      s[..a - i] == json[i..a] && s[a - i..b - i] == json[a..b] && s[b - i..] == json[b..e]
  {
    SubSlice(json, i, e, 0, a - i);
    SubSlice(json, i, e, a - i, b - i);
    SubSlice(json, i, e, b - i, e - i);
    assert json[i..e][0..a - i] == json[i..e][..a - i];
    assert json[i..e][b - i..e - i] == json[i..e][b - i..];
  }

  lemma ScanNumberSound(json: bytes, i: nat)
    requires i <= |json| && ScanNumber(json, i).Done?
    ensures var e := ScanNumber(json, i).end; Number(json[i..e]) && IsDelim(json[e])
  {
    hide ScanInt, ScanFraction, ScanExponent, IntPart, Fraction, Exponent;
    var a := ScanInt(json, i).end;
    var b := ScanFraction(json, a).end;
    var e := ScanExponent(json, b).end;
    ScanIntSound(json, i, a);
    ScanFractionSound(json, a, b);
    ScanExponentSound(json, b, e);
    var s := json[i..e];
    Cuts(json, i, a, b, e);
    assert NumberCut(s, a - i, b - i);
  }

  lemma ScanIntComplete(json: bytes, i: nat, a: nat)
    requires i <= a <= |json| && IntPart(json[i..a]) && (a < |json| ==> !IsDigit(json[a]))
    ensures ScanInt(json, i) == Done(a)
  {
    var s := json[i..a];
    var j := if json[i] == MINUS then i + 1 else i;
    assert s[0] == json[i];
    var u := if s[0] == MINUS then s[1..] else s;
    assert u == json[j..a];
    assert forall k :: j <= k < a ==> json[k] == u[k - j];
    if json[j] != ZERO {
      DigitsEndIs(json, j, a);
    }
  }

  lemma ScanDigitsComplete(json: bytes, i: nat, e: nat)
    requires i <= e <= |json| && Digits(json[i..e]) && (e < |json| ==> !IsDigit(json[e]))
    ensures ScanDigits(json, i) == Done(e)
  {
    assert forall k :: i <= k < e ==> json[k] == json[i..e][k - i];
    DigitsEndIs(json, i, e);
  }

  lemma ScanFractionComplete(json: bytes, a: nat, b: nat)
    requires a <= b < |json| && Fraction(json[a..b]) && !IsDigit(json[b]) && json[b] != DOT
    ensures ScanFraction(json, a) == Done(b)
  {
    if a < b {
      assert json[a..b][1..] == json[a + 1..b] && json[a..b][0] == json[a];
      ScanDigitsComplete(json, a + 1, b);
    }
  }

  lemma ScanExponentComplete(json: bytes, b: nat, e: nat)
    requires b <= e < |json| && Exponent(json[b..e]) && IsDelim(json[e])
    ensures ScanExponent(json, b) == Done(e)
  {
    if b < e {
      var s := json[b..e];
      assert s[0] == json[b] && s[1] == json[b + 1];
      var k := if IsSign(json[b + 1]) then b + 2 else b + 1;
      assert json[k..e] == if IsSign(s[1]) then s[2..] else s[1..];
      ScanDigitsComplete(json, k, e);
    }
  }

  /** Neither a fraction nor an exponent starts with a digit, and only a fraction starts with a dot. */
  lemma PartStarts(s: bytes)
    requires s != []
    ensures Fraction(s) ==> s[0] == DOT
    ensures Exponent(s) ==> !IsDigit(s[0]) && s[0] != DOT
  {
  }

  lemma ScanCutComplete(json: bytes, i: nat, a: nat, b: nat, e: nat)
    requires i <= a <= b <= e < |json| && IsDelim(json[e])
    requires IntPart(json[i..a]) && Fraction(json[a..b]) && Exponent(json[b..e])
    ensures ScanNumber(json, i) == Done(e)
  {
    hide IntPart, Fraction, Exponent, ScanInt, ScanFraction, ScanExponent;
    if a < b { PartStarts(json[a..b]); }
    if b < e { PartStarts(json[b..e]); }
    ScanIntComplete(json, i, a);
    ScanFractionComplete(json, a, b);
    ScanExponentComplete(json, b, e);
  }

  lemma ScanNumberComplete(json: bytes, i: nat, e: nat)
    requires i <= e < |json| && Number(json[i..e]) && IsDelim(json[e])
    ensures ScanNumber(json, i) == Done(e)
  {
    hide IntPart, Fraction, Exponent, ScanNumber;
    var s := json[i..e];
    var x: nat, y: nat :| NumberCut(s, x, y);
    Cuts(json, i, i + x, i + y, e);
    ScanCutComplete(json, i, i + x, i + y, e);
  }

  /** A primitive starts with a byte of its own: no structural character, quote or white space. */
  predicate StartsPrimitive(b: byte) {
    b == TRUE[0] || b == FALSE[0] || b == NULL[0] || b == MINUS || IsDigit(b)
  }

  lemma NumberStarts(s: bytes)
    requires Number(s)
    ensures s != [] && (s[0] == MINUS || IsDigit(s[0]))
  {
    var a: nat, b: nat :| NumberCut(s, a, b);
    assert s[..a] != [];
    assert s[..a][0] == s[0];
  }

  lemma {:induction false} AgreementFull(json: bytes, i: nat, lit: bytes)
    requires i + |lit| <= |json| && json[i..i + |lit|] == lit
    ensures Agreement(json, i, lit) == |lit|
    decreases |lit|
  {
    if lit != [] {
      assert json[i + 1..i + |lit|] == json[i..i + |lit|][1..];
      AgreementFull(json, i + 1, lit[1..]);
    }
  }

  /** What follows a primitive: a delimiter, or for a literal also the end of the buffer. */
  predicate Settled(json: bytes, e: nat, literal: bool)
    requires e <= |json|
  {
    if e < |json| then IsDelim(json[e]) else literal
  }

  lemma ScanPrimitiveComplete(json: bytes, i: nat, e: nat)
    requires i < e <= |json| && Primitive(json[i..e]) && Settled(json, e, Literal(json[i..e]))
    ensures ScanPrimitive(json, i) == Done(e) && StartsPrimitive(json[i])
  {
    hide ScanNumber, Number;
    var s := json[i..e];
    assert s[0] == json[i];
    if Literal(s) {
      AgreementFull(json, i, s);
    } else {
      NumberStarts(s);
      ScanNumberComplete(json, i, e);
    }
  }

  lemma ScanPrimitiveSound(json: bytes, i: nat)
    requires i < |json| && ScanPrimitive(json, i).Done?
    ensures var e := ScanPrimitive(json, i).end; Primitive(json[i..e]) && Settled(json, e, Literal(json[i..e]))
  {
    if json[i] != TRUE[0] && json[i] != FALSE[0] && json[i] != NULL[0] {
      ScanNumberSound(json, i);
    }
  }

  // --- a buffer that grows --------------------------------------------------------------------------------

  lemma {:induction false} HexRunStable(json: bytes, more: bytes, i: nat, n: nat)
    requires i <= |json| && (HexRun(json, i, n) == n || i + HexRun(json, i, n) < |json|)
    ensures HexRun(json + more, i, n) == HexRun(json, i, n)
    decreases n
  {
    if n > 0 && i < |json| && IsHex(json[i]) {
      HexRunStable(json, more, i + 1, n - 1);
    }
  }

  /** A verdict reached inside the buffer does not change when the buffer grows. */
  lemma {:induction false} ScanStringStable(json: bytes, more: bytes, i: nat)
    requires i <= |json| && !ScanString(json, i).Partial?
    ensures ScanString(json + more, i) == ScanString(json, i)
    decreases |json| - i
  {
    if json[i] >= 0x20 && json[i] != QUOTE {
      if json[i] != BACKSLASH {
        ScanStringStable(json, more, i + 1);
      } else if IsShortEscape(json[i + 1]) {
        ScanStringStable(json, more, i + 2);
      } else if json[i + 1] == LETTER_U {
        HexRunStable(json, more, i + 2, 4);
        if HexRun(json, i + 2, 4) == 4 {
          ScanStringStable(json, more, i + 6);
        }
      }
    }
  }

  lemma {:induction false} DigitsEndStable(json: bytes, more: bytes, i: nat)
    requires i <= |json| && DigitsEnd(json, i) < |json|
    ensures DigitsEnd(json + more, i) == DigitsEnd(json, i)
  {
    DigitsEndIs(json + more, i, DigitsEnd(json, i));
  }

  /** A part of a number that ends inside the buffer. */
  predicate Inside(json: bytes, r: Scan) {
    r.Bad? || (r.Done? && r.end < |json|)
  }

  lemma ScanDigitsStable(json: bytes, more: bytes, i: nat)
    requires i <= |json| && Inside(json, ScanDigits(json, i))
    ensures ScanDigits(json + more, i) == ScanDigits(json, i)
  {
    if IsDigit(json[i]) {
      DigitsEndStable(json, more, i);
    }
  }

  lemma ScanPartsStable(json: bytes, more: bytes, i: nat)
    requires i <= |json|
    ensures Inside(json, ScanInt(json, i)) ==> ScanInt(json + more, i) == ScanInt(json, i)
    ensures Inside(json, ScanFraction(json, i)) ==> ScanFraction(json + more, i) == ScanFraction(json, i)
    ensures Inside(json, ScanExponent(json, i)) ==> ScanExponent(json + more, i) == ScanExponent(json, i)
  {
    if Inside(json, ScanInt(json, i)) {
      var j := if json[i] == MINUS then i + 1 else i;
      if json[j] != ZERO && IsDigit(json[j]) {
        DigitsEndStable(json, more, j);
      }
    }
    if Inside(json, ScanFraction(json, i)) && json[i] == DOT {
      ScanDigitsStable(json, more, i + 1);
    }
    if Inside(json, ScanExponent(json, i)) && IsExponentMark(json[i]) {
      ScanDigitsStable(json, more, if IsSign(json[i + 1]) then i + 2 else i + 1);
    }
  }

  lemma ScanNumberStable(json: bytes, more: bytes, i: nat)
    requires i <= |json| && !ScanNumber(json, i).Partial?
    ensures ScanNumber(json + more, i) == ScanNumber(json, i)
  {
    hide ScanInt, ScanFraction, ScanExponent;
    var a := ScanInt(json, i);
    ScanPartsStable(json, more, i);
    if a.Done? {
      ScanPartsStable(json, more, a.end);
      var b := ScanFraction(json, a.end);
      if b.Done? {
        ScanPartsStable(json, more, b.end);
      }
    }
  }

  lemma {:induction false} AgreementStable(json: bytes, more: bytes, i: nat, lit: bytes)
    requires i <= |json| && (Agreement(json, i, lit) == |lit| || i + Agreement(json, i, lit) < |json|)
    ensures Agreement(json + more, i, lit) == Agreement(json, i, lit)
    decreases |lit|
  {
    if lit != [] && i < |json| && json[i] == lit[0] {
      AgreementStable(json, more, i + 1, lit[1..]);
    }
  }

  predicate Revised(json: bytes, more: bytes, r: Scan, q: Scan) {
    if r == Done(|json|) && more != [] && !IsDelim(more[0]) then q == Bad(|json|) else q == r
  }

  lemma ScanLiteralStable(json: bytes, more: bytes, i: nat, lit: bytes)
    requires i < |json| && !ScanLiteral(json, i, lit).Partial?
    ensures Revised(json, more, ScanLiteral(json, i, lit), ScanLiteral(json + more, i, lit))
  {
    AgreementStable(json, more, i, lit);
  }

  lemma NumberNotRevised(json: bytes, more: bytes, i: nat)
    requires i < |json| && !ScanNumber(json, i).Partial?
    ensures Revised(json, more, ScanNumber(json, i), ScanNumber(json + more, i))
  {
    ScanNumberStable(json, more, i);
  }

  /** Only a literal that exactly ends the buffer can be revised: by a byte that is no delimiter. */
  lemma ScanPrimitiveStable(json: bytes, more: bytes, i: nat)
    requires i < |json| && !ScanPrimitive(json, i).Partial?
    ensures Revised(json, more, ScanPrimitive(json, i), ScanPrimitive(json + more, i))
  {
    hide ScanLiteral, ScanNumber, Revised;
    if json[i] == TRUE[0] {
      ScanLiteralStable(json, more, i, TRUE);
    } else if json[i] == FALSE[0] {
      ScanLiteralStable(json, more, i, FALSE);
    } else if json[i] == NULL[0] {
      ScanLiteralStable(json, more, i, NULL);
    } else {
      NumberNotRevised(json, more, i);
    }
  }
}
