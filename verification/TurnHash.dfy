/**
 The hash by which the tool loop recognises a repeated turn (src/llm.c): FNV-1a over an encoding that is
 injective in what the model said and asked for, call ids aside.
 */
module TurnHash {
  import opened Bytes
  import opened JsonWriter
  import opened ChatChunk

  /** What one request to the model returned. */
  datatype Reply = Reply(finish: Finish, calls: seq<Call>, callsJson: Span, content: Span, reasoning: Span)

  const BASIS: nat := 1469598103934665603
  const PRIME: nat := 1099511628211

  /** Exclusive or of the lowest `n` bits. */
  function Xor(a: nat, b: nat, n: nat): nat {
    if n == 0 then 0 else (if a % 2 == b % 2 then 0 else 1) + 2 * Xor(a / 2, b / 2, n - 1)
  }

  /** Exclusive or of the lowest byte; the other bits stay. */
  function XorByte(h: nat, b: byte): nat {
    h / 256 * 256 + Xor(h % 256, b, 8)
  }

  function FnvByte(h: nat, b: byte): nat {
    XorByte(h, b) * PRIME % TWO64
  }

  function Fnv(h: nat, s: bytes): nat {
    if s == [] then h else FnvByte(Fnv(h, s[..|s| - 1]), s[|s| - 1])
  }

  lemma {:induction false} FnvAppend(h: nat, a: bytes, b: bytes)
    ensures Fnv(h, a + b) == Fnv(Fnv(h, a), b)
    decreases |b|
  {
    hide FnvByte;
    if b == [] {
      assert a + b == a;
    } else {
      var n := |b| - 1;
      assert (a + b)[..|a + b| - 1] == a + b[..n];
      FnvAppend(h, a, b[..n]);
    }
  }

  // --- the encoding ---------------------------------------------------------------------------------------

  /** The lowest `n` bytes of a number, least significant first. */
  function LittleEndian(v: nat, n: nat): (r: bytes)
    ensures |r| == n
    decreases n
  {
    if n == 0 then [] else [v % 256] + LittleEndian(v / 256, n - 1)
  }

  function Width(v: nat): bytes {
    LittleEndian(v, 8)
  }

  /** A byte string behind its length. */
  function Counted(s: bytes): bytes {
    Width(|s|) + s
  }

  function EncodeCalls(calls: seq<Call>): bytes {
    if calls == [] then []
    else Counted(TextOf(calls[0].name)) + Counted(TextOf(calls[0].args)) + EncodeCalls(calls[1..])
  }

  function Encode(r: Reply): bytes {
    Width(|r.calls|) + EncodeCalls(r.calls) + Counted(TextOf(r.content)) + Counted(TextOf(r.reasoning))
  }

  predicate Hashable(r: Reply) {
    && (forall i :: 0 <= i < |r.calls| ==> Usable(r.calls[i].name) && Usable(r.calls[i].args))
    && Usable(r.content) && Usable(r.reasoning)
  }

  function Hash(r: Reply): nat {
    Fnv(BASIS, Encode(r))
  }

  // --- injectivity ----------------------------------------------------------------------------------------

  /** 256 to the power `n`. */
  function Range(n: nat): nat {
    if n == 0 then 1 else 256 * Range(n - 1)
  }

  lemma {:induction false} LittleEndianInjective(v: nat, w: nat, n: nat)
    requires v < Range(n) && w < Range(n) && LittleEndian(v, n) == LittleEndian(w, n)
    ensures v == w
  {
    if n > 0 {
      var a, b := LittleEndian(v / 256, n - 1), LittleEndian(w / 256, n - 1);
      assert LittleEndian(v, n)[1..] == a && LittleEndian(w, n)[1..] == b;
      assert LittleEndian(v, n)[0] == v % 256 && LittleEndian(w, n)[0] == w % 256;
      LittleEndianInjective(v / 256, w / 256, n - 1);
    }
  }

  lemma WidthInjective(v: nat, w: nat)
    requires v < TWO64 && w < TWO64 && Width(v) == Width(w)
    ensures v == w
  {
    assert Range(2) == 0x1_0000;
    assert Range(4) == 0x1_0000_0000;
    assert Range(6) == 0x1_0000_0000_0000;
    assert Range(8) == TWO64;
    LittleEndianInjective(v, w, 8);
  }

  /** A length and as many bytes can be read off the front. */
  lemma CountedInjective(a: bytes, x: bytes, b: bytes, y: bytes)
    requires |a| < TWO64 && |b| < TWO64 && Counted(a) + x == Counted(b) + y
    ensures a == b && x == y
  {
    hide LittleEndian;
    var s, t := Counted(a) + x, Counted(b) + y;
    assert s[..8] == Width(|a|) && t[..8] == Width(|b|);
    WidthInjective(|a|, |b|);
    assert s[8..8 + |a|] == a && t[8..8 + |b|] == b;
    assert s[8 + |a|..] == x && t[8 + |b|..] == y;
  }

  /** No string is longer than a size_t can say. */
  predicate CallsFit(calls: seq<Call>) {
    |calls| < TWO64
    && forall i :: 0 <= i < |calls| ==> |TextOf(calls[i].name)| < TWO64 && |TextOf(calls[i].args)| < TWO64
  }

  predicate Fits(r: Reply) {
    CallsFit(r.calls) && |TextOf(r.content)| < TWO64 && |TextOf(r.reasoning)| < TWO64
  }

  /** The same names and arguments in the same order; ids may differ. */
  ghost predicate SameCalls(a: seq<Call>, b: seq<Call>) {
    |a| == |b| && forall i :: 0 <= i < |a| ==> TextOf(a[i].name) == TextOf(b[i].name) && TextOf(a[i].args) == TextOf(b[i].args)
  }

  ghost predicate SameTurn(a: Reply, b: Reply) {
    SameCalls(a.calls, b.calls) && TextOf(a.content) == TextOf(b.content) && TextOf(a.reasoning) == TextOf(b.reasoning)
  }

  lemma {:induction false} CallsInjective(a: seq<Call>, x: bytes, b: seq<Call>, y: bytes)
    requires |a| == |b| && CallsFit(a) && CallsFit(b) && EncodeCalls(a) + x == EncodeCalls(b) + y
    ensures SameCalls(a, b) && x == y
    decreases |a|
  {
    hide Counted, TextOf;
    if a == [] {
      assert [] + x == x && [] + y == y;
    } else {
      var n, m := Counted(TextOf(a[0].name)), Counted(TextOf(b[0].name));
      var p, q := Counted(TextOf(a[0].args)), Counted(TextOf(b[0].args));
      var u, v := EncodeCalls(a[1..]), EncodeCalls(b[1..]);
      assert n + p + u + x == n + (p + (u + x));
      assert m + q + v + y == m + (q + (v + y));
      CountedInjective(TextOf(a[0].name), p + (u + x), TextOf(b[0].name), q + (v + y));
      CountedInjective(TextOf(a[0].args), u + x, TextOf(b[0].args), v + y);
      CallsInjective(a[1..], x, b[1..], y);
      forall i | 0 <= i < |a|
        ensures TextOf(a[i].name) == TextOf(b[i].name) && TextOf(a[i].args) == TextOf(b[i].args)
      {
        if i > 0 {
          assert a[1..][i - 1] == a[i] && b[1..][i - 1] == b[i];
        }
      }
    }
  }

  lemma {:induction false} SameCallsEncode(a: seq<Call>, b: seq<Call>)
    requires SameCalls(a, b)
    ensures EncodeCalls(a) == EncodeCalls(b)
    decreases |a|
  {
    hide Counted;
    if a != [] {
      SameCallsEncode(a[1..], b[1..]);
    }
  }

  /**
   Main result: two turns feed the same bytes to the hash exactly when they agree on the ordered list of names
   and arguments, on the content and on the reasoning; ids play no part.
   */
  lemma EncodingIsInjective(a: Reply, b: Reply)
    requires Fits(a) && Fits(b)
    ensures Encode(a) == Encode(b) <==> SameTurn(a, b)
  {
    hide Counted, EncodeCalls, Width, SameCalls, CallsFit;
    if SameTurn(a, b) {
      SameCallsEncode(a.calls, b.calls);
      SameCount(a.calls, b.calls);
    }
    if Encode(a) == Encode(b) {
      var w, z := Width(|a.calls|), Width(|b.calls|);
      var c, d := Counted(TextOf(a.content)), Counted(TextOf(b.content));
      var e, f := Counted(TextOf(a.reasoning)), Counted(TextOf(b.reasoning));
      var m, n := EncodeCalls(a.calls), EncodeCalls(b.calls);
      assert w + m + c + e == w + (m + (c + e));
      assert z + n + d + f == z + (n + (d + f));
      WidthFirst(a.calls, m + (c + e), b.calls, n + (d + f));
      CallsInjective(a.calls, c + e, b.calls, d + f);
      CountedInjective(TextOf(a.content), e, TextOf(b.content), f);
      assert e + [] == e && f + [] == f;
      CountedInjective(TextOf(a.reasoning), [], TextOf(b.reasoning), []);
    }
  }

  lemma SameCount(a: seq<Call>, b: seq<Call>)
    requires SameCalls(a, b)
    ensures |a| == |b|
  {
  }

  lemma WidthFirst(a: seq<Call>, x: bytes, b: seq<Call>, y: bytes)
    requires CallsFit(a) && CallsFit(b) && Width(|a|) + x == Width(|b|) + y
    ensures |a| == |b| && x == y
  {
    hide LittleEndian;
    var s, t := Width(|a|) + x, Width(|b|) + y;
    assert s[..8] == Width(|a|) && t[..8] == Width(|b|) && s[8..] == x && t[8..] == y;
    WidthInjective(|a|, |b|);
  }

  /** A repeated turn always has the hash of the turn it repeats. */
  lemma RepeatHasSameHash(a: Reply, b: Reply)
    requires SameTurn(a, b)
    ensures Hash(a) == Hash(b)
  {
    hide Counted, EncodeCalls, Fnv;
    SameCallsEncode(a.calls, b.calls);
  }

  // --- the loops ------------------------------------------------------------------------------------------

  /** `tool_loop_hash_bytes` */
  method HashBytes(h0: nat, data: bytes) returns (h: nat)
    ensures h == Fnv(h0, data)
  {
    hide FnvByte;
    h := h0;
    var i := 0;
    while i < |data|
      invariant i <= |data| && h == Fnv(h0, data[..i])
    {
      h := FnvByte(h, data[i]);
      assert data[..i + 1][..i] == data[..i];
      i := i + 1;
    }
    assert data[..i] == data;
  }

  lemma FnvOneMore(h: nat, s: bytes, b: byte)
    ensures Fnv(h, s + [b]) == FnvByte(Fnv(h, s), b)
  {
    hide FnvByte;
    assert (s + [b])[..|s + [b]| - 1] == s;
  }

  lemma WidthStep(done: bytes, v: nat, n: nat)
    requires n > 0
    ensures done + LittleEndian(v, n) == done + [v % 256] + LittleEndian(v / 256, n - 1)
  {
  }

  lemma WidthDone(done: bytes, v: nat)
    ensures done + LittleEndian(v, 0) == done
  {
  }

  /** `tool_loop_hash_u64` */
  method HashWidth(h0: nat, value: nat) returns (h: nat)
    ensures h == Fnv(h0, Width(value))
  {
    hide FnvByte, Fnv, LittleEndian;
    h := h0;
    var v, i := value, 0;
    ghost var done: bytes := [];
    assert [] + Width(value) == Width(value);
    NothingHashed(h0);
    while i < 8
      invariant i <= 8 && Width(value) == done + LittleEndian(v, 8 - i)
      invariant h == Fnv(h0, done)
    {
      WidthStep(done, v, 8 - i);
      FnvOneMore(h0, done, v % 256);
      h := FnvByte(h, v % 256);
      done := done + [v % 256];
      v, i := v / 256, i + 1;
    }
    WidthDone(done, v);
  }

  lemma NothingHashed(h: nat)
    ensures Fnv(h, []) == h
  {
  }

  method HashCounted(h0: nat, s: Span) returns (h: nat)
    requires Usable(s)
    ensures h == Fnv(h0, Counted(TextOf(s)))
  {
    hide Fnv, Width;
    h := HashWidth(h0, |TextOf(s)|);
    FnvAppend(h0, Width(|TextOf(s)|), TextOf(s));
    h := HashBytes(h, TextOf(s));
  }

  lemma {:induction false} EncodeCallsAppend(a: seq<Call>, c: Call)
    ensures EncodeCalls(a + [c]) == EncodeCalls(a) + (Counted(TextOf(c.name)) + Counted(TextOf(c.args)))
    decreases |a|
  {
    hide Counted;
    if a == [] {
      assert a + [c] == [c] && [c][1..] == [];
    } else {
      assert (a + [c])[1..] == a[1..] + [c];
      EncodeCallsAppend(a[1..], c);
    }
  }

  /** One more call behind the text hashed so far. */
  lemma OneMoreCall(h0: nat, w: bytes, calls: seq<Call>, i: nat)
    requires i < |calls|
    ensures var n, a := Counted(TextOf(calls[i].name)), Counted(TextOf(calls[i].args));
      var text := w + EncodeCalls(calls[..i]);
      Fnv(Fnv(Fnv(h0, text), n), a) == Fnv(h0, w + EncodeCalls(calls[..i + 1]))
  {
    hide Fnv, Counted, EncodeCalls;
    var n, a := Counted(TextOf(calls[i].name)), Counted(TextOf(calls[i].args));
    var front := EncodeCalls(calls[..i]);
    FnvAppend(h0, w + front, n);
    FnvAppend(h0, w + front + n, a);
    EncodeCallsAppend(calls[..i], calls[i]);
    assert calls[..i + 1] == calls[..i] + [calls[i]];
    assert w + front + n + a == w + (front + (n + a));
  }

  lemma TwoMore(h0: nat, text: bytes, n: bytes, a: bytes)
    ensures Fnv(Fnv(Fnv(h0, text), n), a) == Fnv(h0, text + n + a)
  {
    FnvAppend(h0, text, n);
    FnvAppend(h0, text + n, a);
  }

  lemma NothingEncoded(w: bytes, calls: seq<Call>)
    ensures w + EncodeCalls(calls[..0]) == w
  {
  }

  /** `tool_loop_hash_turn`: the hash of a reply whose strings are all there. */
  method HashTurn(r: Reply) returns (hash: Option<nat>)
    ensures hash == if Hashable(r) then Some(Hash(r)) else None
  {
    hide Fnv, Counted, Width, EncodeCalls;
    var h := HashWidth(BASIS, |r.calls|);
    ghost var w := Width(|r.calls|);
    NothingEncoded(w, r.calls);
    var i := 0;
    while i < |r.calls|
      invariant i <= |r.calls| && h == Fnv(BASIS, w + EncodeCalls(r.calls[..i]))
      invariant forall k :: 0 <= k < i ==> Usable(r.calls[k].name) && Usable(r.calls[k].args)
    {
      var c := r.calls[i];
      if c.name.Null? && c.name.len != 0 { return None; }
      if c.args.Null? && c.args.len != 0 { return None; }
      h := HashCounted(h, c.name);
      h := HashCounted(h, c.args);
      OneMoreCall(BASIS, w, r.calls, i);
      i := i + 1;
    }
    assert r.calls[..i] == r.calls;
    if r.content.Null? && r.content.len != 0 { return None; }
    if r.reasoning.Null? && r.reasoning.len != 0 { return None; }
    TwoMore(BASIS, w + EncodeCalls(r.calls), Counted(TextOf(r.content)), Counted(TextOf(r.reasoning)));
    h := HashCounted(h, r.content);
    h := HashCounted(h, r.reasoning);
    return Some(h);
  }
}
