/**
 FNV-1a over 64 bits depends on every byte: a byte that changes, with all others the same, always changes the hash. So
 turns that differ in one byte are never taken for a repetition.
 */
module HashSpread {
  import opened Bytes
  import opened JsonWriter
  import opened ChatChunk
  import opened TurnHash

  // --- one byte -------------------------------------------------------------------------------------------

  /** Two to the power `n`. */
  function Power(n: nat): nat {
    if n == 0 then 1 else 2 * Power(n - 1)
  }

  /** Mixing the same bits in again gives the others back. */
  lemma {:induction false} XorAgain(a: nat, b: nat, n: nat)
    requires b < Power(n)
    ensures Xor(a, b, n) == Xor(b, a, n) && Xor(a, b, n) < Power(n) && Xor(a, Xor(a, b, n), n) == b
    decreases n
  {
    if n > 0 {
      XorAgain(a / 2, b / 2, n - 1);
      var x := Xor(a / 2, b / 2, n - 1);
      var d := if a % 2 == b % 2 then 0 else 1;
      assert (d + 2 * x) / 2 == x && (d + 2 * x) % 2 == d;
    }
  }

  lemma EightBits()
    ensures Power(8) == 256
  {
    assert Power(4) == 16;
  }

  /** The exclusive or keeps the upper bits and is one-to-one in both arguments. */
  lemma XorIsOneToOne(h: nat, g: nat, x: byte, y: byte)
    ensures XorByte(h, x) == XorByte(h, y) <==> x == y
    ensures XorByte(h, x) == XorByte(g, x) <==> h == g
  {
    hide Xor;
    EightBits();
    var a, b := h % 256, g % 256;
    XorAgain(a, x, 8);
    XorAgain(a, y, 8);
    XorAgain(b, x, 8);
    XorAgain(x, a, 8);
    XorAgain(x, b, 8);
    SameParts(h / 256, Xor(a, x, 8), h / 256, Xor(a, y, 8));
    SameParts(h / 256, Xor(a, x, 8), g / 256, Xor(b, x, 8));
    SameParts(h / 256, a, g / 256, b);
  }

  lemma SameParts(a: nat, x: nat, b: nat, y: nat)
    requires x < 256 && y < 256
    ensures a * 256 + x == b * 256 + y <==> a == b && x == y
  {
  }

  lemma XorSmall(h: nat, b: byte)
    requires h < TWO64
    ensures XorByte(h, b) < TWO64
  {
    hide Xor;
    EightBits();
    XorAgain(h % 256, b, 8);
  }

  const INVERSE: nat := 14886173955864302971
  const CARRY: nat := 887285111055

  /** The prime is odd, so it has an inverse modulo 2 to the 64th. */
  lemma PrimeHasInverse()
    ensures PRIME * INVERSE == 1 + CARRY * TWO64
  {
  }

  lemma TimesIsOneToOne(a: nat, b: nat)
    requires a < TWO64 && b < TWO64 && a * PRIME % TWO64 == b * PRIME % TWO64
    ensures a == b
  {
    var q, r := a * PRIME / TWO64, b * PRIME / TWO64;
    assert (a - b) * PRIME == (q - r) * TWO64;
    PrimeHasInverse();
    var d := a - b;
    var t := (q - r) * INVERSE - CARRY * d;
    assert d * PRIME * INVERSE == (q - r) * TWO64 * INVERSE;
    assert d == TWO64 * t;
  }

  /** One step of the hash is one-to-one in the byte, and in the hash so far. */
  lemma StepIsOneToOne(h: nat, g: nat, x: byte, y: byte)
    requires h < TWO64 && g < TWO64
    ensures FnvByte(h, x) == FnvByte(h, y) <==> x == y
    ensures FnvByte(h, x) == FnvByte(g, x) <==> h == g
    ensures FnvByte(h, x) < TWO64
  {
    hide XorByte;
    XorIsOneToOne(h, g, x, y);
    XorSmall(h, x);
    XorSmall(h, y);
    XorSmall(g, x);
    if FnvByte(h, x) == FnvByte(h, y) { TimesIsOneToOne(XorByte(h, x), XorByte(h, y)); }
    if FnvByte(h, x) == FnvByte(g, x) { TimesIsOneToOne(XorByte(h, x), XorByte(g, x)); }
  }

  // --- a text ---------------------------------------------------------------------------------------------

  lemma {:induction false} FnvIsOneToOne(h: nat, g: nat, s: bytes)
    requires h < TWO64 && g < TWO64
    ensures Fnv(h, s) == Fnv(g, s) <==> h == g
    ensures Fnv(h, s) < TWO64 && Fnv(g, s) < TWO64
    decreases |s|
  {
    hide FnvByte;
    if s != [] {
      var n := |s| - 1;
      FnvIsOneToOne(h, g, s[..n]);
      StepIsOneToOne(Fnv(h, s[..n]), Fnv(g, s[..n]), s[n], s[n]);
      StepIsOneToOne(Fnv(g, s[..n]), Fnv(g, s[..n]), s[n], s[n]);
    }
  }

  /** Main result. Whatever stands before and behind it, a byte changes the hash exactly if it changes. */
  lemma EveryByteMatters(h: nat, p: bytes, x: byte, y: byte, s: bytes)
    requires h < TWO64
    ensures Fnv(h, p + [x] + s) == Fnv(h, p + [y] + s) <==> x == y
  {
    hide Fnv, FnvByte;
    FnvAppend(h, p + [x], s);
    FnvAppend(h, p + [y], s);
    FnvOneMore(h, p, x);
    FnvOneMore(h, p, y);
    FnvIsOneToOne(h, h, p);
    var k := Fnv(h, p);
    StepIsOneToOne(k, k, x, y);
    StepIsOneToOne(k, k, y, x);
    FnvIsOneToOne(FnvByte(k, x), FnvByte(k, y), s);
  }

  /** The constants: the hash of the letter a. */
  lemma KnownHash()
    ensures Fnv(1469598103934665603, [97]) == 4953267810257967366 && BASIS == 1469598103934665603
  {
    hide Xor;
    assert [97][..0] == [];
    assert Fnv(1469598103934665603, []) == 1469598103934665603;
    LowByte();
  }

  lemma LowByte()
    ensures Xor(131, 97, 8) == 226
  {
    assert Xor(8, 6, 4) == 14;
    assert Xor(32, 24, 6) == 56;
  }

  // --- turns ----------------------------------------------------------------------------------------------

  /** The texts are equal but for one byte. */
  predicate OneByteApart(a: bytes, b: bytes) {
    |a| == |b| && exists k :: 0 <= k < |a| && a[k] != b[k] && a[..k] == b[..k] && a[k + 1..] == b[k + 1..]
  }

  /** Turns whose encodings are one byte apart have different hashes. */
  lemma OneByteSuffices(a: Reply, b: Reply)
    requires OneByteApart(Encode(a), Encode(b))
    ensures Hash(a) != Hash(b)
  {
    hide Encode, Fnv;
    var u, v := Encode(a), Encode(b);
    var k :| 0 <= k < |u| && u[k] != v[k] && u[..k] == v[..k] && u[k + 1..] == v[k + 1..];
    assert u == u[..k] + [u[k]] + u[k + 1..] && v == u[..k] + [v[k]] + u[k + 1..];
    EveryByteMatters(BASIS, u[..k], u[k], v[k], u[k + 1..]);
  }

  lemma {:induction false} EncodeCallsConcat(a: seq<Call>, b: seq<Call>)
    ensures EncodeCalls(a + b) == EncodeCalls(a) + EncodeCalls(b)
    decreases |a|
  {
    hide Counted;
    if a == [] {
      assert a + b == b;
    } else {
      assert (a + b)[1..] == a[1..] + b;
      EncodeCallsConcat(a[1..], b);
      var c := Counted(TextOf(a[0].name)) + Counted(TextOf(a[0].args));
      assert c + (EncodeCalls(a[1..]) + EncodeCalls(b)) == (c + EncodeCalls(a[1..])) + EncodeCalls(b);
    }
  }

  lemma OneCall(c: Call)
    ensures EncodeCalls([c]) == Counted(TextOf(c.name)) + Counted(TextOf(c.args))
  {
    hide Counted;
    assert [c][1..] == [];
  }

  /** The reply with other arguments in one call. */
  function WithArgs(r: Reply, i: nat, args: bytes): Reply
    requires i < |r.calls|
  {
    r.(calls := r.calls[i := r.calls[i].(args := Of(args))])
  }

  /** Where the arguments of a call stand in the encoding. */
  lemma ArgsStand(r: Reply, i: nat) returns (p: bytes, s: bytes)
    requires i < |r.calls|
    ensures forall args: bytes :: |args| == |TextOf(r.calls[i].args)| ==> Encode(WithArgs(r, i, args)) == p + args + s
  {
    hide Width, Counted, EncodeCalls;
    var c, n := r.calls[i], |TextOf(r.calls[i].args)|;
    var front, rest := r.calls[..i], r.calls[i + 1..];
    var w, name := Width(|r.calls|), Counted(TextOf(c.name));
    var tail := EncodeCalls(rest) + Counted(TextOf(r.content)) + Counted(TextOf(r.reasoning));
    p, s := w + EncodeCalls(front) + name + Width(n), tail;
    forall args: bytes | |args| == n
      ensures Encode(WithArgs(r, i, args)) == p + args + s
    {
      var d := c.(args := Of(args));
      assert r.calls[i := d] == front + ([d] + rest);
      EncodeCallsConcat(front, [d] + rest);
      EncodeCallsConcat([d], rest);
      OneCall(d);
      assert Counted(args) == Width(n) + args by { CountedIs(args); }
      Regrouped(w, EncodeCalls(front), name, Width(n), args, EncodeCalls(rest), Counted(TextOf(r.content)),
                Counted(TextOf(r.reasoning)));
    }
  }

  lemma CountedIs(s: bytes)
    ensures Counted(s) == Width(|s|) + s
  {
  }

  lemma Regrouped(w: bytes, f: bytes, n: bytes, l: bytes, a: bytes, r: bytes, c: bytes, t: bytes)
    ensures w + (f + ((n + (l + a)) + r)) + c + t == (w + f + n + l) + a + (r + c + t)
  {
  }

  /** A turn with one byte of the arguments of one call changed is another turn, also to the hash. */
  lemma ArgumentBytesMatter(r: Reply, i: nat, k: nat, x: byte)
    requires i < |r.calls| && r.calls[i].args.Of? && k < |r.calls[i].args.text|
    ensures var args := r.calls[i].args.text;
      Hash(WithArgs(r, i, args[k := x])) == Hash(r) <==> x == args[k]
  {
    hide Encode, Fnv;
    var args := r.calls[i].args.text;
    var p, s := ArgsStand(r, i);
    assert WithArgs(r, i, args) == r by { assert r.calls[i := r.calls[i].(args := Of(args))] == r.calls; }
    var u, v := args[..k], args[k + 1..];
    assert args == u + [args[k]] + v && args[k := x] == u + [x] + v;
    assert p + (u + [args[k]] + v) + s == (p + u) + [args[k]] + (v + s);
    assert p + (u + [x] + v) + s == (p + u) + [x] + (v + s);
    EveryByteMatters(BASIS, p + u, args[k], x, v + s);
  }
}
