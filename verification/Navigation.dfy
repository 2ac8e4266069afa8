/**
 Navigation on the flat token array (`jstok_skip`, `jstok_array_at`, `jstok_object_get` of include/jstok.h) is
 navigation on the tree it flattens.
 */
module Navigation {
  import opened Bytes
  import opened JsonLexer
  import opened Jstok
  import opened JsonTree
  import opened JstokComplete
  import opened JstokSound

  predicate IsLeaf(t: Tok) {
    t.kind == String || t.kind == Kind.Primitive
  }

  /** How many token groups follow a container's own token, judging by its size field. */
  function Children(t: Tok): int {
    if t.kind == Array then t.size else 2 * t.size
  }

  // --- skip -----------------------------------------------------------------------------------------------

  /** The loop of `jstok_skip`: `rem` are the counts of children still to come, innermost last. */
  function Walk(toks: seq<Tok>, idx: nat, rem: seq<int>): (r: nat)
    requires idx <= |toks|
    ensures idx <= r <= |toks|
    decreases 2 * (|toks| - idx) + |rem|
  {
    if rem == [] then idx
    else
      var n := |rem| - 1;
      if rem[n] == 0 then Walk(toks, idx, rem[..n])
      else if idx == |toks| then |toks|
      else
        var left := rem[n := rem[n] - 1];
        if IsLeaf(toks[idx]) then Walk(toks, idx + 1, left)
        else if |rem| >= MAX_DEPTH then |toks|
        else if toks[idx].kind == Array || toks[idx].kind == Object then
          Walk(toks, idx + 1, left + [Children(toks[idx])])
        else Walk(toks, idx + 1, left)
  }

  /** The walk never takes the exit of `jstok_skip` for a full stack. */
  predicate NeverFull(toks: seq<Tok>, idx: nat, rem: seq<int>)
    requires idx <= |toks|
    decreases 2 * (|toks| - idx) + |rem|
  {
    if rem == [] then true
    else
      var n := |rem| - 1;
      if rem[n] == 0 then NeverFull(toks, idx, rem[..n])
      else if idx == |toks| then true
      else
        var left := rem[n := rem[n] - 1];
        if IsLeaf(toks[idx]) then NeverFull(toks, idx + 1, left)
        else if |rem| >= MAX_DEPTH then false
        else if toks[idx].kind == Array || toks[idx].kind == Object then
          NeverFull(toks, idx + 1, left + [Children(toks[idx])])
        else NeverFull(toks, idx + 1, left)
  }

  /** The same of the walk that `jstok_skip` starts at a token. */
  predicate SkipFits(toks: seq<Tok>, i: nat) {
    i < |toks| && (toks[i].kind == Array || toks[i].kind == Object) ==> NeverFull(toks, i + 1, [Children(toks[i])])
  }

  function SkipFrom(toks: seq<Tok>, i: int): (r: nat)
    ensures r <= |toks| && (0 <= i < |toks| ==> i < r)
  {
    if i < 0 || i >= |toks| then |toks|
    else if toks[i].kind == Array || toks[i].kind == Object then Walk(toks, i + 1, [Children(toks[i])])
    else i + 1
  }

  /** One round of the loop of `jstok_skip`. */
  lemma WalkRound(toks: seq<Tok>, idx: nat, rem: seq<int>)
    requires idx <= |toks|
    ensures rem == [] ==> Walk(toks, idx, rem) == idx
    ensures rem != [] ==>
      var n := |rem| - 1;
      var left := rem[n := rem[n] - 1];
      Walk(toks, idx, rem) ==
        if rem[n] == 0 then Walk(toks, idx, rem[..n])
        else if idx == |toks| then |toks|
        else if IsLeaf(toks[idx]) then Walk(toks, idx + 1, left)
        else if |rem| >= MAX_DEPTH then |toks|
        else if toks[idx].kind == Array || toks[idx].kind == Object then
          Walk(toks, idx + 1, left + [Children(toks[idx])])
        else Walk(toks, idx + 1, left)
  {
  }

  /** `jstok_skip`, on any token array whatever: it terminates and stays in range. */
  method Skip(toks: seq<Tok>, i: int) returns (r: nat)
    ensures r == SkipFrom(toks, i)
  {
    hide Walk;
    if i < 0 || i >= |toks| { return |toks|; }
    if IsLeaf(toks[i]) { return i + 1; }
    var idx := i + 1;
    var rem := new int[MAX_DEPTH];
    var sp := 0;
    if toks[i].kind == Array {
      rem[sp] := toks[i].size;
      sp := sp + 1;
    } else if toks[i].kind == Object {
      rem[sp] := toks[i].size * 2;
      sp := sp + 1;
    } else {
      return i + 1;
    }
    assert rem[..sp] == [Children(toks[i])];
    while sp > 0
      invariant 0 <= sp <= MAX_DEPTH && i < idx <= |toks|
      invariant Walk(toks, idx, rem[..sp]) == SkipFrom(toks, i)
      decreases 2 * (|toks| - idx) + sp
    {
      ghost var was := rem[..sp];
      WalkRound(toks, idx, was);
      if rem[sp - 1] == 0 {
        sp := sp - 1;
        assert rem[..sp] == was[..|was| - 1];
        continue;
      }
      rem[sp - 1] := rem[sp - 1] - 1;
      assert rem[..sp] == was[|was| - 1 := was[|was| - 1] - 1];
      if idx >= |toks| { return |toks|; }
      if IsLeaf(toks[idx]) {
        idx := idx + 1;
        continue;
      }
      if sp >= MAX_DEPTH { return |toks|; }
      if toks[idx].kind == Array || toks[idx].kind == Object {
        ghost var left := rem[..sp];
        rem[sp] := if toks[idx].kind == Array then toks[idx].size else toks[idx].size * 2;
        sp := sp + 1;
        assert rem[..sp] == left + [Children(toks[idx])];
      }
      idx := idx + 1;
    }
    assert rem[..sp] == [];
    WalkRound(toks, idx, []);
    return idx;
  }

  // --- skip on a flattened tree ---------------------------------------------------------------------------

  function Less(rem: seq<int>, k: int): seq<int>
    requires rem != []
  {
    rem[|rem| - 1 := rem[|rem| - 1] - k]
  }

  lemma WalkLeaf(toks: seq<Tok>, idx: nat, rem: seq<int>)
    requires idx < |toks| && IsLeaf(toks[idx]) && rem != [] && rem[|rem| - 1] != 0
    ensures Walk(toks, idx, rem) == Walk(toks, idx + 1, Less(rem, 1))
    ensures NeverFull(toks, idx, rem) == NeverFull(toks, idx + 1, Less(rem, 1))
  {
  }

  lemma WalkPush(toks: seq<Tok>, idx: nat, rem: seq<int>)
    requires idx < |toks| && (toks[idx].kind == Array || toks[idx].kind == Object)
    requires rem != [] && rem[|rem| - 1] != 0 && |rem| < MAX_DEPTH
    ensures Walk(toks, idx, rem) == Walk(toks, idx + 1, Less(rem, 1) + [Children(toks[idx])])
    ensures NeverFull(toks, idx, rem) == NeverFull(toks, idx + 1, Less(rem, 1) + [Children(toks[idx])])
  {
  }

  lemma WalkPop(toks: seq<Tok>, idx: nat, rem: seq<int>)
    requires idx <= |toks|
    ensures Walk(toks, idx, rem + [0]) == Walk(toks, idx, rem)
    ensures NeverFull(toks, idx, rem + [0]) == NeverFull(toks, idx, rem)
  {
    assert (rem + [0])[..|rem|] == rem;
  }

  function Units(kind: ConKind): nat {
    if kind == Obj then 2 else 1
  }

  lemma ContainerTokens(v: Node, off: nat)
    requires v.Con? && Wf(v)
    ensures v.kind != Root && WfKids(v.kids) && Size(v) == 1 + KidsSize(v.kind, v.kids) && Depth(v) == 1 + KidsDepth(v.kids)
    ensures exists own: Tok :: Flatten(v, off) == [own] + FlattenKids(v.kind, v.kids, off + 1)
              && own.kind == TokKind(v.kind) && own.size == KidCount(v.kids)
  {
    hide Print, FlattenKids, KidsSize, KidsDepth;
    var own := Tok(TokKind(v.kind), off, off + |Print(v)|, KidCount(v.kids));
    assert Flatten(v, off) == [own] + FlattenKids(v.kind, v.kids, off + 1);
  }

  lemma ContainerAtToks(toks: seq<Tok>, idx: nat, v: Node, off: nat)
    requires v.Con? && Wf(v) && At(toks, idx, Flatten(v, off))
    ensures v.kind != Root && WfKids(v.kids) && Size(v) == 1 + KidsSize(v.kind, v.kids) && Depth(v) == 1 + KidsDepth(v.kids)
    ensures idx < |toks| && toks[idx].kind == TokKind(v.kind) && toks[idx].size == KidCount(v.kids)
    ensures At(toks, idx + 1, FlattenKids(v.kind, v.kids, off + 1))
    ensures idx + Size(v) <= |toks|
  {
    hide Flatten, FlattenKids, KidsSize, KidsDepth, At, Wf, Size, Depth;
    ContainerTokens(v, off);
    var own: Tok :| Flatten(v, off) == [own] + FlattenKids(v.kind, v.kids, off + 1)
              && own.kind == TokKind(v.kind) && own.size == KidCount(v.kids);
    AtSplit(toks, idx, [own], FlattenKids(v.kind, v.kids, off + 1));
    AtFirst(toks, idx, [own]);
    FlattenSize(v, off);
    AtIs(toks, idx, Flatten(v, off));
  }

  /** Walking over a value costs its parent one unit. */
  lemma {:induction false} WalkNode(toks: seq<Tok>, idx: nat, rem: seq<int>, v: Node, off: nat)
    requires Wf(v) && At(toks, idx, Flatten(v, off))
    requires rem != [] && rem[|rem| - 1] > 0 && |rem| + Depth(v) <= MAX_DEPTH
    ensures idx + Size(v) <= |toks|
    ensures Walk(toks, idx, rem) == Walk(toks, idx + Size(v), Less(rem, 1))
    ensures NeverFull(toks, idx, rem) == NeverFull(toks, idx + Size(v), Less(rem, 1))
    decreases v
  {
    hide Walk, NeverFull, At, Flatten, WfKids, FlattenKids, KidsSize, KidsDepth, Wf;
    if v.Con? {
      ContainerAtToks(toks, idx, v, off);
      WalkPush(toks, idx, rem);
      var left := Less(rem, 1);
      var n := Units(v.kind) * KidCount(v.kids);
      assert Children(toks[idx]) == n;
      WalkKids(toks, idx + 1, left, v.kind, v.kids, off + 1, n);
      WalkPop(toks, idx + Size(v), left);
    } else {
      LeafTokens(toks, idx, v, off);
      WalkLeaf(toks, idx, rem);
    }
  }

  lemma LeafTokens(toks: seq<Tok>, idx: nat, v: Node, off: nat)
    requires !v.Con? && At(toks, idx, Flatten(v, off))
    ensures idx < |toks| && IsLeaf(toks[idx]) && Size(v) == 1 && Depth(v) == 0
  {
    AtFirst(toks, idx, Flatten(v, off));
  }

  /** A key token, if any, then the value: the units of one child. */
  lemma {:induction false} WalkKids(toks: seq<Tok>, idx: nat, rem: seq<int>, kind: ConKind, ks: Kids, off: nat, n: nat)
    requires WfKids(ks) && At(toks, idx, FlattenKids(kind, ks, off))
    requires |rem| + 1 + KidsDepth(ks) <= MAX_DEPTH && n >= Units(kind) * KidCount(ks)
    ensures idx + KidsSize(kind, ks) <= |toks|
    ensures var left := rem + [n - Units(kind) * KidCount(ks)];
      && Walk(toks, idx, rem + [n]) == Walk(toks, idx + KidsSize(kind, ks), left)
      && NeverFull(toks, idx, rem + [n]) == NeverFull(toks, idx + KidsSize(kind, ks), left)
    decreases ks
  {
    hide Walk, NeverFull, At, Flatten, FlattenKids, Size, Depth, Wf, Head, Print, PrintKids, KeyToks;
    if ks.NoKids? {
      NoKidsTokens(toks, idx, kind, off);
    } else {
      var k, voff := ks.last, off + |PrintKids(kind, ks.init)| + |Head(kind, ks.init.NoKids?, ks.last)|;
      KidAt(toks, idx, kind, ks, off);
      WalkKids(toks, idx, rem, kind, ks.init, off, n);
      var c := n - Units(kind) * KidCount(ks.init);
      var at := idx + KidsSize(kind, ks.init);
      assert (rem + [c])[|rem|] == c;
      if kind == Obj {
        WalkLeaf(toks, at, rem + [c]);
        assert Less(rem + [c], 1) == rem + [c - 1];
        WalkNode(toks, at + 1, rem + [c - 1], k.value, voff);
        assert Less(rem + [c - 1], 1) == rem + [c - 2];
      } else {
        WalkNode(toks, at, rem + [c], k.value, voff);
        assert Less(rem + [c], 1) == rem + [c - 1];
      }
    }
  }

  lemma NoKidsTokens(toks: seq<Tok>, idx: nat, kind: ConKind, off: nat)
    requires At(toks, idx, FlattenKids(kind, NoKids, off))
    ensures idx <= |toks| && KidsSize(kind, NoKids) == 0
  {
  }

  /** Where the last child is in the token array. */
  lemma KidAt(toks: seq<Tok>, idx: nat, kind: ConKind, ks: Kids, off: nat)
    requires ks.Snoc? && WfKids(ks) && At(toks, idx, FlattenKids(kind, ks, off))
    ensures var k := ks.last;
      var at := idx + KidsSize(kind, ks.init);
      var start := off + |PrintKids(kind, ks.init)|;
      var voff := start + |Head(kind, ks.init.NoKids?, k)|;
      && At(toks, idx, FlattenKids(kind, ks.init, off))
      && At(toks, if kind == Obj then at + 1 else at, Flatten(k.value, voff))
      && (kind == Obj ==> at < |toks| && toks[at] == KeyToks(kind, ks.init.NoKids?, k, start)[0] && IsLeaf(toks[at]))
      && Wf(k.value)
      && KidsSize(kind, ks) == (if kind == Obj then at + 1 else at) + Size(k.value) - idx
      && idx + KidsSize(kind, ks) <= |toks|
      && KidsDepth(ks.init) <= KidsDepth(ks) && Depth(k.value) <= KidsDepth(ks)
  {
    hide At, Flatten, FlattenKids, Size, Depth, Wf, Head, Print, PrintKids, KidsSize, KidsDepth, KidCount;
    LastKidTokens(kind, ks, off);
    LastKidSizes(kind, ks);
    FlattenKidsSize(kind, ks.init, off);
    FlattenKidsSize(kind, ks, off);
    AtIs(toks, idx, FlattenKids(kind, ks, off));
    var k, first := ks.last, ks.init.NoKids?;
    var start := off + |PrintKids(kind, ks.init)|;
    var K, V := KeyToks(kind, first, k, start), Flatten(k.value, start + |Head(kind, first, k)|);
    AtSplit(toks, idx, FlattenKids(kind, ks.init, off), K + V);
    var at := idx + KidsSize(kind, ks.init);
    AtSplit(toks, at, K, V);
    if kind == Obj {
      AtFirst(toks, at, K);
    }
    ValueOfWf(k);
  }

  /** `jstok_skip` returns the index just behind the subtree. */
  lemma SkipIsSubtree(toks: seq<Tok>, i: nat, v: Node, off: nat)
    requires Wf(v) && At(toks, i, Flatten(v, off)) && Depth(v) <= MAX_DEPTH
    ensures SkipFrom(toks, i) == i + Size(v) <= |toks| && SkipFits(toks, i)
  {
    hide Walk, NeverFull, At, Flatten, WfKids, FlattenKids, KidsSize, KidsDepth, Wf;
    if v.Con? {
      ContainerAtToks(toks, i, v, off);
      var n := Units(v.kind) * KidCount(v.kids);
      assert [] + [n] == [n] == [Children(toks[i])];
      WalkKids(toks, i + 1, [], v.kind, v.kids, off + 1, n);
      WalkPop(toks, i + Size(v), []);
      WalkEmpty(toks, i + Size(v));
    } else {
      LeafTokens(toks, i, v, off);
    }
  }

  lemma WalkEmpty(toks: seq<Tok>, idx: nat)
    requires idx <= |toks|
    ensures Walk(toks, idx, []) == idx && NeverFull(toks, idx, [])
  {
  }

  // --- array elements -------------------------------------------------------------------------------------

  /** `n` siblings further, or -1 when that is behind the last token. */
  function Advance(toks: seq<Tok>, cur: int, n: nat): int {
    if n == 0 then cur
    else
      var c := Advance(toks, cur, n - 1);
      if c == -1 || SkipFrom(toks, c) >= |toks| then -1 else SkipFrom(toks, c)
  }

  function ElementAt(toks: seq<Tok>, arr: int, idx: int): int {
    if arr < 0 || arr >= |toks| || toks[arr].kind != Array || idx < 0 || idx >= toks[arr].size then -1
    else Advance(toks, arr + 1, idx)
  }

  /** `jstok_array_at` */
  method ArrayAt(toks: seq<Tok>, arr: int, idx: int) returns (r: int)
    ensures r == ElementAt(toks, arr, idx)
  {
    if arr < 0 || arr >= |toks| { return -1; }
    if toks[arr].kind != Array { return -1; }
    if idx < 0 || idx >= toks[arr].size { return -1; }
    var cur: int := arr + 1;
    var i := 0;
    while i < idx
      invariant 0 <= i <= idx && cur >= 0 && cur == Advance(toks, arr + 1, i)
    {
      cur := Skip(toks, cur);
      if cur >= |toks| {
        AdvanceStuck(toks, arr + 1, i + 1, idx);
        return -1;
      }
      i := i + 1;
    }
    return cur;
  }

  lemma {:induction false} AdvanceStuck(toks: seq<Tok>, cur: int, i: nat, n: nat)
    requires i <= n && Advance(toks, cur, i) == -1
    ensures Advance(toks, cur, n) == -1
    decreases n - i
  {
    if i < n {
      AdvanceStuck(toks, cur, i + 1, n);
    }
  }

  /** The first `n` children. */
  function Prefix(ks: Kids, n: nat): (r: Kids)
    requires n <= KidCount(ks)
    ensures KidCount(r) == n
  {
    if KidCount(ks) == n then ks else Prefix(ks.init, n)
  }

  /** The child with index `n`. */
  function Nth(ks: Kids, n: nat): Kid
    requires n < KidCount(ks)
  {
    Prefix(ks, n + 1).last
  }

  lemma {:induction false} PrefixStep(ks: Kids, n: nat)
    requires n < KidCount(ks)
    ensures Prefix(ks, n + 1).Snoc? && Prefix(ks, n + 1).init == Prefix(ks, n)
    decreases ks
  {
    if n + 1 < KidCount(ks) {
      PrefixStep(ks.init, n);
    }
  }

  lemma {:induction false} PrefixAt(toks: seq<Tok>, idx: nat, kind: ConKind, ks: Kids, off: nat, n: nat)
    requires n <= KidCount(ks) && WfKids(ks) && At(toks, idx, FlattenKids(kind, ks, off))
    ensures At(toks, idx, FlattenKids(kind, Prefix(ks, n), off)) && WfKids(Prefix(ks, n))
    ensures KidsDepth(Prefix(ks, n)) <= KidsDepth(ks)
    ensures n < KidCount(ks) ==> KidsSize(kind, Prefix(ks, n)) < KidsSize(kind, ks)
    ensures idx + KidsSize(kind, ks) <= |toks|
    decreases ks
  {
    hide At, FlattenKids, Flatten, Head, Print, PrintKids, KeyToks, Wf, Size, Depth, KidsSize, KidsDepth;
    FlattenKidsSize(kind, ks, off);
    AtIs(toks, idx, FlattenKids(kind, ks, off));
    if n < KidCount(ks) {
      KidAt(toks, idx, kind, ks, off);
      SizePositive(ks.last.value);
      PrefixAt(toks, idx, kind, ks.init, off, n);
    }
  }

  lemma SizePositive(v: Node)
    requires Wf(v)
    ensures Size(v) >= 1
  {
  }

  /** Where the value of child `n` is: its token index and its offset in the text. */
  function ValueIndex(idx: nat, kind: ConKind, ks: Kids, n: nat): nat
    requires n < KidCount(ks)
  {
    idx + KidsSize(kind, Prefix(ks, n)) + (if kind == Obj then 1 else 0)
  }

  function ValueOffset(off: nat, kind: ConKind, ks: Kids, n: nat): nat
    requires n < KidCount(ks)
  {
    off + |PrintKids(kind, Prefix(ks, n))| + |Head(kind, n == 0, Nth(ks, n))|
  }

  lemma NthAt(toks: seq<Tok>, idx: nat, kind: ConKind, ks: Kids, off: nat, n: nat)
    requires n < KidCount(ks) && WfKids(ks) && At(toks, idx, FlattenKids(kind, ks, off))
    ensures var v := Nth(ks, n).value;
      && At(toks, ValueIndex(idx, kind, ks, n), Flatten(v, ValueOffset(off, kind, ks, n)))
      && Wf(v) && Depth(v) <= KidsDepth(ks)
      && ValueIndex(idx, kind, ks, n) + Size(v) == idx + KidsSize(kind, Prefix(ks, n + 1)) <= |toks|
      && (n + 1 < KidCount(ks) ==> idx + KidsSize(kind, Prefix(ks, n + 1)) < |toks|)
    ensures kind == Obj ==>
      var at := idx + KidsSize(kind, Prefix(ks, n));
      at < |toks| && toks[at] == KeyToks(Obj, n == 0, Nth(ks, n), off + |PrintKids(Obj, Prefix(ks, n))|)[0]
  {
    hide At, FlattenKids, Flatten, Head, Print, PrintKids, Wf, Size, Depth, KidsSize, KidsDepth, WfKids;
    PrefixStep(ks, n);
    PrefixAt(toks, idx, kind, ks, off, n + 1);
    KidAt(toks, idx, kind, Prefix(ks, n + 1), off);
    assert Prefix(ks, n).NoKids? <==> n == 0;
  }

  lemma {:induction false} AdvanceIsNth(toks: seq<Tok>, idx: nat, ks: Kids, off: nat, n: nat)
    requires n < KidCount(ks) && WfKids(ks) && At(toks, idx, FlattenKids(Arr, ks, off)) && KidsDepth(ks) <= MAX_DEPTH
    ensures Advance(toks, idx, n) == ValueIndex(idx, Arr, ks, n)
    decreases n
  {
    hide At, FlattenKids, Flatten, Wf, Size, Depth, KidsDepth, WfKids, SkipFrom;
    if n == 0 {
      assert Prefix(ks, 0).NoKids?;
    } else {
      AdvanceIsNth(toks, idx, ks, off, n - 1);
      NthAt(toks, idx, Arr, ks, off, n - 1);
      SkipIsSubtree(toks, ValueIndex(idx, Arr, ks, n - 1), Nth(ks, n - 1).value, ValueOffset(off, Arr, ks, n - 1));
    }
  }

  /** `jstok_array_at` on a flattened array is the element, and -1 exactly outside it. */
  lemma ArrayAtIsElement(toks: seq<Tok>, i: nat, v: Node, off: nat, n: int)
    requires v.Con? && v.kind == Arr && Wf(v) && At(toks, i, Flatten(v, off)) && Depth(v) <= MAX_DEPTH
    ensures if 0 <= n < KidCount(v.kids)
      then ElementAt(toks, i, n) == ValueIndex(i + 1, Arr, v.kids, n)
           && At(toks, ElementAt(toks, i, n), Flatten(Nth(v.kids, n).value, ValueOffset(off + 1, Arr, v.kids, n)))
      else ElementAt(toks, i, n) == -1
  {
    hide At, FlattenKids, Flatten, Wf, Size, Depth, KidsDepth, WfKids, Advance;
    ContainerAtToks(toks, i, v, off);
    if 0 <= n < KidCount(v.kids) {
      AdvanceIsNth(toks, i + 1, v.kids, off + 1, n);
      NthAt(toks, i + 1, Arr, v.kids, off + 1, n);
    }
  }

  // --- object members -------------------------------------------------------------------------------------

  /** `jstok_eq`: the token's span is this text. */
  predicate TokIs(json: bytes, t: Tok, s: bytes) {
    0 <= t.start <= t.end <= |json| && json[t.start..t.end] == s
  }

  /** After some pairs: still searching at a token, found a value, or past the end. */
  datatype Search = Searching(cur: int) | Found(v: int) | Lost

  function SearchPairs(json: bytes, toks: seq<Tok>, start: int, key: bytes, n: nat): Search
    requires start >= 0
    ensures SearchPairs(json, toks, start, key, n).Searching? ==> SearchPairs(json, toks, start, key, n).cur >= 0
    ensures SearchPairs(json, toks, start, key, n).Found? ==> 0 < SearchPairs(json, toks, start, key, n).v < |toks|
  {
    if n == 0 then Searching(start)
    else
      var s := SearchPairs(json, toks, start, key, n - 1);
      if !s.Searching? then s
      else if s.cur + 1 >= |toks| then Lost
      else if toks[s.cur].kind == String && TokIs(json, toks[s.cur], key) then Found(s.cur + 1)
      else if SkipFrom(toks, s.cur + 1) >= |toks| then Lost
      else Searching(SkipFrom(toks, s.cur + 1))
  }

  function MemberAt(json: bytes, toks: seq<Tok>, obj: int, key: bytes): (r: int)
    ensures -1 <= r < |toks| && r != 0
  {
    if obj < 0 || obj >= |toks| || toks[obj].kind != Object || toks[obj].size <= 0 then -1
    else
      var s := SearchPairs(json, toks, obj + 1, key, toks[obj].size);
      if s.Found? then s.v else -1
  }

  /** `jstok_eq`, byte by byte. */
  method TokEq(json: bytes, t: Tok, s: bytes) returns (r: bool)
    requires t.end <= |json|
    ensures r == TokIs(json, t, s)
  {
    if t.start < 0 || t.end < t.start { return false; }
    if t.end - t.start != |s| { return false; }
    var i := 0;
    while i < |s|
      invariant i <= |s| && json[t.start..t.start + i] == s[..i]
    {
      if json[t.start + i] != s[i] {
        assert json[t.start..t.end][i] != s[i];
        return false;
      }
      assert json[t.start..t.start + i + 1] == json[t.start..t.start + i] + [s[i]] && s[..i + 1] == s[..i] + [s[i]];
      i := i + 1;
    }
    return true;
  }

  /** `jstok_object_get`; the spans of the tokens must lie in the buffer. */
  method ObjectGet(json: bytes, toks: seq<Tok>, obj: int, key: bytes) returns (r: int)
    requires forall i :: 0 <= i < |toks| ==> toks[i].end <= |json|
    ensures r == MemberAt(json, toks, obj, key)
  {
    hide SkipFrom;
    if obj < 0 || obj >= |toks| { return -1; }
    if toks[obj].kind != Object { return -1; }
    var cur: int := obj + 1;
    var pair := 0;
    while pair < toks[obj].size
      invariant 0 <= pair && (pair <= toks[obj].size || pair == 0) && cur >= 0
      invariant SearchPairs(json, toks, obj + 1, key, pair) == Searching(cur)
    {
      var k, v := cur, cur + 1;
      SearchSettles(json, toks, obj + 1, key, pair + 1, toks[obj].size);
      if v >= |toks| { return -1; }
      if toks[k].kind == String {
        var eq := TokEq(json, toks[k], key);
        if eq { return v; }
      }
      cur := Skip(toks, v);
      if cur >= |toks| { return -1; }
      pair := pair + 1;
    }
    return -1;
  }

  lemma {:induction false} SearchSettles(json: bytes, toks: seq<Tok>, start: int, key: bytes, i: nat, n: nat)
    requires start >= 0 && i <= n
    ensures var s := SearchPairs(json, toks, start, key, i); !s.Searching? ==> SearchPairs(json, toks, start, key, n) == s
    decreases n - i
  {
    if i < n {
      SearchSettles(json, toks, start, key, i + 1, n);
    }
  }

  /** The first pair with this raw key. */
  function FirstWithKey(ks: Kids, key: bytes): (r: Option<nat>)
    ensures r.Some? ==> r.value < KidCount(ks) && Nth(ks, r.value).key == key
    ensures forall n :: 0 <= n < (if r.Some? then r.value else KidCount(ks)) ==> Nth(ks, n).key != key
  {
    if ks.NoKids? then None
    else
      var f := FirstWithKey(ks.init, key);
      assert forall n :: 0 <= n < KidCount(ks.init) ==> Nth(ks, n) == Nth(ks.init, n);
      if f.Some? then f else if ks.last.key == key then Some(KidCount(ks.init)) else None
  }

  /** The key token of a printed pair spans its raw key. */
  lemma KeySpans(json: bytes, off: nat, ks: Kids, n: nat, key: bytes)
    requires n < KidCount(ks) && At(json, off, PrintKids(Obj, ks))
    ensures var t := KeyToks(Obj, n == 0, Nth(ks, n), off + |PrintKids(Obj, Prefix(ks, n))|)[0];
      t.kind == String && (TokIs(json, t, key) <==> Nth(ks, n).key == key)
  {
    hide At, PrintKids, Print;
    PrefixText(json, off, Obj, ks, n);
    var k, first := Nth(ks, n), n == 0;
    var at := off + |PrintKids(Obj, Prefix(ks, n))|;
    AtSplit(json, at, CommaText(Obj, first, k) + KeyText(Obj, k), k.v0);
    AtSplit(json, at, CommaText(Obj, first, k), KeyText(Obj, k));
    var b := at + |CommaText(Obj, first, k)|;
    AtSplit(json, b, k.k0 + ([QUOTE] + k.key + [QUOTE]) + k.k1, [COLON]);
    AtSplit(json, b, k.k0 + ([QUOTE] + k.key + [QUOTE]), k.k1);
    AtSplit(json, b, k.k0, [QUOTE] + k.key + [QUOTE]);
    AtSplit(json, b + |k.k0|, [QUOTE] + k.key, [QUOTE]);
    AtSplit(json, b + |k.k0|, [QUOTE], k.key);
    AtIs(json, b + |k.k0| + 1, k.key);
  }

  /** Where the head and the value of child `n` are in the text. */
  lemma {:induction false} PrefixText(json: bytes, off: nat, kind: ConKind, ks: Kids, n: nat)
    requires n < KidCount(ks) && At(json, off, PrintKids(kind, ks))
    ensures At(json, off + |PrintKids(kind, Prefix(ks, n))|, Head(kind, n == 0, Nth(ks, n)))
    ensures At(json, ValueOffset(off, kind, ks, n), Print(Nth(ks, n).value))
    decreases ks
  {
    hide At, Print, Head;
    LastKidText(kind, ks);
    var head, val := Head(kind, ks.init.NoKids?, ks.last), Print(ks.last.value);
    AtSplit(json, off, PrintKids(kind, ks.init), head + val);
    AtSplit(json, off + |PrintKids(kind, ks.init)|, head, val);
    if n + 1 < KidCount(ks) {
      PrefixText(json, off, kind, ks.init, n);
    }
  }

  /** Where the value of child `n` of a printed container is. */
  lemma ValueText(json: bytes, off: nat, v: Node, n: nat)
    requires v.Con? && Wf(v) && At(json, off, Print(v)) && n < KidCount(v.kids)
    ensures At(json, ValueOffset(off + 1, v.kind, v.kids, n), Print(Nth(v.kids, n).value))
  {
    hide At, Print, PrintKids, Head, Wf, ValueOffset;
    NeverRoot(v);
    WfTail(v);
    ContainerAt(json, off, v);
    PrefixText(json, off + 1, v.kind, v.kids, n);
  }

  lemma {:induction false} SearchIsFirst(json: bytes, toks: seq<Tok>, idx: nat, ks: Kids, off: nat, key: bytes, n: nat)
    requires n <= KidCount(ks) && WfKids(ks) && KidsDepth(ks) <= MAX_DEPTH
    requires At(toks, idx, FlattenKids(Obj, ks, off)) && At(json, off, PrintKids(Obj, ks))
    requires forall i :: 0 <= i < n ==> Nth(ks, i).key != key
    ensures var s := SearchPairs(json, toks, idx, key, n);
      if n < KidCount(ks) then s == Searching(idx + KidsSize(Obj, Prefix(ks, n))) else !s.Found?
    decreases n
  {
    hide At, FlattenKids, PrintKids, Flatten, Wf, Size, Depth, KidsDepth, KidsSize, WfKids, SkipFrom, Walk, NeverFull,
      TokIs, KeyToks, Head;
    if n == 0 {
      EmptyPrefix(Obj, ks);
    } else {
      SearchIsFirst(json, toks, idx, ks, off, key, n - 1);
      NthAt(toks, idx, Obj, ks, off, n - 1);
      KeySpans(json, off, ks, n - 1, key);
      SkipIsSubtree(toks, ValueIndex(idx, Obj, ks, n - 1), Nth(ks, n - 1).value, ValueOffset(off, Obj, ks, n - 1));
      SizePositive(Nth(ks, n - 1).value);
    }
  }

  lemma EmptyPrefix(kind: ConKind, ks: Kids)
    ensures KidsSize(kind, Prefix(ks, 0)) == 0
  {
  }

  lemma FoundNow(json: bytes, toks: seq<Tok>, idx: nat, ks: Kids, off: nat, key: bytes, n: nat)
    requires n < KidCount(ks) && WfKids(ks) && KidsDepth(ks) <= MAX_DEPTH
    requires At(toks, idx, FlattenKids(Obj, ks, off)) && At(json, off, PrintKids(Obj, ks))
    requires (forall i :: 0 <= i < n ==> Nth(ks, i).key != key) && Nth(ks, n).key == key
    ensures SearchPairs(json, toks, idx, key, n + 1) == Found(ValueIndex(idx, Obj, ks, n))
  {
    hide At, FlattenKids, PrintKids, Flatten, Wf, Depth, KidsDepth, KidsSize, WfKids, SkipFrom, Walk, NeverFull,
      TokIs, KeyToks, Head;
    SearchIsFirst(json, toks, idx, ks, off, key, n);
    NthAt(toks, idx, Obj, ks, off, n);
    SizePositive(Nth(ks, n).value);
    KeySpans(json, off, ks, n, key);
  }

  /**
   `jstok_object_get` on a flattened object is the value of the first pair whose raw key matches, and -1
   exactly when none does.
   */
  lemma ObjectGetIsMember(json: bytes, toks: seq<Tok>, i: nat, v: Node, off: nat, key: bytes)
    requires v.Con? && v.kind == Obj && Wf(v) && Depth(v) <= MAX_DEPTH
    requires At(toks, i, Flatten(v, off)) && At(json, off, Print(v))
    ensures match FirstWithKey(v.kids, key)
      case Some(n) => MemberAt(json, toks, i, key) == ValueIndex(i + 1, Obj, v.kids, n)
        && At(toks, MemberAt(json, toks, i, key), Flatten(Nth(v.kids, n).value, ValueOffset(off + 1, Obj, v.kids, n)))
      case None => MemberAt(json, toks, i, key) == -1
  {
    hide At, FlattenKids, PrintKids, Print, Flatten, Wf, Size, Depth, KidsDepth, KidsSize, WfKids, SearchPairs, Nth,
      Prefix, FirstWithKey;
    ContainerAtToks(toks, i, v, off);
    WfTail(v);
    ContainerAt(json, off, v);
    var ks := v.kids;
    match FirstWithKey(ks, key)
    case Some(n) =>
      FoundNow(json, toks, i + 1, ks, off + 1, key, n);
      SearchSettles(json, toks, i + 1, key, n + 1, KidCount(ks));
      NthAt(toks, i + 1, Obj, ks, off + 1, n);
    case None =>
      SearchIsFirst(json, toks, i + 1, ks, off + 1, key, KidCount(ks));
  }

  lemma WfTail(v: Node)
    requires v.Con? && Wf(v)
    ensures AllSpace(v.tail)
  {
  }

  // --- every token of a parse -----------------------------------------------------------------------------

  lemma AtLeft<T>(a: seq<T>, b: seq<T>, i: nat, s: seq<T>)
    requires At(a, i, s)
    ensures At(a + b, i, s)
  {
    assert (a + b)[i..i + |s|] == a[i..i + |s|];
  }

  lemma AtRight<T>(a: seq<T>, b: seq<T>, i: nat, s: seq<T>)
    requires At(b, i, s)
    ensures At(a + b, |a| + i, s)
  {
    assert (a + b)[|a| + i..|a| + i + |s|] == b[i..i + |s|];
  }

  /** The node whose first token has index `i`; a key counts as a string. */
  lemma {:induction false} NodeAt(n: Node, off: nat, i: nat) returns (v: Node, voff: nat)
    requires Wf(n) && i < Size(n)
    ensures Wf(v) && Depth(v) <= Depth(n) && At(Flatten(n, off), i, Flatten(v, voff))
    ensures off <= voff && At(Print(n), voff - off, Print(v))
    decreases n
  {
    hide Flatten, FlattenKids, Print, PrintKids, KidsSize, KidsDepth, WfKids, Wf, At;
    if i == 0 || !n.Con? {
      v, voff := n, off;
      AtAll(Flatten(n, off));
      AtAll(Print(n));
    } else {
      NeverRoot(n);
      ContainerToks(n, off);
      ContainerText(n);
      ContainerParts(n);
      v, voff := NodeInKids(n.kind, n.kids, off + 1, i - 1);
      var own := [Tok(TokKind(n.kind), off, off + |Print(n)|, KidCount(n.kids))];
      AtRight(own, FlattenKids(n.kind, n.kids, off + 1), i - 1, Flatten(v, voff));
      AtLeft(PrintKids(n.kind, n.kids), n.tail + CloseText(n.kind), voff - off - 1, Print(v));
      AtRight(OpenText(n.kind), PrintKids(n.kind, n.kids) + (n.tail + CloseText(n.kind)), voff - off - 1, Print(v));
    }
  }

  lemma {:induction false} NodeInKids(kind: ConKind, ks: Kids, off: nat, i: nat) returns (v: Node, voff: nat)
    requires WfKids(ks) && i < KidsSize(kind, ks)
    ensures Wf(v) && Depth(v) <= KidsDepth(ks) && At(FlattenKids(kind, ks, off), i, Flatten(v, voff))
    ensures off <= voff && At(PrintKids(kind, ks), voff - off, Print(v))
    decreases ks
  {
    hide Flatten, FlattenKids, Print, PrintKids, Size, Depth, KidsDepth, Wf, At, Head, KeyToks;
    LastKidTokens(kind, ks, off);
    LastKidSizes(kind, ks);
    LastKidText(kind, ks);
    FlattenKidsSize(kind, ks.init, off);
    var k, first, n := ks.last, ks.init.NoKids?, KidsSize(kind, ks.init);
    var T, P := FlattenKids(kind, ks.init, off), PrintKids(kind, ks.init);
    var start := off + |P|;
    var head := Head(kind, first, k);
    var K, V := KeyToks(kind, first, k, start), Flatten(k.value, start + |head|);
    if i < n {
      v, voff := NodeInKids(kind, ks.init, off, i);
      AtLeft(T, K + V, i, Flatten(v, voff));
      AtLeft(P, head + Print(k.value), voff - off, Print(v));
    } else if kind == Obj && i == n {
      v, voff := KeyNode(k, first, start);
      AtLeft(K, V, 0, Flatten(v, voff));
      AtRight(T, K + V, 0, Flatten(v, voff));
      AtLeft(head, Print(k.value), voff - start, Print(v));
      AtRight(P, head + Print(k.value), voff - start, Print(v));
    } else {
      KeyTokCount(kind, first, k, start);
      ValueOfWf(k);
      v, voff := NodeAt(k.value, start + |head|, i - n - |K|);
      AtRight(K, V, i - n - |K|, Flatten(v, voff));
      AtRight(T, K + V, i - n, Flatten(v, voff));
      AtRight(head, Print(k.value), voff - start - |head|, Print(v));
      AtRight(P, head + Print(k.value), voff - start, Print(v));
    }
  }

  /** The key of a pair, as a string of its own. */
  lemma KeyNode(k: Kid, first: bool, start: nat) returns (v: Node, voff: nat)
    requires WfKid(k)
    ensures Wf(v) && Depth(v) == 0 && At(KeyToks(Obj, first, k, start), 0, Flatten(v, voff))
    ensures start <= voff && At(Head(Obj, first, k), voff - start, Print(v))
  {
    hide At;
    var comma, q := CommaText(Obj, first, k), [QUOTE] + k.key + [QUOTE];
    v, voff := Str(k.key), start + |comma| + |k.k0|;
    AtAll(Flatten(v, voff));
    assert KeyToks(Obj, first, k, start) == Flatten(v, voff);
    AtAll(q);
    AtRight(k.k0, q, 0, q);
    AtLeft(k.k0 + q, k.k1, |k.k0|, q);
    AtLeft(k.k0 + q + k.k1, [COLON], |k.k0|, q);
    AtRight(comma, KeyText(Obj, k), |k.k0|, q);
    AtLeft(comma + KeyText(Obj, k), k.v0, |comma| + |k.k0|, q);
  }

  /**
   On any successful parse, for every token index: a well-formed node, nested at most 64 deep, starts there,
   in the tokens and in the text; `jstok_skip` goes just behind it, `jstok_array_at` and `jstok_object_get`
   (`ArrayAtIsElement`, `ObjectGetIsMember`) see its children.
   */
  lemma EveryTokenIsANode(json: bytes, m: nat, i: nat) returns (v: Node, off: nat)
    requires var r := Parse(json, Fill(m), START); r.rc.Tokens? && i < |r.p.toks|
    ensures var toks := Parse(json, Fill(m), START).p.toks;
      && Wf(v) && Depth(v) <= MAX_DEPTH && At(toks, i, Flatten(v, off)) && At(json, off, Print(v))
      && SkipFrom(toks, i) == i + Size(v) <= |toks| && SkipFits(toks, i)
  {
    hide Parse, Flatten, FlattenKids, PrintKids, KidsSize, KidsDepth, WfKids, Wf, At, SkipFrom, SetApart;
    var doc := ParseIsFlattening(json, m);
    FlattenSize(doc, 0);
    DocumentText(doc);
    v, off := NodeInKids(Root, doc.kids, 0, i);
    AtLeft(PrintKids(Root, doc.kids), doc.tail, off, Print(v));
    SkipIsSubtree(Parse(json, Fill(m), START).p.toks, i, v, off);
  }

  lemma DocumentText(doc: Node)
    requires WfDocument(doc)
    ensures Print(doc) == PrintKids(Root, doc.kids) + doc.tail && Flatten(doc, 0) == FlattenKids(Root, doc.kids, 0)
    ensures Size(doc) == KidsSize(Root, doc.kids) && Depth(doc) == KidsDepth(doc.kids) && WfKids(doc.kids)
  {
    hide PrintKids, FlattenKids, KidsSize, KidsDepth, WfKids, SetApart;
    assert [] + PrintKids(Root, doc.kids) + doc.tail + [] == PrintKids(Root, doc.kids) + doc.tail;
  }

  /** Every string token of a successful parse spans complete escapes and plain bytes only. */
  lemma StringTokensAreBodies(json: bytes, m: nat, i: nat)
    requires var r := Parse(json, Fill(m), START); r.rc.Tokens? && i < |r.p.toks| && r.p.toks[i].kind == String
    ensures var t := Parse(json, Fill(m), START).p.toks[i];
      0 <= t.start <= t.end < |json| && StringBody(json[t.start..t.end])
  {
    hide Parse, FlattenKids, PrintKids, KidsSize, KidsDepth, WfKids, SkipFrom, At, SetApart, StringBody;
    var v, off := EveryTokenIsANode(json, m, i);
    AtFirstTok(Parse(json, Fill(m), START).p.toks, i, v, off);
    AtSplit(json, off, [QUOTE] + v.body, [QUOTE]);
    AtSplit(json, off, [QUOTE], v.body);
    AtIs(json, off + 1, v.body);
    AtIs(json, off + 1 + |v.body|, [QUOTE]);
  }

  lemma AtFirstTok(toks: seq<Tok>, i: nat, v: Node, off: nat)
    requires At(toks, i, Flatten(v, off)) && i < |toks| && Wf(v) && toks[i].kind == String
    ensures v.Str? && toks[i] == Tok(String, off + 1, off + 1 + |v.body|, 0) && StringBody(v.body)
    ensures Print(v) == [QUOTE] + v.body + [QUOTE]
  {
    hide At, FlattenKids, PrintKids, WfKids;
    AtFirst(toks, i, Flatten(v, off));
  }
}
