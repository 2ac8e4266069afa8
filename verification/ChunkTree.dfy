/**
 What a streamed chunk means, read off its syntax tree; and the proof that the reader of src/protocol_chat.c,
 which walks the flat token array, finds exactly that.
 */
module ChunkTree {
  import opened Bytes
  import opened JsonLexer
  import opened Jstok
  import opened JstokCount
  import opened JstokSound
  import opened JsonTree
  import opened Navigation
  import opened Places
  import opened JsonWriter
  import opened ChatChunk
  import EventStream

  // --- the reading of a tree ------------------------------------------------------------------------------

  predicate IsObject(v: Node) {
    v.Con? && v.kind == Obj
  }

  predicate IsArray(v: Node) {
    v.Con? && v.kind == Arr
  }

  /** The value of the first pair with this raw key. */
  function Find(v: Node, key: bytes): Option<Node> {
    if IsObject(v) && FirstWithKey(v.kids, key).Some? then Some(Nth(v.kids, FirstWithKey(v.kids, key).value).value)
    else None
  }

  function StringIn(v: Node, key: bytes): Option<bytes> {
    var s := Find(v, key);
    if s.Some? && s.value.Str? then Some(s.value.body) else None
  }

  function IndexIn(v: Node): Option<nat> {
    var x := Find(v, INDEX);
    if x.Some? && x.value.Prim? && x.value.text != [] && EventStream.AllDigits(x.value.text) then
      Some(EventStream.DecimalValue(x.value.text) % TWO64)
    else None
  }

  function CountIn(v: Node, key: bytes): Option<nat> {
    var x := Find(v, key);
    if x.Some? && x.value.Prim? then CountValue(x.value.text) else None
  }

  function UsageIn(v: Node): Option<Usage> {
    var u := Find(v, USAGE);
    if u.Some? && IsObject(u.value) then
      Some(Usage(CountIn(u.value, PROMPT), CountIn(u.value, COMPLETION), CountIn(u.value, TOTAL)))
    else None
  }

  predicate Suits(v: Node, wanted: Option<nat>) {
    IsObject(v) && (wanted.Some? ==> IndexIn(v) == wanted)
  }

  /** The first of the elements below `n` that suits. */
  function FirstSuiting(arr: Node, wanted: Option<nat>, n: nat): (r: Option<nat>)
    requires IsArray(arr) && n <= KidCount(arr.kids)
    ensures r.Some? ==> r.value < n
  {
    if n == 0 then None
    else
      var r := FirstSuiting(arr, wanted, n - 1);
      if r.Some? then r else if Suits(Nth(arr.kids, n - 1).value, wanted) then Some(n - 1) else None
  }

  function ChoiceIn(arr: Node, index: nat): Option<Node>
    requires IsArray(arr)
  {
    var exact := FirstSuiting(arr, Some(index), KidCount(arr.kids));
    var any := FirstSuiting(arr, None, KidCount(arr.kids));
    if exact.Some? then Some(Nth(arr.kids, exact.value).value)
    else if index == 0 && any.Some? then Some(Nth(arr.kids, any.value).value)
    else None
  }

  function ToolIn(v: Node): ToolDelta {
    var f := Find(v, FUNCTION);
    var isObject := f.Some? && IsObject(f.value);
    ToolDelta(
      if IndexIn(v).Some? then IndexIn(v).value else 0,
      StringIn(v, ID),
      if isObject then StringIn(f.value, NAME) else None,
      if isObject then StringIn(f.value, ARGUMENTS) else None)
  }

  function ToolsIn(arr: Node, n: nat): Option<seq<ToolDelta>>
    requires IsArray(arr) && n <= KidCount(arr.kids)
  {
    if n == 0 then Some([])
    else
      var front, v := ToolsIn(arr, n - 1), Nth(arr.kids, n - 1).value;
      if front.None? || !IsObject(v) then None else Some(front.value + [ToolIn(v)])
  }

  function DeltaIn(choice: Node): Option<Delta> {
    var finish := FinishOf(StringIn(choice, FINISH));
    var d := Find(choice, DELTA);
    if d.None? || !IsObject(d.value) then Some(NO_DELTA.(finish := finish))
    else
      var t := Find(d.value, TOOL_CALLS);
      var tools := if t.Some? && IsArray(t.value) then ToolsIn(t.value, KidCount(t.value.kids)) else Some([]);
      var reasoning := StringIn(d.value, REASONING);
      if tools.None? then None
      else
        Some(Delta(StringIn(d.value, CONTENT), if reasoning.Some? then reasoning else StringIn(d.value, THINKING),
                   tools.value, finish))
  }

  /** What a chunk object says about the choice with this index. */
  function ChunkMeaning(v: Node, index: nat): Option<Chunk> {
    if !IsObject(v) then None
    else
      var cs := Find(v, CHOICES);
      var choice := if cs.Some? && IsArray(cs.value) then ChoiceIn(cs.value, index) else None;
      var delta := if choice.Some? then DeltaIn(choice.value) else Some(NO_DELTA);
      if delta.None? then None else Some(Chunk(delta.value, UsageIn(v)))
  }

  // --- the reader finds it --------------------------------------------------------------------------------

  /** Member access: the value's place, or -1. */
  lemma MemberMeans(json: bytes, toks: seq<Tok>, i: int, v: Node, off: nat, key: bytes) returns (voff: nat)
    requires Placed(json, toks, i, v, off)
    ensures var m := MemberAt(json, toks, i, key);
      match Find(v, key) case None => m == -1 case Some(w) => Placed(json, toks, m, w, voff)
  {
    hide Placed, FirstWithKey, Nth;
    voff := 0;
    PlacedToken(json, toks, i, v, off);
    if IsObject(v) {
      if FirstWithKey(v.kids, key).Some? {
        voff := PlacedMember(json, toks, i, v, off, key);
      } else {
        PlacedNoMember(json, toks, i, v, off, key);
      }
    }
  }

  lemma StringMeans(json: bytes, toks: seq<Tok>, i: int, v: Node, off: nat, key: bytes)
    requires Placed(json, toks, i, v, off)
    ensures StringAt(json, toks, i, key) == StringIn(v, key)
  {
    hide Placed, Find, MemberAt;
    var voff := MemberMeans(json, toks, i, v, off, key);
    if Find(v, key).Some? {
      PlacedToken(json, toks, MemberAt(json, toks, i, key), Find(v, key).value, voff);
    }
  }

  /** The index member of the object at `i`. */
  function IndexAt(json: bytes, toks: seq<Tok>, i: int): Option<nat> {
    var x := MemberAt(json, toks, i, INDEX);
    if x >= 0 then IndexValue(json, toks[x]) else None
  }

  lemma IndexMeans(json: bytes, toks: seq<Tok>, i: int, v: Node, off: nat)
    requires Placed(json, toks, i, v, off)
    ensures IndexAt(json, toks, i) == IndexIn(v)
  {
    hide Placed, Find, MemberAt, EventStream.AllDigits, EventStream.DecimalValue;
    var voff := MemberMeans(json, toks, i, v, off, INDEX);
    if Find(v, INDEX).Some? {
      PlacedToken(json, toks, MemberAt(json, toks, i, INDEX), Find(v, INDEX).value, voff);
    }
  }

  lemma FitsMeans(json: bytes, toks: seq<Tok>, i: int, v: Node, off: nat, wanted: Option<nat>)
    requires Placed(json, toks, i, v, off)
    ensures Fits(json, toks, i, wanted) == Suits(v, wanted)
  {
    hide Placed, MemberAt, IndexValue, IndexIn;
    PlacedToken(json, toks, i, v, off);
    IndexMeans(json, toks, i, v, off);
  }

  lemma {:induction false} FirstMeans(json: bytes, toks: seq<Tok>, a: int, arr: Node, off: nat, wanted: Option<nat>, n: nat)
    requires Placed(json, toks, a, arr, off) && IsArray(arr) && n <= KidCount(arr.kids)
    ensures var r, s := FirstFit(json, toks, a, wanted, n), FirstSuiting(arr, wanted, n);
      r.Some? == s.Some? && (s.Some? ==> r.value == ElementAt(toks, a, s.value))
    decreases n
  {
    hide Placed, Fits, Suits, ElementAt, Nth, KindAt;
    if n > 0 {
      FirstMeans(json, toks, a, arr, off, wanted, n - 1);
      var voff := PlacedElement(json, toks, a, arr, off, n - 1);
      FitsMeans(json, toks, ElementAt(toks, a, n - 1), Nth(arr.kids, n - 1).value, voff, wanted);
    }
  }

  lemma ChoiceMeans(json: bytes, toks: seq<Tok>, a: int, arr: Node, off: nat, index: nat) returns (voff: nat)
    requires Placed(json, toks, a, arr, off) && IsArray(arr)
    ensures var c := Choice(json, toks, a, KidCount(arr.kids), index);
      match ChoiceIn(arr, index) case None => c == -1 case Some(w) => Placed(json, toks, c, w, voff)
  {
    hide Placed, FirstFit, FirstSuiting, ElementAt, Nth;
    voff := 0;
    var n := KidCount(arr.kids);
    FirstMeans(json, toks, a, arr, off, Some(index), n);
    FirstMeans(json, toks, a, arr, off, None, n);
    var exact, any := FirstSuiting(arr, Some(index), n), FirstSuiting(arr, None, n);
    if exact.Some? {
      voff := PlacedElement(json, toks, a, arr, off, exact.value);
    } else if index == 0 && any.Some? {
      voff := PlacedElement(json, toks, a, arr, off, any.value);
    }
  }

  lemma ToolMeans(json: bytes, toks: seq<Tok>, i: int, v: Node, off: nat)
    requires Placed(json, toks, i, v, off)
    ensures ToolDeltaOf(json, toks, i) == ToolIn(v)
  {
    hide Placed, Find, MemberAt, IndexValue, IndexIn, StringAt, StringIn;
    IndexMeans(json, toks, i, v, off);
    StringMeans(json, toks, i, v, off, ID);
    var foff := MemberMeans(json, toks, i, v, off, FUNCTION);
    if Find(v, FUNCTION).Some? {
      var f, w := MemberAt(json, toks, i, FUNCTION), Find(v, FUNCTION).value;
      PlacedToken(json, toks, f, w, foff);
      StringMeans(json, toks, f, w, foff, NAME);
      StringMeans(json, toks, f, w, foff, ARGUMENTS);
    }
  }

  lemma {:induction false} ToolsMean(json: bytes, toks: seq<Tok>, a: int, arr: Node, off: nat, n: nat)
    requires Placed(json, toks, a, arr, off) && IsArray(arr) && n <= KidCount(arr.kids)
    ensures ToolDeltas(json, toks, a, n) == ToolsIn(arr, n)
    decreases n
  {
    hide Placed, ElementAt, Nth, ToolDeltaOf, ToolIn;
    if n > 0 {
      ToolsMean(json, toks, a, arr, off, n - 1);
      var voff := PlacedElement(json, toks, a, arr, off, n - 1);
      PlacedToken(json, toks, ElementAt(toks, a, n - 1), Nth(arr.kids, n - 1).value, voff);
      ToolMeans(json, toks, ElementAt(toks, a, n - 1), Nth(arr.kids, n - 1).value, voff);
    }
  }

  lemma DeltaMeans(json: bytes, toks: seq<Tok>, i: int, v: Node, off: nat)
    requires Placed(json, toks, i, v, off)
    ensures DeltaOf(json, toks, i) == DeltaIn(v)
  {
    hide Placed, Find, MemberAt, StringAt, StringIn, ToolDeltas, ToolsIn;
    StringMeans(json, toks, i, v, off, FINISH);
    var doff := MemberMeans(json, toks, i, v, off, DELTA);
    if Find(v, DELTA).Some? {
      var d, w := MemberAt(json, toks, i, DELTA), Find(v, DELTA).value;
      PlacedToken(json, toks, d, w, doff);
      StringMeans(json, toks, d, w, doff, CONTENT);
      StringMeans(json, toks, d, w, doff, REASONING);
      StringMeans(json, toks, d, w, doff, THINKING);
      ToolListMeans(json, toks, d, w, doff);
    }
  }

  lemma ToolListMeans(json: bytes, toks: seq<Tok>, d: int, w: Node, off: nat)
    requires Placed(json, toks, d, w, off)
    ensures var t := Find(w, TOOL_CALLS);
      ToolsOf(json, toks, d) == if t.Some? && IsArray(t.value) then ToolsIn(t.value, KidCount(t.value.kids)) else Some([])
  {
    hide Placed, Find, MemberAt, ToolDeltas;
    var toff := MemberMeans(json, toks, d, w, off, TOOL_CALLS);
    if Find(w, TOOL_CALLS).Some? {
      var t, arr := MemberAt(json, toks, d, TOOL_CALLS), Find(w, TOOL_CALLS).value;
      PlacedToken(json, toks, t, arr, toff);
      if IsArray(arr) {
        ToolsMean(json, toks, t, arr, toff, KidCount(arr.kids));
        NoToolDeltas(json, toks, t);
      }
    }
  }

  lemma NoToolDeltas(json: bytes, toks: seq<Tok>, arr: int)
    ensures ToolDeltas(json, toks, arr, 0) == Some([])
  {
  }

  lemma CountMeans(json: bytes, toks: seq<Tok>, i: int, v: Node, off: nat, key: bytes)
    requires Placed(json, toks, i, v, off)
    ensures CountAt(json, toks, i, key) == CountIn(v, key)
  {
    hide Placed, Find, MemberAt, CountValue;
    var voff := MemberMeans(json, toks, i, v, off, key);
    if Find(v, key).Some? {
      PlacedToken(json, toks, MemberAt(json, toks, i, key), Find(v, key).value, voff);
    }
  }

  lemma UsageMeans(json: bytes, toks: seq<Tok>, v: Node, off: nat)
    requires Placed(json, toks, 0, v, off)
    ensures UsageAt(json, toks) == UsageIn(v)
  {
    hide Placed, Find, MemberAt, CountAt, CountIn;
    var uoff := MemberMeans(json, toks, 0, v, off, USAGE);
    if Find(v, USAGE).Some? {
      var u, w := MemberAt(json, toks, 0, USAGE), Find(v, USAGE).value;
      PlacedToken(json, toks, u, w, uoff);
      CountMeans(json, toks, u, w, uoff, PROMPT);
      CountMeans(json, toks, u, w, uoff, COMPLETION);
      CountMeans(json, toks, u, w, uoff, TOTAL);
    }
  }

  lemma ChunkMeans(json: bytes, toks: seq<Tok>, v: Node, off: nat, index: nat)
    requires Placed(json, toks, 0, v, off)
    ensures ChunkIn(json, toks, index) == ChunkMeaning(v, index)
  {
    hide Placed, Find, MemberAt, Choice, ChoiceIn, DeltaOf, DeltaIn, UsageAt, UsageIn;
    PlacedToken(json, toks, 0, v, off);
    UsageMeans(json, toks, v, off);
    var coff := MemberMeans(json, toks, 0, v, off, CHOICES);
    if Find(v, CHOICES).Some? {
      var a, arr := MemberAt(json, toks, 0, CHOICES), Find(v, CHOICES).value;
      PlacedToken(json, toks, a, arr, coff);
      if IsArray(arr) {
        var choff := ChoiceMeans(json, toks, a, arr, coff, index);
        NoChoice(arr, index);
        if ChoiceIn(arr, index).Some? {
          var c := Choice(json, toks, a, KidCount(arr.kids), index);
          PlacedToken(json, toks, c, ChoiceIn(arr, index).value, choff);
          DeltaMeans(json, toks, c, ChoiceIn(arr, index).value, choff);
        }
      }
    }
  }

  lemma NoChoice(arr: Node, index: nat)
    requires IsArray(arr)
    ensures KidCount(arr.kids) == 0 ==> ChoiceIn(arr, index) == None
  {
  }

  /**
   Main result. For every text that parses, the flat reader returns what its first top-level value means: the
   first pairs with the right keys, the wanted choice, and all tool-call deltas in order.
   */
  lemma ReaderFindsMeaning(json: bytes, index: nat) returns (doc: Node)
    requires Tokenized(json).Some?
    ensures WfDocument(doc) && Print(doc) == json
    ensures ChunkOf(json, index) == if doc.kids.NoKids? then None else ChunkMeaning(Nth(doc.kids, 0).value, index)
  {
    hide Jstok.Parse, Print, Flatten, Depth, WfDocument, Placed, ChunkIn, ChunkMeaning, Nth;
    var n := Jstok.Parse(json, Mode.Count, START).rc.n;
    SecondPassSucceeds(json, n);
    doc := ParseIsFlattening(json, n);
    DocumentShape(doc);
    if doc.kids.Snoc? {
      var off := PlacedRoot(json, doc);
      ChunkMeans(json, Flatten(doc, 0), Nth(doc.kids, 0).value, off, index);
    } else {
      NothingInside(doc);
      NoChunk(json, index);
    }
  }

  lemma DocumentShape(doc: Node)
    requires WfDocument(doc)
    ensures doc.Con?
  {
  }

  lemma NothingInside(doc: Node)
    requires WfDocument(doc) && doc.kids.NoKids?
    ensures Flatten(doc, 0) == []
  {
  }

  lemma NoChunk(json: bytes, index: nat)
    ensures ChunkIn(json, [], index) == None
  {
  }
}
