/**
 A stream in which a tool call is reported and never completed: the calls are ended before its delta arrives.
 */
module LateDelta {
  import opened Bytes
  import opened JsonLexer
  import opened JsonTree
  import opened Navigation
  import opened Places
  import opened JsonWriter
  import opened ChatChunk
  import opened ChunkTree
  import opened StreamTools
  import opened StreamComplete
  import ToolCallsRoundTrip
  import Jstok

  /** An object with one member. */
  function Only(key: bytes, v: Node): Node {
    ToolCallsRoundTrip.ObjNode(Snoc(NoKids, ToolCallsRoundTrip.Pair(key, v)))
  }

  /** An array with one element. */
  function Single(v: Node): Node {
    Con(Arr, Snoc(NoKids, ToolCallsRoundTrip.Item(v)), [])
  }

  const EMPTY := ToolCallsRoundTrip.ObjNode(NoKids)

  /** `{"choices":[{"finish_reason":"tool_calls"}]}` */
  const END_TREE := Only(CHOICES, Single(Only(FINISH, Str(TOOL_CALLS))))

  /** `{"choices":[{"delta":{"tool_calls":[{}]}}]}` */
  const DELTA_TREE := Only(CHOICES, Single(Only(DELTA, Only(TOOL_CALLS, Single(EMPTY)))))

  // --- reading the trees ----------------------------------------------------------------------------------

  lemma FindOnly(key: bytes, v: Node, wanted: bytes)
    ensures Find(Only(key, v), wanted) == if key == wanted then Some(v) else None
    ensures IsObject(Only(key, v))
  {
    hide Find;
    var ks := Snoc(NoKids, ToolCallsRoundTrip.Pair(key, v));
    assert FirstWithKey(NoKids, wanted) == None;
    assert Only(key, v).kids == ks && KidCount(ks) == 1 && Nth(ks, 0) == ks.last;
    FindIs(Only(key, v), wanted);
  }

  lemma FindIs(v: Node, key: bytes)
    requires IsObject(v)
    ensures Find(v, key) ==
      if FirstWithKey(v.kids, key).Some? then Some(Nth(v.kids, FirstWithKey(v.kids, key).value).value) else None
  {
  }

  lemma FindEmpty(wanted: bytes)
    ensures Find(EMPTY, wanted) == None && IsObject(EMPTY)
  {
  }

  lemma SingleIs(v: Node)
    ensures IsArray(Single(v)) && KidCount(Single(v).kids) == 1 && Nth(Single(v).kids, 0).value == v
  {
  }

  /** Choice 0 of a single object is that object, whatever its index member. */
  lemma ChoiceOfSingle(v: Node)
    requires IsObject(v) && Find(v, INDEX) == None
    ensures ChoiceIn(Single(v), 0) == Some(v)
  {
    hide Find, Nth;
    SingleIs(v);
    assert FirstSuiting(Single(v), Some(0), 0) == None && FirstSuiting(Single(v), None, 0) == None;
  }

  lemma EndMeans()
    ensures ChunkMeaning(END_TREE, 0) == Some(Chunk(NO_DELTA.(finish := ToolCalls), None))
  {
    hide Find, ChoiceIn;
    var choice := Only(FINISH, Str(TOOL_CALLS));
    FindOnly(CHOICES, Single(choice), CHOICES);
    FindOnly(CHOICES, Single(choice), USAGE);
    FindOnly(FINISH, Str(TOOL_CALLS), INDEX);
    FindOnly(FINISH, Str(TOOL_CALLS), FINISH);
    FindOnly(FINISH, Str(TOOL_CALLS), DELTA);
    SingleIs(choice);
    ChoiceOfSingle(choice);
  }

  const NO_TOOL := ToolDelta(0, None, None, None)

  lemma EmptyTool()
    ensures ToolIn(EMPTY) == NO_TOOL
  {
    hide Find;
    FindEmpty(INDEX);
    FindEmpty(FUNCTION);
    FindEmpty(ID);
  }

  lemma OneTool()
    ensures ToolsIn(Single(EMPTY), KidCount(Single(EMPTY).kids)) == Some([NO_TOOL])
  {
    hide Nth, ToolIn;
    SingleIs(EMPTY);
    EmptyTool();
    assert ToolsIn(Single(EMPTY), 0) == Some([]);
    assert [] + [NO_TOOL] == [NO_TOOL];
  }

  lemma DeltaMeansTool()
    ensures ChunkMeaning(DELTA_TREE, 0) == Some(Chunk(NO_DELTA.(tools := [NO_TOOL]), None))
  {
    hide Find, ChoiceIn, ToolsIn;
    var d := Only(TOOL_CALLS, Single(EMPTY));
    var choice := Only(DELTA, d);
    FindOnly(CHOICES, Single(choice), CHOICES);
    FindOnly(CHOICES, Single(choice), USAGE);
    FindOnly(DELTA, d, INDEX);
    FindOnly(DELTA, d, FINISH);
    FindOnly(DELTA, d, DELTA);
    FindOnly(TOOL_CALLS, Single(EMPTY), TOOL_CALLS);
    FindOnly(TOOL_CALLS, Single(EMPTY), REASONING);
    FindOnly(TOOL_CALLS, Single(EMPTY), THINKING);
    FindOnly(TOOL_CALLS, Single(EMPTY), CONTENT);
    SingleIs(choice);
    SingleIs(EMPTY);
    ChoiceOfSingle(choice);
    OneTool();
  }

  // --- parsing the texts ----------------------------------------------------------------------------------

  lemma OnlyGood(key: bytes, v: Node, d: nat)
    requires (forall i :: 0 <= i < |key| ==> IsPlain(key[i])) && Good(v, d)
    ensures Good(Only(key, v), d + 1)
  {
    hide Good, ToolCallsRoundTrip.GoodKids;
    ToolCallsRoundTrip.PlainBody(key);
    NoKidsGood(d);
    ToolCallsRoundTrip.PairGood(NoKids, key, v, d);
    ToolCallsRoundTrip.ObjectGood(Snoc(NoKids, ToolCallsRoundTrip.Pair(key, v)), d);
  }

  lemma NoKidsGood(d: nat)
    ensures ToolCallsRoundTrip.GoodKids(NoKids, d) && Good(EMPTY, d + 1)
  {
  }

  lemma SingleGood(v: Node, d: nat)
    requires Good(v, d)
    ensures Good(Single(v), d + 1)
  {
    var ks := Snoc(NoKids, ToolCallsRoundTrip.Item(v));
    assert WfKids(NoKids) && WfKid(ToolCallsRoundTrip.Item(v)) && WfKids(ks);
    assert KidsDepth(NoKids) == 0 && KidsDepth(ks) == Depth(v);
  }

  lemma PlainGood(s: bytes, d: nat)
    requires forall i :: 0 <= i < |s| ==> IsPlain(s[i])
    ensures Good(Str(s), d)
  {
    ToolCallsRoundTrip.PlainBody(s);
  }

  lemma TreesGood()
    ensures Good(END_TREE, 4) && Good(DELTA_TREE, 6)
  {
    hide Good, Only, Single, StringBody, END_TREE, DELTA_TREE;
    PlainGood(TOOL_CALLS, 0);
    OnlyGood(FINISH, Str(TOOL_CALLS), 0);
    SingleGood(Only(FINISH, Str(TOOL_CALLS)), 1);
    OnlyGood(CHOICES, Single(Only(FINISH, Str(TOOL_CALLS))), 2);
    NoKidsGood(0);
    var tools := Only(TOOL_CALLS, Single(EMPTY));
    SingleGood(EMPTY, 1);
    OnlyGood(TOOL_CALLS, Single(EMPTY), 2);
    OnlyGood(DELTA, tools, 3);
    SingleGood(Only(DELTA, tools), 4);
    OnlyGood(CHOICES, Single(Only(DELTA, tools)), 5);
    TreesAre();
    GoodMore(Only(CHOICES, Single(Only(FINISH, Str(TOOL_CALLS)))), 3, 4);
  }

  lemma TreesAre()
    ensures END_TREE == Only(CHOICES, Single(Only(FINISH, Str(TOOL_CALLS))))
    ensures DELTA_TREE == Only(CHOICES, Single(Only(DELTA, Only(TOOL_CALLS, Single(EMPTY)))))
  {
  }

  lemma GoodMore(v: Node, d: nat, e: nat)
    requires Good(v, d) && d <= e
    ensures Good(v, e)
  {
    hide Wf, Depth;
  }

  /** The text of a chunk is read as the tree it was printed from. */
  lemma PrintedChunk(v: Node, index: nat)
    requires IsObject(v) && Good(v, Jstok.MAX_DEPTH)
    ensures ChunkOf(Print(v), index) == ChunkMeaning(v, index)
    ensures Print(v) != DONE && Print(v) != []
  {
    hide Jstok.Parse, Good, Placed, ChunkIn, ChunkMeaning;
    var n := ToolCallsRoundTrip.ParsesBack(v);
    ChunkMeans(Print(v), Jstok.Parse(Print(v), Jstok.Fill(n), Jstok.START).p.toks, v, 0, index);
    StartsWithBrace(v);
  }

  lemma StartsWithBrace(v: Node)
    requires IsObject(v)
    ensures Print(v) != [] && Print(v)[0] == Jstok.LBRACE
  {
    hide PrintKids;
  }

  // --- the run --------------------------------------------------------------------------------------------

  const EVENTS: seq<bytes> := [Print(END_TREE), Print(DELTA_TREE), DONE]

  lemma AfterEnd(cfg: Config)
    requires cfg.choice == 0
    ensures OnEvent(cfg, NEW_STREAM, Print(END_TREE)) == NEW_STREAM.(finalized := true, calls := [OnFinish(ToolCalls)])
  {
    hide END_TREE, ChunkMeaning, ChunkOf;
    TreesGood();
    EndMeans();
    ObjectTrees();
    GoodMore(END_TREE, 4, Jstok.MAX_DEPTH);
    PrintedChunk(END_TREE, 0);
    assert FinalizeFrom(NEW_STREAM.(finalized := true), 0) == NEW_STREAM.(finalized := true);
  }

  lemma ObjectTrees()
    ensures IsObject(END_TREE) && IsObject(DELTA_TREE)
  {
  }

  lemma AfterDelta(cfg: Config, s: Stream)
    requires cfg.choice == 0 && cfg.room > 0 && s == NEW_STREAM.(finalized := true, calls := [OnFinish(ToolCalls)])
    ensures var r := OnEvent(cfg, s, Print(DELTA_TREE));
      && !r.broken && !r.done && r.finalized && r.error == NoError
      && r.calls == [OnFinish(ToolCalls), OnToolDelta(NO_TOOL)]
  {
    hide DELTA_TREE, ChunkMeaning, ChunkOf, OnChunk;
    TreesGood();
    DeltaMeansTool();
    ObjectTrees();
    GoodMore(DELTA_TREE, 6, Jstok.MAX_DEPTH);
    PrintedChunk(DELTA_TREE, 0);
    AfterChunk(cfg, s);
  }

  lemma AfterChunk(cfg: Config, s: Stream)
    requires cfg.room > 0 && s == NEW_STREAM.(finalized := true, calls := [OnFinish(ToolCalls)])
    ensures var r := OnChunk(cfg, s, Chunk(NO_DELTA.(tools := [NO_TOOL]), None));
      && !r.broken && !r.done && r.finalized && r.error == NoError
      && r.calls == [OnFinish(ToolCalls), OnToolDelta(NO_TOOL)]
  {
    var chunk := Chunk(NO_DELTA.(tools := [NO_TOOL]), None);
    assert TextCalls(cfg, chunk) == [] && s.calls + [] == s.calls;
    var s1 := ToolStep(cfg, s, NO_TOOL);
    assert s1.calls == [OnFinish(ToolCalls), OnToolDelta(NO_TOOL)];
    assert [NO_TOOL][1..] == [] && ToolSteps(cfg, s1, []) == s1;
    assert ToolSteps(cfg, s, [NO_TOOL]) == s1;
  }

  /** The input: the calls are ended, then a delta arrives; it is reported, nothing is completed, and all is well. */
  lemma LateDeltaIsNeverCompleted(cfg: Config, transferred: bool)
    requires cfg.choice == 0 && cfg.room > 0
    ensures var r := EndOfStream(OnEvents(cfg, NEW_STREAM, EVENTS), transferred);
      && r.done && !r.broken && r.error == NoError && r.calls == [OnFinish(ToolCalls), OnToolDelta(NO_TOOL)]
      && !EveryCallCompletes(r.calls)
  {
    hide OnEvent, END_TREE, DELTA_TREE;
    AfterEnd(cfg);
    var s1 := OnEvent(cfg, NEW_STREAM, Print(END_TREE));
    AfterDelta(cfg, s1);
    var s2 := OnEvent(cfg, s1, Print(DELTA_TREE));
    assert EVENTS[..2] == [Print(END_TREE), Print(DELTA_TREE)] && EVENTS[..2][..1] == [Print(END_TREE)];
    assert EVENTS[..2][..1][..0] == [];
    assert OnEvents(cfg, NEW_STREAM, EVENTS[..2][..1]) == s1;
    assert OnEvents(cfg, NEW_STREAM, EVENTS[..2]) == s2;
    DoneEvent(cfg, s2);
    var calls := s2.calls;
    assert calls[1].OnToolDelta?;
  }

  lemma DoneEvent(cfg: Config, s: Stream)
    requires !s.broken && !s.done
    ensures OnEvent(cfg, s, DONE) == s.(done := true)
  {
  }
}
