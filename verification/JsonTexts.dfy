/**
 The two places where a text must be JSON of some kind, in terms of the documents it is the text of: the arguments of a
 streamed tool call, and the content of a message that is passed on as it is.
 */
module JsonTexts {
  import opened Bytes
  import opened JsonLexer
  import opened Jstok
  import opened JsonTree
  import opened JstokComplete
  import opened JstokCount
  import opened JstokSound
  import opened Navigation
  import opened Places
  import opened ChatChunk
  import opened ChunkTree
  import opened ChatRequest
  import opened StreamTools

  /** At least one value, and none nested more than 64 deep. */
  ghost predicate IsValues(doc: Node) {
    WfDocument(doc) && Depth(doc) <= 64 && doc.Con? && doc.kids.Snoc?
  }

  /** The text of such values, no longer than an int can say. */
  ghost predicate IsValueText(text: bytes) {
    && 1 <= |text| <= 2147483647
    && exists doc :: IsValues(doc) && Print(doc) == text
  }

  lemma ShapeOfDocument(doc: Node)
    requires WfDocument(doc)
    ensures doc.Con? && (Size(doc) > 0 <==> doc.kids.Snoc?)
  {
    if doc.kids.Snoc? {
      assert WfKid(doc.kids.last);
      SizePositive(doc.kids.last.value);
    }
  }

  lemma SizePositive(v: Node)
    requires Wf(v)
    ensures Size(v) > 0
  {
  }

  /** Main result: the arguments that are accepted. */
  lemma IsJsonExactly(text: bytes)
    ensures IsJson(text) <==> IsValueText(text)
  {
    hide Parse, WfDocument, Depth, Print, Size, Flatten;
    var r := Parse(text, Mode.Count, START);
    if r.rc.Tokens? {
      SecondPassSucceeds(text, r.rc.n);
      var doc := ParseIsFlattening(text, r.rc.n);
      ShapeOfDocument(doc);
      assert text != [] && r.rc.n > 0 ==> IsValues(doc);
    }
    if IsValueText(text) {
      var doc :| IsValues(doc) && Print(doc) == text;
      ShapeOfDocument(doc);
      ParseInvertsPrint(doc, Size(doc));
      assert Counted(START) == START;
      CountAgreesWithFill(text, Size(doc), START);
    }
  }

  /** The usual arguments of a tool without parameters. */
  lemma EmptyObjectIsJson()
    ensures IsJson(Ascii("{}"))
  {
    hide IsJson;
    var v := Con(Obj, NoKids, []);
    var k := Kid([], [], [], [], [], v);
    var doc := Con(Root, Snoc(NoKids, k), []);
    assert WfKids(NoKids) && Wf(v) && Print(v) == [123, 125] == Ascii("{}");
    assert StringBody([]) && WfKid(k) && Head(Root, true, k) == [];
    assert KidsDepth(NoKids) == 0 && Depth(v) == 1;
    assert PrintKids(Root, NoKids) == [] && PrintKids(Root, doc.kids) == [] + ([] + Print(v));
    assert SetApart(NoKids, [], false) && IsValues(doc) && Print(doc) == Ascii("{}");
    IsJsonExactly(Ascii("{}"));
  }

  // --- content that is passed on --------------------------------------------------------------------------

  /** The first of these values is an array, of at most so many elements; 0 is "no limit". */
  predicate StartsWithArray(doc: Node, maxParts: nat)
    requires doc.Con? && doc.kids.Snoc?
  {
    var v := Nth(doc.kids, 0).value;
    IsArray(v) && (maxParts == 0 || KidCount(v.kids) <= maxParts)
  }

  ghost predicate IsArrayText(text: bytes, maxParts: nat) {
    exists doc :: IsValues(doc) && Print(doc) == text && StartsWithArray(doc, maxParts)
  }

  /** The tokens of a text are those of the document it is the text of. */
  lemma TokensOf(doc: Node)
    requires IsValues(doc)
    ensures Tokenized(Print(doc)) == Some(Flatten(doc, 0))
  {
    hide Parse, Print, WfDocument, Depth, Size, Flatten;
    ShapeOfDocument(doc);
    ParseInvertsPrint(doc, Size(doc));
    assert Counted(START) == START;
    CountAgreesWithFill(Print(doc), Size(doc), START);
  }

  lemma FirstIs(doc: Node, maxParts: nat)
    requires IsValues(doc)
    ensures var toks := Flatten(doc, 0);
      KindAt(toks, 0, Kind.Array) && (maxParts == 0 || 0 <= toks[0].size <= maxParts) <==> StartsWithArray(doc, maxParts)
  {
    hide WfDocument, Depth, Print, Flatten, Placed, Nth;
    var off := PlacedRoot(Print(doc), doc);
    PlacedToken(Print(doc), Flatten(doc, 0), 0, Nth(doc.kids, 0).value, off);
  }

  /** Main result: the content that is accepted. */
  lemma ContentExactly(text: bytes, maxParts: nat, maxBytes: nat)
    ensures ContentOk(text, maxParts, maxBytes) <==>
      && 1 <= |text| <= 2147483647 && (maxBytes == 0 || |text| <= maxBytes) && IsArrayText(text, maxParts)
  {
    hide Parse, Print, WfDocument, Depth, Size, Flatten, StartsWithArray;
    var r := Parse(text, Mode.Count, START);
    if r.rc.Tokens? {
      SecondPassSucceeds(text, r.rc.n);
      var doc := ParseIsFlattening(text, r.rc.n);
      ShapeOfDocument(doc);
      if doc.kids.Snoc? {
        FirstIs(doc, maxParts);
      } else {
        NothingInside(doc);
      }
    }
    if IsArrayText(text, maxParts) {
      var doc :| IsValues(doc) && Print(doc) == text && StartsWithArray(doc, maxParts);
      TokensOf(doc);
      FirstIs(doc, maxParts);
    }
  }
}
