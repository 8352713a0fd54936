/** The block extractor of backend/utils/pdfParser.ts: sanitise the parsed
    converter output, walk every element under `body` in document order and
    classify each one as a paragraph, image or table block, or nothing. */
module PdfParser {
  import opened Wrappers
  import opened Strings
  import opened Html

  /** One extracted block. A table keeps its sanitised subtree, which is
      what `$.html(el)` serialises. An image whose element has no `src`
      attribute has `src == None` (JavaScript's `undefined`). */
  datatype Block =
    | Paragraph(text: string)
    | Image(src: Option<string>)
    | Table(markup: Node)

  /** Elements removed with their whole subtree by `$("style, link, script")`. */
  const RemovedTags: set<string> := {"style", "link", "script"}
  /** Attributes `removeAttr` deletes from every element. */
  const StrippedAttrs: set<string> := {"style", "class"}
  /** Tags that become a paragraph. */
  const ParagraphTags: set<string> := {"p", "div", "span"}

  predicate IsRemoved(n: Node) {
    n.Element? && Lower(n.tag) in RemovedTags
  }

  // ---------------------------------------------------------------------
  // Sanitisation
  // ---------------------------------------------------------------------

  /** The attribute list without `style` and `class`; every other attribute
      keeps its value (`StripAttrsKeepsValues`) and its place
      (`StripAttrsOrder`). */
  function StripAttrs(attrs: seq<Attr>): (r: seq<Attr>)
    ensures |r| <= |attrs|
    ensures forall k :: 0 <= k < |r| ==> r[k].name !in StrippedAttrs
  {
    if attrs == [] then []
    else if attrs[0].name in StrippedAttrs then StripAttrs(attrs[1..])
    else [attrs[0]] + StripAttrs(attrs[1..])
  }

  /** Every attribute other than `style` and `class` reads the same after
      stripping. */
  lemma {:induction false} StripAttrsKeepsValues(attrs: seq<Attr>, name: string)
    requires name !in StrippedAttrs
    ensures AttrValue(StripAttrs(attrs), name) == AttrValue(attrs, name)
    decreases attrs
  {
    if attrs != [] {
      StripAttrsKeepsValues(attrs[1..], name);
      if attrs[0].name !in StrippedAttrs {
        var r := [attrs[0]] + StripAttrs(attrs[1..]);
        assert r[0] == attrs[0] && r[1..] == StripAttrs(attrs[1..]);
      }
    }
  }

  /** A forest with every removed element dropped (subtree and all) and
      every remaining element sanitised. */
  function SanitizeForest(cs: seq<Node>): (r: seq<Node>)
    ensures |r| <= |cs|
    ensures forall k :: 0 <= k < |r| ==> !IsRemoved(r[k])
    decreases cs
  {
    if cs == [] then []
    else if IsRemoved(cs[0]) then SanitizeForest(cs[1..])
    else [SanitizeNode(cs[0])] + SanitizeForest(cs[1..])
  }

  /** A kept node after sanitisation: same tag, attributes stripped,
      children sanitised. Text nodes are untouched. */
  function SanitizeNode(n: Node): (r: Node)
    ensures r.Element? == n.Element?
    ensures n.Element? ==> r.tag == n.tag && r.attrs == StripAttrs(n.attrs)
    ensures n.Element? ==> r.children == SanitizeForest(n.children)
    ensures n.Text? ==> r == n
    decreases n
  {
    match n
    case Text(_) => n
    case Element(t, a, cs) => Element(t, StripAttrs(a), SanitizeForest(cs))
  }

  /** No removed element and no stripped attribute anywhere in the forest. */
  predicate CleanForest(cs: seq<Node>)
    decreases cs
  {
    forall k :: 0 <= k < |cs| ==> CleanNode(cs[k])
  }

  predicate CleanNode(n: Node)
    decreases n
  {
    match n
    case Text(_) => true
    case Element(t, a, cs) =>
      && Lower(t) !in RemovedTags
      && (forall k :: 0 <= k < |a| ==> a[k].name !in StrippedAttrs)
      && CleanForest(cs)
  }

  lemma {:induction false} SanitizeForestClean(cs: seq<Node>)
    ensures CleanForest(SanitizeForest(cs))
    decreases cs
  {
    if cs != [] {
      SanitizeForestClean(cs[1..]);
      if !IsRemoved(cs[0]) {
        SanitizeNodeClean(cs[0]);
        var r := SanitizeForest(cs[1..]);
        assert forall k :: 1 <= k < |r| + 1 ==> ([SanitizeNode(cs[0])] + r)[k] == r[k - 1];
      }
    }
  }

  lemma {:induction false} SanitizeNodeClean(n: Node)
    requires !IsRemoved(n)
    ensures CleanNode(SanitizeNode(n))
    decreases n
  {
    if n.Element? {
      SanitizeForestClean(n.children);
    }
  }

  lemma {:induction false} StripAttrsClean(attrs: seq<Attr>)
    requires forall k :: 0 <= k < |attrs| ==> attrs[k].name !in StrippedAttrs
    ensures StripAttrs(attrs) == attrs
    decreases attrs
  {
    if attrs != [] {
      StripAttrsClean(attrs[1..]);
      assert attrs == [attrs[0]] + attrs[1..];
    }
  }

  /** Stripping two adjacent attribute lists separately gives the stripped
      whole. */
  lemma {:induction false} StripAttrsAppend(a: seq<Attr>, b: seq<Attr>)
    ensures StripAttrs(a + b) == StripAttrs(a) + StripAttrs(b)
    decreases a
  {
    if a == [] {
      assert a + b == b;
    } else {
      var ab := a + b;
      assert ab[0] == a[0] && ab[1..] == a[1..] + b;
      var head := if a[0].name in StrippedAttrs then [] else [a[0]];
      assert StripAttrs(ab) == head + StripAttrs(a[1..] + b);
      assert StripAttrs(a) == head + StripAttrs(a[1..]);
      StripAttrsAppend(a[1..], b);
    }
  }

  /** Stripping keeps the order of the kept attributes: it works attribute
      by attribute, dropping each stripped one and keeping every other in
      place. */
  lemma StripAttrsOrder(a: seq<Attr>, b: seq<Attr>, x: Attr)
    ensures StripAttrs(a + b) == StripAttrs(a) + StripAttrs(b)
    ensures StripAttrs([x]) == if x.name in StrippedAttrs then [] else [x]
  {
    StripAttrsAppend(a, b);
    assert [x][1..] == [];
  }

  /** A forest with no removed element and no stripped attribute comes
      back unchanged. */
  lemma {:induction false} SanitizeCleanIdentity(cs: seq<Node>)
    requires CleanForest(cs)
    ensures SanitizeForest(cs) == cs
    decreases cs
  {
    if cs != [] {
      assert CleanNode(cs[0]);
      assert CleanForest(cs[1..]) by {
        forall k | 0 <= k < |cs[1..]| ensures CleanNode(cs[1..][k]) {
          assert cs[1..][k] == cs[k + 1];
        }
      }
      SanitizeNodeCleanIdentity(cs[0]);
      SanitizeCleanIdentity(cs[1..]);
      assert cs == [cs[0]] + cs[1..];
    }
  }

  lemma {:induction false} SanitizeNodeCleanIdentity(n: Node)
    requires CleanNode(n)
    ensures !IsRemoved(n) && SanitizeNode(n) == n
    decreases n
  {
    if n.Element? {
      StripAttrsClean(n.attrs);
      SanitizeCleanIdentity(n.children);
    }
  }

  /** Sanitising twice is sanitising once. */
  lemma SanitizeIdempotent(cs: seq<Node>)
    ensures SanitizeForest(SanitizeForest(cs)) == SanitizeForest(cs)
  {
    SanitizeForestClean(cs);
    SanitizeCleanIdentity(SanitizeForest(cs));
  }

  /** Sanitising two adjacent forests separately gives the sanitised whole. */
  lemma {:induction false} SanitizeForestAppend(a: seq<Node>, b: seq<Node>)
    ensures SanitizeForest(a + b) == SanitizeForest(a) + SanitizeForest(b)
    decreases a
  {
    if a == [] {
      assert a + b == b;
    } else {
      assert (a + b)[0] == a[0];
      assert (a + b)[1..] == a[1..] + b;
      SanitizeForestAppend(a[1..], b);
    }
  }

  /** One node on its own: a removed element vanishes with its subtree,
      any other node is kept as its sanitised self. */
  lemma SanitizeSingleton(n: Node)
    ensures IsRemoved(n) ==> SanitizeForest([n]) == []
    ensures !IsRemoved(n) ==> SanitizeForest([n]) == [SanitizeNode(n)]
  {
    assert [n][1..] == [];
  }

  /** A removed element leaves no trace among its siblings: the forest
      sanitises exactly as if the element, its text and its markup were
      never there. */
  lemma RemovedLeavesNoTrace(pre: seq<Node>, x: Node, post: seq<Node>)
    requires IsRemoved(x)
    ensures SanitizeForest(pre + [x] + post) == SanitizeForest(pre + post)
  {
    SanitizeSingleton(x);
    calc {
      SanitizeForest(pre + [x] + post);
      { SanitizeForestAppend(pre + [x], post); }
      SanitizeForest(pre + [x]) + SanitizeForest(post);
      { SanitizeForestAppend(pre, [x]); }
      SanitizeForest(pre) + SanitizeForest(post);
      { SanitizeForestAppend(pre, post); }
      SanitizeForest(pre + post);
    }
  }

  /** A position somewhere inside a forest: either the forest itself, or
      inside the children of one element, with that element's siblings to
      its left and right. */
  datatype Place =
    | Here
    | Inside(left: seq<Node>, tag: string, attrs: seq<Attr>, inner: Place, right: seq<Node>)

  /** The forest with `f` put at the place `p`. */
  function Plug(p: Place, f: seq<Node>): (r: seq<Node>)
    ensures p.Here? ==> r == f
    ensures p.Inside? ==> |r| == |p.left| + 1 + |p.right| && r[|p.left|].Element?
  {
    match p
    case Here => f
    case Inside(l, t, a, q, rt) => l + [Element(t, a, Plug(q, f))] + rt
  }

  /** A removed element at any depth leaves no trace: the forest sanitises
      exactly as if it were absent. */
  lemma {:induction false} RemovedAtAnyDepth(p: Place, pre: seq<Node>, x: Node, post: seq<Node>)
    requires IsRemoved(x)
    ensures SanitizeForest(Plug(p, pre + [x] + post)) == SanitizeForest(Plug(p, pre + post))
    decreases p
  {
    match p
    case Here =>
      RemovedLeavesNoTrace(pre, x, post);
    case Inside(l, t, a, q, r) =>
      RemovedAtAnyDepth(q, pre, x, post);
      var e1 := Element(t, a, Plug(q, pre + [x] + post));
      var e2 := Element(t, a, Plug(q, pre + post));
      SanitizeSingleton(e1);
      SanitizeSingleton(e2);
      assert SanitizeForest([e1]) == SanitizeForest([e2]);
      SanitizeForestAppend(l + [e1], r);
      SanitizeForestAppend(l, [e1]);
      SanitizeForestAppend(l + [e2], r);
      SanitizeForestAppend(l, [e2]);
  }

  /** Every element the walk can visit in a clean forest is itself clean,
      subtree included. */
  lemma {:induction false} CleanDescendants(cs: seq<Node>)
    requires CleanForest(cs)
    ensures forall k :: 0 <= k < |Descendants(cs)| ==> CleanNode(Descendants(cs)[k])
    decreases cs
  {
    if cs != [] {
      CleanDescendants(cs[1..]);
      if cs[0].Element? {
        CleanDescendants(cs[0].children);
      }
    }
  }

  // ---------------------------------------------------------------------
  // Classification and the walk
  // ---------------------------------------------------------------------

  /** What one visited element contributes (the body of the `.each`
      callback): nothing when its trimmed text is empty and it is not an
      `img`; otherwise a block chosen by the lower-cased tag. */
  function Classify(e: Node): Option<Block>
  {
    if !e.Element? then None
    else
      var tag := Lower(e.tag);
      var text := Trim(TextContent(e));
      if text == "" && tag != "img" then None
      else if tag in ParagraphTags then Some(Paragraph(text))
      else if tag == "img" then Some(Image(AttrValue(e.attrs, "src")))
      else if tag == "table" then Some(Table(e))
      else None
  }

  function OptionToSeq(o: Option<Block>): (r: seq<Block>)
    ensures |r| <= 1
  {
    if o.Some? then [o.value] else []
  }

  /** `f` applied to every element of `xs`, keeping the `Some` results in
      order: the shape of a loop that pushes at most one item per step. */
  function FilterMap<A, B>(f: A -> Option<B>, xs: seq<A>): (r: seq<B>)
    ensures |r| <= |xs|
  {
    if xs == [] then [] else (if f(xs[0]).Some? then [f(xs[0]).value] else []) + FilterMap(f, xs[1..])
  }

  lemma {:induction false} FilterMapAppend<A, B>(f: A -> Option<B>, a: seq<A>, b: seq<A>)
    ensures FilterMap(f, a + b) == FilterMap(f, a) + FilterMap(f, b)
    decreases a
  {
    if a == [] {
      assert a + b == b;
    } else {
      var ab := a + b;
      assert ab[0] == a[0] && ab[1..] == a[1..] + b;
      var head := if f(a[0]).Some? then [f(a[0]).value] else [];
      assert FilterMap(f, ab) == head + FilterMap(f, a[1..] + b);
      assert FilterMap(f, a) == head + FilterMap(f, a[1..]);
      FilterMapAppend(f, a[1..], b);
    }
  }

  /** The positions of `xs` whose image under `f` is `Some`, in order: the
      origin of every item `FilterMap` returns. */
  function Positions<A, B>(f: A -> Option<B>, xs: seq<A>): (r: seq<nat>)
    ensures |r| == |FilterMap(f, xs)|
  {
    if xs == [] then []
    else
      var rest := Positions(f, xs[1..]);
      (if f(xs[0]).Some? then [0] else []) + seq(|rest|, k requires 0 <= k < |rest| => rest[k] + 1)
  }

  /** The k-th result comes from position `Positions(f, xs)[k]`. */
  lemma {:induction false} PositionsSound<A, B>(f: A -> Option<B>, xs: seq<A>, k: nat)
    requires k < |Positions(f, xs)|
    ensures Positions(f, xs)[k] < |xs| && f(xs[Positions(f, xs)[k]]) == Some(FilterMap(f, xs)[k])
  {
    var rest := Positions(f, xs[1..]);
    if f(xs[0]).Some? && k == 0 {
    } else {
      var k' := if f(xs[0]).Some? then k - 1 else k;
      PositionsSound(f, xs[1..], k');
      assert Positions(f, xs)[k] == rest[k'] + 1;
      assert FilterMap(f, xs)[k] == FilterMap(f, xs[1..])[k'];
    }
  }

  /** Results keep the order of the positions they come from. */
  lemma {:induction false} PositionsIncreasing<A, B>(f: A -> Option<B>, xs: seq<A>, k: nat, l: nat)
    requires k < l < |Positions(f, xs)|
    ensures Positions(f, xs)[k] < Positions(f, xs)[l]
  {
    var rest := Positions(f, xs[1..]);
    if f(xs[0]).Some? {
      if k > 0 {
        PositionsIncreasing(f, xs[1..], k - 1, l - 1);
      }
    } else {
      PositionsIncreasing(f, xs[1..], k, l);
    }
  }

  /** Every position whose image is `Some` yields a result. */
  lemma {:induction false} PositionsComplete<A, B>(f: A -> Option<B>, xs: seq<A>, j: nat)
    requires j < |xs| && f(xs[j]).Some?
    ensures j in Positions(f, xs)
  {
    var rest := Positions(f, xs[1..]);
    var shifted := seq(|rest|, k requires 0 <= k < |rest| => rest[k] + 1);
    assert Positions(f, xs) == (if f(xs[0]).Some? then [0] else []) + shifted;
    if j > 0 {
      assert xs[1..][j - 1] == xs[j];
      PositionsComplete(f, xs[1..], j - 1);
      var k :| 0 <= k < |rest| && rest[k] == j - 1;
      assert shifted[k] == j;
    }
  }

  /** The blocks of a sequence of visited elements, in visiting order. */
  function BlocksOf(ns: seq<Node>): (r: seq<Block>)
    ensures |r| <= |ns|
  {
    if ns == [] then [] else OptionToSeq(Classify(ns[0])) + BlocksOf(ns[1..])
  }

  lemma {:induction false} BlocksOfIsFilterMap(ns: seq<Node>)
    ensures BlocksOf(ns) == FilterMap(Classify, ns)
  {
    if ns != [] {
      BlocksOfIsFilterMap(ns[1..]);
    }
  }

  /** The elements the walk visits: every element under the sanitised body,
      in pre-order; the body element itself is not among them. */
  function Visited(body: Node): (r: seq<Node>)
    ensures forall k :: 0 <= k < |r| ==> r[k].Element?
  {
    Descendants(SanitizeForest(Children(body)))
  }

  /** The specification of `parsePdfHtml` on an already parsed document. */
  function ExtractBlocks(body: Node): (r: seq<Block>)
    ensures |r| <= |Visited(body)|
  {
    BlocksOf(Visited(body))
  }

  lemma BlocksOfOne(a: seq<Node>, e: Node)
    ensures BlocksOf(a + [e]) == BlocksOf(a) + OptionToSeq(Classify(e))
  {
    BlocksOfIsFilterMap(a + [e]);
    BlocksOfIsFilterMap(a);
    BlocksOfIsFilterMap([e]);
    FilterMapAppend(Classify, a, [e]);
  }

  /** The body of the `.each` callback for one visited element: the block
      it pushes, if any. It spells out the callback's statements one by one;
      `Classify` is the same decision as a value, and this method is proved
      against it. */
  method ClassifyElement(el: Node) returns (pushed: seq<Block>)
    requires el.Element?
    ensures pushed == OptionToSeq(Classify(el))
  {
    var tag := Lower(el.tag);
    var text := Trim(TextContent(el));
    pushed := [];
    if text != "" || tag == "img" {
      if tag in ParagraphTags {
        pushed := [Paragraph(text)];
      } else if tag == "img" {
        pushed := [Image(AttrValue(el.attrs, "src"))];
      } else if tag == "table" {
        pushed := [Table(el)];
      }
    }
  }

  /** The `.each` loop over the selected elements: push the block of each
      in turn. */
  method CollectBlocks(nodes: seq<Node>) returns (blocks: seq<Block>)
    requires forall k :: 0 <= k < |nodes| ==> nodes[k].Element?
    ensures blocks == BlocksOf(nodes)
  {
    blocks := [];
    var i := 0;
    while i < |nodes|
      invariant 0 <= i <= |nodes|
      invariant blocks == BlocksOf(nodes[..i])
    {
      var pushed := ClassifyElement(nodes[i]);
      CollectStep(nodes, i, blocks, pushed);
      blocks := blocks + pushed;
      i := i + 1;
    }
    assert nodes[..|nodes|] == nodes;
  }

  lemma CollectStep(nodes: seq<Node>, i: nat, blocks: seq<Block>, pushed: seq<Block>)
    requires i < |nodes| && blocks == BlocksOf(nodes[..i]) && pushed == OptionToSeq(Classify(nodes[i]))
    ensures blocks + pushed == BlocksOf(nodes[..i + 1])
  {
    BlocksOfOne(nodes[..i], nodes[i]);
    assert nodes[..i + 1] == nodes[..i] + [nodes[i]];
  }

  /** `parsePdfHtml` after the file has been read and parsed: sanitise,
      select every element under the body in document order, and collect
      their blocks. */
  method ParsePdfHtml(body: Node) returns (blocks: seq<Block>)
    ensures blocks == ExtractBlocks(body)
  {
    var nodes := Visited(body);
    blocks := CollectBlocks(nodes);
  }

  // ---------------------------------------------------------------------
  // Properties
  // ---------------------------------------------------------------------

  /** After sanitisation no `style`, `link` or `script` element and no
      `style` or `class` attribute is left anywhere under the body, so every
      visited element, and every table's markup, is clean. */
  lemma VisitedAreClean(body: Node)
    ensures forall k :: 0 <= k < |Visited(body)| ==> CleanNode(Visited(body)[k])
  {
    SanitizeForestClean(Children(body));
    CleanDescendants(SanitizeForest(Children(body)));
  }

  /** A `style`, `link` or `script` element anywhere under the body, at
      any depth, contributes nothing: neither its text nor its markup
      reaches any block, and the blocks are those of the body without it. */
  lemma RemovedElementIgnored(t: string, a: seq<Attr>, p: Place, pre: seq<Node>, x: Node, post: seq<Node>)
    requires IsRemoved(x)
    ensures ExtractBlocks(Element(t, a, Plug(p, pre + [x] + post))) == ExtractBlocks(Element(t, a, Plug(p, pre + post)))
  {
    RemovedAtAnyDepth(p, pre, x, post);
    assert Children(Element(t, a, Plug(p, pre + [x] + post))) == Plug(p, pre + [x] + post);
    assert Children(Element(t, a, Plug(p, pre + post))) == Plug(p, pre + post);
  }

  /** Classification, case by case. */
  lemma ClassifyCases(e: Node)
    requires e.Element?
    ensures Lower(e.tag) == "img" ==> Classify(e) == Some(Image(AttrValue(e.attrs, "src")))
    ensures Lower(e.tag) != "img" && AllWhitespace(TextContent(e)) ==> Classify(e) == None
    ensures Lower(e.tag) in ParagraphTags && !AllWhitespace(TextContent(e))
            ==> Classify(e) == Some(Paragraph(Trim(TextContent(e))))
    ensures Lower(e.tag) == "table" && !AllWhitespace(TextContent(e)) ==> Classify(e) == Some(Table(e))
    ensures Lower(e.tag) !in ParagraphTags + {"img", "table"} ==> Classify(e) == None
  {
    TrimEmptyIff(TextContent(e));
  }

  /** The whole extraction is an ordered selection over the pre-order walk:
      `idx` maps each block to the position of the visited element it came
      from, strictly increasing, and every visited element that classifies
      as a block appears in it. So there are never more blocks than visited
      elements, and none comes from the body element itself. */
  lemma ExtractOrder(body: Node) returns (idx: seq<nat>)
    ensures |idx| == |ExtractBlocks(body)| <= |Visited(body)|
    ensures forall k :: 0 <= k < |idx| ==>
              idx[k] < |Visited(body)| && Classify(Visited(body)[idx[k]]) == Some(ExtractBlocks(body)[k])
    ensures forall k, l :: 0 <= k < l < |idx| ==> idx[k] < idx[l]
    ensures forall j :: 0 <= j < |Visited(body)| && Classify(Visited(body)[j]).Some? ==> j in idx
  {
    var v := Visited(body);
    BlocksOfIsFilterMap(v);
    idx := Positions(Classify, v);
    forall k | 0 <= k < |idx|
      ensures idx[k] < |v| && Classify(v[idx[k]]) == Some(ExtractBlocks(body)[k])
    {
      PositionsSound(Classify, v, k);
    }
    forall k, l | 0 <= k < l < |idx| ensures idx[k] < idx[l] {
      PositionsIncreasing(Classify, v, k, l);
    }
    forall j | 0 <= j < |v| && Classify(v[j]).Some? ensures j in idx {
      PositionsComplete(Classify, v, j);
    }
  }

  /** What a block says about the clean element it was classified from. */
  lemma ClassifiedBlockFacts(e: Node, b: Block)
    requires CleanNode(e) && Classify(e) == Some(b)
    ensures b.Paragraph? ==> b.text != "" && IsTrimmed(b.text)
    ensures b.Table? ==> b.markup == e && CleanNode(e) && e.Element? && Lower(e.tag) == "table"
                         && !AllWhitespace(TextContent(e))
  {
    TrimSlice(TextContent(e));
    TrimEmptyIff(TextContent(e));
  }

  /** Every block says what its kind promises: a paragraph holds non-empty
      trimmed text; a table holds a clean `table` subtree with text; each
      block comes from a clean visited element. */
  lemma ExtractedBlocksWellFormed(body: Node)
    ensures forall b :: b in ExtractBlocks(body) ==>
              exists e :: e in Visited(body) && CleanNode(e) && Classify(e) == Some(b)
    ensures forall b :: b in ExtractBlocks(body) && b.Paragraph? ==> b.text != "" && IsTrimmed(b.text)
    ensures forall b :: b in ExtractBlocks(body) && b.Table? ==>
              CleanNode(b.markup) && b.markup.Element? && Lower(b.markup.tag) == "table"
              && !AllWhitespace(TextContent(b.markup))
  {
    var idx := ExtractOrder(body);
    VisitedAreClean(body);
    var v := Visited(body);
    var bs := ExtractBlocks(body);
    forall b | b in bs
      ensures exists e :: e in v && CleanNode(e) && Classify(e) == Some(b)
      ensures b.Paragraph? ==> b.text != "" && IsTrimmed(b.text)
      ensures b.Table? ==> CleanNode(b.markup) && b.markup.Element? && Lower(b.markup.tag) == "table"
                           && !AllWhitespace(TextContent(b.markup))
    {
      var k :| 0 <= k < |bs| && bs[k] == b;
      var e := v[idx[k]];
      ClassifiedBlockFacts(e, b);
    }
  }

  /** An empty body yields no blocks, whatever the body's own tag and
      attributes. */
  lemma EmptyBodyNoBlocks(t: string, a: seq<Attr>)
    ensures ExtractBlocks(Element(t, a, [])) == []
  {
  }

  /** A `div` wrapping a `p` with text gives two paragraphs with the same
      text: one per element, because `text()` takes in the whole subtree. */
  lemma DivWrappingParagraph(s: string)
    requires !AllWhitespace(s)
    ensures ExtractBlocks(Element("body", [], [Element("div", [], [Element("p", [], [Text(s)])])]))
            == [Paragraph(Trim(s)), Paragraph(Trim(s))]
  {
    var p := Element("p", [], [Text(s)]);
    var d := Element("div", [], [p]);
    DivWrappingVisited(s);
    DivWrappingClassified(s);
    BlocksOfIsFilterMap([d, p]);
    FilterMapTwo(Classify, d, p, Paragraph(Trim(s)), Paragraph(Trim(s)));
  }

  lemma DivWrappingVisited(s: string)
    ensures Visited(Element("body", [], [Element("div", [], [Element("p", [], [Text(s)])])]))
            == [Element("div", [], [Element("p", [], [Text(s)])]), Element("p", [], [Text(s)])]
  {
    var p := Element("p", [], [Text(s)]);
    var d := Element("div", [], [p]);
    assert Lower("div") == "div" && Lower("p") == "p";
    assert [Text(s)][1..] == [] && [p][1..] == [] && [d][1..] == [];
    assert SanitizeForest([Text(s)]) == [Text(s)];
    assert SanitizeForest([p]) == [p];
    assert SanitizeForest([d]) == [d];
    assert Descendants([Text(s)]) == [];
    assert Descendants([p]) == [p];
    assert Descendants([d]) == [d, p];
  }

  lemma DivWrappingClassified(s: string)
    requires !AllWhitespace(s)
    ensures Classify(Element("div", [], [Element("p", [], [Text(s)])])) == Some(Paragraph(Trim(s)))
    ensures Classify(Element("p", [], [Text(s)])) == Some(Paragraph(Trim(s)))
  {
    var p := Element("p", [], [Text(s)]);
    var d := Element("div", [], [p]);
    assert [Text(s)][1..] == [] && [p][1..] == [];
    assert ForestText([Text(s)]) == s + "";
    assert TextContent(p) == s;
    assert ForestText([p]) == s + "";
    assert TextContent(d) == s;
    assert Lower("div") == "div" && Lower("p") == "p";
    ClassifyCases(d);
    ClassifyCases(p);
  }

  lemma FilterMapTwo<A, B>(f: A -> Option<B>, x1: A, x2: A, y1: B, y2: B)
    requires f(x1) == Some(y1) && f(x2) == Some(y2)
    ensures FilterMap(f, [x1, x2]) == [y1, y2]
  {
    assert [x2][1..] == [];
    assert FilterMap(f, [x2]) == [y2];
    assert [x1, x2][1..] == [x2];
  }

  function MixedP(a: string): Node { Element("p", [], [Text(a)]) }
  function MixedImg(src: string): Node { Element("img", [Attr("src", src)], []) }
  function MixedTable(b: string): Node { Element("table", [], [Text(b)]) }
  function MixedDiv(a: string, src: string, b: string): Node {
    Element("div", [], [MixedP(a), MixedImg(src), MixedTable(b)])
  }

  lemma MixedContentSanitized(a: string, src: string, b: string)
    ensures SanitizeForest([MixedDiv(a, src, b)]) == [MixedDiv(a, src, b)]
  {
    var p, img, table, d := MixedP(a), MixedImg(src), MixedTable(b), MixedDiv(a, src, b);
    assert Lower("div") == "div" && Lower("p") == "p" && Lower("img") == "img" && Lower("table") == "table";
    assert [p, img, table][1..] == [img, table] && [img, table][1..] == [table];
    assert [Text(a)][1..] == [] && [Text(b)][1..] == [] && [table][1..] == [] && [d][1..] == [];
    assert StripAttrs([Attr("src", src)]) == [Attr("src", src)];
    assert SanitizeForest([Text(a)]) == [Text(a)] && SanitizeForest([Text(b)]) == [Text(b)];
    assert SanitizeNode(p) == p && SanitizeNode(table) == table && SanitizeNode(img) == img;
    assert SanitizeForest([table]) == [table];
    assert SanitizeForest([img, table]) == [img, table];
    assert SanitizeForest([p, img, table]) == [p, img, table];
  }

  lemma MixedContentVisited(a: string, src: string, b: string)
    ensures Visited(Element("body", [], [MixedDiv(a, src, b)]))
            == [MixedDiv(a, src, b), MixedP(a), MixedImg(src), MixedTable(b)]
  {
    var p, img, table, d := MixedP(a), MixedImg(src), MixedTable(b), MixedDiv(a, src, b);
    MixedContentSanitized(a, src, b);
    assert [p, img, table][1..] == [img, table] && [img, table][1..] == [table];
    assert [Text(a)][1..] == [] && [Text(b)][1..] == [] && [table][1..] == [] && [d][1..] == [];
    assert Descendants([Text(a)]) == [] && Descendants([Text(b)]) == [];
    assert Descendants([table]) == [table];
    assert Descendants([img, table]) == [img, table];
    assert Descendants([p, img, table]) == [p, img, table];
    assert Descendants([d]) == [d, p, img, table];
  }

  lemma MixedContentTexts(a: string, src: string, b: string)
    ensures TextContent(MixedP(a)) == a && TextContent(MixedTable(b)) == b
    ensures TextContent(MixedImg(src)) == "" && TextContent(MixedDiv(a, src, b)) == a + b
  {
    var p, img, table := MixedP(a), MixedImg(src), MixedTable(b);
    assert [p, img, table][1..] == [img, table] && [img, table][1..] == [table];
    assert [Text(a)][1..] == [] && [Text(b)][1..] == [] && [table][1..] == [];
    assert ForestText([Text(a)]) == a + "" && ForestText([Text(b)]) == b + "";
    assert ForestText([table]) == b + "";
    assert ForestText([img, table]) == "" + b;
    assert ForestText([p, img, table]) == a + b;
  }

  lemma MixedContentClassified(a: string, src: string, b: string)
    requires !AllWhitespace(a) && !AllWhitespace(b)
    ensures Classify(MixedDiv(a, src, b)) == Some(Paragraph(Trim(a + b)))
    ensures Classify(MixedP(a)) == Some(Paragraph(Trim(a)))
    ensures Classify(MixedImg(src)) == Some(Image(Some(src)))
    ensures Classify(MixedTable(b)) == Some(Table(MixedTable(b)))
  {
    var p, img, table, d := MixedP(a), MixedImg(src), MixedTable(b), MixedDiv(a, src, b);
    MixedContentTexts(a, src, b);
    assert !AllWhitespace(a + b) by {
      var k :| 0 <= k < |a| && !IsJsWhitespace(a[k]);
      assert (a + b)[k] == a[k];
    }
    assert Lower("div") == "div" && Lower("p") == "p" && Lower("img") == "img" && Lower("table") == "table";
    assert AttrValue(img.attrs, "src") == Some(src);
    assert "table"[0] == 't';
    ClassifyCases(d);
    ClassifyCases(p);
    ClassifyCases(img);
    ClassifyCases(table);
  }

  lemma MixedContentBlocks(a: string, src: string, b: string)
    requires !AllWhitespace(a) && !AllWhitespace(b)
    ensures BlocksOf([MixedDiv(a, src, b), MixedP(a), MixedImg(src), MixedTable(b)])
            == [Paragraph(Trim(a + b)), Paragraph(Trim(a)), Image(Some(src)), Table(MixedTable(b))]
  {
    MixedContentClassified(a, src, b);
    BlocksOfFour(MixedDiv(a, src, b), MixedP(a), MixedImg(src), MixedTable(b),
                 Paragraph(Trim(a + b)), Paragraph(Trim(a)), Image(Some(src)), Table(MixedTable(b)));
  }

  lemma BlocksOfFour(n1: Node, n2: Node, n3: Node, n4: Node, b1: Block, b2: Block, b3: Block, b4: Block)
    requires Classify(n1) == Some(b1) && Classify(n2) == Some(b2)
    requires Classify(n3) == Some(b3) && Classify(n4) == Some(b4)
    ensures BlocksOf([n1, n2, n3, n4]) == [b1, b2, b3, b4]
  {
    BlocksOfIsFilterMap([n1, n2, n3, n4]);
    FilterMapFour(Classify, n1, n2, n3, n4, b1, b2, b3, b4);
  }

  lemma FilterMapFour<A, B>(f: A -> Option<B>, x1: A, x2: A, x3: A, x4: A, y1: B, y2: B, y3: B, y4: B)
    requires f(x1) == Some(y1) && f(x2) == Some(y2) && f(x3) == Some(y3) && f(x4) == Some(y4)
    ensures FilterMap(f, [x1, x2, x3, x4]) == [y1, y2, y3, y4]
  {
    assert [x4][1..] == [];
    assert FilterMap(f, [x4]) == [y4];
    assert [x3, x4][1..] == [x4];
    assert FilterMap(f, [x3, x4]) == [y3, y4];
    assert [x2, x3, x4][1..] == [x3, x4];
    assert FilterMap(f, [x2, x3, x4]) == [y2, y3, y4];
    assert [x1, x2, x3, x4][1..] == [x2, x3, x4];
  }

  /** The body `<div><p>a</p><img src=…><table>b</table></div>` (texts `a`
      and `b` not blank): the `div`'s text takes in the table's, so the
      first paragraph is `a + b` trimmed; then the `p`, the image and the
      table follow in document order. */
  lemma MixedContentExample(a: string, src: string, b: string)
    requires !AllWhitespace(a) && !AllWhitespace(b)
    ensures ExtractBlocks(Element("body", [], [MixedDiv(a, src, b)]))
            == [Paragraph(Trim(a + b)), Paragraph(Trim(a)), Image(Some(src)), Table(MixedTable(b))]
  {
    MixedContentVisited(a, src, b);
    MixedContentBlocks(a, src, b);
  }

  /** A table holding only an image has no text, so it yields no table
      block; the image inside it still yields its own block, with no `src`
      when the attribute is missing. */
  lemma ImageOnlyTableExample()
    ensures
      var img := Element("img", [], []);
      ExtractBlocks(Element("body", [], [Element("table", [], [img])])) == [Image(None)]
  {
    var img := Element("img", [], []);
    var table := Element("table", [], [img]);
    assert Lower("img") == "img" && Lower("table") == "table";
    assert [img][1..] == [] && [table][1..] == [];
    assert SanitizeForest([img]) == [img];
    assert SanitizeForest([table]) == [table];
    assert Descendants([img]) == [img];
    assert Descendants([table]) == [table, img];
    assert TextContent(img) == "";
    assert ForestText([img]) == "";
    assert TextContent(table) == "";
    assert Classify(table) == None;
    assert Classify(img) == Some(Image(None));
    assert BlocksOf([img]) == [Image(None)];
  }
}
