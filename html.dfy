/** The parsed HTML document as the extractor sees it: a tree of element
    and text nodes, as cheerio builds it from the converter's output. */
module Html {
  import opened Wrappers

  datatype Attr = Attr(name: string, value: string)

  /** A DOM node. Comments and processing instructions carry no text for
      `text()` and are never selected by `*`, so they are not modelled. */
  datatype Node =
    | Text(data: string)
    | Element(tag: string, attrs: seq<Attr>, children: seq<Node>)

  /** `$(el).attr(name)`: the value of the first attribute with that name,
      or `undefined` when there is none. */
  function AttrValue(attrs: seq<Attr>, name: string): (r: Option<string>)
    ensures r.None? <==> forall k :: 0 <= k < |attrs| ==> attrs[k].name != name
    ensures r.Some? ==> exists k :: 0 <= k < |attrs| && attrs[k] == Attr(name, r.value)
                                    && forall j :: 0 <= j < k ==> attrs[j].name != name
  {
    if attrs == [] then None
    else if attrs[0].name == name then Some(attrs[0].value)
    else AttrValue(attrs[1..], name)
  }

  function Children(n: Node): seq<Node> {
    if n.Element? then n.children else []
  }

  /** `$(el).text()`: the text of every text node in the subtree, in
      document order. */
  function TextContent(n: Node): (r: string)
    ensures n.Text? ==> r == n.data
    decreases n
  {
    match n
    case Text(s) => s
    case Element(_, _, cs) => ForestText(cs)
  }

  function ForestText(cs: seq<Node>): (r: string)
    ensures cs == [] ==> r == ""
    decreases cs
  {
    if cs == [] then "" else TextContent(cs[0]) + ForestText(cs[1..])
  }

  /** The elements of a forest in document order (depth-first, pre-order):
      what the selector `body *` yields when `cs` are the body's children.
      Text nodes are not elements and are not selected. */
  function Descendants(cs: seq<Node>): (r: seq<Node>)
    ensures forall k :: 0 <= k < |r| ==> r[k].Element?
    decreases cs
  {
    if cs == [] then []
    else
      match cs[0]
      case Text(_) => Descendants(cs[1..])
      case Element(_, _, ch) => [cs[0]] + Descendants(ch) + Descendants(cs[1..])
  }

  /** The selection of two adjacent forests is the selection of the first
      followed by that of the second. */
  lemma {:induction false} DescendantsAppend(a: seq<Node>, b: seq<Node>)
    ensures Descendants(a + b) == Descendants(a) + Descendants(b)
    decreases a
  {
    if a != [] {
      assert (a + b)[0] == a[0];
      assert (a + b)[1..] == a[1..] + b;
      DescendantsAppend(a[1..], b);
    } else {
      assert a + b == b;
    }
  }

  /** The text of two adjacent forests is the concatenation of their texts. */
  lemma {:induction false} ForestTextAppend(a: seq<Node>, b: seq<Node>)
    ensures ForestText(a + b) == ForestText(a) + ForestText(b)
    decreases a
  {
    if a != [] {
      assert (a + b)[0] == a[0];
      assert (a + b)[1..] == a[1..] + b;
      ForestTextAppend(a[1..], b);
    } else {
      assert a + b == b;
    }
  }
}
