/** HTML to Slate tree: `deserialize` and `deserializeNode`, over an abstract
    DOM (the browser's HTML parser is outside the model), and the initial
    editor value the Slate component derives from its `content` prop. */
module SlateDeserialize {
  import opened SlateModel
  import SlateSerialize

  /** A DOM node as `deserializeNode` sees it: a text node, an element with
      its upper-case `nodeName`, its resolved `href` (meaningful for `A`
      only) and its child nodes, or any other node type (comment, ...). */
  datatype DomNode =
    | DText(data: string)
    | DElem(name: string, href: string, childNodes: seq<DomNode>)
    | DOther

  /** Sets mark `k` on one node if it is a text leaf. */
  function MarkLeaf(n: Node, k: Mark): Node {
    if n.Text? then Text(n.text, WithMark(n.marks, k)) else n
  }

  /** `children.map(child => Text.isText(child) ? { ...child, [k]: true } : child)` */
  function ApplyMark(ns: seq<Node>, k: Mark): (r: seq<Node>)
    ensures |r| == |ns|
  {
    seq(|ns|, i requires 0 <= i < |ns| => MarkLeaf(ns[i], k))
  }

  /** A list child is kept when it is already a list item and wrapped in one
      otherwise. */
  function ToListItem(n: Node): Node {
    if IsListItem(n) then n else Element(ListItem, [n])
  }

  function WrapListItems(ns: seq<Node>): (r: seq<Node>)
    ensures |r| == |ns|
    ensures AllShaped(ns) ==> AllShaped(r)
  {
    seq(|ns|, i requires 0 <= i < |ns| => ToListItem(ns[i]))
  }

  /** The tag names `deserializeNode` gives a meaning of its own. */
  predicate KnownTag(name: string) {
    name in {"BODY", "BR", "P", "H1", "H2", "H3", "H4", "H5", "H6", "BLOCKQUOTE", "PRE",
             "UL", "OL", "LI", "A", "STRONG", "B", "EM", "I", "U", "S", "STRIKE", "CODE"}
  }

  /** The `switch (el.nodeName)` of `deserializeNode`, given the already
      deserialized (and non-empty) children. */
  function Dispatch(name: string, href: string, children: seq<Node>): (r: seq<Node>)
    requires |children| > 0
    ensures |r| > 0
    ensures AllShaped(children) ==> AllShaped(r)
  {
    if name == "BODY" then children
    else if name == "BR" then [Text("\n", NoMarks)]
    else if name == "P" then [Element(Paragraph, children)]
    else if name == "H1" then [Element(Heading(1), children)]
    else if name == "H2" then [Element(Heading(2), children)]
    else if name == "H3" then [Element(Heading(3), children)]
    else if name == "H4" then [Element(Heading(4), children)]
    else if name == "H5" then [Element(Heading(5), children)]
    else if name == "H6" then [Element(Heading(6), children)]
    else if name == "BLOCKQUOTE" then [Element(Blockquote, children)]
    else if name == "PRE" then [Element(CodeBlock, children)]
    else if name == "UL" then [Element(BulletedList, WrapListItems(children))]
    else if name == "OL" then [Element(NumberedList, WrapListItems(children))]
    else if name == "LI" then [Element(ListItem, children)]
    else if name == "A" then [Element(Link(href), children)]
    else if name == "STRONG" || name == "B" then ApplyMark(children, Bold)
    else if name == "EM" || name == "I" then ApplyMark(children, Italic)
    else if name == "U" then ApplyMark(children, Underline)
    else if name == "S" || name == "STRIKE" then ApplyMark(children, Strikethrough)
    else if name == "CODE" then ApplyMark(children, Code)
    else children
  }

  /** `deserializeNode`: never empty, and every element it builds, at any
      depth, has at least one child and (for headings) a level in 1..6. */
  function DeserializeNode(d: DomNode): (r: seq<Node>)
    decreases d, 1
    ensures |r| > 0
    ensures AllShaped(r)
  {
    match d
    case DText(s) => [Text(s, NoMarks)]
    case DOther => [EmptyText]
    case DElem(name, href, kids) => Dispatch(name, href, Children(kids))
  }

  /** The element's children: the flat concatenation of its child nodes'
      results, or one empty text when that is empty. */
  function Children(kids: seq<DomNode>): (r: seq<Node>)
    decreases kids, 2
    ensures |r| > 0
    ensures AllShaped(r)
    ensures kids == [] ==> r == [EmptyText]
    ensures kids != [] ==> r == DeserializeAll(kids)
  {
    var parsed := DeserializeAll(kids);
    if |parsed| == 0 then [EmptyText] else parsed
  }

  /** `Array.from(el.childNodes).flatMap(deserializeNode)` */
  function DeserializeAll(kids: seq<DomNode>): (r: seq<Node>)
    decreases kids, 0
    ensures AllShaped(r)
  {
    if |kids| == 0 then [] else DeserializeNode(kids[0]) + DeserializeAll(kids[1..])
  }

  /** `deserialize`: the parsed document's body. */
  function Deserialize(body: seq<DomNode>): (r: seq<Node>)
    ensures |r| > 0
    ensures AllShaped(r)
  {
    DeserializeNode(DElem("BODY", "", body))
  }

  // ---------------------------------------------------------------------
  // Properties
  // ---------------------------------------------------------------------

  /** A single child node contributes exactly its own result. */
  lemma SingleChild(d: DomNode)
    ensures DeserializeAll([d]) == DeserializeNode(d)
    ensures Children([d]) == DeserializeNode(d)
  {
    assert [d][1..] == [];
    assert DeserializeAll([d]) == DeserializeNode(d) + DeserializeAll([]);
  }

  /** `UL` and `OL` give one list element whose children correspond one to
      one with the element's children, each of them a list item: a child
      that already is a list item is kept as is, any other is wrapped. */
  lemma DeserializeList(name: string, href: string, kids: seq<DomNode>)
    requires name == "UL" || name == "OL"
    ensures var r := DeserializeNode(DElem(name, href, kids));
            var cs := Children(kids);
            && |r| == 1 && r[0].Element?
            && r[0].kind == (if name == "UL" then BulletedList else NumberedList)
            && |r[0].children| == |cs|
            && forall i :: 0 <= i < |cs| ==>
                 && IsListItem(r[0].children[i])
                 && (IsListItem(cs[i]) ==> r[0].children[i] == cs[i])
                 && (!IsListItem(cs[i]) ==> r[0].children[i] == Element(ListItem, [cs[i]]))
  {
  }

  /** The inline formatting tags and the mark each one sets. */
  predicate IsMarkTag(name: string) {
    name in {"STRONG", "B", "EM", "I", "U", "S", "STRIKE", "CODE"}
  }

  function TagMark(name: string): Mark
    requires IsMarkTag(name)
  {
    if name == "STRONG" || name == "B" then Bold
    else if name == "EM" || name == "I" then Italic
    else if name == "U" then Underline
    else if name == "S" || name == "STRIKE" then Strikethrough
    else Code
  }

  /** A mark tag's case of the switch marks its children. */
  lemma MarkTagDispatch(name: string, href: string, kids: seq<DomNode>)
    requires IsMarkTag(name)
    ensures DeserializeNode(DElem(name, href, kids)) == ApplyMark(Children(kids), TagMark(name))
  {
  }

  /** A mark tag yields exactly its children, one for one: each text leaf
      gains the tag's mark and keeps its text and its other marks; element
      results pass through untouched. */
  lemma DeserializeMarkTag(name: string, href: string, kids: seq<DomNode>)
    requires IsMarkTag(name)
    ensures var r := DeserializeNode(DElem(name, href, kids));
            var cs := Children(kids);
            var k := TagMark(name);
            && |r| == |cs|
            && (forall i :: 0 <= i < |cs| && cs[i].Element? ==> r[i] == cs[i])
            && (forall i :: 0 <= i < |cs| && cs[i].Text? ==>
                  && r[i].Text? && r[i].text == cs[i].text && HasMark(r[i].marks, k)
                  && forall j: Mark :: j != k ==> HasMark(r[i].marks, j) == HasMark(cs[i].marks, j))
  {
    MarkTagDispatch(name, href, kids);
  }

  /** Applying a mark twice is applying it once. */
  lemma ApplyMarkIdempotent(ns: seq<Node>, k: Mark)
    ensures ApplyMark(ApplyMark(ns, k), k) == ApplyMark(ns, k)
  {
    var once := ApplyMark(ns, k);
    var twice := ApplyMark(once, k);
    forall i | 0 <= i < |ns|
      ensures twice[i] == once[i]
    {
      if ns[i].Text? {
        assert once[i] == Text(ns[i].text, WithMark(ns[i].marks, k));
        assert WithMark(WithMark(ns[i].marks, k), k) == WithMark(ns[i].marks, k);
      }
    }
  }

  /** A mark tag directly inside the same mark tag has the effect of one. */
  lemma NestedMarkTagIdempotent(name: string, outer: string, inner: string, kids: seq<DomNode>)
    requires IsMarkTag(name)
    ensures DeserializeNode(DElem(name, outer, [DElem(name, inner, kids)]))
         == DeserializeNode(DElem(name, inner, kids))
  {
    MarkTagDispatch(name, inner, kids);
    MarkTagDispatch(name, outer, [DElem(name, inner, kids)]);
    SingleChild(DElem(name, inner, kids));
    ApplyMarkIdempotent(Children(kids), TagMark(name));
  }

  /** `H1`..`H6` give a heading of level 1..6 around the children. */
  lemma DeserializeHeading(level: int, href: string, kids: seq<DomNode>)
    requires 1 <= level <= 6
    ensures DeserializeNode(DElem("H" + [SlateSerialize.Digit(level)], href, kids))
         == [Element(Heading(level), Children(kids))]
  {
    var name := "H" + [SlateSerialize.Digit(level)];
    if level == 1 { assert name == "H1"; }
    else if level == 2 { assert name == "H2"; }
    else if level == 3 { assert name == "H3"; }
    else if level == 4 { assert name == "H4"; }
    else if level == 5 { assert name == "H5"; }
    else { assert name == "H6"; }
  }

  /** `BR` is a single newline, whatever it contains; `BODY` and any tag
      without a case of its own are transparent: their children are spliced
      into the parent. */
  lemma DeserializeBreakAndTransparent(name: string, href: string, kids: seq<DomNode>)
    ensures DeserializeNode(DElem("BR", href, kids)) == [Text("\n", NoMarks)]
    ensures name == "BODY" || !KnownTag(name) ==> DeserializeNode(DElem(name, href, kids)) == Children(kids)
  {
  }

  /** An empty body gives one bare empty text, not an empty paragraph; only
      the Slate component's initial-value fallback supplies a paragraph. */
  lemma DeserializeEmptyBody()
    ensures Deserialize([]) == [EmptyText]
  {
  }

  /** No paragraph is synthesized: text beside a block at the top level of
      the body stays a bare text leaf. */
  lemma LooseTextStaysBare(s: string, t: string)
    ensures Deserialize([DText(s), DElem("P", "", [DText(t)])])
         == [Text(s, NoMarks), Element(Paragraph, [Text(t, NoMarks)])]
  {
    var p := DElem("P", "", [DText(t)]);
    SingleChild(DText(t));
    assert DeserializeNode(p) == [Element(Paragraph, [Text(t, NoMarks)])];
    assert [DText(s), p][1..] == [p];
    SingleChild(p);
    var body := [DText(s), p];
    var all := DeserializeAll(body);
    assert all == DeserializeNode(body[0]) + DeserializeAll(body[1..]);
    assert all == [Text(s, NoMarks)] + DeserializeAll([p]);
    assert Children(body) == all;
    assert Deserialize(body) == Dispatch("BODY", "", all);
  }

  // The DOM a browser builds from the serialization of a text leaf whose text
  // holds no markup: the mark elements nest code outermost, bold innermost,
  // around a text node (absent for the empty string), the order
  // `SerializeText` writes them in (`MarkDomMirrorsSerializer`).

  function WrapDom(on: bool, name: string, ds: seq<DomNode>): seq<DomNode> {
    if on then [DElem(name, "", ds)] else ds
  }

  function LeafDom(t: string): seq<DomNode> {
    if t == "" then [] else [DText(t)]
  }

  /** The bold, italic and underline layers. */
  function InnerDom(t: string, m: Marks): seq<DomNode> {
    WrapDom(m.underline, "U", WrapDom(m.italic, "EM", WrapDom(m.bold, "STRONG", LeafDom(t))))
  }

  function MarkDom(t: string, m: Marks): seq<DomNode> {
    WrapDom(m.code, "CODE", WrapDom(m.strikethrough, "S", InnerDom(t, m)))
  }

  /** ASCII lower case, the spelling the serializer writes tag names in. */
  function LowerChar(c: char): (r: char)
    ensures !('A' <= c <= 'Z') ==> r == c
    ensures 'A' <= c <= 'Z' ==> 'a' <= r <= 'z' && r as int - c as int == 32
  {
    if 'A' <= c <= 'Z' then (c as int + 32) as char else c
  }

  function Lower(s: string): (r: string)
    ensures |r| == |s|
    ensures forall i :: 0 <= i < |s| ==> r[i] == LowerChar(s[i])
  {
    seq(|s|, i requires 0 <= i < |s| => LowerChar(s[i]))
  }

  /** Writes a DOM tree of text and attribute-free elements back as HTML. */
  function DomHtml(ds: seq<DomNode>): string {
    if ds == [] then ""
    else
      var first := match ds[0]
        case DText(data) => data
        case DElem(name, _, kids) => "<" + Lower(name) + ">" + DomHtml(kids) + "</" + Lower(name) + ">"
        case DOther => "";
      first + DomHtml(ds[1..])
  }

  lemma WrapDomHtml(on: bool, name: string, ds: seq<DomNode>)
    ensures DomHtml(WrapDom(on, name, ds)) == SlateSerialize.Wrap(on, Lower(name), DomHtml(ds))
  {
    if on {
      var e := DElem(name, "", ds);
      assert [e][1..] == [];
      assert DomHtml([e]) == "<" + Lower(name) + ">" + DomHtml(ds) + "</" + Lower(name) + ">" + "";
    }
  }

  lemma LowerMarkTags()
    ensures Lower("STRONG") == "strong" && Lower("EM") == "em" && Lower("U") == "u"
    ensures Lower("S") == "s" && Lower("CODE") == "code"
  {
  }

  /** The DOM the round trip starts from is the one whose HTML is exactly what
      the serializer writes for the leaf: same tags, same nesting order. */
  lemma MarkDomMirrorsSerializer(t: string, m: Marks)
    ensures DomHtml(MarkDom(t, m)) == SlateSerialize.SerializeText(t, m)
  {
    assert DomHtml(LeafDom(t)) == t by {
      if t != "" { assert [DText(t)][1..] == []; assert DomHtml([DText(t)]) == t + ""; }
    }
    LowerMarkTags();
    WrapDomHtml(m.bold, "STRONG", LeafDom(t));
    WrapDomHtml(m.italic, "EM", WrapDom(m.bold, "STRONG", LeafDom(t)));
    WrapDomHtml(m.underline, "U", WrapDom(m.italic, "EM", WrapDom(m.bold, "STRONG", LeafDom(t))));
    WrapDomHtml(m.strikethrough, "S", InnerDom(t, m));
    WrapDomHtml(m.code, "CODE", WrapDom(m.strikethrough, "S", InnerDom(t, m)));
  }

  /** What a text leaf deserializes to: nothing for an unmarked empty text. */
  function LeafResult(t: string, m: Marks): seq<Node> {
    if t == "" && m == NoMarks then [] else [Text(t, m)]
  }

  lemma WrapDomStep(on: bool, name: string, ds: seq<DomNode>, t: string, m: Marks)
    requires IsMarkTag(name)
    requires DeserializeAll(ds) == LeafResult(t, m)
    ensures DeserializeAll(WrapDom(on, name, ds)) == LeafResult(t, if on then WithMark(m, TagMark(name)) else m)
  {
    if on {
      var d := DElem(name, "", ds);
      assert Children(ds) == [Text(t, m)];
      MarkTagDispatch(name, "", ds);
      SingleChild(d);
    }
  }

  /** The bold layer around the text node. */
  lemma BoldRoundTrip(t: string, bold: bool)
    ensures DeserializeAll(WrapDom(bold, "STRONG", LeafDom(t))) == LeafResult(t, NoMarks.(bold := bold))
  {
    var leaf := LeafDom(t);
    assert DeserializeAll(leaf) == LeafResult(t, NoMarks) by {
      if t != "" {
        SingleChild(DText(t));
      }
    }
    WrapDomStep(bold, "STRONG", leaf, t, NoMarks);
  }

  lemma {:induction false} InnerRoundTrip(t: string, m: Marks)
    ensures DeserializeAll(InnerDom(t, m)) == LeafResult(t, NoMarks.(bold := m.bold, italic := m.italic, underline := m.underline))
  {
    var m1 := NoMarks.(bold := m.bold);
    var d1 := WrapDom(m.bold, "STRONG", LeafDom(t));
    BoldRoundTrip(t, m.bold);
    var m2 := if m.italic then WithMark(m1, Italic) else m1;
    var d2 := WrapDom(m.italic, "EM", d1);
    assert DeserializeAll(d2) == LeafResult(t, m2) by {
      WrapDomStep(m.italic, "EM", d1, t, m1);
    }
    var m3 := if m.underline then WithMark(m2, Underline) else m2;
    assert DeserializeAll(WrapDom(m.underline, "U", d2)) == LeafResult(t, m3) by {
      WrapDomStep(m.underline, "U", d2, t, m2);
    }
    assert m3 == NoMarks.(bold := m.bold, italic := m.italic, underline := m.underline);
  }

  /** Marks survive the trip through HTML: the DOM of a serialized text leaf
      deserializes back to that leaf, whatever its marks. */
  lemma {:induction false} TextMarksRoundTrip(t: string, m: Marks)
    ensures DeserializeAll(MarkDom(t, m)) == LeafResult(t, m)
  {
    var m3 := NoMarks.(bold := m.bold, italic := m.italic, underline := m.underline);
    var d3 := InnerDom(t, m);
    InnerRoundTrip(t, m);
    var m4 := if m.strikethrough then WithMark(m3, Strikethrough) else m3;
    var d4 := WrapDom(m.strikethrough, "S", d3);
    assert DeserializeAll(d4) == LeafResult(t, m4) by {
      WrapDomStep(m.strikethrough, "S", d3, t, m3);
    }
    var m5 := if m.code then WithMark(m4, Code) else m4;
    assert DeserializeAll(WrapDom(m.code, "CODE", d4)) == LeafResult(t, m5) by {
      WrapDomStep(m.code, "CODE", d4, t, m4);
    }
    assert m5 == m;
  }

  /** A code block's `<pre><code>` wrapper comes back as a code block whose
      direct text leaves carry the code mark. */
  lemma DeserializePreCode(outer: string, inner: string, kids: seq<DomNode>)
    ensures DeserializeNode(DElem("PRE", outer, [DElem("CODE", inner, kids)]))
         == [Element(CodeBlock, ApplyMark(Children(kids), Code))]
  {
    var c := DElem("CODE", inner, kids);
    SingleChild(c);
    assert DeserializeNode(c) == ApplyMark(Children(kids), Code);
  }

  /** Hence a code block does not survive the trip: `x` in a code block
      serializes to `<pre><code>x</code></pre>`, whose DOM deserializes to a
      code block holding a code-marked `x`. */
  lemma CodeBlockGainsCodeMark()
    ensures SlateSerialize.SerializeNode(Element(CodeBlock, [Text("x", NoMarks)])) == "<pre><code>x</code></pre>"
    ensures DeserializeNode(DElem("PRE", "", [DElem("CODE", "", [DText("x")])]))
         == [Element(CodeBlock, [Text("x", NoMarks.(code := true))])]
    ensures NoMarks.(code := true) != NoMarks
  {
    SlateSerialize.SerializeSingleton(Text("x", NoMarks));
    DeserializePreCode("", "", [DText("x")]);
    SingleChild(DText("x"));
    assert ApplyMark([Text("x", NoMarks)], Code) == [Text("x", NoMarks.(code := true))];
  }
}
