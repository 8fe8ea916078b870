/** Slate tree to HTML: `serialize` and `serializeNode`. Text is emitted
    verbatim (no escaping); marks wrap it one tag per mark; each element kind
    has a fixed wrapper around the concatenation of its children. */
module SlateSerialize {
  import opened SlateModel

  function Digit(d: nat): char
    requires d < 10
  {
    "0123456789"[d]
  }

  /** Decimal rendering of a natural number, most significant digit first. */
  function NatToString(n: nat): (r: string)
    decreases n
    ensures |r| > 0
  {
    if n < 10 then [Digit(n)] else NatToString(n / 10) + [Digit(n % 10)]
  }

  /** JavaScript's rendering of an integral number in a template literal. */
  function IntToString(i: int): string {
    if i < 0 then "-" + NatToString(-i) else NatToString(i)
  }

  /** `<tag>inner</tag>` when the mark is set, `inner` otherwise. */
  function Wrap(on: bool, tag: string, inner: string): string {
    if on then "<" + tag + ">" + inner + "</" + tag + ">" else inner
  }

  /** The text leaf: bold innermost, then italic, underline, strikethrough,
      code outermost. */
  function SerializeText(t: string, m: Marks): string {
    Wrap(m.code, "code", Wrap(m.strikethrough, "s", Wrap(m.underline, "u", Wrap(m.italic, "em", Wrap(m.bold, "strong", t)))))
  }

  /** `serializeNode`: one node to HTML. */
  function SerializeNode(n: Node): string
    decreases n, 1
  {
    match n
    case Text(t, m) => SerializeText(t, m)
    case Element(k, cs) =>
      var children := Serialize(cs);
      match k
      case Paragraph => "<p>" + children + "</p>"
      case Heading(level) =>
        "<h" + IntToString(level) + ">" + children + "</h" + IntToString(level) + ">"
      case Blockquote => "<blockquote>" + children + "</blockquote>"
      case CodeBlock => "<pre><code>" + children + "</code></pre>"
      case BulletedList => "<ul>" + children + "</ul>"
      case NumberedList => "<ol>" + children + "</ol>"
      case ListItem => "<li>" + children + "</li>"
      case Link(url) => "<a href=\"" + url + "\">" + children + "</a>"
      case Unknown(_) => children
  }

  /** `serialize`: the nodes' serializations joined with no separator. */
  function Serialize(ns: seq<Node>): string
    decreases ns, 0
  {
    if |ns| == 0 then "" else SerializeNode(ns[0]) + Serialize(ns[1..])
  }

  // ---------------------------------------------------------------------
  // Reference tables: the tags each mark and each element kind contributes.
  // ---------------------------------------------------------------------

  function OpenIf(on: bool, tag: string): string {
    if on then "<" + tag + ">" else ""
  }

  function CloseIf(on: bool, tag: string): string {
    if on then "</" + tag + ">" else ""
  }

  /** Opening mark tags, outermost first. */
  function OpenMarks(m: Marks): string {
    OpenIf(m.code, "code") + (OpenIf(m.strikethrough, "s") + (OpenIf(m.underline, "u")
    + (OpenIf(m.italic, "em") + OpenIf(m.bold, "strong"))))
  }

  /** Closing mark tags, innermost first. */
  function CloseMarks(m: Marks): string {
    CloseIf(m.bold, "strong") + CloseIf(m.italic, "em") + CloseIf(m.underline, "u")
    + CloseIf(m.strikethrough, "s") + CloseIf(m.code, "code")
  }

  /** Opening wrapper of each element kind. */
  function OpenTag(k: Kind): string {
    match k
    case Paragraph => "<p>"
    case Heading(level) => "<h" + IntToString(level) + ">"
    case Blockquote => "<blockquote>"
    case CodeBlock => "<pre><code>"
    case BulletedList => "<ul>"
    case NumberedList => "<ol>"
    case ListItem => "<li>"
    case Link(url) => "<a href=\"" + url + "\">"
    case Unknown(_) => ""
  }

  /** Closing wrapper of each element kind. */
  function CloseTag(k: Kind): string {
    match k
    case Paragraph => "</p>"
    case Heading(level) => "</h" + IntToString(level) + ">"
    case Blockquote => "</blockquote>"
    case CodeBlock => "</code></pre>"
    case BulletedList => "</ul>"
    case NumberedList => "</ol>"
    case ListItem => "</li>"
    case Link(_) => "</a>"
    case Unknown(_) => ""
  }

  // ---------------------------------------------------------------------
  // Properties
  // ---------------------------------------------------------------------

  /** `serialize` maps the empty forest to "" and distributes over
      concatenation of forests. */
  lemma {:induction false} SerializeAppend(xs: seq<Node>, ys: seq<Node>)
    ensures Serialize([]) == ""
    ensures Serialize(xs + ys) == Serialize(xs) + Serialize(ys)
    decreases |xs|
  {
    if |xs| == 0 {
      assert xs + ys == ys;
    } else {
      assert (xs + ys)[1..] == xs[1..] + ys;
      SerializeAppend(xs[1..], ys);
    }
  }

  /** A one-node forest serializes to that node's serialization. */
  lemma SerializeSingleton(n: Node)
    ensures Serialize([n]) == SerializeNode(n)
  {
    assert [n][1..] == [];
  }

  /** One wrapping step: a conditional tag pair around `a + t + b` moves the
      tags into the prefix and the suffix. */
  lemma WrapStep(on: bool, tag: string, a: string, t: string, b: string)
    ensures Wrap(on, tag, a + t + b) == (OpenIf(on, tag) + a) + t + (b + CloseIf(on, tag))
  {
    if on {
      var o, c := "<" + tag + ">", "</" + tag + ">";
      assert Wrap(on, tag, a + t + b) == o + (a + t + b) + c;
      assert o + (a + t + b) + c == (o + a) + t + (b + c);
    } else {
      assert OpenIf(on, tag) + a == a && b + CloseIf(on, tag) == b;
    }
  }

  /** A text leaf is its text verbatim between the opening mark tags in the
      fixed order code, s, u, em, strong and the matching closing tags. */
  lemma SerializeTextNesting(t: string, m: Marks)
    ensures SerializeNode(Text(t, m)) == OpenMarks(m) + t + CloseMarks(m)
  {
    var ob, cb := OpenIf(m.bold, "strong"), CloseIf(m.bold, "strong");
    var oi, ci := OpenIf(m.italic, "em"), CloseIf(m.italic, "em");
    var ou, cu := OpenIf(m.underline, "u"), CloseIf(m.underline, "u");
    var os, cs := OpenIf(m.strikethrough, "s"), CloseIf(m.strikethrough, "s");
    var oc, cc := OpenIf(m.code, "code"), CloseIf(m.code, "code");
    var b := Wrap(m.bold, "strong", t);
    assert b == ob + t + cb by {
      WrapStep(m.bold, "strong", "", t, "");
      assert "" + t + "" == t;
    }
    var i := Wrap(m.italic, "em", b);
    assert i == (oi + ob) + t + (cb + ci) by {
      WrapStep(m.italic, "em", ob, t, cb);
    }
    var u := Wrap(m.underline, "u", i);
    assert u == (ou + (oi + ob)) + t + ((cb + ci) + cu) by {
      WrapStep(m.underline, "u", oi + ob, t, cb + ci);
    }
    var s := Wrap(m.strikethrough, "s", u);
    assert s == (os + (ou + (oi + ob))) + t + (((cb + ci) + cu) + cs) by {
      WrapStep(m.strikethrough, "s", ou + (oi + ob), t, (cb + ci) + cu);
    }
    assert Wrap(m.code, "code", s) == OpenMarks(m) + t + CloseMarks(m) by {
      WrapStep(m.code, "code", os + (ou + (oi + ob)), t, ((cb + ci) + cu) + cs);
    }
    assert SerializeNode(Text(t, m)) == Wrap(m.code, "code", s);
  }

  /** Unmarked text is emitted verbatim; bold and italic nest italic outside. */
  lemma SerializeTextExamples(t: string)
    ensures SerializeNode(Text(t, NoMarks)) == t
    ensures SerializeNode(Text("x", NoMarks.(bold := true, italic := true))) == "<em><strong>x</strong></em>"
  {
  }

  /** An element is its kind's fixed opening tag, the children's
      serialization, and the kind's fixed closing tag. */
  lemma SerializeElement(k: Kind, cs: seq<Node>)
    ensures SerializeNode(Element(k, cs)) == OpenTag(k) + Serialize(cs) + CloseTag(k)
  {
  }

  /** Tag details: headings of level 1..6 give `<hN>`, a code block gives
      `<pre><code>`, a link's url goes verbatim into `href`, and an unknown
      kind contributes no markup of its own. */
  lemma ElementTags(level: int, url: string, name: string)
    requires 1 <= level <= 6
    ensures OpenTag(Heading(level)) == "<h" + [Digit(level)] + ">"
    ensures CloseTag(Heading(level)) == "</h" + [Digit(level)] + ">"
    ensures OpenTag(CodeBlock) + CloseTag(CodeBlock) == "<pre><code></code></pre>"
    ensures OpenTag(Link(url)) == "<a href=\"" + url + "\">"
    ensures OpenTag(Unknown(name)) == "" && CloseTag(Unknown(name)) == ""
  {
  }
}
