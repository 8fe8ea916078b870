/** The Slate document tree of the Slate editor component
    (src/components/SlateArea.tsx): text leaves carrying five boolean marks,
    and elements of eight kinds carrying a sequence of children. */
module SlateModel {

  /** The five optional marks of a `CustomText`; an absent mark is `false`. */
  datatype Marks = Marks(bold: bool, italic: bool, underline: bool, strikethrough: bool, code: bool)

  const NoMarks: Marks := Marks(false, false, false, false, false)

  /** Names of the five marks, as the deserializer applies them one at a time. */
  datatype Mark = Bold | Italic | Underline | Strikethrough | Code

  predicate HasMark(m: Marks, k: Mark) {
    match k
    case Bold => m.bold
    case Italic => m.italic
    case Underline => m.underline
    case Strikethrough => m.strikethrough
    case Code => m.code
  }

  /** `{ ...marks, [k]: true }`: sets one mark and keeps the other four. */
  function WithMark(m: Marks, k: Mark): (r: Marks)
    ensures HasMark(r, k)
    ensures forall j: Mark :: j != k ==> HasMark(r, j) == HasMark(m, j)
  {
    match k
    case Bold => m.(bold := true)
    case Italic => m.(italic := true)
    case Underline => m.(underline := true)
    case Strikethrough => m.(strikethrough := true)
    case Code => m.(code := true)
  }

  /** The `type` tag of a `CustomElement` with its type-specific attribute.
      `Unknown` stands for any other tag value that may reach the serializer,
      whose `default` branch it exercises. */
  datatype Kind =
    | Paragraph
    | Heading(level: int)
    | Blockquote
    | CodeBlock
    | BulletedList
    | NumberedList
    | ListItem
    | Link(url: string)
    | Unknown(name: string)

  /** A `Descendant`: a `CustomText` leaf or a `CustomElement`. */
  datatype Node =
    | Text(text: string, marks: Marks)
    | Element(kind: Kind, children: seq<Node>)

  /** The `{ text: '' }` leaf the deserializer uses as a placeholder. */
  const EmptyText: Node := Text("", NoMarks)

  predicate IsListItem(n: Node) {
    n.Element? && n.kind == ListItem
  }

  /** Every element in the tree has at least one child. */
  predicate NonEmptyElements(n: Node)
    decreases n
  {
    match n
    case Text(_, _) => true
    case Element(_, cs) => |cs| > 0 && forall i :: 0 <= i < |cs| ==> NonEmptyElements(cs[i])
  }

  /** Every heading in the tree has a level in 1..6. */
  predicate HeadingsInRange(n: Node)
    decreases n
  {
    match n
    case Text(_, _) => true
    case Element(k, cs) =>
      (k.Heading? ==> 1 <= k.level <= 6) && forall i :: 0 <= i < |cs| ==> HeadingsInRange(cs[i])
  }

  /** The shape every deserialized node has. */
  predicate Shaped(n: Node) {
    NonEmptyElements(n) && HeadingsInRange(n)
  }

  predicate AllShaped(ns: seq<Node>) {
    forall i :: 0 <= i < |ns| ==> Shaped(ns[i])
  }
}
