/** The initial value the Slate component gives its editor: the
    deserialized `content` prop, or a single empty paragraph when the
    content is blank, parses to nothing, or makes the parser throw. */
module SlateInitial {
  import opened SlateModel
  import opened SlateDeserialize

  /** What `DOMParser` made of the content: the children of `<body>`, or
      an exception. The parser itself is outside the model. */
  datatype ParseOutcome = Parsed(body: seq<DomNode>) | Threw

  /** `[{ type: 'paragraph', children: [{ text: '' }] }]` */
  const DefaultValue: seq<Node> := [Element(Paragraph, [EmptyText])]

  /** The characters `String.prototype.trim` removes: ECMAScript WhiteSpace
      (tab, vertical tab, form feed, space, no-break space, byte order mark
      and the Unicode space separators) and LineTerminator. */
  predicate IsJsWhitespace(c: char) {
    var n := c as int;
    n == 0x09 || n == 0x0A || n == 0x0B || n == 0x0C || n == 0x0D || n == 0x20
    || n == 0xA0 || n == 0x1680 || (0x2000 <= n <= 0x200A) || n == 0x2028 || n == 0x2029
    || n == 0x202F || n == 0x205F || n == 0x3000 || n == 0xFEFF
  }

  predicate AllWhitespace(s: string) {
    forall i :: 0 <= i < |s| ==> IsJsWhitespace(s[i])
  }

  /** Drops leading whitespace: the result is a suffix of `s`, everything
      dropped is whitespace, and the result is empty or starts with a
      non-whitespace character. */
  function TrimStart(s: string): (r: string)
    decreases |s|
    ensures |r| <= |s| && r == s[|s| - |r|..]
    ensures AllWhitespace(s[..|s| - |r|])
    ensures r == [] || !IsJsWhitespace(r[0])
  {
    if |s| > 0 && IsJsWhitespace(s[0]) then TrimStart(s[1..]) else s
  }

  /** Drops trailing whitespace, symmetrically. */
  function TrimEnd(s: string): (r: string)
    decreases |s|
    ensures |r| <= |s| && r == s[..|r|]
    ensures AllWhitespace(s[|r|..])
    ensures r == [] || !IsJsWhitespace(r[|r| - 1])
  {
    if |s| > 0 && IsJsWhitespace(s[|s| - 1]) then TrimEnd(s[..|s| - 1]) else s
  }

  /** `String.prototype.trim`. */
  function Trim(s: string): string {
    TrimEnd(TrimStart(s))
  }

  /** `content.trim() !== ''` exactly when some character is not whitespace. */
  lemma TrimEmptyIffBlank(s: string)
    ensures Trim(s) == "" <==> AllWhitespace(s)
  {
    var a := TrimStart(s);
    var k := |s| - |a|;
    assert forall i :: 0 <= i < k ==> IsJsWhitespace(s[i]) by {
      assert forall i :: 0 <= i < k ==> s[..k][i] == s[i];
    }
    assert forall i :: 0 <= i < |a| ==> a[i] == s[k + i];
    if |a| == 0 {
      assert TrimEnd(a) == "";
      assert AllWhitespace(s);
    } else {
      assert !IsJsWhitespace(s[k]);
      assert TrimEnd(a) != "";
    }
  }

  lemma DefaultValueShaped()
    ensures AllShaped(DefaultValue)
  {
    assert Shaped(EmptyText);
    assert Shaped(DefaultValue[0]);
  }

  /** The `initialValue` memo of the Slate component. */
  function InitialValue(content: string, parse: ParseOutcome): (r: seq<Node>)
    ensures |r| > 0
    ensures AllShaped(r)
  {
    DefaultValueShaped();
    if content != "" && Trim(content) != "" then
      match parse
      case Threw => DefaultValue
      case Parsed(body) =>
        var parsed := Deserialize(body);
        if |parsed| > 0 then parsed else DefaultValue
    else
      DefaultValue
  }

  /** The editor never starts empty. Blank content (empty or whitespace
      only) and a throwing parser give one paragraph holding one empty text;
      any other content gives exactly what the body deserializes to, since
      that is never empty. */
  lemma InitialValueCases(content: string, parse: ParseOutcome)
    ensures |InitialValue(content, parse)| > 0
    ensures AllWhitespace(content) || parse.Threw? ==> InitialValue(content, parse) == DefaultValue
    ensures !AllWhitespace(content) && parse.Parsed? ==> InitialValue(content, parse) == Deserialize(parse.body)
    ensures DefaultValue == [Element(Paragraph, [Text("", NoMarks)])]
  {
    TrimEmptyIffBlank(content);
  }
}
