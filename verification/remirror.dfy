/** The prompt-driven toolbar actions of the Remirror editor
    (src/components/RemirrorArea.tsx): the YouTube URL rewrite and the
    iframe it inserts, and the link prompt. The prompt's answer is a
    parameter (`None` when cancelled). */
module RemirrorArea {
  import opened Wrappers

  /** `p` occurs in `s` starting at index `i`. */
  predicate OccursAt(s: string, p: string, i: int) {
    0 <= i && i + |p| <= |s| && s[i..i + |p|] == p
  }

  /** `s.includes(p)` */
  predicate Contains(s: string, p: string) {
    exists i :: 0 <= i <= |s| && OccursAt(s, p, i)
  }

  /** `s.indexOf(p, from)`: the first occurrence at or after `from`, or -1. */
  function IndexFrom(s: string, p: string, from: nat): (r: int)
    requires from <= |s|
    decreases |s| - from
    ensures r == -1 || (from <= r <= |s| && OccursAt(s, p, r))
    ensures forall j :: from <= j && (r == -1 || j < r) ==> !OccursAt(s, p, j)
  {
    if OccursAt(s, p, from) then from
    else if from == |s| then -1
    else IndexFrom(s, p, from + 1)
  }

  /** `s.indexOf(p)` */
  function IndexOf(s: string, p: string): (r: int)
    ensures r == -1 <==> !Contains(s, p)
    ensures r != -1 ==> 0 <= r <= |s| && OccursAt(s, p, r)
    ensures forall j :: 0 <= j && (r == -1 || j < r) ==> !OccursAt(s, p, j)
  {
    IndexFrom(s, p, 0)
  }

  /** `s.replace(p, rep)` with a string pattern: the first occurrence only. */
  function ReplaceFirst(s: string, p: string, rep: string): string {
    var i := IndexOf(s, p);
    if i == -1 then s else s[..i] + rep + s[i + |p|..]
  }

  /** `s.split(sep)[0]`: what lies before the first occurrence of `sep`. */
  function FirstPiece(s: string, sep: string): string {
    var j := IndexOf(s, sep);
    if j == -1 then s else s[..j]
  }

  /** `s.split(sep)[1]`: what lies between the first occurrence of `sep`
      and the next one (or the end). */
  function SecondPiece(s: string, sep: string): string
    requires Contains(s, sep)
  {
    FirstPiece(s[IndexOf(s, sep) + |sep|..], sep)
  }

  const Watch: string := "watch?v="
  const ShortHost: string := "youtu.be/"
  const EmbedBase: string := "https://www.youtube.com/embed/"

  /** The embed URL the YouTube button inserts: a `watch?v=` URL has its
      first `watch?v=` turned into `embed/`; otherwise a `youtu.be/` URL
      becomes the embed base followed by the video id; anything else is
      used as given. */
  function EmbedUrl(url: string): string {
    if Contains(url, Watch) then ReplaceFirst(url, Watch, "embed/")
    else if Contains(url, ShortHost) then EmbedBase + FirstPiece(SecondPiece(url, ShortHost), "?")
    else url
  }

  const IframeOpen: string := "<iframe src=\""
  const IframeClose: string := "\" width=\"640\" height=\"360\" frameborder=\"0\" allowfullscreen></iframe>"

  /** The YouTube button: a cancelled or empty prompt inserts nothing;
      otherwise an iframe of 640 by 360 whose `src` is the embed URL,
      verbatim. */
  function YoutubeInsert(answer: Option<string>): (r: Option<string>)
    ensures r.None? <==> answer.None? || answer.value == ""
    ensures r.Some? ==>
              && |r.value| == |IframeOpen| + |EmbedUrl(answer.value)| + |IframeClose|
              && r.value[..|IframeOpen|] == IframeOpen
              && r.value[|IframeOpen|..|r.value| - |IframeClose|] == EmbedUrl(answer.value)
              && r.value[|r.value| - |IframeClose|..] == IframeClose
  {
    match answer
    case None => None
    case Some(url) =>
      if url == "" then None
      else
        var html := IframeOpen + EmbedUrl(url) + IframeClose;
        assert html[..|IframeOpen|] == IframeOpen;
        assert html[|IframeOpen|..|html| - |IframeClose|] == EmbedUrl(url);
        Some(html)
  }

  /** What the link button does with the prompt's answer. */
  datatype LinkAction = NoChange | RemoveLink | SetLink(href: string)

  /** The link button: cancel does nothing, an empty answer removes the
      link, any other answer becomes the href as typed. */
  function LinkPrompt(answer: Option<string>): (r: LinkAction)
    ensures r == NoChange <==> answer.None?
    ensures r == RemoveLink <==> answer == Some("")
    ensures r.SetLink? <==> answer.Some? && answer.value != ""
    ensures r.SetLink? ==> answer == Some(r.href)
  {
    match answer
    case None => NoChange
    case Some(url) => if url == "" then RemoveLink else SetLink(url)
  }

  // ---------------------------------------------------------------------
  // Properties
  // ---------------------------------------------------------------------

  /** An occurrence with none before it is the one `indexOf` finds. */
  lemma IndexOfFirst(s: string, p: string, k: int)
    requires OccursAt(s, p, k)
    requires forall j :: 0 <= j < k ==> !OccursAt(s, p, j)
    ensures IndexOf(s, p) == k
  {
  }

  /** The `watch?v=` rule, which takes precedence over the `youtu.be/`
      rule: cut the URL at its first `watch?v=`, and the result is the part
      before it, `embed/`, and the part after it, nothing else changed. */
  lemma WatchRule(url: string, before: string, after: string)
    requires url == before + Watch + after
    requires forall j :: 0 <= j < |before| ==> !OccursAt(url, Watch, j)
    ensures EmbedUrl(url) == before + "embed/" + after
  {
    assert OccursAt(url, Watch, |before|) by {
      assert url[|before|..|before| + |Watch|] == Watch;
    }
    IndexOfFirst(url, Watch, |before|);
    assert url[..|before|] == before;
    assert url[|before| + |Watch|..] == after;
  }

  /** Cutting at the first `?` a text that is `id` followed by nothing or
      by a `?` gives `id`, when `id` has no `?`. */
  lemma CutAtQuestionMark(piece: string, id: string)
    requires |id| <= |piece| && piece[..|id|] == id
    requires |piece| == |id| || piece[|id|] == '?'
    requires forall j :: 0 <= j < |id| ==> id[j] != '?'
    ensures FirstPiece(piece, "?") == id
  {
    forall m | 0 <= m < |id|
      ensures !OccursAt(piece, "?", m)
    {
      assert piece[m] == id[m];
    }
    if |piece| == |id| {
      assert piece == id;
      assert !OccursAt(piece, "?", |id|);
    } else {
      assert OccursAt(piece, "?", |id|) by {
        assert piece[|id|..|id| + 1] == [piece[|id|]];
      }
      IndexOfFirst(piece, "?", |id|);
    }
  }

  /** The text after the first `youtu.be/`, cut at the next one, starts
      with the id and continues, if at all, with a `?`. */
  lemma CutAtNextShortHost(rest: string, id: string, after: string)
    requires rest == id + after
    requires forall j :: 0 <= j < |id| ==> !OccursAt(rest, ShortHost, j)
    requires after == "" || after[0] == '?' || OccursAt(after, ShortHost, 0)
    ensures var piece := FirstPiece(rest, ShortHost);
            |id| <= |piece| && piece[..|id|] == id && (|piece| == |id| || piece[|id|] == '?')
  {
    var j := IndexOf(rest, ShortHost);
    assert j == -1 || j >= |id|;
    if after != "" && after[0] != '?' {
      assert OccursAt(rest, ShortHost, |id|) by {
        assert rest[|id|..|id| + |ShortHost|] == after[..|ShortHost|];
      }
      IndexOfFirst(rest, ShortHost, |id|);
    }
  }

  /** The `youtu.be/` rule: when there is no `watch?v=`, cut the URL at its
      first `youtu.be/`; the video id is the text after it up to (not
      including) the first `?` or the next `youtu.be/`, whichever comes
      first, and the result is the embed base followed by the id. */
  lemma ShortHostRule(url: string, before: string, id: string, after: string)
    requires !Contains(url, Watch)
    requires url == before + ShortHost + id + after
    requires forall j :: 0 <= j < |before| ==> !OccursAt(url, ShortHost, j)
    requires forall j :: 0 <= j < |id| ==> id[j] != '?' && !OccursAt(id + after, ShortHost, j)
    requires after == "" || after[0] == '?' || OccursAt(after, ShortHost, 0)
    ensures EmbedUrl(url) == EmbedBase + id
  {
    var rest := id + after;
    AfterFirstShortHost(url, before, rest);
    CutAtNextShortHost(rest, id, after);
    CutAtQuestionMark(FirstPiece(rest, ShortHost), id);
  }

  /** The text after the first `youtu.be/` of `before + youtu.be/ + rest`,
      when `before` holds none, is `rest`. */
  lemma AfterFirstShortHost(url: string, before: string, rest: string)
    requires url == before + ShortHost + rest
    requires forall j :: 0 <= j < |before| ==> !OccursAt(url, ShortHost, j)
    ensures Contains(url, ShortHost)
    ensures SecondPiece(url, ShortHost) == FirstPiece(rest, ShortHost)
  {
    var k := |before|;
    assert OccursAt(url, ShortHost, k) by {
      assert url[k..k + |ShortHost|] == ShortHost;
    }
    IndexOfFirst(url, ShortHost, k);
    assert url[k + |ShortHost|..] == rest;
  }

  /** A URL with neither pattern is used unchanged. */
  lemma PassThrough(url: string)
    requires !Contains(url, Watch) && !Contains(url, ShortHost)
    ensures EmbedUrl(url) == url
  {
  }

  /** No occurrence of `p` starts inside a prefix lacking its first
      character. */
  lemma NoOccurrenceIn(before: string, rest: string, p: string)
    requires 0 < |p| && p[0] !in before
    ensures forall j :: 0 <= j < |before| ==> !OccursAt(before + rest, p, j)
  {
    var s := before + rest;
    forall j | 0 <= j < |before|
      ensures !OccursAt(s, p, j)
    {
      assert s[j] == before[j];
      if j + |p| <= |s| {
        assert s[j..j + |p|][0] == s[j];
      }
    }
  }

  /** Example: a `watch?v=` URL. */
  lemma WatchExample(url: string)
    requires url == "youtube.com/" + "watch?v=" + "abc"
    ensures EmbedUrl(url) == "youtube.com/" + "embed/" + "abc"
  {
    WatchExampleFor(url, "youtube.com/", "abc");
  }

  /** Example: a `youtu.be/` URL with a query gives the same embed URL. */
  lemma ShortHostExample(url: string)
    requires url == "https://" + "youtu.be/" + "abc" + "?t=1"
    ensures EmbedUrl(url) == "https://www.youtube.com/embed/" + "abc"
  {
    ShortHostExampleFor(url, "https://", "abc", "?t=1");
  }

  /** Example: with both patterns present, `watch?v=` wins. */
  lemma PrecedenceExample(url: string)
    requires url == "youtu.be/" + "watch?v=" + "x"
    ensures EmbedUrl(url) == "youtu.be/" + "embed/" + "x"
  {
    WatchExampleFor(url, "youtu.be/", "x");
  }

  /** The watch rule for a URL whose prefix lacks the letter `w`. */
  lemma WatchExampleFor(url: string, before: string, after: string)
    requires url == before + Watch + after && 'w' !in before
    ensures EmbedUrl(url) == before + "embed/" + after
  {
    NoOccurrenceIn(before, Watch + after, Watch);
    assert before + (Watch + after) == url;
    WatchRule(url, before, after);
  }

  /** The `youtu.be/` rule for a URL without a `w`, whose prefix and id
      lack a `y` and whose id lacks a `?`. */
  lemma ShortHostExampleFor(url: string, before: string, id: string, after: string)
    requires url == before + ShortHost + id + after
    requires 'w' !in url && 'y' !in before && 'y' !in id && '?' !in id
    requires after == "" || after[0] == '?'
    ensures EmbedUrl(url) == EmbedBase + id
  {
    assert !Contains(url, Watch) by {
      NoOccurrenceIn(url, "", Watch);
      assert url + "" == url;
      assert !OccursAt(url, Watch, |url|);
    }
    assert forall j :: 0 <= j < |before| ==> !OccursAt(url, ShortHost, j) by {
      NoOccurrenceIn(before, ShortHost + id + after, ShortHost);
      assert before + (ShortHost + id + after) == url;
    }
    assert forall j :: 0 <= j < |id| ==> id[j] != '?' && !OccursAt(id + after, ShortHost, j) by {
      NoOccurrenceIn(id, after, ShortHost);
    }
    ShortHostRule(url, before, id, after);
  }
}
