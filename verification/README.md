# Ondrej's notes — a Dafny model of its pure core

The notes application keeps rich-text notes in local storage. Each note can be
edited in two editors: Tiptap, its original editor, and CKEditor, its migration
target. The project models the four pieces of logic the React screens contain,
and proves their properties:

- **The Slate HTML bridge** (`SlateSerialize`, `SlateDeserialize`,
  `SlateInitial` over the tree of `SlateModel`). This is the hand-written
  serializer from the Slate document tree to HTML and the deserializer from a
  DOM tree back to it. It also covers the initial value the Slate component
  gives its editor.
- **The undo/redo history** (`UndoHistory`). This is a bounded list of states
  with a cursor. `History` is a pure value; `EditorHistory` is the class
  with its two mutable fields, proved to act as the value does.
- **Note routing between the two content fields** (`Notes`, `NoteDetail`,
  `NotesList`, `RichText`). It covers:
  - creating, deleting, migrating and upserting notes;
  - which field a content edit writes to;
  - which editor layout is shown.

  The central property is `RichText.EditsLandInDisplayedField`: every layout
  that forwards edits writes them to the field it displays.
- **The Remirror toolbar prompts** (`RemirrorArea`): the YouTube embed-URL
  rewrite, the iframe it inserts, and the link prompt.

Local storage, the clock, the GUID generator, `window.confirm`,
`window.prompt` and the sample-notes fetch are parameters of the functions
that use them. The browser's HTML parser is replaced by an abstract DOM
(`DomNode`). Its outcome for the Slate component is the parameter
`ParseOutcome`, which is either the parsed body or an exception.

Nullable values are `Option`. A note's `content: None` is `null`, and its
`ckEditorContent: None` is an absent field. The JavaScript truthiness tests
`!!s` and `s || ''` are `Notes.Truthy` and `Notes.OrEmpty`. JavaScript
`trim`, `slice`, `includes`, `indexOf`, `replace` with a string pattern, and
`split(sep)[0]` and `[1]` are written out over `seq<char>`.

Three facts about the HTML bridge:

- **No mixed-content repair.** The deserializer never creates a paragraph
  around loose text. Text beside a block at the top level stays a bare text
  leaf (`SlateDeserialize.LooseTextStaysBare`).
- **Empty body.** An empty body deserializes to one bare empty text, not to
  an empty paragraph (`SlateDeserialize.DeserializeEmptyBody`). Only the
  component's fallback (`SlateInitial.InitialValue`) supplies the paragraph.
- **No escaping.** Text is emitted without escaping. There are no checklist,
  table, image, rule or embed element types. Marks are applied by plain
  nesting, and code is not a fixed point of a round trip: a code block comes
  back with its text code-marked (`SlateDeserialize.CodeBlockGainsCodeMark`).

Two behaviours of the screens are worth knowing. Both are proved, not
corrected:

- **Migrating an empty Tiptap note.** The note stays "not migrated", because
  `!!''` is false. Its Migrate button is still shown afterwards
  (`NoteDetail.MigrateEmptyContentStaysUnmigrated`).
- **Clearing a migrated note's CKEditor text.** This also un-migrates it: the
  note drops back to the editable Tiptap view of its old content
  (`RichText.ClearingMigratedContentUnmigrates`).

## Model

| member | source | states |
|---|---|---|
| SlateModel.WithMark | src/components/SlateArea.tsx:180-192 | setting one mark on a text leaf sets exactly that flag and keeps the other four |
| SlateSerialize.SerializeAppend | src/components/SlateArea.tsx:80-82 | `serialize([])` is the empty string and `serialize(xs + ys)` is `serialize(xs) + serialize(ys)` |
| SlateSerialize.SerializeTextNesting | src/components/SlateArea.tsx:84-93 | a text leaf is its text verbatim, preceded by the opening tags code, s, u, em, strong (outermost first) of its set marks and followed by the closing tags in reverse order, checked against an independent tag table |
| SlateSerialize.SerializeTextExamples | src/components/SlateArea.tsx:85-92 | unmarked text is emitted verbatim with no escaping; bold and italic `x` gives `<em><strong>x</strong></em>` |
| SlateSerialize.SerializeElement | src/components/SlateArea.tsx:95-116 | an element is its kind's fixed opening tag, the concatenated children, and its fixed closing tag |
| SlateSerialize.ElementTags | src/components/SlateArea.tsx:97-116 | a heading of level n in 1..6 gives `<hn>`/`</hn>`; a code block gives `<pre><code>`…`</code></pre>`; a link puts its url verbatim into `href`; an unknown type emits no tags of its own |
| SlateDeserialize.Dispatch | src/components/SlateArea.tsx:141-195 | for non-empty children the tag switch never returns an empty result, and it keeps every element non-empty with headings of level 1..6 |
| SlateDeserialize.DeserializeNode | src/components/SlateArea.tsx:125-196 | `deserializeNode` never returns an empty sequence, and every element it builds, at any depth, has at least one child and (for headings) a level in 1..6 |
| SlateDeserialize.Children | src/components/SlateArea.tsx:134-139 | an element's children are the flat concatenation of its child nodes' results when it has child nodes, and one empty text when it has none; they are never empty and all well shaped |
| SlateDeserialize.DeserializeAll | src/components/SlateArea.tsx:134-135 | the flat concatenation of the child nodes' results is well shaped |
| SlateDeserialize.Deserialize | src/components/SlateArea.tsx:120-123 | the deserialized body is never empty and well shaped |
| SlateDeserialize.DeserializeEmptyBody | src/components/SlateArea.tsx:137-143 | an empty body gives one bare empty text, not a paragraph |
| SlateDeserialize.DeserializeList | src/components/SlateArea.tsx:164-175 | `UL`/`OL` give one bulleted/numbered list whose children match the element's children one for one, all list items: list items kept unchanged, anything else wrapped in one |
| SlateDeserialize.DeserializeMarkTag | src/components/SlateArea.tsx:180-192 | a mark tag returns its children one for one; text leaves gain the tag's mark and keep their text and other marks; element results pass through untouched |
| SlateDeserialize.ApplyMarkIdempotent | src/components/SlateArea.tsx:180-192 | applying a mark twice equals applying it once |
| SlateDeserialize.NestedMarkTagIdempotent | src/components/SlateArea.tsx:180-192 | a mark tag directly inside the same mark tag deserializes like a single one |
| SlateDeserialize.DeserializeHeading | src/components/SlateArea.tsx:148-159 | `H1`..`H6` give a heading of level 1..6 around the children |
| SlateDeserialize.DeserializeBreakAndTransparent | src/components/SlateArea.tsx:141-195 | `BR` gives a single `"\n"` text whatever it contains; `BODY` and tags without a case splice their children into the parent |
| SlateDeserialize.LooseTextStaysBare | src/components/SlateArea.tsx:141-147 | text beside a paragraph at the top level of the body stays a bare text leaf; no paragraph is synthesized |
| SlateDeserialize.TextMarksRoundTrip | src/components/SlateArea.tsx:180-192 | the DOM of a serialized text leaf (mark elements nested as the serializer writes them) deserializes back to that leaf with the same marks |
| SlateDeserialize.MarkDomMirrorsSerializer | src/components/SlateArea.tsx:84-93 | the DOM that round trip starts from, written back as HTML, is exactly the serializer's output for the leaf: same tags in the same nesting order |
| SlateDeserialize.DeserializePreCode | src/components/SlateArea.tsx:162-163 | `<pre><code>…</code></pre>` comes back as a code block whose direct text leaves carry the code mark |
| SlateDeserialize.CodeBlockGainsCodeMark | src/components/SlateArea.tsx:104-105 | a code block holding `x` serializes to `<pre><code>x</code></pre>` and comes back with `x` code-marked, so it is not a round trip |
| SlateInitial.TrimStart | src/components/SlateArea.tsx:556 | leading JavaScript whitespace is dropped: the result is a suffix, all dropped characters are whitespace, and the result starts with a non-whitespace character or is empty |
| SlateInitial.TrimEnd | src/components/SlateArea.tsx:556 | trailing JavaScript whitespace is dropped, symmetrically |
| SlateInitial.TrimEmptyIffBlank | src/components/SlateArea.tsx:556 | `content.trim() === ''` exactly when every character is whitespace |
| SlateInitial.InitialValue | src/components/SlateArea.tsx:555-566 | the editor's initial value is never empty and is well shaped |
| SlateInitial.InitialValueCases | src/components/SlateArea.tsx:555-566 | blank content or a throwing parser gives one paragraph holding one empty text; other content gives the deserialized body |
| UndoHistory.History.Push | src/hooks/useEditorHistory.ts:12-24 | push keeps the invariant (at most 100 entries, cursor in range, -1 exactly when empty), ends with the pushed state under the cursor and nothing to redo, and leaves the last at most 100 of the entries up to the cursor followed by the state |
| UndoHistory.History.Undo | src/hooks/useEditorHistory.ts:34-40 | undo never changes the entries; disabled it returns null and changes nothing; enabled it moves the cursor back one and returns the entry now under it |
| UndoHistory.History.Redo | src/hooks/useEditorHistory.ts:42-48 | redo never changes the entries; disabled it returns null and changes nothing; enabled it moves the cursor forward one and returns the entry now under it |
| UndoHistory.EmptyHistory | src/hooks/useEditorHistory.ts:8-9 | a new history satisfies the invariant and can neither undo nor redo |
| UndoHistory.UndoThenRedo | src/hooks/useEditorHistory.ts:34-48 | undo then redo restores the history and returns the state current before the undo |
| UndoHistory.RedoThenUndo | src/hooks/useEditorHistory.ts:34-48 | redo then undo restores the history and returns the state current before the redo |
| UndoHistory.PushThenUndo | src/hooks/useEditorHistory.ts:12-40 | after a push onto a non-empty history, undo returns the state current before the push, also when the cap dropped the oldest entry |
| UndoHistory.EditorHistory.Push | src/hooks/useEditorHistory.ts:12-24 | the class's `push` keeps the invariant and acts as `History.Push` |
| UndoHistory.EditorHistory.CanUndo | src/hooks/useEditorHistory.ts:26-28 | `canUndo()` holds exactly when `undo()` would return a state rather than null |
| UndoHistory.EditorHistory.CanRedo | src/hooks/useEditorHistory.ts:30-32 | `canRedo()` holds exactly when `redo()` would return a state rather than null |
| UndoHistory.EditorHistory.Undo | src/hooks/useEditorHistory.ts:34-40 | the class's `undo` keeps the invariant and acts as `History.Undo` |
| UndoHistory.EditorHistory.Redo | src/hooks/useEditorHistory.ts:42-48 | the class's `redo` keeps the invariant and acts as `History.Redo` |
| Notes.OrEmpty | src/NoteDetail.tsx:47 | `s or ''` is the string when it is non-empty and `''` for null, absent or empty |
| Notes.ReplaceAbsentGuid | src/NoteDetail.tsx:54 | mapping by a guid no stored note has leaves storage as it was |
| Notes.ReplacePresentGuid | src/NoteDetail.tsx:103 | mapping by a guid some stored note has puts the updated note into storage |
| NoteDetail.Truncate | src/NoteDetail.tsx:92 | `slice(0, n)` is a prefix of at most n characters, the whole string when it fits and exactly n characters otherwise |
| NoteDetail.EditTarget | src/NoteDetail.tsx:64-88 | a content edit goes to `ckEditorContent` exactly for a CKEditor-only note or a migrated note with CKEditor selected, and to `content` otherwise |
| NoteDetail.ChangeNote | src/NoteDetail.tsx:60-95 | every change keeps guid and created and sets modified; a title edit keeps the first 200 characters and leaves both content fields; a content edit writes only the routed field and keeps the title |
| NoteDetail.Upsert | src/NoteDetail.tsx:99-104 | a stored guid is replaced in place with every other note untouched; an unknown guid is appended after all stored notes |
| NoteDetail.FindByGuid | src/NoteDetail.tsx:18 | `find` returns the first note with the guid, and none exactly when no note has it |
| NoteDetail.Open | src/NoteDetail.tsx:13-38 | no id navigates away; a stored note is shown with CKEditor selected exactly when migrated; an unknown id gets an unsaved `[SHARED] New note` with empty content, no CKEditor content and created equal to modified |
| NoteDetail.OnChange | src/NoteDetail.tsx:60-107 | nothing happens before a note is loaded; otherwise the changed note is shown and upserted, with the editor selection kept |
| NoteDetail.OnMigrate | src/NoteDetail.tsx:40-58 | after confirmation `ckEditorContent` becomes `content or ''`, only modified changes besides it, matching stored notes are replaced in place and nothing is appended, and CKEditor is selected; the note counts as migrated exactly when its content was non-empty |
| NoteDetail.CKEditorOnlyEditKeepsContentNull | src/NoteDetail.tsx:66-72 | a content edit of a CKEditor-only note writes `ckEditorContent` and leaves `content` null, whichever editor is selected |
| NoteDetail.UnknownIdSavedOnFirstChange | src/NoteDetail.tsx:18-29 | opening an unknown id stores nothing; the first change appends the edited note after every stored note, with the id, the opening time as created and the change time as modified |
| NoteDetail.MigrateUnsavedNoteStoresNothing | src/NoteDetail.tsx:53-55 | migrating a note that is not in storage leaves storage unchanged |
| NoteDetail.MigrateEmptyContentStaysUnmigrated | src/NoteDetail.tsx:45-49 | migrating a note with empty content leaves it not migrated, with the Migrate button still shown |
| NotesList.NewTiptapNote | src/NotesList.tsx:19-32 | a new note with the given guid, empty title and content, no CKEditor content and created equal to modified goes in front, the others keeping their order |
| NotesList.NewCKEditorNote | src/NotesList.tsx:34-48 | a new note with null content and empty CKEditor content goes in front, the others keeping their order |
| NotesList.RemoveGuid | src/NotesList.tsx:55 | the filter keeps exactly the notes whose guid differs, and is the identity when no note has the guid |
| NotesList.RemoveGuidAppend | src/NotesList.tsx:55 | filtering a list made of two parts is filtering each part, so the kept notes stay in order |
| NotesList.Delete | src/NotesList.tsx:50-58 | a refused confirmation changes nothing; otherwise exactly the notes with the guid are removed |
| NotesList.DeletePreservesOrder | src/NotesList.tsx:55 | deleting from a concatenation is deleting from each part, in order |
| NotesList.Migrate | src/NotesList.tsx:60-74 | after confirmation each note with the guid gets `ckEditorContent` equal to its content and the new modified time, with title, content and created unchanged; every other note is untouched |
| NotesList.AddSampleNotes | src/NotesList.tsx:76-99 | after confirmation and a successful fetch the samples go in front of the stored notes, both in order; otherwise nothing changes |
| NotesList.Preview | src/NotesList.tsx:130 | the preview is a prefix of at most 50 characters of the content (null read as empty) followed by `...` |
| NotesList.BadgeAgreesWithMigrateButton | src/NotesList.tsx:126-133 | the Migrate button is shown exactly when the badge says Tiptap, and then the content is not null |
| NotesList.NewNoteBadges | src/NotesList.tsx:19-47 | a new Tiptap note shows the Tiptap badge and the Migrate button; a new CKEditor note shows the CKEditor badge and no button |
| NotesList.ListMigrateBadge | src/NotesList.tsx:65-71 | migrating from the list turns the badge to CKEditor exactly when the content was non-empty |
| RichText.ModeOf | src/components/RichText.tsx:24-53 | exactly one layout: CKEditor-only for null content with CKEditor content present; otherwise Tiptap-only unless migrated; otherwise migrated |
| RichText.FirstNonEmpty | src/components/RichText.tsx:89 | `ckEditorContent or content or ''` is empty exactly when both fields are falsy; otherwise it is one of the two fields, the CKEditor content whenever that is non-empty |
| RichText.Render | src/components/RichText.tsx:24-95 | CKEditor-only shows `ckEditorContent or ''` in CKEditor; Tiptap-only shows `content or ''` in Tiptap; migrated shows the selected editor; the view is read-only, warned and drops edits exactly for a migrated note with Tiptap selected |
| RichText.EditsLandInDisplayedField | src/components/RichText.tsx:25-92 | whenever a layout forwards edits, the detail screen writes them to the field that layout displays, and the other field is unchanged |
| RichText.ReadOnlyViewDiscardsEdits | src/components/RichText.tsx:70-85 | the migration warning appears exactly for a migrated note with Tiptap selected, and a view that does not forward edits leaves the note unchanged |
| RichText.EditIsShownBack | src/components/RichText.tsx:25-92 | after a forwarded edit the note renders in the same layout and editor and shows the new value, unless a migrated note's text is cleared |
| RichText.ClearingMigratedContentUnmigrates | src/NoteDetail.tsx:141 | for every migrated note, clearing its CKEditor text un-migrates it: whichever editor is selected afterwards, the view is the editable Tiptap-only view of its old `content or ''` |
| RichText.SelectionIrrelevantUnlessMigrated | src/components/RichText.tsx:41-52 | for a note that is not migrated, the view and the field an edit goes to are the same whichever editor is selected |
| RichText.OpenedMigratedNoteShowsCKEditor | src/NoteDetail.tsx:32-37 | a migrated note opened from storage starts in the CKEditor view of its CKEditor content |
| RemirrorArea.IndexFrom | src/components/RemirrorArea.tsx:172-175 | `indexOf(p, from)` is -1 or an occurrence at or after `from`, with no occurrence between `from` and it |
| RemirrorArea.IndexOf | src/components/RemirrorArea.tsx:172-175 | `indexOf(p)` is -1 exactly when `includes(p)` is false, and otherwise the first occurrence |
| RemirrorArea.YoutubeInsert | src/components/RemirrorArea.tsx:167-181 | a cancelled or empty prompt inserts nothing; otherwise the 640 by 360 iframe HTML has the embed URL verbatim between its fixed opening and closing parts |
| RemirrorArea.LinkPrompt | src/components/RemirrorArea.tsx:143-151 | cancel does nothing, an empty answer removes the link, any other answer becomes the href as typed |
| RemirrorArea.WatchRule | src/components/RemirrorArea.tsx:172-173 | a URL with `watch?v=` has its first occurrence replaced by `embed/`, nothing else changed, whether or not it also holds `youtu.be/` |
| RemirrorArea.CutAtQuestionMark | src/components/RemirrorArea.tsx:175 | `split('?')[0]` of the id followed by nothing or by `?` is the id |
| RemirrorArea.CutAtNextShortHost | src/components/RemirrorArea.tsx:175 | `split('youtu.be/')[1]` stops at the next `youtu.be/` |
| RemirrorArea.ShortHostRule | src/components/RemirrorArea.tsx:174-176 | without `watch?v=`, a `youtu.be/` URL becomes the embed base followed by the text after its first `youtu.be/`, cut at the next `youtu.be/` or `?` |
| RemirrorArea.PassThrough | src/components/RemirrorArea.tsx:171 | a URL with neither pattern is used unchanged |
| RemirrorArea.WatchExample | src/components/RemirrorArea.tsx:172-173 | `youtube.com/watch?v=abc` becomes `youtube.com/embed/abc` |
| RemirrorArea.ShortHostExample | src/components/RemirrorArea.tsx:174-176 | `https://youtu.be/abc?t=1` becomes `https://www.youtube.com/embed/abc` |
| RemirrorArea.PrecedenceExample | src/components/RemirrorArea.tsx:172-174 | with both patterns present, `youtu.be/watch?v=x` becomes `youtu.be/embed/x` by the `watch?v=` rule |

## Left out

- HTML parsing: `DOMParser` and the browser's parser (src/components/SlateArea.tsx:121) are replaced by the abstract `DomNode` tree. The browser's resolution of `<a>.href` to an absolute URL is an opaque string.
- Slate's normalizer, which merges adjacent text leaves with equal marks. It is Slate library code and is not shown.
- The Slate editing commands and rendering (src/components/SlateArea.tsx:199-540): calls into Slate's `Editor` and `Transforms`, which are not shown.
- The debounce, timer and React state of the history hook (src/hooks/useEditorHistory.ts:51-98). Only the `EditorHistory` class is modelled.
- Routing, rendering, `localStorage`, `Date.now`, `generateGUID`, `window.confirm`, `window.prompt` and `fetch`: these are parameters or left out. The sample-notes fetch is `Some(notes)` or `None` for any failure, and the alert it shows is left out.
- The editor selection persisting when the route id changes (src/NoteDetail.tsx:11, 13-38). `Open` starts from Tiptap. The component keeps the previous selection in two cases: an unknown id (lines 20-29) and a stored note that is not migrated. Neither note is migrated, so the kept selection changes neither the view nor where an edit goes (`RichText.SelectionIrrelevantUnlessMigrated`).
- The image prompt (src/components/RemirrorArea.tsx:156-165) and the other Remirror toolbar buttons, which call library commands.
- The library-backed editor adapters (TipTap, Lexical, ProseMirror, CKEditor, Froala, Summernote, Quill, TinyMCE, content-editable, text area), the scripts (HMAC signing, migration, upload, sample-note generation) and `ckeditorcs.js`: library calls, network and file I/O.
- NotesList.Migrate: requires `content` not to be null, because the only caller is the Migrate button, which is shown only then (`NotesList.BadgeAgreesWithMigrateButton`).
- Characters are Unicode code points, not UTF-16 code units, so `slice(0, 200)`, `slice(0, 50)` and `trim` count surrogate pairs as one character.
- Heading levels are unbounded integers. The serializer writes any level in decimal, but the deserializer only ever produces 1..6.
- `handleChange` accepts any field name of a note, but the screen only ever passes `title` and `content`, so `NoteDetail.Field` has just those two.
