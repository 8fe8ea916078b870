/** The note detail screen (src/NoteDetail.tsx): opening a note by id,
    routing an edit to one of the two content fields, truncating titles,
    upserting into storage, and migrating to CKEditor. Storage, the clock
    and the confirmation dialog are parameters. */
module NoteDetail {
  import opened Wrappers
  import opened Notes

  /** The two fields the screen edits. */
  datatype Field = Title | Content

  /** The content field an edit is written to. */
  datatype ContentField = TiptapField | CKEditorField

  /** The screen's state: the note (undefined until loaded), the editor
      selection, and what local storage holds. */
  datatype Screen = Screen(note: Option<Note>, selected: EditorChoice, stored: seq<Note>)

  const SharedTitle: string := "[SHARED] New note"

  /** `value.slice(0, n)` */
  function Truncate(s: string, n: nat): (r: string)
    ensures |r| <= n && r <= s
    ensures |s| <= n ==> r == s
    ensures |s| > n ==> |r| == n
  {
    if |s| <= n then s else s[..n]
  }

  /** Where a content edit goes: a CKEditor-only note writes `ckEditorContent`;
      a migrated note with CKEditor selected writes `ckEditorContent`; every
      other note writes `content`. */
  function EditTarget(note: Note, selected: EditorChoice): (f: ContentField)
    ensures IsCKEditorOnly(note.content, note.ckEditorContent) ==> f == CKEditorField
    ensures f == CKEditorField <==> IsCKEditorOnly(note.content, note.ckEditorContent) || (IsMigrated(note) && selected == CKEditor)
  {
    if note.content.None? && note.ckEditorContent.Some? then CKEditorField
    else if IsMigrated(note) && selected == CKEditor then CKEditorField
    else TiptapField
  }

  /** The note `handleChange(field, value)` builds: the edited field takes
      the value (a title cut to 200 characters, never rejected; content into
      the field `EditTarget` names), `modified` takes the time, and the guid,
      the creation time and the other fields are unchanged. */
  function ChangeNote(note: Note, selected: EditorChoice, field: Field, value: string, now: int): (r: Note)
    ensures r.guid == note.guid && r.created == note.created && r.modified == now
    ensures field == Title ==>
              && r.title == Truncate(value, MaxTitleLength)
              && r.content == note.content && r.ckEditorContent == note.ckEditorContent
    ensures field == Content ==> r.title == note.title
    ensures field == Content && EditTarget(note, selected) == CKEditorField ==>
              r.ckEditorContent == Some(value) && r.content == note.content
    ensures field == Content && EditTarget(note, selected) == TiptapField ==>
              r.content == Some(value) && r.ckEditorContent == note.ckEditorContent
  {
    match field
    case Title => note.(title := Truncate(value, MaxTitleLength), modified := now)
    case Content =>
      match EditTarget(note, selected)
      case CKEditorField => note.(ckEditorContent := Some(value), modified := now)
      case TiptapField => note.(content := Some(value), modified := now)
  }

  /** The save step of `handleChange`: a note whose guid is stored replaces
      every stored note with that guid in place, leaving the others alone;
      otherwise it is appended after them. */
  function Upsert(stored: seq<Note>, u: Note): (r: seq<Note>)
    ensures u in r
    ensures HasGuid(stored, u.guid) ==>
              && |r| == |stored|
              && (forall i :: 0 <= i < |stored| && stored[i].guid != u.guid ==> r[i] == stored[i])
              && (forall i :: 0 <= i < |stored| && stored[i].guid == u.guid ==> r[i] == u)
    ensures !HasGuid(stored, u.guid) ==> |r| == |stored| + 1 && r[..|stored|] == stored && r[|stored|] == u
  {
    if HasGuid(stored, u.guid) then
      ReplacePresentGuid(stored, u.guid, u);
      ReplaceByGuid(stored, u.guid, u)
    else
      stored + [u]
  }

  /** `getNotes().find(n => n.guid === id)`: the first note with the guid. */
  function FindByGuid(notes: seq<Note>, id: string): (r: Option<Note>)
    decreases |notes|
    ensures r.None? <==> !HasGuid(notes, id)
    ensures r.Some? ==> exists i :: 0 <= i < |notes| && notes[i] == r.value && r.value.guid == id
                          && forall j :: 0 <= j < i ==> notes[j].guid != id
  {
    if |notes| == 0 then None
    else if notes[0].guid == id then Some(notes[0])
    else
      var r := FindByGuid(notes[1..], id);
      assert forall i :: 1 <= i < |notes| ==> notes[i] == notes[1..][i - 1];
      r
  }

  /** The loading effect for route parameter `id`: no id navigates away
      (`None`); a stored note is shown, with CKEditor selected if it is
      migrated; an unknown id gets a shared placeholder note that is not
      stored yet. */
  function Open(stored: seq<Note>, id: string, now: int): (r: Option<Screen>)
    ensures id == "" <==> r.None?
    ensures r.Some? ==> r.value.stored == stored && r.value.note.Some? && r.value.note.value.guid == id
    ensures r.Some? && HasGuid(stored, id) ==>
              && r.value.note.value in stored
              && (r.value.selected == CKEditor <==> IsMigrated(r.value.note.value))
    ensures r.Some? && !HasGuid(stored, id) ==>
              var n := r.value.note.value;
              && n.title == SharedTitle && n.content == Some("") && n.ckEditorContent.None?
              && n.created == n.modified == now && r.value.selected == Tiptap
  {
    if id == "" then None
    else
      match FindByGuid(stored, id)
      case None => Some(Screen(Some(Note(id, SharedTitle, Some(""), None, now, now)), Tiptap, stored))
      case Some(found) => Some(Screen(Some(found), if IsMigrated(found) then CKEditor else Tiptap, stored))
  }

  /** `handleChange`: nothing happens before a note is loaded; otherwise the
      changed note is shown and upserted into storage. */
  function OnChange(s: Screen, field: Field, value: string, now: int): (r: Screen)
    ensures s.note.None? ==> r == s
    ensures s.note.Some? ==>
              && r.selected == s.selected && r.note.Some?
              && r.note.value == ChangeNote(s.note.value, s.selected, field, value, now)
              && r.stored == Upsert(s.stored, r.note.value)
  {
    match s.note
    case None => s
    case Some(note) =>
      var u := ChangeNote(note, s.selected, field, value, now);
      Screen(Some(u), s.selected, Upsert(s.stored, u))
  }

  /** `handleMigrateToCKEditor`: when a note is loaded and the user
      confirms, `ckEditorContent` takes `content || ''`, `content` is kept,
      the stored copies are replaced (never appended), and CKEditor is
      selected. The note then counts as migrated only if its content was
      non-empty. */
  function OnMigrate(s: Screen, confirmed: bool, now: int): (r: Screen)
    ensures s.note.None? || !confirmed ==> r == s
    ensures s.note.Some? && confirmed ==>
              var n := s.note.value;
              && r.note.Some? && r.selected == CKEditor
              && r.note.value.ckEditorContent == Some(OrEmpty(n.content))
              && r.note.value == n.(ckEditorContent := r.note.value.ckEditorContent, modified := now)
              && (IsMigrated(r.note.value) <==> Truthy(n.content))
              && |r.stored| == |s.stored|
              && (forall i :: 0 <= i < |s.stored| ==>
                    r.stored[i] == if s.stored[i].guid == n.guid then r.note.value else s.stored[i])
  {
    match s.note
    case None => s
    case Some(note) =>
      if !confirmed then s
      else
        var u := note.(ckEditorContent := Some(OrEmpty(note.content)), modified := now);
        Screen(Some(u), CKEditor, ReplaceByGuid(s.stored, note.guid, u))
  }

  // ---------------------------------------------------------------------
  // Properties
  // ---------------------------------------------------------------------

  /** A content edit of a CKEditor-only note writes `ckEditorContent` and
      leaves `content` null, whichever editor is selected. */
  lemma CKEditorOnlyEditKeepsContentNull(note: Note, selected: EditorChoice, value: string, now: int)
    requires IsCKEditorOnly(note.content, note.ckEditorContent)
    ensures var r := ChangeNote(note, selected, Content, value, now);
            r.content.None? && r.ckEditorContent == Some(value)
  {
  }

  /** An id with no stored note is not saved when opened; the first change
      appends the edited placeholder to storage, after every stored note. */
  lemma UnknownIdSavedOnFirstChange(stored: seq<Note>, id: string, now: int, field: Field, value: string, later: int)
    requires id != "" && !HasGuid(stored, id)
    ensures var s := Open(stored, id, now).value;
            var r := OnChange(s, field, value, later);
            && s.stored == stored
            && r.stored == stored + [r.note.value]
            && r.note.value.guid == id && r.note.value.created == now && r.note.value.modified == later
  {
    var s := Open(stored, id, now).value;
    var r := OnChange(s, field, value, later);
    assert r.stored[..|stored|] == stored;
  }

  /** Migrating a note that is not in storage (an unknown id not edited
      yet) stores nothing. */
  lemma MigrateUnsavedNoteStoresNothing(s: Screen, now: int)
    requires s.note.Some? && !HasGuid(s.stored, s.note.value.guid)
    ensures OnMigrate(s, true, now).stored == s.stored
  {
    var n := s.note.value;
    ReplaceAbsentGuid(s.stored, n.guid, n.(ckEditorContent := Some(OrEmpty(n.content)), modified := now));
  }

  /** Migrating a note with empty content leaves it not migrated: the
      Migrate button is still shown afterwards. */
  lemma MigrateEmptyContentStaysUnmigrated(s: Screen, now: int)
    requires s.note.Some? && s.note.value.content == Some("")
    ensures var r := OnMigrate(s, true, now);
            !IsMigrated(r.note.value) && ShowsMigrateButton(r.note.value)
  {
  }
}
