/** The editor-mode selection of src/components/RichText.tsx, and its
    agreement with the field routing of the note detail screen. */
module RichText {
  import opened Wrappers
  import opened Notes
  import opened NoteDetail

  /** Which of the three layouts is rendered. */
  datatype Mode = CKEditorOnlyMode | TiptapOnlyMode | MigratedMode

  /** What is on screen: the layout, the editor shown, the content handed to
      it, whether its edits reach `onChange` (or go to the no-op handler),
      whether it is read-only, and whether the migration warning shows. */
  datatype View = View(mode: Mode, editor: EditorChoice, shown: string, forwardsEdits: bool, readOnly: bool, warning: bool)

  /** Exactly one mode: CKEditor-only for a null `content` with a
      `ckEditorContent`; otherwise Tiptap-only unless migrated; otherwise
      migrated. */
  function ModeOf(content: Option<string>, ckEditorContent: Option<string>, isMigrated: bool): (m: Mode)
    ensures m == CKEditorOnlyMode <==> IsCKEditorOnly(content, ckEditorContent)
    ensures m == TiptapOnlyMode <==> !IsCKEditorOnly(content, ckEditorContent) && !isMigrated
    ensures m == MigratedMode <==> !IsCKEditorOnly(content, ckEditorContent) && isMigrated
  {
    if content.None? && ckEditorContent.Some? then CKEditorOnlyMode
    else if !isMigrated then TiptapOnlyMode
    else MigratedMode
  }

  /** `ckEditorContent || content || ''` */
  function FirstNonEmpty(ckEditorContent: Option<string>, content: Option<string>): (r: string)
    ensures r == "" <==> !Truthy(ckEditorContent) && !Truthy(content)
    ensures r != "" ==> Some(r) == ckEditorContent || Some(r) == content
    ensures Truthy(ckEditorContent) ==> Some(r) == ckEditorContent
  {
    if Truthy(ckEditorContent) then ckEditorContent.value else OrEmpty(content)
  }

  /** The component's render. */
  function Render(content: Option<string>, ckEditorContent: Option<string>, isMigrated: bool, selected: EditorChoice): (v: View)
    ensures v.mode == ModeOf(content, ckEditorContent, isMigrated)
    ensures v.mode == CKEditorOnlyMode ==> v.editor == CKEditor && v.shown == OrEmpty(ckEditorContent)
    ensures v.mode == TiptapOnlyMode ==> v.editor == Tiptap && v.shown == OrEmpty(content)
    ensures v.mode == MigratedMode ==> v.editor == selected
    ensures v.mode == MigratedMode && selected == CKEditor ==> v.shown == FirstNonEmpty(ckEditorContent, content)
    ensures v.mode == MigratedMode && selected == Tiptap ==> v.shown == OrEmpty(content)
    ensures v.readOnly <==> v.mode == MigratedMode && selected == Tiptap
    ensures v.warning <==> v.readOnly
    ensures v.forwardsEdits <==> !v.readOnly
  {
    match ModeOf(content, ckEditorContent, isMigrated)
    case CKEditorOnlyMode => View(CKEditorOnlyMode, CKEditor, OrEmpty(ckEditorContent), true, false, false)
    case TiptapOnlyMode => View(TiptapOnlyMode, Tiptap, OrEmpty(content), true, false, false)
    case MigratedMode =>
      match selected
      case Tiptap => View(MigratedMode, Tiptap, OrEmpty(content), false, true, true)
      case CKEditor => View(MigratedMode, CKEditor, FirstNonEmpty(ckEditorContent, content), true, false, false)
  }

  /** How the detail screen renders a note: `isMigrated` is `!!ckEditorContent`. */
  function NoteView(n: Note, selected: EditorChoice): View {
    Render(n.content, n.ckEditorContent, IsMigrated(n), selected)
  }

  /** What an edit in the rendered editor does to the note: forwarded edits
      are content changes; the read-only editor's are dropped. */
  function EditFromView(n: Note, selected: EditorChoice, value: string, now: int): Note {
    if NoteView(n, selected).forwardsEdits then ChangeNote(n, selected, Content, value, now) else n
  }

  // ---------------------------------------------------------------------
  // Properties
  // ---------------------------------------------------------------------

  /** Whenever a mode forwards edits, the detail screen writes them to the
      field that mode displays: CKEditor edits go to `ckEditorContent`,
      which is what a CKEditor view shows, and Tiptap edits go to `content`,
      which is what a Tiptap view shows; the other field never changes. */
  lemma EditsLandInDisplayedField(n: Note, selected: EditorChoice, value: string, now: int)
    ensures var v := NoteView(n, selected);
            var r := ChangeNote(n, selected, Content, value, now);
            && (v.forwardsEdits && v.editor == CKEditor ==>
                  && EditTarget(n, selected) == CKEditorField && v.shown == OrEmpty(n.ckEditorContent)
                  && r.ckEditorContent == Some(value) && r.content == n.content)
            && (v.forwardsEdits && v.editor == Tiptap ==>
                  && EditTarget(n, selected) == TiptapField && v.shown == OrEmpty(n.content)
                  && r.content == Some(value) && r.ckEditorContent == n.ckEditorContent)
  {
  }

  /** The read-only Tiptap view of a migrated note drops every edit, and it
      is the only view with the migration warning. */
  lemma ReadOnlyViewDiscardsEdits(n: Note, selected: EditorChoice, value: string, now: int)
    ensures NoteView(n, selected).warning <==> IsMigrated(n) && !IsCKEditorOnly(n.content, n.ckEditorContent) && selected == Tiptap
    ensures !NoteView(n, selected).forwardsEdits ==> EditFromView(n, selected, value, now) == n
  {
  }

  /** An edit is shown back: after a forwarded edit the note renders in the
      same mode and editor and shows the new value, except when a migrated
      note's CKEditor content is cleared. */
  lemma EditIsShownBack(n: Note, selected: EditorChoice, value: string, now: int)
    requires NoteView(n, selected).forwardsEdits
    requires value != "" || NoteView(n, selected).mode != MigratedMode
    ensures var v := NoteView(n, selected);
            var w := NoteView(EditFromView(n, selected, value, now), selected);
            w.mode == v.mode && w.editor == v.editor && w.shown == value
  {
  }

  /** Clearing the CKEditor content of a migrated note un-migrates it: the
      note falls back to the editable Tiptap-only view of its old content,
      whichever editor is selected afterwards. */
  lemma ClearingMigratedContentUnmigrates(n: Note, selected: EditorChoice, now: int)
    requires NoteView(n, CKEditor).mode == MigratedMode
    ensures var r := EditFromView(n, CKEditor, "", now);
            && !IsMigrated(r)
            && NoteView(r, selected).mode == TiptapOnlyMode
            && NoteView(r, selected).editor == Tiptap
            && !NoteView(r, selected).readOnly
            && NoteView(r, selected).shown == OrEmpty(n.content)
  {
  }

  /** For a note that is not migrated the editor selection is unobservable:
      the view and the field an edit goes to are the same for both
      choices. */
  lemma SelectionIrrelevantUnlessMigrated(n: Note)
    requires !IsMigrated(n)
    ensures NoteView(n, Tiptap) == NoteView(n, CKEditor)
    ensures EditTarget(n, Tiptap) == EditTarget(n, CKEditor)
  {
  }

  /** A note opened from storage starts in the view of its kind: a migrated
      note in the CKEditor view of its `ckEditorContent`. */
  lemma OpenedMigratedNoteShowsCKEditor(stored: seq<Note>, id: string, now: int)
    requires id != "" && HasGuid(stored, id)
    ensures var s := Open(stored, id, now).value;
            IsMigrated(s.note.value) ==>
              && NoteView(s.note.value, s.selected).editor == CKEditor
              && NoteView(s.note.value, s.selected).shown == s.note.value.ckEditorContent.value
  {
  }
}
