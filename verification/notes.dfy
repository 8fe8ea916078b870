/** The persisted note record of src/types.d.ts and the JavaScript
    truthiness tests the screens apply to its two content fields. */
module Notes {
  import opened Wrappers

  /** `content: None` is `null` (a CKEditor-only note); `ckEditorContent:
      None` is an absent field. Timestamps are milliseconds. */
  datatype Note = Note(
    guid: string,
    title: string,
    content: Option<string>,
    ckEditorContent: Option<string>,
    created: int,
    modified: int)

  /** The declared maximum title length. */
  const MaxTitleLength: nat := 200

  /** The two editors a note can be shown in. */
  datatype EditorChoice = Tiptap | CKEditor

  /** `!!s` for `s: string | null | undefined`. */
  predicate Truthy(s: Option<string>) {
    s.Some? && s.value != ""
  }

  /** `s || ''` */
  function OrEmpty(s: Option<string>): (r: string)
    ensures Truthy(s) ==> r == s.value
    ensures !Truthy(s) ==> r == ""
  {
    if s.Some? then s.value else ""
  }

  /** `!!note.ckEditorContent`: the note counts as migrated. */
  predicate IsMigrated(n: Note) {
    Truthy(n.ckEditorContent)
  }

  /** `content === null && ckEditorContent !== undefined` */
  predicate IsCKEditorOnly(content: Option<string>, ckEditorContent: Option<string>) {
    content.None? && ckEditorContent.Some?
  }

  /** `note.content !== null && !note.ckEditorContent`: both screens show a
      Migrate button exactly then. */
  predicate ShowsMigrateButton(n: Note) {
    n.content.Some? && !Truthy(n.ckEditorContent)
  }

  predicate HasGuid(notes: seq<Note>, guid: string) {
    exists i :: 0 <= i < |notes| && notes[i].guid == guid
  }

  /** `notes.map(n => n.guid === guid ? u : n)` */
  function ReplaceByGuid(notes: seq<Note>, guid: string, u: Note): (r: seq<Note>)
    ensures |r| == |notes|
  {
    seq(|notes|, i requires 0 <= i < |notes| => if notes[i].guid == guid then u else notes[i])
  }

  /** Replacing by a guid no note has leaves the list as it was. */
  lemma ReplaceAbsentGuid(notes: seq<Note>, guid: string, u: Note)
    requires !HasGuid(notes, guid)
    ensures ReplaceByGuid(notes, guid, u) == notes
  {
  }

  /** Replacing by a guid some note has puts the replacement in the list. */
  lemma ReplacePresentGuid(notes: seq<Note>, guid: string, u: Note)
    requires HasGuid(notes, guid)
    ensures u in ReplaceByGuid(notes, guid, u)
  {
    var i :| 0 <= i < |notes| && notes[i].guid == guid;
    assert ReplaceByGuid(notes, guid, u)[i] == u;
  }
}
