/** The notes list screen (src/NotesList.tsx): creating the two kinds of
    note, deleting, migrating from the list, prepending sample notes, and
    the badge, preview and Migrate-button shown on each tile. The guid
    generator, the clock, the confirmation dialog and the sample-notes fetch
    are parameters; every list result is both saved and shown. */
module NotesList {
  import opened Wrappers
  import opened Notes

  /** `handleNewTiptapNote`: a new empty Tiptap note goes in front. */
  function NewTiptapNote(notes: seq<Note>, guid: string, now: int): (r: seq<Note>)
    ensures |r| == |notes| + 1 && r[1..] == notes
    ensures var n := r[0];
            && n.guid == guid && n.title == "" && n.content == Some("") && n.ckEditorContent.None?
            && n.created == n.modified == now
  {
    [Note(guid, "", Some(""), None, now, now)] + notes
  }

  /** `handleNewCKEditorNote`: a new CKEditor-only note goes in front. */
  function NewCKEditorNote(notes: seq<Note>, guid: string, now: int): (r: seq<Note>)
    ensures |r| == |notes| + 1 && r[1..] == notes
    ensures var n := r[0];
            && n.guid == guid && n.title == "" && n.content.None? && n.ckEditorContent == Some("")
            && n.created == n.modified == now
  {
    [Note(guid, "", None, Some(""), now, now)] + notes
  }

  /** `notes.filter(note => note.guid !== guid)` */
  function RemoveGuid(notes: seq<Note>, guid: string): (r: seq<Note>)
    decreases |notes|
    ensures |r| <= |notes|
    ensures forall n :: n in r <==> n in notes && n.guid != guid
    ensures !HasGuid(notes, guid) ==> r == notes
  {
    if |notes| == 0 then []
    else
      var rest := RemoveGuid(notes[1..], guid);
      assert forall n :: n in notes <==> n == notes[0] || n in notes[1..];
      if notes[0].guid == guid then rest else [notes[0]] + rest
  }

  /** Filtering works piecewise, so the kept notes stay in their order. */
  lemma {:induction false} RemoveGuidAppend(a: seq<Note>, b: seq<Note>, guid: string)
    ensures RemoveGuid(a + b, guid) == RemoveGuid(a, guid) + RemoveGuid(b, guid)
    decreases |a|
  {
    if |a| == 0 {
      assert a + b == b;
    } else {
      assert (a + b)[1..] == a[1..] + b;
      RemoveGuidAppend(a[1..], b, guid);
    }
  }

  /** `handleDelete`: after confirmation, exactly the notes with the guid
      are removed. */
  function Delete(notes: seq<Note>, guid: string, confirmed: bool): (r: seq<Note>)
    ensures !confirmed ==> r == notes
    ensures confirmed ==> forall n :: n in r <==> n in notes && n.guid != guid
  {
    if confirmed then RemoveGuid(notes, guid) else notes
  }

  /** `handleMigrate(note)`: after confirmation, every note with the clicked
      note's guid becomes that note with `ckEditorContent` set to its
      `content` and `modified` set to the time; the others are untouched.
      It is only reachable from the Migrate button, which is shown only
      when `content` is not null. */
  function Migrate(notes: seq<Note>, note: Note, confirmed: bool, now: int): (r: seq<Note>)
    requires note.content.Some?
    ensures !confirmed ==> r == notes
    ensures confirmed ==>
              && |r| == |notes|
              && forall i :: 0 <= i < |notes| ==>
                   if notes[i].guid == note.guid then
                     && r[i].guid == note.guid && r[i].title == note.title
                     && r[i].content == note.content && r[i].ckEditorContent == note.content
                     && r[i].created == note.created && r[i].modified == now
                   else r[i] == notes[i]
  {
    if confirmed then ReplaceByGuid(notes, note.guid, note.(ckEditorContent := note.content, modified := now))
    else notes
  }

  /** `handleGenerateSampleNotes`: after confirmation and a successful
      fetch, the sample notes go in front of the stored notes, both in their
      order; a refused confirmation or a failed fetch changes nothing. */
  function AddSampleNotes(shown: seq<Note>, stored: seq<Note>, fetched: Option<seq<Note>>, confirmed: bool): (r: seq<Note>)
    ensures !confirmed || fetched.None? ==> r == shown
    ensures confirmed && fetched.Some? ==>
              && |r| == |fetched.value| + |stored|
              && r[..|fetched.value|] == fetched.value && r[|fetched.value|..] == stored
  {
    if !confirmed then shown
    else
      match fetched
      case None => shown
      case Some(samples) => samples + stored
  }

  /** The editor badge on a tile. */
  datatype Badge = CKEditorBadge | TiptapBadge

  function BadgeOf(n: Note): Badge {
    if n.content.None? || Truthy(n.ckEditorContent) then CKEditorBadge else TiptapBadge
  }

  /** The tile preview: the first 50 characters of the content (null read
      as empty) followed by an ellipsis. */
  function Preview(n: Note): (r: string)
    ensures |r| == (if |OrEmpty(n.content)| < 50 then |OrEmpty(n.content)| else 50) + 3
    ensures r[..|r| - 3] <= OrEmpty(n.content) && r[|r| - 3..] == "..."
  {
    var c := OrEmpty(n.content);
    (if |c| <= 50 then c else c[..50]) + "..."
  }

  // ---------------------------------------------------------------------
  // Properties
  // ---------------------------------------------------------------------

  /** The Migrate button appears exactly when the badge says Tiptap, and
      then the note's content is not null, as `Migrate` requires. */
  lemma BadgeAgreesWithMigrateButton(n: Note)
    ensures ShowsMigrateButton(n) <==> BadgeOf(n) == TiptapBadge
    ensures ShowsMigrateButton(n) ==> n.content.Some?
  {
  }

  /** A new Tiptap note shows the Tiptap badge and the Migrate button; a new
      CKEditor note shows the CKEditor badge and no Migrate button. */
  lemma NewNoteBadges(notes: seq<Note>, guid: string, now: int)
    ensures BadgeOf(NewTiptapNote(notes, guid, now)[0]) == TiptapBadge
    ensures ShowsMigrateButton(NewTiptapNote(notes, guid, now)[0])
    ensures BadgeOf(NewCKEditorNote(notes, guid, now)[0]) == CKEditorBadge
    ensures !ShowsMigrateButton(NewCKEditorNote(notes, guid, now)[0])
  {
  }

  /** Migrating from the list a tile that shows the button turns its badge
      to CKEditor exactly when its content is non-empty. */
  lemma ListMigrateBadge(notes: seq<Note>, i: int, now: int)
    requires 0 <= i < |notes| && ShowsMigrateButton(notes[i])
    ensures BadgeOf(Migrate(notes, notes[i], true, now)[i]) == CKEditorBadge <==> notes[i].content.value != ""
  {
  }

  /** Deleting keeps the other notes in order: deleting from a list made of
      two parts is deleting from each part. */
  lemma DeletePreservesOrder(a: seq<Note>, b: seq<Note>, guid: string)
    ensures Delete(a + b, guid, true) == Delete(a, guid, true) + Delete(b, guid, true)
  {
    RemoveGuidAppend(a, b, guid);
  }
}
