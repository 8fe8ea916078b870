/** The linear undo/redo history of src/hooks/useEditorHistory.ts: a
    sequence of at most 100 states and a cursor into it. `History` is the
    functional model; `EditorHistory` is the class with its mutable fields. */
module UndoHistory {
  import opened Wrappers

  datatype HistoryState = HistoryState(content: string)

  const MaxHistory: nat := 100

  /** The result of `undo`/`redo`: the new history and the state returned
      (`None` for `null`). */
  datatype Step = Step(history: History, state: Option<HistoryState>)

  datatype History = History(entries: seq<HistoryState>, index: int) {

    /** The class invariant: at most 100 entries, a cursor within them, and
        the cursor at -1 exactly when there are none. */
    predicate Valid() {
      && |entries| <= MaxHistory
      && -1 <= index < |entries|
      && (index == -1 <==> |entries| == 0)
    }

    predicate CanUndo() {
      index > 0
    }

    predicate CanRedo() {
      index < |entries| - 1
    }

    /** `push`: drops the forward history, appends `s` and moves the cursor
        onto it; over the cap the oldest entry is dropped instead. The new
        entries are the last (at most 100) of the entries up to the cursor
        followed by `s`. */
    function Push(s: HistoryState): (r: History)
      requires Valid()
      ensures r.Valid()
      ensures |r.entries| > 0 && r.entries[|r.entries| - 1] == s
      ensures r.index == |r.entries| - 1 && !r.CanRedo()
      ensures var kept := entries[..index + 1];
              && |r.entries| == (if |kept| + 1 <= MaxHistory then |kept| + 1 else MaxHistory)
              && r.entries == (kept + [s])[|kept| + 1 - |r.entries|..]
    {
      var kept := entries[..index + 1] + [s];
      if |kept| > MaxHistory then History(kept[1..], index) else History(kept, index + 1)
    }

    /** `undo`: when enabled, moves the cursor back one and returns the entry
        now under it; otherwise changes nothing and returns null. The
        entries never change. */
    function Undo(): (r: Step)
      requires Valid()
      ensures r.history.Valid()
      ensures r.history.entries == entries
      ensures !CanUndo() ==> r == Step(this, None)
      ensures CanUndo() ==> r.history.index == index - 1 && r.state == Some(entries[index - 1])
      ensures index >= 0 ==> r.history.index >= 0
    {
      if CanUndo() then
        var h := this.(index := index - 1);
        Step(h, Some(h.entries[h.index]))
      else
        Step(this, None)
    }

    /** `redo`: when enabled, moves the cursor forward one and returns the
        entry now under it; otherwise changes nothing and returns null. */
    function Redo(): (r: Step)
      requires Valid()
      ensures r.history.Valid()
      ensures r.history.entries == entries
      ensures !CanRedo() ==> r == Step(this, None)
      ensures CanRedo() ==> r.history.index == index + 1 && r.state == Some(entries[index + 1])
    {
      if CanRedo() then
        var h := this.(index := index + 1);
        Step(h, Some(h.entries[h.index]))
      else
        Step(this, None)
    }
  }

  /** The history a new `EditorHistory` starts with. */
  const Empty: History := History([], -1)

  /** A fresh history is valid and can neither undo nor redo. */
  lemma EmptyHistory()
    ensures Empty.Valid() && !Empty.CanUndo() && !Empty.CanRedo()
  {
  }

  /** Undo then redo restores the cursor and returns the state that was
      current before the undo. */
  lemma UndoThenRedo(h: History)
    requires h.Valid() && h.CanUndo()
    ensures var u := h.Undo().history;
            u.CanRedo() && u.Redo() == Step(h, Some(h.entries[h.index]))
  {
  }

  /** Redo then undo restores the cursor and returns the state that was
      current before the redo. */
  lemma RedoThenUndo(h: History)
    requires h.Valid() && h.CanRedo() && h.index >= 0
    ensures var u := h.Redo().history;
            u.CanUndo() && u.Undo() == Step(h, Some(h.entries[h.index]))
  {
  }

  /** After a push onto a non-empty history, undo returns the state that was
      current before the push, also when the cap dropped the oldest entry. */
  lemma PushThenUndo(h: History, s: HistoryState)
    requires h.Valid() && h.index >= 0
    ensures var p := h.Push(s);
            p.CanUndo() && p.Undo().state == Some(h.entries[h.index])
  {
    var kept := h.entries[..h.index + 1] + [s];
    assert kept[h.index] == h.entries[h.index];
  }

  /** The class as written, with its two mutable fields. */
  class EditorHistory {
    var history: seq<HistoryState>
    var currentIndex: int

    function Model(): History
      reads this
    {
      History(history, currentIndex)
    }

    ghost predicate Valid()
      reads this
    {
      Model().Valid()
    }

    constructor ()
      ensures Valid() && Model() == Empty
    {
      history := [];
      currentIndex := -1;
    }

    method Push(state: HistoryState)
      requires Valid()
      modifies this
      ensures Valid() && Model() == old(Model()).Push(state)
    {
      history := history[..currentIndex + 1];
      history := history + [state];
      if |history| > MaxHistory {
        history := history[1..];
      } else {
        currentIndex := currentIndex + 1;
      }
    }

    /** `canUndo()`: whether `undo` would return a state. */
    method CanUndo() returns (b: bool)
      requires Valid()
      ensures b <==> Model().Undo().state.Some?
    {
      b := currentIndex > 0;
    }

    /** `canRedo()`: whether `redo` would return a state. */
    method CanRedo() returns (b: bool)
      requires Valid()
      ensures b <==> Model().Redo().state.Some?
    {
      b := currentIndex < |history| - 1;
    }

    method Undo() returns (r: Option<HistoryState>)
      requires Valid()
      modifies this
      ensures Valid() && Model() == old(Model()).Undo().history && r == old(Model()).Undo().state
    {
      var can := CanUndo();
      if can {
        currentIndex := currentIndex - 1;
        return Some(history[currentIndex]);
      }
      return None;
    }

    method Redo() returns (r: Option<HistoryState>)
      requires Valid()
      modifies this
      ensures Valid() && Model() == old(Model()).Redo().history && r == old(Model()).Redo().state
    {
      var can := CanRedo();
      if can {
        currentIndex := currentIndex + 1;
        return Some(history[currentIndex]);
      }
      return None;
    }
  }
}
