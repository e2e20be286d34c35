/**
 * The `useUndoRedo` hook (src/hooks/useUndoRedo.ts): one mutable slot
 * holding the history triple, replaced by undo, redo and updateTables.
 * Each method performs the step the source's state-update closure performs
 * and is proved to agree with the pure transition of module History.
 */
module UndoRedo {
  import opened History

  class HistoryManager<T> {
    var past: seq<T>
    var present: T
    var future: seq<T>

    function State(): HistoryState<T>
      reads this
    {
      HistoryState(past, present, future)
    }

    constructor (initialPresent: T)
      ensures State() == Init(initialPresent)
    {
      past, present, future := [], initialPresent, [];
    }

    /** The document the editor renders (`tables`): the one at the cursor. */
    function Tables(): (d: T)
      reads this
      ensures d == Timeline(State())[Cursor(State())]
    {
      present
    }

    function CanUndo(): (b: bool)
      reads this
      ensures b <==> Cursor(State()) > 0
    {
      History.CanUndo(State())
    }

    function CanRedo(): (b: bool)
      reads this
      ensures b <==> Cursor(State()) < |Timeline(State())| - 1
    {
      History.CanRedo(State())
    }

    method Undo()
      modifies this
      ensures State() == History.Undo(old(State()))
    {
      if |past| == 0 {
        return;
      }
      var previous := past[|past| - 1];
      var newPast := past[..|past| - 1];
      past, present, future := newPast, previous, [present] + future;
    }

    method Redo()
      modifies this
      ensures State() == History.Redo(old(State()))
    {
      if |future| == 0 {
        return;
      }
      var next := future[0];
      var newFuture := future[1..];
      past, present, future := past + [present], next, newFuture;
    }

    /** The commit. */
    method UpdateTables(newPresent: T)
      modifies this
      ensures State() == Commit(old(State()), newPresent)
    {
      past, present, future := past + [present], newPresent, [];
    }
  }

  /** Add, add, undo, undo, redo, commit on four arbitrary documents: the
      triple after each step, and redo after a commit has nothing left. */
  method Walkthrough<T>(empty: T, one: T, two: T, three: T) returns (final: HistoryState<T>)
    ensures final == HistoryState([empty, one], three, [])
    ensures !History.CanRedo(final)
  {
    var m := new HistoryManager(empty);
    m.UpdateTables(one);
    m.UpdateTables(two);
    assert m.past == [empty, one] && m.present == two && m.future == [];
    assert m.CanUndo() && !m.CanRedo();
    m.Undo();
    assert m.past == [empty] && m.present == one && m.future == [two];
    var afterFirstUndo := m.State();
    m.Undo();
    assert m.past == [] && m.present == empty && m.future == [one, two];
    assert !m.CanUndo();
    m.Redo();
    assert m.State() == afterFirstUndo;
    m.UpdateTables(three);
    final := m.State();
  }
}
