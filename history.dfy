/**
 * The linear undo/redo history of src/hooks/useUndoRedo.ts, as pure
 * transitions on the (past, present, future) triple.
 *
 * The triple is specified by an independent view: its Timeline, every
 * document oldest first (past, then present, then future), and its Cursor,
 * the position of `present` in that timeline. Undo and redo keep the
 * timeline and move the cursor; a commit cuts the timeline after the cursor
 * and appends the new document.
 */
module History {

  datatype HistoryState<T> = HistoryState(past: seq<T>, present: T, future: seq<T>)

  /** Every stored document, oldest first. */
  function Timeline<T>(h: HistoryState<T>): seq<T>
  {
    h.past + [h.present] + h.future
  }

  /** Position of `present` in the timeline. */
  function Cursor<T>(h: HistoryState<T>): nat
  {
    |h.past|
  }

  /** The triple whose timeline is `docs` and whose cursor is `cursor`. */
  function FromTimeline<T>(docs: seq<T>, cursor: nat): (h: HistoryState<T>)
    requires cursor < |docs|
    ensures Timeline(h) == docs && Cursor(h) == cursor
  {
    assert docs[..cursor] + [docs[cursor]] + docs[cursor + 1..] == docs;
    HistoryState(docs[..cursor], docs[cursor], docs[cursor + 1..])
  }

  /** The view is faithful: timeline and cursor determine the triple. */
  lemma TimelineDeterminesState<T>(h1: HistoryState<T>, h2: HistoryState<T>)
    requires Timeline(h1) == Timeline(h2) && Cursor(h1) == Cursor(h2)
    ensures h1 == h2
  {
    var docs, k := Timeline(h1), Cursor(h1);
    assert h1.past == docs[..k] == h2.past;
    assert h1.present == docs[k] == h2.present;
    assert h1.future == docs[k + 1..] == h2.future;
  }

  lemma FromTimelineRoundTrip<T>(h: HistoryState<T>)
    ensures FromTimeline(Timeline(h), Cursor(h)) == h
  {
    TimelineDeterminesState(FromTimeline(Timeline(h), Cursor(h)), h);
  }

  /** A fresh history: only the initial document, nothing to undo or redo. */
  function Init<T>(initial: T): (h: HistoryState<T>)
    ensures Timeline(h) == [initial] && Cursor(h) == 0
    ensures !CanUndo(h) && !CanRedo(h)
  {
    HistoryState([], initial, [])
  }

  /** `canUndo`: the cursor is not at the oldest document. */
  predicate CanUndo<T>(h: HistoryState<T>)
    ensures CanUndo(h) <==> Cursor(h) > 0
  {
    |h.past| > 0
  }

  /** `canRedo`: the cursor is not at the newest document. */
  predicate CanRedo<T>(h: HistoryState<T>)
    ensures CanRedo(h) <==> Cursor(h) < |Timeline(h)| - 1
  {
    |h.future| > 0
  }

  /** Step back: the nearest past document becomes present, the old present
      becomes the nearest future one; a no-op on an empty past. */
  function Undo<T>(h: HistoryState<T>): (r: HistoryState<T>)
    ensures Timeline(r) == Timeline(h)
    ensures Cursor(r) == if CanUndo(h) then Cursor(h) - 1 else Cursor(h)
    ensures !CanUndo(h) ==> r == h
  {
    if |h.past| == 0 then h
    else
      var previous := h.past[|h.past| - 1];
      var newPast := h.past[..|h.past| - 1];
      assert newPast + [previous] == h.past;
      HistoryState(newPast, previous, [h.present] + h.future)
  }

  /** Step forward: the nearest future document becomes present, the old
      present becomes the nearest past one; a no-op on an empty future. */
  function Redo<T>(h: HistoryState<T>): (r: HistoryState<T>)
    ensures Timeline(r) == Timeline(h)
    ensures Cursor(r) == if CanRedo(h) then Cursor(h) + 1 else Cursor(h)
    ensures !CanRedo(h) ==> r == h
  {
    if |h.future| == 0 then h
    else
      var next := h.future[0];
      var newFuture := h.future[1..];
      assert [next] + newFuture == h.future;
      HistoryState(h.past + [h.present], next, newFuture)
  }

  /** `updateTables`: the redo branch is cut off, the old present is kept as
      the nearest past document, and `d` becomes present, with no comparison
      against the old present. */
  function Commit<T>(h: HistoryState<T>, d: T): (r: HistoryState<T>)
    ensures Timeline(r) == Timeline(h)[..Cursor(h) + 1] + [d]
    ensures Cursor(r) == Cursor(h) + 1
    ensures r.present == d
    ensures CanUndo(r) && !CanRedo(r)
  {
    assert Timeline(h)[..Cursor(h) + 1] == h.past + [h.present];
    HistoryState(h.past + [h.present], d, [])
  }

  /** Each transition is a no-op exactly when its query is false. */
  lemma UndoMovesIffCanUndo<T>(h: HistoryState<T>)
    ensures CanUndo(h) <==> Undo(h) != h
  {
    if CanUndo(h) {
      assert Cursor(Undo(h)) != Cursor(h);
    }
  }

  lemma RedoMovesIffCanRedo<T>(h: HistoryState<T>)
    ensures CanRedo(h) <==> Redo(h) != h
  {
    if CanRedo(h) {
      assert Cursor(Redo(h)) != Cursor(h);
    }
  }

  /** Undo and redo conserve the number of stored documents; a commit
      keeps the documents up to the present and adds one. */
  lemma DocumentCount<T>(h: HistoryState<T>, d: T)
    ensures |Undo(h).past| + 1 + |Undo(h).future| == |h.past| + 1 + |h.future|
    ensures |Redo(h).past| + 1 + |Redo(h).future| == |h.past| + 1 + |h.future|
    ensures |Commit(h, d).past| + 1 + |Commit(h, d).future| == |h.past| + 2
  {
    assert |Timeline(Undo(h))| == |Timeline(h)|;
    assert |Timeline(Redo(h))| == |Timeline(h)|;
  }

  /** Redo undoes an undo. */
  lemma RedoAfterUndo<T>(h: HistoryState<T>)
    requires CanUndo(h)
    ensures CanRedo(Undo(h))
    ensures Redo(Undo(h)) == h
  {
    var u := Undo(h);
    assert |Timeline(u)| == |Timeline(h)|;
    TimelineDeterminesState(Redo(u), h);
  }

  /** Undo undoes a redo. */
  lemma UndoAfterRedo<T>(h: HistoryState<T>)
    requires CanRedo(h)
    ensures CanUndo(Redo(h))
    ensures Undo(Redo(h)) == h
  {
    var r := Redo(h);
    TimelineDeterminesState(Undo(r), h);
  }

  /** Undo right after a commit brings back the document that was present
      and the past it had, and offers the committed document for redo. */
  lemma UndoAfterCommit<T>(h: HistoryState<T>, d: T)
    ensures Undo(Commit(h, d)) == HistoryState(h.past, h.present, [d])
  {
    var u := Undo(Commit(h, d));
    var expected := HistoryState(h.past, h.present, [d]);
    assert Timeline(u) == Timeline(expected);
    TimelineDeterminesState(u, expected);
  }

  /** `n` presses of undo (or redo), the guards included. */
  function UndoTimes<T>(h: HistoryState<T>, n: nat): HistoryState<T>
    decreases n
  {
    if n == 0 then h else UndoTimes(Undo(h), n - 1)
  }

  function RedoTimes<T>(h: HistoryState<T>, n: nat): HistoryState<T>
    decreases n
  {
    if n == 0 then h else RedoTimes(Redo(h), n - 1)
  }

  /** Repeated undo walks the cursor back and stops at the oldest document. */
  lemma {:induction false} UndoTimesMovesCursor<T>(h: HistoryState<T>, n: nat)
    ensures Timeline(UndoTimes(h, n)) == Timeline(h)
    ensures Cursor(UndoTimes(h, n)) == if n <= Cursor(h) then Cursor(h) - n else 0
    decreases n
  {
    if n > 0 {
      UndoTimesMovesCursor(Undo(h), n - 1);
    }
  }

  /** Repeated redo walks the cursor forward and stops at the newest one. */
  lemma {:induction false} RedoTimesMovesCursor<T>(h: HistoryState<T>, n: nat)
    ensures Timeline(RedoTimes(h, n)) == Timeline(h)
    ensures Cursor(RedoTimes(h, n)) ==
      if Cursor(h) + n < |Timeline(h)| then Cursor(h) + n else |Timeline(h)| - 1
    decreases n
  {
    if n > 0 {
      RedoTimesMovesCursor(Redo(h), n - 1);
    }
  }

  /** `n` undos followed by `n` redos restore the triple, as long as there
      were `n` documents to undo. */
  lemma {:induction false} RedoTimesAfterUndoTimes<T>(h: HistoryState<T>, n: nat)
    requires n <= |h.past|
    ensures RedoTimes(UndoTimes(h, n), n) == h
  {
    var u := UndoTimes(h, n);
    UndoTimesMovesCursor(h, n);
    RedoTimesMovesCursor(u, n);
    TimelineDeterminesState(RedoTimes(u, n), h);
  }

  /** Committing `ds` one after another. */
  function CommitAll<T>(h: HistoryState<T>, ds: seq<T>): HistoryState<T>
    decreases |ds|
  {
    if |ds| == 0 then h else CommitAll(Commit(h, ds[0]), ds[1..])
  }

  /** After commits of d1..dn the present is dn, the past is the old past,
      the old present and d1..d(n-1), and nothing is left to redo. */
  lemma {:induction false} CommitAllState<T>(h: HistoryState<T>, ds: seq<T>)
    requires |ds| > 0
    ensures CommitAll(h, ds) == HistoryState(h.past + [h.present] + ds[..|ds| - 1], ds[|ds| - 1], [])
    decreases |ds|
  {
    if |ds| > 1 {
      var h' := Commit(h, ds[0]);
      CommitAllState(h', ds[1..]);
      assert h'.past + [h'.present] + ds[1..][..|ds| - 2] == h.past + [h.present] + ds[..|ds| - 1];
    }
  }

  /** From a fresh history, commits of d1..dn leave past == [init, d1, ..., d(n-1)]. */
  lemma {:induction false} CommitsFromInit<T>(initial: T, ds: seq<T>)
    requires |ds| > 0
    ensures CommitAll(Init(initial), ds) == HistoryState([initial] + ds[..|ds| - 1], ds[|ds| - 1], [])
  {
    CommitAllState(Init(initial), ds);
  }

  /** The keyboard shortcuts guard undo and redo by the queries; the guard
      changes nothing. */
  lemma GuardsAreRedundant<T>(h: HistoryState<T>)
    ensures (if CanUndo(h) then Undo(h) else h) == Undo(h)
    ensures (if CanRedo(h) then Redo(h) else h) == Redo(h)
  {
  }
}
