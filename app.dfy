/**
 * The `App` component of src/App.tsx as an object: the history hook it owns,
 * the selected table index, the draft of the foreign-key form and the last
 * generated SQL. Each handler computes the new table list with the matching
 * function of SchemaEdits and commits it; a handler whose edit fails (the
 * source alerts or throws before calling `updateTables`) commits nothing.
 */
module App {
  import opened Wrappers
  import opened Schema
  import opened History
  import opened UndoRedo
  import SchemaEdits
  import Queries

  /** The history after an edit: committed on success, untouched on failure. */
  function AfterEdit(h: HistoryState<Document>, r: Result<Document, SchemaEdits.EditError>): HistoryState<Document>
  {
    if r.Ok? then Commit(h, r.value) else h
  }

  class SchemaEditor {
    const history: HistoryManager<Document>
    var currentTableIndex: nat
    var newForeignKey: ForeignKey
    var generatedQueries: string

    /** `tables`, the present document. */
    function Tables(): Document
      reads history
    {
      history.present
    }

    /** `currentTable`: the selected table while the selection names one,
        the blank placeholder once it is past the end. */
    function CurrentTable(): (t: Table)
      reads this, history
      ensures SelectionInRange() && |Tables()| > 0 ==> t == Tables()[currentTableIndex]
      ensures currentTableIndex >= |Tables()| ==> t == EmptyTable
    {
      SchemaEdits.CurrentTable(Tables(), currentTableIndex)
    }

    /** The selection names a table, or is 0 when there is none. */
    predicate SelectionInRange()
      reads this, history
    {
      currentTableIndex < |Tables()| || (|Tables()| == 0 && currentTableIndex == 0)
    }

    /** `useUndoRedo([])` and the initial component state. */
    constructor ()
      ensures fresh(history) && history.State() == Init([])
      ensures currentTableIndex == 0 && newForeignKey == EmptyForeignKey && generatedQueries == ""
      ensures SelectionInRange()
    {
      history := new HistoryManager([]);
      currentTableIndex := 0;
      newForeignKey := EmptyForeignKey;
      generatedQueries := "";
    }

    method CommitEdit(r: Result<Document, SchemaEdits.EditError>)
      modifies history
      ensures history.State() == AfterEdit(old(history.State()), r)
    {
      if r.Ok? {
        history.UpdateTables(r.value);
      }
    }

    /** Clicking a table tab selects it; nothing is committed. */
    method SelectTable(index: nat)
      requires index < |Tables()|
      modifies this
      ensures currentTableIndex == index
      ensures newForeignKey == old(newForeignKey) && generatedQueries == old(generatedQueries)
      ensures history.State() == old(history.State())
      ensures SelectionInRange() && CurrentTable() == Tables()[index]
    {
      currentTableIndex := index;
    }

    method AddTable()
      modifies this, history
      ensures history.State() == History.Commit(old(history.State()), SchemaEdits.AddTable(old(Tables())))
      ensures currentTableIndex == |old(Tables())|
      ensures newForeignKey == old(newForeignKey) && generatedQueries == old(generatedQueries)
      ensures SelectionInRange() && CurrentTable() == EmptyTable
    {
      var oldLength := |history.present|;
      history.UpdateTables(SchemaEdits.AddTable(history.present));
      currentTableIndex := oldLength;
    }

    method DeleteTable(index: nat)
      modifies this, history
      ensures history.State() == History.Commit(old(history.State()), SchemaEdits.DeleteTable(old(Tables()), index))
      ensures currentTableIndex == SchemaEdits.ClampSelection(old(currentTableIndex), |Tables()|)
      ensures newForeignKey == old(newForeignKey) && generatedQueries == old(generatedQueries)
      ensures SelectionInRange()
    {
      var updatedTables := SchemaEdits.DeleteTable(history.present, index);
      history.UpdateTables(updatedTables);
      if currentTableIndex >= |updatedTables| {
        currentTableIndex := if |updatedTables| - 1 > 0 then |updatedTables| - 1 else 0;
      }
    }

    method UpdateTableName(index: nat, name: string)
      modifies history
      ensures history.State() == AfterEdit(old(history.State()), SchemaEdits.UpdateTableName(old(Tables()), index, name))
      ensures old(SelectionInRange()) ==> SelectionInRange()
    {
      CommitEdit(SchemaEdits.UpdateTableName(history.present, index, name));
    }

    method AddColumn()
      modifies history
      ensures history.State() == AfterEdit(old(history.State()), SchemaEdits.AddColumn(old(Tables()), currentTableIndex))
      ensures old(SelectionInRange()) ==> SelectionInRange()
    {
      CommitEdit(SchemaEdits.AddColumn(history.present, currentTableIndex));
    }

    method UpdateColumn(columnIndex: nat, change: SchemaEdits.ColumnChange)
      modifies history
      ensures history.State()
        == AfterEdit(old(history.State()), SchemaEdits.UpdateColumn(old(Tables()), currentTableIndex, columnIndex, change))
      ensures old(SelectionInRange()) ==> SelectionInRange()
    {
      CommitEdit(SchemaEdits.UpdateColumn(history.present, currentTableIndex, columnIndex, change));
    }

    method RemoveColumn(columnIndex: nat)
      modifies history
      ensures history.State()
        == AfterEdit(old(history.State()), SchemaEdits.RemoveColumn(old(Tables()), currentTableIndex, columnIndex))
      ensures old(SelectionInRange()) ==> SelectionInRange()
    {
      CommitEdit(SchemaEdits.RemoveColumn(history.present, currentTableIndex, columnIndex));
    }

    /** The foreign-key form's input handlers (`setNewForeignKey`). */
    method SetNewForeignKey(fk: ForeignKey)
      modifies this
      ensures newForeignKey == fk
      ensures currentTableIndex == old(currentTableIndex) && generatedQueries == old(generatedQueries)
    {
      newForeignKey := fk;
    }

    /** Commits the drafted key and clears the form; an incomplete draft (or a
        missing table) leaves the history and the draft as they were. */
    method AddForeignKey()
      modifies this, history
      ensures var r := SchemaEdits.AddForeignKey(old(Tables()), old(currentTableIndex), old(newForeignKey));
        && history.State() == AfterEdit(old(history.State()), r)
        && newForeignKey == (if r.Ok? then EmptyForeignKey else old(newForeignKey))
      ensures currentTableIndex == old(currentTableIndex) && generatedQueries == old(generatedQueries)
      ensures old(SelectionInRange()) ==> SelectionInRange()
    {
      var r := SchemaEdits.AddForeignKey(history.present, currentTableIndex, newForeignKey);
      CommitEdit(r);
      if r.Ok? {
        newForeignKey := EmptyForeignKey;
      }
    }

    method RemoveForeignKey(index: nat)
      modifies history
      ensures history.State()
        == AfterEdit(old(history.State()), SchemaEdits.RemoveForeignKey(old(Tables()), currentTableIndex, index))
      ensures old(SelectionInRange()) ==> SelectionInRange()
    {
      CommitEdit(SchemaEdits.RemoveForeignKey(history.present, currentTableIndex, index));
    }

    /** Applying a schema template commits its tables; the selection is kept. */
    method ApplyTemplate(templateTables: Document)
      modifies history
      ensures history.State() == History.Commit(old(history.State()), templateTables)
    {
      history.UpdateTables(templateTables);
    }

    /** The outcome of reading and parsing an imported file: a parsed table
        list commits once, a parse failure commits nothing. */
    method ImportSchema(parsed: Option<Document>)
      modifies history
      ensures history.State() == if parsed.Some? then History.Commit(old(history.State()), parsed.value) else old(history.State())
    {
      if parsed.Some? {
        history.UpdateTables(parsed.value);
      }
    }

    /** Undo and redo move through the history and leave the selection
        alone, so it can point past the end afterwards. */
    method Undo()
      modifies history
      ensures history.State() == History.Undo(old(history.State()))
    {
      history.Undo();
    }

    method Redo()
      modifies history
      ensures history.State() == History.Redo(old(history.State()))
    {
      history.Redo();
    }

    /** Regenerates the SQL text; with no tables the old text stays. */
    method GenerateQueries()
      modifies this
      ensures generatedQueries == match Queries.GenerateQueries(Tables())
        case None => old(generatedQueries)
        case Some(q) => q
      ensures currentTableIndex == old(currentTableIndex) && newForeignKey == old(newForeignKey)
    {
      var q := Queries.GenerateQueries(history.present);
      if q.Some? {
        generatedQueries := q.value;
      }
    }
  }

  /** Adding a table, adding a second one and undoing once leaves the
      selection on the undone table: it is past the end, the form shows the
      placeholder table, and "Add Column" then fails. */
  method StaleSelectionAfterUndo() returns (selected: nat, tables: Document, addColumn: Result<Document, SchemaEdits.EditError>)
    ensures selected == 1 && tables == [EmptyTable]
    ensures SchemaEdits.CurrentTable(tables, selected) == EmptyTable
    ensures addColumn == Err(SchemaEdits.NoSuchTable)
  {
    var editor := new SchemaEditor();
    editor.AddTable();
    editor.AddTable();
    editor.Undo();
    selected, tables := editor.currentTableIndex, editor.Tables();
    addColumn := SchemaEdits.AddColumn(tables, selected);
  }

  /** With value snapshots, undo right after any edit that committed brings
      back the table list and the past from before the edit, and redo then
      returns to the edit; an edit that failed left the history alone. Every
      handler of SchemaEditor commits through AfterEdit, so this holds for
      "Add Column", "Update Column", "Remove Column", "Add Foreign Key" and
      "Remove Foreign Key" alike. */
  lemma UndoAfterEditRestores(h: HistoryState<Document>, r: Result<Document, SchemaEdits.EditError>)
    ensures r.Ok? ==> Undo(AfterEdit(h, r)).present == h.present && Undo(AfterEdit(h, r)).past == h.past
    ensures r.Ok? ==> Redo(Undo(AfterEdit(h, r))) == AfterEdit(h, r)
    ensures r.Err? ==> AfterEdit(h, r) == h
  {
    if r.Ok? {
      UndoAfterCommit(h, r.value);
      RedoAfterUndo(Commit(h, r.value));
    }
  }

  /** Writing a column field's current value back still commits: the
      history gains a step that holds the same list, and undo is possible. */
  lemma SameValueStillCommits(h: HistoryState<Document>, current: nat, columnIndex: nat,
                              change: SchemaEdits.ColumnChange)
    requires current < |h.present| && columnIndex < |h.present[current].columns|
    requires SchemaEdits.AlreadyHolds(h.present[current].columns[columnIndex], change)
    ensures AfterEdit(h, SchemaEdits.UpdateColumn(h.present, current, columnIndex, change)) == Commit(h, h.present)
    ensures CanUndo(AfterEdit(h, SchemaEdits.UpdateColumn(h.present, current, columnIndex, change)))
  {
    SchemaEdits.UpdateColumnSameValue(h.present, current, columnIndex, change);
  }

  /** A blank table from "Add Table" contributes nothing to the SQL. */
  lemma AddTableKeepsQueries(tables: Document)
    ensures Queries.GenerateQueries(SchemaEdits.AddTable(tables))
      == if |tables| == 0 then Some("") else Queries.GenerateQueries(tables)
  {
    if |tables| > 0 {
      Queries.GenerateQueriesSnoc(tables, EmptyTable);
    } else {
      assert Queries.TableQueries([EmptyTable]) == [""];
      assert Queries.NonEmpty([""]) == [];
    }
  }
}
