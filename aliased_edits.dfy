/**
 * The column and foreign-key handlers of src/App.tsx as the source runs
 * them, on shared objects. `[...tables]` copies only the outer list: the
 * table objects, and the column and foreign-key arrays inside them, are the
 * ones the snapshot already stored in the history holds. The handlers then
 * push onto those arrays, assign into them or reassign a table's field, so
 * the stored snapshot changes along with the new one.
 */
module AliasedEdits {
  import opened Schema
  import opened UndoRedo
  import SchemaEdits

  /** A JavaScript array of columns: one object, possibly reachable from
      several tables and snapshots. */
  class ColumnArray {
    var items: seq<Column>

    constructor (items: seq<Column>)
      ensures this.items == items
    {
      this.items := items;
    }
  }

  class ForeignKeyArray {
    var items: seq<ForeignKey>

    constructor (items: seq<ForeignKey>)
      ensures this.items == items
    {
      this.items := items;
    }
  }

  /** A table record whose fields may be reassigned in place. */
  class TableObject {
    var name: string
    var columns: ColumnArray
    var foreignKeys: ForeignKeyArray

    constructor (name: string, columns: ColumnArray, foreignKeys: ForeignKeyArray)
      ensures this.name == name && this.columns == columns && this.foreignKeys == foreignKeys
    {
      this.name := name;
      this.columns := columns;
      this.foreignKeys := foreignKeys;
    }

    /** The table this object currently shows. */
    function Value(): Table
      reads this, columns, foreignKeys
    {
      Table(name, columns.items, foreignKeys.items)
    }
  }

  /** A stored snapshot: a list of references to table objects. */
  type Snapshot = seq<TableObject>

  /** The table list a snapshot shows now, which depends on the heap. */
  function Contents(s: Snapshot): (d: Document)
    reads s, set t | t in s :: t.columns, set t | t in s :: t.foreignKeys
    ensures |d| == |s|
    ensures forall i :: 0 <= i < |s| ==> d[i] == s[i].Value()
    decreases |s|
  {
    if |s| == 0 then [] else Contents(s[..|s| - 1]) + [s[|s| - 1].Value()]
  }

  /** `{ name: '', columns: [], foreignKeys: [] }`: a table with fresh arrays. */
  method NewTableObject() returns (t: TableObject)
    ensures fresh(t) && fresh(t.columns) && fresh(t.foreignKeys)
    ensures t.Value() == EmptyTable
  {
    var columns := new ColumnArray([]);
    var foreignKeys := new ForeignKeyArray([]);
    t := new TableObject("", columns, foreignKeys);
  }

  /** `addColumn`: the new list is the same table objects, and the selected
      table's column array, shared with the stored snapshot, grows in place. */
  method AddColumnInPlace(tables: Snapshot, current: nat) returns (updatedTables: Snapshot)
    requires current < |tables|
    modifies tables[current].columns
    ensures updatedTables == tables
    ensures tables[current].columns.items == old(tables[current].columns.items) + [NewColumn]
  {
    updatedTables := tables;
    var columns := updatedTables[current].columns;
    columns.items := columns.items + [NewColumn];
  }

  /** `updateColumn`: `{ ...column, [field]: value }` assigned into the
      shared array. */
  method UpdateColumnInPlace(tables: Snapshot, current: nat, columnIndex: nat, change: SchemaEdits.ColumnChange)
    returns (updatedTables: Snapshot)
    requires current < |tables| && columnIndex < |tables[current].columns.items|
    modifies tables[current].columns
    ensures updatedTables == tables
    ensures tables[current].columns.items
      == old(tables[current].columns.items)[columnIndex := SchemaEdits.ApplyChange(old(tables[current].columns.items[columnIndex]), change)]
  {
    updatedTables := tables;
    var columns := updatedTables[current].columns;
    var column := columns.items[columnIndex];
    columns.items := columns.items[columnIndex := SchemaEdits.ApplyChange(column, change)];
  }

  /** `removeColumn`: reassigns the `columns` field of the shared table object. */
  method RemoveColumnInPlace(tables: Snapshot, current: nat, columnIndex: nat) returns (updatedTables: Snapshot)
    requires current < |tables|
    modifies tables[current]
    ensures updatedTables == tables
    ensures fresh(tables[current].columns)
    ensures tables[current].columns.items == WithoutIndex(old(tables[current].columns.items), columnIndex)
    ensures tables[current].name == old(tables[current].name)
    ensures tables[current].foreignKeys == old(tables[current].foreignKeys)
  {
    updatedTables := tables;
    var t := updatedTables[current];
    var filtered := new ColumnArray(WithoutIndex(t.columns.items, columnIndex));
    t.columns := filtered;
  }

  /** `addForeignKey` with a complete form: pushes onto the shared array. */
  method AddForeignKeyInPlace(tables: Snapshot, current: nat, fk: ForeignKey) returns (updatedTables: Snapshot)
    requires current < |tables|
    modifies tables[current].foreignKeys
    ensures updatedTables == tables
    ensures tables[current].foreignKeys.items == old(tables[current].foreignKeys.items) + [fk]
  {
    updatedTables := tables;
    var foreignKeys := updatedTables[current].foreignKeys;
    foreignKeys.items := foreignKeys.items + [fk];
  }

  /** `removeForeignKey`: reassigns the `foreignKeys` field of the shared table object. */
  method RemoveForeignKeyInPlace(tables: Snapshot, current: nat, index: nat) returns (updatedTables: Snapshot)
    requires current < |tables|
    modifies tables[current]
    ensures updatedTables == tables
    ensures fresh(tables[current].foreignKeys)
    ensures tables[current].foreignKeys.items == WithoutIndex(old(tables[current].foreignKeys.items), index)
    ensures tables[current].name == old(tables[current].name)
    ensures tables[current].columns == old(tables[current].columns)
  {
    updatedTables := tables;
    var t := updatedTables[current];
    var filtered := new ForeignKeyArray(WithoutIndex(t.foreignKeys.items, index));
    t.foreignKeys := filtered;
  }

  /** As written, "Add Table" then "Add Column" then undo: the document
      shown after the undo already holds the new column, although an undo
      of "Add Column" should show the table without it. */
  method UndoAfterAddColumnKeepsColumn() returns (beforeEdit: Document, afterUndo: Document)
    ensures beforeEdit == [EmptyTable]
    ensures afterUndo == [EmptyTable.(columns := [NewColumn])]
    ensures afterUndo != beforeEdit
  {
    var history := new HistoryManager<Snapshot>([]);
    var t := NewTableObject();
    history.UpdateTables([t]);
    beforeEdit := Contents(history.present);
    var updatedTables := AddColumnInPlace(history.present, 0);
    history.UpdateTables(updatedTables);
    history.Undo();
    afterUndo := Contents(history.present);
    assert afterUndo[0] == t.Value();
    assert t.columns.items == [NewColumn];
  }

  /** The same for "Remove Column": undo does not bring the column back,
      since the stored snapshot holds the very table object whose field was
      reassigned. */
  method UndoAfterRemoveColumnKeepsRemoval(column: Column) returns (beforeEdit: Document, afterUndo: Document)
    ensures beforeEdit == [EmptyTable.(columns := [column])]
    ensures afterUndo == [EmptyTable]
  {
    var columns := new ColumnArray([column]);
    var foreignKeys := new ForeignKeyArray([]);
    var t := new TableObject("", columns, foreignKeys);
    var history := new HistoryManager<Snapshot>([t]);
    beforeEdit := Contents(history.present);
    assert beforeEdit[0] == t.Value();
    var updatedTables := RemoveColumnInPlace(history.present, 0, 0);
    history.UpdateTables(updatedTables);
    history.Undo();
    afterUndo := Contents(history.present);
    assert afterUndo[0] == t.Value();
  }
}
