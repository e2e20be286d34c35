/**
 * The edit handlers of src/App.tsx as functions from the current table list
 * to the list they commit. These are value semantics: every edit yields a new
 * list and leaves the given one alone (how the source's in-place mutation
 * differs is modelled in module AliasedEdits).
 *
 * An edit that the source cannot complete — it reads a field of the missing
 * table `tables[currentTableIndex]` and throws — yields `Err` and no commit.
 */
module SchemaEdits {
  import opened Wrappers
  import opened Schema

  datatype EditError =
    | NoSuchTable            // the selected table index is past the end
    | NoSuchColumn           // the column index is past the end
    | IncompleteForeignKey   // a foreign-key field is empty ("Please fill in all foreign key fields")

  /** `after` differs from `before` at most at position `index`. */
  predicate OthersUnchanged(before: Document, after: Document, index: nat)
  {
    |after| == |before| &&
    forall j :: 0 <= j < |before| && j != index ==> after[j] == before[j]
  }

  /** `addTable`: one blank table at the end, the rest untouched. */
  function AddTable(tables: Document): (r: Document)
    ensures |r| == |tables| + 1
    ensures r[..|tables|] == tables
    ensures r[|tables|] == EmptyTable
  {
    tables + [EmptyTable]
  }

  /** `deleteTable`: drops the table at `index`, keeping the others in order;
      an index past the end drops nothing. */
  function DeleteTable(tables: Document, index: nat): (r: Document)
    ensures index < |tables| ==> |r| == |tables| - 1 && r == tables[..index] + tables[index + 1..]
    ensures index >= |tables| ==> r == tables
  {
    WithoutIndexSplices(tables, index);
    WithoutIndex(tables, index)
  }

  /** The selection after `deleteTable`: kept when it still names a table,
      otherwise moved to the last table (or 0 when none is left). */
  function ClampSelection(selected: nat, newLength: nat): (r: nat)
    ensures selected < newLength ==> r == selected
    ensures selected >= newLength ==> r == if newLength == 0 then 0 else newLength - 1
    ensures newLength > 0 ==> r < newLength
    ensures r <= selected
  {
    if selected >= newLength then (if newLength - 1 > 0 then newLength - 1 else 0) else selected
  }

  /** `updateTableName`: renames the table at `index`, keeping its columns and
      foreign keys and every other table. */
  function UpdateTableName(tables: Document, index: nat, name: string): (r: Result<Document, EditError>)
    ensures r.Ok? <==> index < |tables|
    ensures r.Err? ==> r.error == NoSuchTable
    ensures r.Ok? ==>
      && OthersUnchanged(tables, r.value, index)
      && r.value[index].name == name
      && r.value[index].columns == tables[index].columns
      && r.value[index].foreignKeys == tables[index].foreignKeys
  {
    if index < |tables| then Ok(tables[index := tables[index].(name := name)]) else Err(NoSuchTable)
  }

  /** `addColumn`: appends the blank VARCHAR column to the selected table. */
  function AddColumn(tables: Document, current: nat): (r: Result<Document, EditError>)
    ensures r.Ok? <==> current < |tables|
    ensures r.Err? ==> r.error == NoSuchTable
    ensures r.Ok? ==>
      && OthersUnchanged(tables, r.value, current)
      && r.value[current].name == tables[current].name
      && r.value[current].columns == tables[current].columns + [NewColumn]
      && r.value[current].foreignKeys == tables[current].foreignKeys
  {
    if current < |tables| then
      var t := tables[current];
      Ok(tables[current := t.(columns := t.columns + [NewColumn])])
    else Err(NoSuchTable)
  }

  /** One `updateColumn(index, field, value)` call of the column form: the
      field it names and the value it writes. */
  datatype ColumnChange =
    | SetName(name: string)
    | SetDataType(dataType: string)
    | SetLength(length: string)
    | SetPrimary(isPrimary: bool)
    | SetNullable(isNullable: bool)

  /** `{ ...column, [field]: value }`: the named field takes the new value,
      every other field keeps the one it had. */
  function ApplyChange(c: Column, change: ColumnChange): (r: Column)
    ensures r.name == if change.SetName? then change.name else c.name
    ensures r.dataType == if change.SetDataType? then change.dataType else c.dataType
    ensures r.length == if change.SetLength? then Some(change.length) else c.length
    ensures r.isPrimary == if change.SetPrimary? then change.isPrimary else c.isPrimary
    ensures r.isNullable == if change.SetNullable? then change.isNullable else c.isNullable
  {
    match change
    case SetName(n) => c.(name := n)
    case SetDataType(d) => c.(dataType := d)
    case SetLength(l) => c.(length := Some(l))
    case SetPrimary(p) => c.(isPrimary := p)
    case SetNullable(b) => c.(isNullable := b)
  }

  /** The field a change writes, numbered in the order of the Column record. */
  function FieldOf(change: ColumnChange): nat
  {
    match change
    case SetName(_) => 0
    case SetDataType(_) => 1
    case SetLength(_) => 2
    case SetPrimary(_) => 3
    case SetNullable(_) => 4
  }

  /** Writes to different fields do not interfere. */
  lemma ChangesCommute(c: Column, a: ColumnChange, b: ColumnChange)
    requires FieldOf(a) != FieldOf(b)
    ensures ApplyChange(ApplyChange(c, a), b) == ApplyChange(ApplyChange(c, b), a)
  {
  }

  /** A second write to the same field replaces the first. */
  lemma LastChangeWins(c: Column, a: ColumnChange, b: ColumnChange)
    requires FieldOf(a) == FieldOf(b)
    ensures ApplyChange(ApplyChange(c, a), b) == ApplyChange(c, b)
  {
  }

  /** `updateColumn`: rewrites one field of one column of the selected table. */
  function UpdateColumn(tables: Document, current: nat, columnIndex: nat, change: ColumnChange)
    : (r: Result<Document, EditError>)
    ensures r.Ok? <==> current < |tables| && columnIndex < |tables[current].columns|
    ensures r.Err? ==> r.error == if current < |tables| then NoSuchColumn else NoSuchTable
    ensures r.Ok? ==>
      && OthersUnchanged(tables, r.value, current)
      && r.value[current].name == tables[current].name
      && r.value[current].foreignKeys == tables[current].foreignKeys
      && r.value[current].columns
         == tables[current].columns[columnIndex := ApplyChange(tables[current].columns[columnIndex], change)]
  {
    if current >= |tables| then Err(NoSuchTable)
    else
      var t := tables[current];
      if columnIndex >= |t.columns| then Err(NoSuchColumn)
      else
        var column := t.columns[columnIndex];
        Ok(tables[current := t.(columns := t.columns[columnIndex := ApplyChange(column, change)])])
  }

  /** `removeColumn`: drops the column at `columnIndex` (none when past the end). */
  function RemoveColumn(tables: Document, current: nat, columnIndex: nat): (r: Result<Document, EditError>)
    ensures r.Ok? <==> current < |tables|
    ensures r.Err? ==> r.error == NoSuchTable
    ensures r.Ok? ==>
      && OthersUnchanged(tables, r.value, current)
      && r.value[current].name == tables[current].name
      && r.value[current].foreignKeys == tables[current].foreignKeys
      && r.value[current].columns == WithoutIndex(tables[current].columns, columnIndex)
  {
    if current < |tables| then
      var t := tables[current];
      Ok(tables[current := t.(columns := WithoutIndex(t.columns, columnIndex))])
    else Err(NoSuchTable)
  }

  /** The foreign-key form is complete when none of its three fields is empty. */
  predicate IsComplete(fk: ForeignKey)
  {
    fk.columnName != "" && fk.referenceTable != "" && fk.referenceColumn != ""
  }

  /** `addForeignKey`: refuses an incomplete form before touching the tables,
      otherwise appends the key to the selected table. */
  function AddForeignKey(tables: Document, current: nat, fk: ForeignKey): (r: Result<Document, EditError>)
    ensures r.Ok? <==> IsComplete(fk) && current < |tables|
    ensures r.Err? ==> r.error == if IsComplete(fk) then NoSuchTable else IncompleteForeignKey
    ensures r.Ok? ==>
      && OthersUnchanged(tables, r.value, current)
      && r.value[current].name == tables[current].name
      && r.value[current].columns == tables[current].columns
      && r.value[current].foreignKeys == tables[current].foreignKeys + [fk]
  {
    if !IsComplete(fk) then Err(IncompleteForeignKey)
    else if current >= |tables| then Err(NoSuchTable)
    else
      var t := tables[current];
      Ok(tables[current := t.(foreignKeys := t.foreignKeys + [fk])])
  }

  /** `removeForeignKey`: drops the foreign key at `index` (none when past the end). */
  function RemoveForeignKey(tables: Document, current: nat, index: nat): (r: Result<Document, EditError>)
    ensures r.Ok? <==> current < |tables|
    ensures r.Err? ==> r.error == NoSuchTable
    ensures r.Ok? ==>
      && OthersUnchanged(tables, r.value, current)
      && r.value[current].name == tables[current].name
      && r.value[current].columns == tables[current].columns
      && r.value[current].foreignKeys == WithoutIndex(tables[current].foreignKeys, index)
  {
    if current < |tables| then
      var t := tables[current];
      Ok(tables[current := t.(foreignKeys := WithoutIndex(t.foreignKeys, index))])
    else Err(NoSuchTable)
  }

  /** `currentTable`: the selected table, or a blank placeholder when the
      selection is past the end. */
  function CurrentTable(tables: Document, current: nat): (t: Table)
    ensures current < |tables| ==> t == tables[current]
    ensures current >= |tables| ==> t == EmptyTable
  {
    if current < |tables| then tables[current] else EmptyTable
  }

  /** With the selection past the end the form shows the placeholder, and
      every column and foreign-key handler, which reads a field of the
      missing table, fails without committing (the incomplete-form alert
      still comes first for a foreign key). */
  lemma PlaceholderEditsFail(tables: Document, current: nat, columnIndex: nat, change: ColumnChange,
                             fk: ForeignKey, index: nat)
    requires current >= |tables|
    ensures CurrentTable(tables, current) == EmptyTable
    ensures AddColumn(tables, current) == Err(NoSuchTable)
    ensures UpdateColumn(tables, current, columnIndex, change) == Err(NoSuchTable)
    ensures RemoveColumn(tables, current, columnIndex) == Err(NoSuchTable)
    ensures AddForeignKey(tables, current, fk) == Err(if IsComplete(fk) then NoSuchTable else IncompleteForeignKey)
    ensures RemoveForeignKey(tables, current, index) == Err(NoSuchTable)
  {
  }

  // Each edit next to the edit that takes it back.

  /** Deleting the table just added gives back the old list, and the table
      just added is the one selected afterwards. */
  lemma AddTableThenDelete(tables: Document)
    ensures DeleteTable(AddTable(tables), |tables|) == tables
    ensures CurrentTable(AddTable(tables), |tables|) == EmptyTable
  {
    var added := AddTable(tables);
    assert added[..|tables|] == tables;
  }

  /** Renaming back to the old name restores the list; of two renames the
      second wins. */
  lemma RenameRoundTrip(tables: Document, index: nat, a: string, b: string)
    requires index < |tables|
    ensures UpdateTableName(UpdateTableName(tables, index, a).value, index, tables[index].name) == Ok(tables)
    ensures UpdateTableName(UpdateTableName(tables, index, a).value, index, b) == UpdateTableName(tables, index, b)
  {
    var r := UpdateTableName(UpdateTableName(tables, index, a).value, index, tables[index].name).value;
    assert r[index] == tables[index];
    assert r == tables;
    var once := UpdateTableName(tables, index, a).value;
    assert once[index := once[index].(name := b)] == tables[index := tables[index].(name := b)];
  }

  /** Removing the column just added restores the list. */
  lemma {:induction false} AddColumnThenRemove(tables: Document, current: nat)
    requires current < |tables|
    ensures RemoveColumn(AddColumn(tables, current).value, current, |tables[current].columns|) == Ok(tables)
  {
    var cols := tables[current].columns;
    WithoutIndexSplices(cols + [NewColumn], |cols|);
    assert (cols + [NewColumn])[..|cols|] == cols;
    var r := RemoveColumn(AddColumn(tables, current).value, current, |cols|).value;
    assert r[current] == tables[current];
    assert r == tables;
  }

  /** Removing the foreign key just added restores the list. */
  lemma {:induction false} AddForeignKeyThenRemove(tables: Document, current: nat, fk: ForeignKey)
    requires current < |tables| && IsComplete(fk)
    ensures RemoveForeignKey(AddForeignKey(tables, current, fk).value, current, |tables[current].foreignKeys|)
      == Ok(tables)
  {
    var fks := tables[current].foreignKeys;
    WithoutIndexSplices(fks + [fk], |fks|);
    assert (fks + [fk])[..|fks|] == fks;
    var r := RemoveForeignKey(AddForeignKey(tables, current, fk).value, current, |fks|).value;
    assert r[current] == tables[current];
    assert r == tables;
  }

  /** Setting a column field to the value it already holds changes nothing
      (the commit still happens: the history does not compare documents). */
  lemma UpdateColumnSameValue(tables: Document, current: nat, columnIndex: nat, change: ColumnChange)
    requires current < |tables| && columnIndex < |tables[current].columns|
    ensures UpdateColumn(tables, current, columnIndex, change) == Ok(tables)
      <==> AlreadyHolds(tables[current].columns[columnIndex], change)
  {
    var t := tables[current];
    var column := t.columns[columnIndex];
    if AlreadyHolds(column, change) {
      assert ApplyChange(column, change) == column;
      assert t.columns[columnIndex := column] == t.columns;
      assert tables[current := t] == tables;
    } else {
      var r := UpdateColumn(tables, current, columnIndex, change).value;
      assert r[current].columns[columnIndex] != column;
    }
  }

  /** The change writes the value the column already holds; for the length
      that means the column already has that length (an absent length is
      not the empty string). */
  predicate AlreadyHolds(c: Column, change: ColumnChange)
  {
    match change
    case SetName(n) => c.name == n
    case SetDataType(d) => c.dataType == d
    case SetLength(l) => c.length == Some(l)
    case SetPrimary(p) => c.isPrimary == p
    case SetNullable(b) => c.isNullable == b
  }
}
