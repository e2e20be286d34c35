# QueryGen schema editor — Dafny model

QueryGen is a browser-based schema editor. You define tables, columns and foreign keys
in forms, and it writes `CREATE TABLE` statements for you. This project models four parts
of it in Dafny and proves properties of each:

- **The linear undo/redo history** (`useUndoRedo`). Module `History` holds the pure
  transitions on the `(past, present, future)` triple. Module `UndoRedo` holds the
  hook's single mutable slot, as the class `HistoryManager`. Each state is also viewed as
  a *timeline* (past, then present, then future, oldest first) plus a *cursor* (the
  position of present). Undo and redo keep the timeline and move the cursor by one, or
  do nothing at an end. A commit cuts the timeline just after the cursor and appends the
  new document. The triple and the (timeline, cursor) pair are proved to determine each
  other. The usual laws follow from this view:
  - undo and redo are no-ops on an empty side;
  - undo and redo are inverses;
  - the document count is conserved;
  - a commit truncates the redo branch;
  - after `n` commits, `past` is `[init, d1, …, d(n-1)]`.
- **The edit handlers of the `App` component.** Module `SchemaEdits` has one function per
  handler, from the current table list to the list it commits. An edit that fails is a
  `Result.Err`, and nothing is committed. The source fails in two ways: the foreign-key
  form is incomplete (it shows an alert), or a column or foreign-key handler reads a
  field of a missing table (it throws). Two more `Err` cases are a modelling choice, not
  source behaviour: a rename at an index past the end (`Err(NoSuchTable)` in
  `SchemaEdits.UpdateTableName`) and a column write at a column index past the end
  (`Err(NoSuchColumn)` in `SchemaEdits.UpdateColumn`). In both the source writes and
  commits a partial object; see the lines for those two members under "## Left out".
  Module `App` holds the component's state as the class `SchemaEditor`: the history, the
  selected table index, the draft of the foreign-key form, and the last generated SQL
  text.
- **The SQL generator** (`generateQueries`, module `Queries`). It has four parts:
  - per-column clauses;
  - per-table statements;
  - the filter that drops skipped tables;
  - the joins.

  On an empty table list the source shows an alert and keeps the previous output, so
  `Queries.GenerateQueries` returns `None` there and `SchemaEditor.GenerateQueries`
  keeps the old text.
- **Graph derivation** (`getNodes` and `getEdges`, module `Graph`): node and edge records
  for the relationship view.

The document type is a sequence of `Schema.Table` values (from `src/types.ts`).
The optional `length` of a column is an `Option<string>`.

**Value semantics and aliasing.** The main model treats every snapshot as an immutable
value. The source does not. `[...tables]` is a shallow copy, and the column and
foreign-key handlers then change objects in place that the snapshot already stored in
`past` also holds. Module `AliasedEdits` models these handlers as written: tables, column
arrays and foreign-key arrays are heap objects shared between snapshots. It exhibits the
result: undo after "Add Column" or "Remove Column" does not restore the document. See
"## Findings" below. The rest of the model uses value semantics.

**Stale selection.** Selecting a tab (`SchemaEditor.SelectTable`), adding a table and
deleting one set `currentTableIndex` as the source does. Undo, redo, applying a template
and importing a file leave it alone, so the selection can point past the end of the
list. `App.StaleSelectionAfterUndo` shows this: add two tables, then undo once. The form
then shows the blank placeholder table (`currentTable`), and "Add Column" fails, because
the source throws a `TypeError` there; `SchemaEdits.PlaceholderEditsFail` shows the same
for every column and foreign-key handler. Read from the source text (nothing was
executed), typing a name into the form in that state goes further:
`updateTableName(1, name)` stores a partial `{ name }` object at index 1 and commits
`[blank table, { name }]`; the next render then throws at `currentTable.columns.map`
(src/App.tsx:429), because that object has no `columns`. The model commits nothing
there (the `SchemaEdits.UpdateTableName` line under "## Left out").

## Model

| member | source | states |
|---|---|---|
| `History.Init` | src/hooks/useUndoRedo.ts:5-9 | a fresh history's timeline is just the initial document, the cursor is 0, and neither undo nor redo is possible |
| `History.FromTimeline` | src/hooks/useUndoRedo.ts:5-9 | any document list and an in-range position form a triple with exactly that timeline and cursor |
| `History.TimelineDeterminesState` | src/hooks/useUndoRedo.ts:5-9 | two triples with the same timeline and cursor are equal, so the view loses nothing |
| `History.FromTimelineRoundTrip` | src/hooks/useUndoRedo.ts:5-9 | rebuilding a triple from its own timeline and cursor gives it back |
| `History.Undo` | src/hooks/useUndoRedo.ts:14-27 | undo keeps the timeline (so the document count), moves the cursor back by one when the past is non-empty, and is the identity when it is empty |
| `History.Redo` | src/hooks/useUndoRedo.ts:29-42 | redo keeps the timeline, moves the cursor forward by one when the future is non-empty, and is the identity when it is empty |
| `History.Commit` | src/hooks/useUndoRedo.ts:44-50 | a commit keeps the timeline up to and including the old present, appends the new document (even one equal to present) as present, and leaves undo possible and redo impossible |
| `History.CanUndo` | src/hooks/useUndoRedo.ts:11 | `canUndo` holds exactly when the cursor is not at the oldest document |
| `History.CanRedo` | src/hooks/useUndoRedo.ts:12 | `canRedo` holds exactly when the cursor is not at the newest document |
| `History.UndoMovesIffCanUndo` | src/hooks/useUndoRedo.ts:11 | `canUndo` holds exactly when undo changes the state |
| `History.RedoMovesIffCanRedo` | src/hooks/useUndoRedo.ts:12 | `canRedo` holds exactly when redo changes the state |
| `History.DocumentCount` | src/hooks/useUndoRedo.ts:18-24 | undo and redo conserve `|past| + 1 + |future|`; a commit makes it `|past| + 2` |
| `History.RedoAfterUndo` | src/hooks/useUndoRedo.ts:14-42 | when undo is possible, redo is possible afterwards and restores the exact triple |
| `History.UndoAfterRedo` | src/hooks/useUndoRedo.ts:14-42 | when redo is possible, undo is possible afterwards and restores the exact triple |
| `History.UndoAfterCommit` | src/hooks/useUndoRedo.ts:14-50 | undo right after a commit restores the old past and present and offers only the committed document for redo |
| `History.UndoTimesMovesCursor` | src/hooks/useUndoRedo.ts:14-27 | `n` undos keep the timeline and move the cursor back `n` places, stopping at the oldest document |
| `History.RedoTimesMovesCursor` | src/hooks/useUndoRedo.ts:29-42 | `n` redos keep the timeline and move the cursor forward `n` places, stopping at the newest document |
| `History.RedoTimesAfterUndoTimes` | src/hooks/useUndoRedo.ts:14-42 | `n` undos then `n` redos restore the triple when the past holds at least `n` documents |
| `History.CommitAllState` | src/hooks/useUndoRedo.ts:44-50 | after commits of d1..dn the present is dn, the past is the old past, the old present and d1..d(n-1), and the future is empty |
| `History.CommitsFromInit` | src/hooks/useUndoRedo.ts:5-9 | from a fresh history, commits of d1..dn give `past == [init, d1, …, d(n-1)]`, `present == dn`, `future == []` |
| `History.GuardsAreRedundant` | src/App.tsx:74-75 | guarding undo by `canUndo` and redo by `canRedo`, as the keyboard shortcuts do, changes nothing |
| `UndoRedo.HistoryManager.constructor` | src/hooks/useUndoRedo.ts:4-9 | the hook starts in the state `History.Init` describes |
| `UndoRedo.HistoryManager.Tables` | src/hooks/useUndoRedo.ts:53 | `tables` is the document at the cursor of the slot's timeline |
| `UndoRedo.HistoryManager.CanUndo` | src/hooks/useUndoRedo.ts:11 | the hook's `canUndo` holds exactly when the slot's cursor is past the oldest document |
| `UndoRedo.HistoryManager.CanRedo` | src/hooks/useUndoRedo.ts:12 | the hook's `canRedo` holds exactly when the slot's cursor is before the newest document |
| `UndoRedo.HistoryManager.Undo` | src/hooks/useUndoRedo.ts:14-27 | the slot's new triple is `History.Undo` of the old one |
| `UndoRedo.HistoryManager.Redo` | src/hooks/useUndoRedo.ts:29-42 | the slot's new triple is `History.Redo` of the old one |
| `UndoRedo.HistoryManager.UpdateTables` | src/hooks/useUndoRedo.ts:44-50 | the slot's new triple is `History.Commit` of the old one and the new document |
| `UndoRedo.Walkthrough` | src/hooks/useUndoRedo.ts:14-50 | on four arbitrary documents, commit, commit, undo, undo, redo, commit ends at `([d0, d1], d3, [])` with nothing to redo; the asserts between the steps give each intermediate triple |
| `Schema.WithoutIndexSplices` | src/App.tsx:110 | the index filter removes exactly the element at the index and keeps the rest in order, and removes nothing for an index past the end |
| `Schema.WithoutIndex` | src/App.tsx:110 | `filter((_, i) => i !== index)` is one shorter exactly when the index is in range, and keeps only elements of the list |
| `SchemaEdits.AddTable` | src/App.tsx:96-104 | one blank table (empty name, no columns, no foreign keys) is appended and the existing tables are unchanged |
| `SchemaEdits.DeleteTable` | src/App.tsx:109-111 | the table at the index is removed, the others keep their order, and an index past the end removes nothing |
| `SchemaEdits.ClampSelection` | src/App.tsx:112-114 | the selection is kept while it still names a table, otherwise becomes `max(0, len-1)`; it then names a table whenever one exists |
| `SchemaEdits.UpdateTableName` | src/App.tsx:117-121 | only the name of the table at the index changes; its columns and foreign keys and all other tables stay; an index past the end is an error |
| `SchemaEdits.AddColumn` | src/App.tsx:123-133 | the blank column (`''`, VARCHAR, length `''`, not primary, nullable) is appended to the selected table only; a missing selected table is an error |
| `SchemaEdits.UpdateColumn` | src/App.tsx:135-143 | exactly the one named field of the one column changes, nothing else; a missing table or column is an error |
| `SchemaEdits.ApplyChange` | src/App.tsx:138-141 | `{ ...column, [field]: value }`: the named field takes the value and the four others keep theirs |
| `SchemaEdits.ChangesCommute` | src/App.tsx:138-141 | writes to two different column fields give the same column in either order |
| `SchemaEdits.LastChangeWins` | src/App.tsx:138-141 | a second write to the same field replaces the first |
| `SchemaEdits.RemoveColumn` | src/App.tsx:145-151 | exactly the column at the index is removed from the selected table only |
| `SchemaEdits.AddForeignKey` | src/App.tsx:153-161 | an incomplete form (any of the three fields empty) is refused before the tables are touched; otherwise the key is appended to the selected table only |
| `SchemaEdits.RemoveForeignKey` | src/App.tsx:170-176 | exactly the foreign key at the index is removed from the selected table only |
| `SchemaEdits.PlaceholderEditsFail` | src/App.tsx:123-176 | with the selection past the end the blank placeholder is the current table (line 265) and every column and foreign-key handler fails and commits nothing; an incomplete foreign-key form is still refused first |
| `SchemaEdits.AddTableThenDelete` | src/App.tsx:96-115 | deleting the table just added restores the list, and the newly selected table is the blank one |
| `SchemaEdits.RenameRoundTrip` | src/App.tsx:117-121 | renaming back restores the list, and of two renames the second wins |
| `SchemaEdits.AddColumnThenRemove` | src/App.tsx:123-151 | removing the column just added restores the list |
| `SchemaEdits.AddForeignKeyThenRemove` | src/App.tsx:153-176 | removing the foreign key just added restores the list |
| `SchemaEdits.UpdateColumnSameValue` | src/App.tsx:135-143 | the edit gives back exactly the old list if and only if it writes the value the field already holds, for each of the five fields; writing a length into a column that had none (`undefined`) still changes it |
| `Queries.JoinSnoc` | src/App.tsx:218 | joining one more part appends the separator and that part |
| `Queries.Join` | src/App.tsx:218 | `parts.join(sep)`: no parts give "", one part gives itself, more put `sep` between consecutive parts; its property is `Queries.JoinSnoc` |
| `Queries.NotNullClause` | src/App.tsx:206-208 | ` NOT NULL` closes the line exactly for a non-nullable column |
| `Queries.ColumnDefinition` | src/App.tsx:192-211 | one column line: the head, then the primary-key clause, then the not-null clause; its properties are the three clause lemmas |
| `Queries.PrimaryKeyClause` | src/App.tsx:199-204 | the line continues with ` PRIMARY KEY` right after the head if and only if the column is primary, and with ` PRIMARY KEY DEFAULT gen_random_uuid()` if and only if it is a primary UUID column |
| `Queries.LengthClause` | src/App.tsx:193-197 | `(` follows `  <name> <type>` if and only if the length is present and non-empty and the type is VARCHAR, CHAR or DECIMAL, and then `(<length>)` stands there |
| `Queries.ForeignKeyDefinition` | src/App.tsx:214-216 | one foreign-key line `  FOREIGN KEY (<column>) REFERENCES <table>(<column>)` |
| `Queries.TableItems` | src/App.tsx:192-218 | a statement's items are the column lines in column order, then the foreign-key lines `  FOREIGN KEY (c) REFERENCES t(rc)` in key order |
| `Queries.Statement` | src/App.tsx:189-219 | `CREATE TABLE <name> (`, the items joined by `,` and a line break, then `);` |
| `Queries.TableQuery` | src/App.tsx:184-221 | a table's string is empty exactly when the table has no name or no columns, and otherwise starts with `CREATE TABLE <name> (` |
| `Queries.NonEmpty` | src/App.tsx:222 | `filter(Boolean)` keeps exactly the non-empty strings, never lengthens the list, and changes nothing when no string is empty |
| `Queries.FilterKeepsStatements` | src/App.tsx:184-222 | filtering out the empty strings keeps the statements of exactly the emitting tables, in table order |
| `Queries.GenerateQueries` | src/App.tsx:178-225 | no output exactly when there are no tables; otherwise the statements of the emitting tables, in table order, joined by a blank line |
| `Queries.GenerateQueriesSnoc` | src/App.tsx:184-224 | appending a table adds nothing if it is skipped, otherwise its statement, after a blank line when earlier ones exist |
| `Graph.GetNodes` | src/components/RelationshipGraph.tsx:57-67 | one node per table, in table order; its id and label are the table name, it shows the table's columns, and the table at index i sits at (300 i, 100 i) |
| `Graph.NodeIdsDistinctIff` | src/components/RelationshipGraph.tsx:59 | node ids are pairwise different exactly when table names are |
| `Graph.DecimalString` | src/components/RelationshipGraph.tsx:72 | the edge index is printed as a non-empty string of decimal digits with no leading zero: it starts with `0` exactly for 0, and is one digit exactly below 10 |
| `Graph.DecimalRoundTrip` | src/components/RelationshipGraph.tsx:72 | reading the printed index back gives the index |
| `Graph.DecimalInjective` | src/components/RelationshipGraph.tsx:72 | different indices print differently |
| `Graph.DecimalCanonical` | src/components/RelationshipGraph.tsx:72 | every digit string without a leading zero, and `0`, is the printed form of the number it denotes, so the printed forms are exactly the canonical decimal strings |
| `Graph.TableEdges` | src/components/RelationshipGraph.tsx:71-78 | one edge per foreign key of a table, the k-th built from the k-th key and index k |
| `Graph.ForeignKeyEdge` | src/components/RelationshipGraph.tsx:71-78 | the edge record of one key: id `<table>-<referenced>-<index>`, source, target, `animated`, label `<column> → <referenced column>`, stroke `#6366f1` |
| `Graph.GetEdges` | src/components/RelationshipGraph.tsx:69-80 | the `flatMap` of the per-table edges has one edge per foreign key over all tables |
| `Graph.EdgeAt` | src/components/RelationshipGraph.tsx:70-79 | key k of table i is edge number (keys of the earlier tables) + k, with source the table name, target the referenced table, id `<table>-<referenced>-<k>` and label `<column> → <referenced column>` |
| `Graph.TableEdgeIdsDistinct` | src/components/RelationshipGraph.tsx:72 | two keys of one table that reference the same table still get different edge ids |
| `App.SchemaEditor.constructor` | src/App.tsx:58-71 | the history starts from the empty table list, the selection at 0, an empty foreign-key draft and no SQL text |
| `App.SchemaEditor.CurrentTable` | src/App.tsx:265 | the table the form shows is the selected one while the selection names a table, and the blank placeholder once it is past the end |
| `App.SchemaEditor.SelectTable` | src/App.tsx:369-372 | clicking tab `index` selects it, so the form shows that table; the history, the draft and the SQL text stay |
| `App.SchemaEditor.AddTable` | src/App.tsx:96-107 | commits `SchemaEdits.AddTable` of the list and selects the new table (index = old length) |
| `App.SchemaEditor.DeleteTable` | src/App.tsx:109-115 | commits `SchemaEdits.DeleteTable` and clamps the selection, which then names a table whenever one exists |
| `App.SchemaEditor.UpdateTableName` | src/App.tsx:117-121 | commits the renamed list, or nothing on an error |
| `App.SchemaEditor.AddColumn` | src/App.tsx:123-133 | commits the list with the new column, or nothing on an error |
| `App.SchemaEditor.UpdateColumn` | src/App.tsx:135-143 | commits the list with the changed field, or nothing on an error |
| `App.SchemaEditor.RemoveColumn` | src/App.tsx:145-151 | commits the list without the column, or nothing on an error |
| `App.SchemaEditor.SetNewForeignKey` | src/App.tsx:604-640 | the foreign-key form's inputs replace the draft and nothing else |
| `App.SchemaEditor.AddForeignKey` | src/App.tsx:153-168 | commits the drafted key and clears the draft; an incomplete draft or a missing table commits nothing and keeps the draft |
| `App.SchemaEditor.RemoveForeignKey` | src/App.tsx:170-176 | commits the list without the key, or nothing on an error |
| `App.SchemaEditor.ApplyTemplate` | src/App.tsx:693-696 | a template's tables are committed as one step |
| `App.SchemaEditor.ImportSchema` | src/App.tsx:253-259 | a parsed file commits once; a failed parse leaves the history unchanged |
| `App.SchemaEditor.Undo` | src/App.tsx:318 | the history takes one undo step and the selection is untouched |
| `App.SchemaEditor.Redo` | src/App.tsx:332 | the history takes one redo step and the selection is untouched |
| `App.SchemaEditor.GenerateQueries` | src/App.tsx:178-225 | the SQL text becomes the generated statements, or stays as it was when there are no tables |
| `App.StaleSelectionAfterUndo` | src/App.tsx:96-133 | after add table, add table, undo, the selection (1) is past the end of `[blank table]`, the placeholder is shown and "Add Column" fails |
| `App.UndoAfterEditRestores` | src/App.tsx:123-176 | with value snapshots, undo right after any committed edit gives back the list and the past from before it and redo returns to the edit; a failed edit leaves the history alone |
| `App.SameValueStillCommits` | src/App.tsx:135-143 | writing a column field's current value back still commits a step holding the same list, and undo becomes possible |
| `App.AddTableKeepsQueries` | src/App.tsx:96-107 | a blank table from "Add Table" changes nothing in the generated SQL |
| `AliasedEdits.NewTableObject` | src/App.tsx:99-103 | "Add Table" creates a table object with fresh, empty column and foreign-key arrays |
| `AliasedEdits.Contents` | src/App.tsx:123-176 | the table list a stored snapshot shows is read through the heap: entry i is what table object i currently holds, so it changes when a shared object is changed |
| `AliasedEdits.AddColumnInPlace` | src/App.tsx:123-133 | as written: the new list holds the same table objects, and the shared column array grows in place |
| `AliasedEdits.UpdateColumnInPlace` | src/App.tsx:135-143 | as written: `{ ...column, [field]: value }` of the old column is assigned into the shared column array |
| `AliasedEdits.RemoveColumnInPlace` | src/App.tsx:145-151 | as written: the shared table object's `columns` field is reassigned to a fresh filtered array |
| `AliasedEdits.AddForeignKeyInPlace` | src/App.tsx:159-161 | as written: the key is pushed onto the shared foreign-key array |
| `AliasedEdits.RemoveForeignKeyInPlace` | src/App.tsx:170-176 | as written: the shared table object's `foreignKeys` field is reassigned to a fresh filtered array |
| `AliasedEdits.UndoAfterAddColumnKeepsColumn` | src/App.tsx:123-133 | as written, add table, add column, undo shows `[blank table with the new column]`, not `[blank table]` |
| `AliasedEdits.UndoAfterRemoveColumnKeepsRemoval` | src/App.tsx:145-151 | as written, removing a table's only column and then undoing still shows the table with no columns |

## Findings

| source | as written | input that shows it | evidently intended | confidence | as-written member | corrected member |
|---|---|---|---|---|---|---|
| src/App.tsx:123-176 | `[...tables]` copies only the outer list. Then `columns.push` (125), element assignment (138), field assignment (147, 172) and `foreignKeys.push` (160) change objects that the snapshot stored in `past` also holds. | Add a table, add a column, press undo. | Undo after any of these edits returns to the list from before it (for this input, the table without the column). | medium (not executed) | `AliasedEdits.UndoAfterAddColumnKeepsColumn` | `App.UndoAfterEditRestores` |

## Left out

- JSX rendering, modal visibility flags, CSS classes and the ReactFlow renderer: user interface only. `Graph.Node` and `Graph.Edge` keep the record fields (`type`, `animated`, the stroke colour) as data.
- Dark-mode persistence through `localStorage` and `matchMedia`: browser input and output.
- Prism highlighting: a foreign library.
- Copying to the clipboard: an asynchronous browser API with a timer.
- Export through a Blob and an anchor click: input and output.
- Import through `FileReader` and `JSON.parse`: foreign input and output. `SchemaEditor.ImportSchema` takes the parse outcome as an `Option`. A parse that succeeds but does not yield a valid table list has no counterpart in the model.
- Keyboard shortcuts through `react-hotkeys-hook`: library plumbing. Their `canUndo`/`canRedo` guard is shown redundant by `History.GuardsAreRedundant`.
- React's state scheduling and batching: each handler is one atomic step.
- The data of src/components/SchemaTemplates.tsx: no fixture lemma over the template tables is included. Checking literal SQL strings of that size is too costly for the verifier. `SchemaEditor.ApplyTemplate` commits any table list.
- Aliasing of the template constant: applying a template stores the template's own objects (src/components/SchemaTemplates.tsx:72), so later in-place edits would change the template itself. The value model cannot express this. `AliasedEdits` shows the same mechanism on history snapshots only.
- The shallow copy in `updateTableName` (`{ ...table, name }`): in the source the renamed table shares its column and foreign-key arrays with the old one. `AliasedEdits` does not model renaming.
- `SQL_DATA_TYPES`: only type-name strings. `dataType` is an arbitrary string in the model.
- Negative indices: every index the UI passes comes from a `map` over a list, so indices are `nat`.
- `SchemaEdits.UpdateTableName`: does not model an index past the end. There the source stores a partial object that holds only `name`, and leaves holes when the index is further out. The `Table` datatype cannot hold such an entry, so the model returns `Err(NoSuchTable)` and commits nothing.
- `SchemaEdits.UpdateColumn`: does not model a column index past the end. There the source writes a partial column object, and the model returns `Err(NoSuchColumn)`. The model also restricts `(field, value)` to the five pairs the column form sends: the name, type and length inputs send strings, the two checkboxes send booleans. The source's `keyof Column` with `string | boolean` allows type-mismatched writes.
- `alert` calls: an alert becomes an `Err` result or a `None` output. The message text is not modelled.
