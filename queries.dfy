/**
 * `generateQueries` of src/App.tsx: the table list rendered as
 * `CREATE TABLE` statements.
 */
module Queries {
  import opened Wrappers
  import opened Schema

  /** `parts.join(sep)`. */
  function Join(parts: seq<string>, sep: string): string
    decreases |parts|
  {
    if |parts| == 0 then ""
    else if |parts| == 1 then parts[0]
    else parts[0] + sep + Join(parts[1..], sep)
  }

  /** Joining one more part adds the separator and that part at the end. */
  lemma {:induction false} JoinSnoc(parts: seq<string>, p: string, sep: string)
    requires |parts| > 0
    ensures Join(parts + [p], sep) == Join(parts, sep) + sep + p
    decreases |parts|
  {
    if |parts| > 1 {
      JoinSnoc(parts[1..], p, sep);
      assert (parts + [p])[1..] == parts[1..] + [p];
    } else {
      assert (parts + [p])[1..] == [p];
    }
  }

  /** The types whose length or precision is written after the type name. */
  const SizedTypes: seq<string> := ["VARCHAR", "CHAR", "DECIMAL"]

  /** `column.length && [...].includes(column.dataType)`. */
  predicate HasLengthSuffix(c: Column)
  {
    c.length.Some? && c.length.value != "" && c.dataType in SizedTypes
  }

  function LengthSuffix(c: Column): string
  {
    if HasLengthSuffix(c) then "(" + c.length.value + ")" else ""
  }

  function PrimaryKeySuffix(c: Column): string
  {
    if c.isPrimary then
      " PRIMARY KEY" + (if c.dataType == "UUID" then " DEFAULT gen_random_uuid()" else "")
    else ""
  }

  function NotNullSuffix(c: Column): string
  {
    if !c.isNullable then " NOT NULL" else ""
  }

  /** The column name and type with the length suffix. */
  function ColumnHead(c: Column): string
  {
    "  " + c.name + " " + c.dataType + LengthSuffix(c)
  }

  /** One column line: name and type, then the clauses in this order. */
  function ColumnDefinition(c: Column): string
  {
    ColumnHead(c) + PrimaryKeySuffix(c) + NotNullSuffix(c)
  }

  /** `NOT NULL` is present exactly for a non-nullable column and closes the
      line: the line of a non-nullable column is that of the same column made
      nullable, plus the clause. */
  lemma NotNullClause(c: Column)
    ensures ColumnDefinition(c) == ColumnDefinition(c.(isNullable := true)) + (if c.isNullable then "" else " NOT NULL")
  {
    var plain := c.(isNullable := true);
    assert ColumnHead(plain) == ColumnHead(c) && PrimaryKeySuffix(plain) == PrimaryKeySuffix(c);
    assert NotNullSuffix(plain) == "";
    assert ColumnDefinition(plain) == ColumnHead(c) + PrimaryKeySuffix(c);
  }

  /** `PRIMARY KEY` follows the head exactly for a primary column, and the
      UUID default follows it exactly for a primary UUID column. */
  lemma PrimaryKeyClause(c: Column)
    ensures c.isPrimary <==> ColumnHead(c) + " PRIMARY KEY" <= ColumnDefinition(c)
    ensures c.isPrimary && c.dataType == "UUID"
      <==> ColumnHead(c) + " PRIMARY KEY DEFAULT gen_random_uuid()" <= ColumnDefinition(c)
  {
    var head, line := ColumnHead(c), ColumnDefinition(c);
    var rest := PrimaryKeySuffix(c) + NotNullSuffix(c);
    assert line == head + rest;
    if !c.isPrimary {
      if !c.isNullable {
        assert line[|head| + 1] == " NOT NULL"[1];
      }
    } else if c.dataType != "UUID" && !c.isNullable {
      assert line[|head| + 13] == " PRIMARY KEY NOT NULL"[13];
    }
  }

  /** The name and type are followed by `(` exactly when the column has a
      non-empty length and a VARCHAR, CHAR or DECIMAL type, and the length
      then stands between the parentheses. */
  lemma LengthClause(c: Column)
    ensures HasLengthSuffix(c) <==> "  " + c.name + " " + c.dataType + "(" <= ColumnDefinition(c)
    ensures HasLengthSuffix(c) ==> "  " + c.name + " " + c.dataType + "(" + c.length.value + ")" <= ColumnDefinition(c)
  {
    var plain := "  " + c.name + " " + c.dataType;
    var line := ColumnDefinition(c);
    if !HasLengthSuffix(c) {
      var rest := PrimaryKeySuffix(c) + NotNullSuffix(c);
      assert line == plain + rest;
      if |rest| > 0 {
        assert rest[0] == ' ';
        assert line[|plain|] == ' ';
      }
    }
  }

  function ForeignKeyDefinition(fk: ForeignKey): string
  {
    "  FOREIGN KEY (" + fk.columnName + ") REFERENCES " + fk.referenceTable + "(" + fk.referenceColumn + ")"
  }

  /** `[...columnDefinitions, ...foreignKeyDefinitions]`: the column lines in
      column order, then the foreign-key lines in key order. */
  function TableItems(t: Table): (items: seq<string>)
    ensures |items| == |t.columns| + |t.foreignKeys|
    ensures forall i :: 0 <= i < |t.columns| ==> items[i] == ColumnDefinition(t.columns[i])
    ensures forall k :: 0 <= k < |t.foreignKeys| ==>
      items[|t.columns| + k] == ForeignKeyDefinition(t.foreignKeys[k])
  {
    seq(|t.columns|, i requires 0 <= i < |t.columns| => ColumnDefinition(t.columns[i]))
    + seq(|t.foreignKeys|, k requires 0 <= k < |t.foreignKeys| => ForeignKeyDefinition(t.foreignKeys[k]))
  }

  /** The statement for a table, without the check for skipped tables. */
  function Statement(t: Table): string
  {
    "CREATE TABLE " + t.name + " (\n" + Join(TableItems(t), ",\n") + "\n);"
  }

  /** A table yields a statement only with a name and at least one column. */
  predicate Emits(t: Table)
  {
    t.name != "" && |t.columns| > 0
  }

  /** The callback passed to `tables.map`: "" exactly for a skipped table,
      a `CREATE TABLE` statement otherwise. */
  function TableQuery(t: Table): (q: string)
    ensures q == "" <==> !Emits(t)
    ensures Emits(t) ==> "CREATE TABLE " + t.name + " (\n" <= q
  {
    if !Emits(t) then "" else Statement(t)
  }

  /** `.filter(Boolean)`: drops the empty strings and keeps the rest. */
  function NonEmpty(qs: seq<string>): (r: seq<string>)
    ensures |r| <= |qs|
    ensures forall i :: 0 <= i < |r| ==> r[i] != ""
    ensures forall q :: q in r <==> q in qs && q != ""
    ensures (forall i :: 0 <= i < |qs| ==> qs[i] != "") ==> r == qs
    decreases |qs|
  {
    if |qs| == 0 then []
    else NonEmpty(qs[..|qs| - 1]) + (if qs[|qs| - 1] == "" then [] else [qs[|qs| - 1]])
  }

  function TableQueries(tables: Document): (qs: seq<string>)
    ensures |qs| == |tables|
    ensures forall i :: 0 <= i < |tables| ==> qs[i] == TableQuery(tables[i])
  {
    seq(|tables|, i requires 0 <= i < |tables| => TableQuery(tables[i]))
  }

  /**
   * `generateQueries`: None when there are no tables (the source alerts and
   * leaves the previous output in place), otherwise the statements of the
   * tables joined by a blank line.
   */
  function GenerateQueries(tables: Document): (r: Option<string>)
    ensures r.None? <==> |tables| == 0
    ensures r.Some? ==> r.value == Join(Statements(EmittingTables(tables)), "\n\n")
  {
    FilterKeepsStatements(tables);
    if |tables| == 0 then None
    else Some(Join(NonEmpty(TableQueries(tables)), "\n\n"))
  }

  /** The tables that yield a statement, in table order. */
  function EmittingTables(tables: Document): seq<Table>
    decreases |tables|
  {
    if |tables| == 0 then []
    else EmittingTables(tables[..|tables| - 1]) + (if Emits(tables[|tables| - 1]) then [tables[|tables| - 1]] else [])
  }

  function Statements(tables: seq<Table>): (ss: seq<string>)
    ensures |ss| == |tables|
    ensures forall i :: 0 <= i < |tables| ==> ss[i] == Statement(tables[i])
  {
    seq(|tables|, i requires 0 <= i < |tables| => Statement(tables[i]))
  }

  /** Filtering the per-table strings keeps the statements of the emitting
      tables, in order. */
  lemma {:induction false} FilterKeepsStatements(tables: Document)
    ensures NonEmpty(TableQueries(tables)) == Statements(EmittingTables(tables))
    decreases |tables|
  {
    if |tables| > 0 {
      var init := tables[..|tables| - 1];
      var last := tables[|tables| - 1];
      FilterKeepsStatements(init);
      var qs := TableQueries(tables);
      assert qs[..|qs| - 1] == TableQueries(init);
      var emitting := EmittingTables(init);
      if Emits(last) {
        assert Statements(emitting + [last]) == Statements(emitting) + [Statement(last)];
      } else {
        assert EmittingTables(tables) == emitting;
      }
    }
  }

  /** Appending a table adds its statement after a blank line, or nothing at
      all when the table is skipped (a blank table from "Add Table", say). */
  lemma {:induction false} GenerateQueriesSnoc(tables: Document, t: Table)
    requires |tables| > 0
    ensures GenerateQueries(tables + [t]) ==
      if !Emits(t) then GenerateQueries(tables)
      else if EmittingTables(tables) == [] then Some(Statement(t))
      else Some(GenerateQueries(tables).value + "\n\n" + Statement(t))
  {
    var all := tables + [t];
    assert all[..|all| - 1] == tables;
    var ss := Statements(EmittingTables(tables));
    assert EmittingTables(all) == EmittingTables(tables) + (if Emits(t) then [t] else []);
    assert GenerateQueries(tables).value == Join(ss, "\n\n");
    if Emits(t) {
      assert Statements(EmittingTables(all)) == ss + [Statement(t)];
      if ss != [] {
        JoinSnoc(ss, Statement(t), "\n\n");
      } else {
        assert ss + [Statement(t)] == [Statement(t)];
      }
    } else {
      assert Statements(EmittingTables(all)) == ss;
    }
  }
}
