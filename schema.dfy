/**
 * The document model of the schema editor (src/types.ts): a document is a
 * list of tables, each with its columns and foreign keys.
 */
module Schema {
  import opened Wrappers

  /** A column; `length` is optional in the source and stays `None` for
      columns that never had one (template columns of non-sized types). */
  datatype Column = Column(
    name: string,
    dataType: string,
    length: Option<string>,
    isPrimary: bool,
    isNullable: bool)

  datatype ForeignKey = ForeignKey(
    columnName: string,
    referenceTable: string,
    referenceColumn: string)

  datatype Table = Table(
    name: string,
    columns: seq<Column>,
    foreignKeys: seq<ForeignKey>)

  /** The document the history manager versions. */
  type Document = seq<Table>

  /** The table that "Add Table" appends, also the placeholder shown when the
      selected index is out of range. */
  const EmptyTable := Table("", [], [])

  /** The column that "Add Column" appends. */
  const NewColumn := Column("", "VARCHAR", Some(""), false, true)

  const EmptyForeignKey := ForeignKey("", "", "")

  /**
   * `s.filter((_, i) => i !== index)`: keeps every element whose position is
   * not `index`, in order. Written element by element, as the filter runs.
   */
  function WithoutIndex<X>(s: seq<X>, index: nat): (r: seq<X>)
    ensures |r| == if index < |s| then |s| - 1 else |s|
    ensures forall x :: x in r ==> x in s
    decreases |s|
  {
    if |s| == 0 then []
    else WithoutIndex(s[..|s| - 1], index) + (if |s| - 1 == index then [] else [s[|s| - 1]])
  }

  /** The filter removes exactly the element at `index` when there is one,
      and removes nothing otherwise. */
  lemma {:induction false} WithoutIndexSplices<X>(s: seq<X>, index: nat)
    ensures WithoutIndex(s, index) == if index < |s| then s[..index] + s[index + 1..] else s
    decreases |s|
  {
    if |s| > 0 {
      var init := s[..|s| - 1];
      WithoutIndexSplices(init, index);
      if index < |s| - 1 {
        assert init[..index] == s[..index];
        assert init[index + 1..] + [s[|s| - 1]] == s[index + 1..];
      } else if index == |s| - 1 {
        assert init == s[..index];
        assert s[index + 1..] == [];
      } else {
        assert init + [s[|s| - 1]] == s;
      }
    }
  }
}
