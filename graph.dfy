/**
 * `getNodes` and `getEdges` of src/components/RelationshipGraph.tsx: the
 * records handed to the graph renderer, derived from the table list.
 */
module Graph {
  import opened Schema

  datatype Position = Position(x: int, y: int)

  datatype NodeData = NodeData(nodeLabel: string, columns: seq<Column>)

  datatype Node = Node(id: string, nodeType: string, data: NodeData, position: Position)

  datatype Edge = Edge(id: string, source: string, target: string, animated: bool, edgeLabel: string, stroke: string)

  /** The decimal digits of `n`, as a template literal prints a number:
      no leading zero, so "0" only for zero. */
  function DecimalString(n: nat): (s: string)
    ensures |s| > 0
    ensures forall i :: 0 <= i < |s| ==> '0' <= s[i] <= '9'
    ensures s[0] == '0' <==> n == 0
    ensures |s| == 1 <==> n < 10
    decreases n
  {
    var digit := ['0' + (n % 10) as char];
    if n < 10 then digit else DecimalString(n / 10) + digit
  }

  /** Reads decimal digits back. */
  function ParseDecimal(s: string): nat
    requires forall i :: 0 <= i < |s| ==> '0' <= s[i] <= '9'
    decreases |s|
  {
    if |s| == 0 then 0
    else 10 * ParseDecimal(s[..|s| - 1]) + (s[|s| - 1] - '0') as nat
  }

  /** The printed index reads back as the index, so distinct foreign-key
      positions print differently. */
  lemma {:induction false} DecimalRoundTrip(n: nat)
    ensures ParseDecimal(DecimalString(n)) == n
    decreases n
  {
    var s := DecimalString(n);
    if n >= 10 {
      DecimalRoundTrip(n / 10);
      assert s[..|s| - 1] == DecimalString(n / 10);
    }
  }

  /** Every digit string without a leading zero (and "0" itself) is the
      printed form of the number it denotes: the printed forms are exactly
      the canonical decimal strings. */
  lemma {:induction false} DecimalCanonical(s: string)
    requires |s| > 0 && forall i :: 0 <= i < |s| ==> '0' <= s[i] <= '9'
    requires s[0] == '0' ==> |s| == 1
    ensures DecimalString(ParseDecimal(s)) == s
    decreases |s|
  {
    if |s| > 1 {
      var init := s[..|s| - 1];
      DecimalCanonical(init);
      ParsePositive(init);
      var n := ParseDecimal(s);
      var d := (s[|s| - 1] - '0') as nat;
      assert n == 10 * ParseDecimal(init) + d;
      assert n / 10 == ParseDecimal(init) && n % 10 == d;
      assert s == init + [s[|s| - 1]];
    }
  }

  /** A digit string that starts with a non-zero digit denotes a positive number. */
  lemma {:induction false} ParsePositive(s: string)
    requires |s| > 0 && forall i :: 0 <= i < |s| ==> '0' <= s[i] <= '9'
    requires s[0] != '0'
    ensures ParseDecimal(s) > 0
    decreases |s|
  {
    if |s| > 1 {
      ParsePositive(s[..|s| - 1]);
    }
  }

  lemma DecimalInjective(a: nat, b: nat)
    requires DecimalString(a) == DecimalString(b)
    ensures a == b
  {
    DecimalRoundTrip(a);
    DecimalRoundTrip(b);
  }

  /** The node for the table at position `index`. */
  function TableNode(t: Table, index: nat): Node
  {
    Node(t.name, "tableNode", NodeData(t.name, t.columns), Position(index * 300, index * 100))
  }

  /** `getNodes`: one node per table, in table order, named after the table,
      showing its columns, placed on the diagonal at (300 i, 100 i). */
  function GetNodes(tables: Document): (nodes: seq<Node>)
    ensures |nodes| == |tables|
    ensures forall i :: 0 <= i < |tables| ==>
      && nodes[i].id == tables[i].name
      && nodes[i].nodeType == "tableNode"
      && nodes[i].data.nodeLabel == tables[i].name
      && nodes[i].data.columns == tables[i].columns
      && nodes[i].position == Position(i * 300, i * 100)
  {
    seq(|tables|, i requires 0 <= i < |tables| => TableNode(tables[i], i))
  }

  predicate DistinctNames(tables: Document)
  {
    forall i, j :: 0 <= i < j < |tables| ==> tables[i].name != tables[j].name
  }

  predicate DistinctNodeIds(nodes: seq<Node>)
  {
    forall i, j :: 0 <= i < j < |nodes| ==> nodes[i].id != nodes[j].id
  }

  /** Node ids are unique exactly when table names are: two unnamed tables
      (two presses of "Add Table") give two nodes with the same id. */
  lemma NodeIdsDistinctIff(tables: Document)
    ensures DistinctNodeIds(GetNodes(tables)) <==> DistinctNames(tables)
  {
    var nodes := GetNodes(tables);
    if !DistinctNames(tables) {
      var i, j :| 0 <= i < j < |tables| && tables[i].name == tables[j].name;
      assert nodes[i].id == nodes[j].id;
    }
  }

  /** The edge for the foreign key at position `index` of table `t`. */
  function ForeignKeyEdge(t: Table, fk: ForeignKey, index: nat): Edge
  {
    Edge(t.name + "-" + fk.referenceTable + "-" + DecimalString(index),
         t.name, fk.referenceTable, true,
         fk.columnName + " \U{2192} " + fk.referenceColumn,
         "#6366f1")
  }

  /** `table.foreignKeys.map(...)`. */
  function TableEdges(t: Table): (edges: seq<Edge>)
    ensures |edges| == |t.foreignKeys|
    ensures forall k :: 0 <= k < |t.foreignKeys| ==> edges[k] == ForeignKeyEdge(t, t.foreignKeys[k], k)
  {
    seq(|t.foreignKeys|, k requires 0 <= k < |t.foreignKeys| => ForeignKeyEdge(t, t.foreignKeys[k], k))
  }

  /** `getEdges`: the `flatMap` of the per-table edges, one edge per foreign key. */
  function GetEdges(tables: Document): (edges: seq<Edge>)
    ensures |edges| == ForeignKeyCount(tables)
    decreases |tables|
  {
    if |tables| == 0 then [] else TableEdges(tables[0]) + GetEdges(tables[1..])
  }

  /** The number of foreign keys over all tables. */
  function ForeignKeyCount(tables: Document): nat
    decreases |tables|
  {
    if |tables| == 0 then 0 else |tables[0].foreignKeys| + ForeignKeyCount(tables[1..])
  }

  /** Edges are ordered by table, then by key: key `k` of table `i` is edge
      number (keys of the tables before `i`) + k, with source the table,
      target the referenced table, id `<table>-<referenced>-<k>` and label
      `<column> → <referenced column>`. */
  lemma {:induction false} EdgeAt(tables: Document, i: nat, k: nat)
    requires i < |tables| && k < |tables[i].foreignKeys|
    ensures ForeignKeyCount(tables[..i]) + k < |GetEdges(tables)|
    ensures GetEdges(tables)[ForeignKeyCount(tables[..i]) + k] == ForeignKeyEdge(tables[i], tables[i].foreignKeys[k], k)
    ensures GetEdges(tables)[ForeignKeyCount(tables[..i]) + k].source == tables[i].name
    ensures GetEdges(tables)[ForeignKeyCount(tables[..i]) + k].target == tables[i].foreignKeys[k].referenceTable
    decreases i
  {
    if i > 0 {
      var rest := tables[1..];
      EdgeAt(rest, i - 1, k);
      assert tables[..i][1..] == rest[..i - 1];
    }
  }

  /** Within one table, two keys to the same referenced table still get
      different edge ids. */
  lemma TableEdgeIdsDistinct(t: Table, k1: nat, k2: nat)
    requires k1 < k2 < |t.foreignKeys|
    requires t.foreignKeys[k1].referenceTable == t.foreignKeys[k2].referenceTable
    ensures TableEdges(t)[k1].id != TableEdges(t)[k2].id
  {
    var prefix := t.name + "-" + t.foreignKeys[k1].referenceTable + "-";
    if TableEdges(t)[k1].id == TableEdges(t)[k2].id {
      assert prefix + DecimalString(k1) == prefix + DecimalString(k2);
      assert DecimalString(k1) == (prefix + DecimalString(k1))[|prefix|..];
      assert DecimalString(k2) == (prefix + DecimalString(k2))[|prefix|..];
      DecimalInjective(k1, k2);
    }
  }
}
