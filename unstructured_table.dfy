/**
 * The `UnstructuredTable` component: it infers the columns of a table from
 * the union of the keys of its records, in first-seen order, and lays the
 * records out as a grid with one header cell per column and one body row of
 * cells per record. JSX is abstracted to the grid below: the `key`s React
 * receives and the content of each cell.
 */
module UnstructuredTable {
  import opened Records
  import opened OrderedSets

  /** `<th key={col}>{col}</th>` */
  datatype HeaderCell = HeaderCell(key: string, text: string)

  /** `<td key={col + value}>{value}</td>` */
  datatype Cell = Cell(key: string, value: Value)

  /** `<tr key={...}>{tdatas}</tr>` */
  datatype Row = Row(key: string, cells: seq<Cell>)

  /** The `thead` and `tbody` contents of the rendered table. */
  datatype Table = Table(header: seq<HeaderCell>, body: seq<Row>)

  // ---------------------------------------------------------------------
  // Specification
  // ---------------------------------------------------------------------

  /** Every key of every record: records in input order, each record's keys in enumeration order. */
  function FlatKeys(data: seq<DataObject>): seq<string>
  {
    if data == [] then [] else FlatKeys(data[..|data| - 1]) + Keys(data[|data| - 1])
  }

  /** The column set: every key added, in that order, to an initially empty insertion-ordered set. */
  function Columns(data: seq<DataObject>): seq<string>
  {
    AddAll([], FlatKeys(data))
  }

  /** `row[col] ?? ''`: the record's value, or the empty string when the key is missing. */
  function CellValue(row: DataObject, col: string): Value
  {
    match Lookup(row, col)
    case Some(v) => v
    case None => Str("")
  }

  /** `row.id ? String(row.id) : JSON.stringify(row)` */
  function RowKey(row: DataObject, conv: Conversions): string
  {
    match Lookup(row, "id")
    case Some(v) => if Truthy(v) then ValueText(v, conv) else conv.stringify(row)
    case None => conv.stringify(row)
  }

  function RenderCell(row: DataObject, col: string, conv: Conversions): Cell
  {
    var value := CellValue(row, col);
    Cell(col + ValueText(value, conv), value)
  }

  function RenderHeader(cols: seq<string>): seq<HeaderCell>
  {
    seq(|cols|, i requires 0 <= i < |cols| => HeaderCell(cols[i], cols[i]))
  }

  function RenderRow(row: DataObject, cols: seq<string>, conv: Conversions): Row
  {
    Row(RowKey(row, conv), seq(|cols|, i requires 0 <= i < |cols| => RenderCell(row, cols[i], conv)))
  }

  /** The table the component is expected to render for `data`. */
  function Render(data: seq<DataObject>, conv: Conversions): Table
  {
    var cols := Columns(data);
    Table(RenderHeader(cols), seq(|data|, r requires 0 <= r < |data| => RenderRow(data[r], cols, conv)))
  }

  // ---------------------------------------------------------------------
  // The component
  // ---------------------------------------------------------------------

  /**
   * The first phase of the component: every key of every record is added to
   * a fresh `Set`, whose insertion order becomes the column list.
   */
  method CollectColumns(data: seq<DataObject>) returns (cols: seq<string>)
    ensures cols == Columns(data)
  {
    var columns := new InsertionOrderedSet();
    for i := 0 to |data|
      invariant columns.Valid()
      invariant columns.items == Columns(data[..i])
    {
      var row := data[i];
      ghost var seen := FlatKeys(data[..i]);
      assert seen + Keys(row)[..0] == seen;
      for j := 0 to |row|
        invariant columns.Valid()
        invariant columns.items == AddAll([], seen + Keys(row)[..j])
      {
        columns.Add(row[j].key);
        assert seen + Keys(row)[..j + 1] == (seen + Keys(row)[..j]) + [row[j].key];
      }
      assert data[..i + 1][..i] == data[..i];
      assert Keys(row)[..|row|] == Keys(row);
    }
    assert data[..|data|] == data;
    cols := columns.items;
  }

  /**
   * The component's body: collect the columns, then push one header cell
   * per column, and per record one row of one cell per column.
   */
  method UnstructuredTable(data: seq<DataObject>, conv: Conversions) returns (table: Table)
    ensures table == Render(data, conv)
  {
    var cols := CollectColumns(data);

    var theadElements: seq<HeaderCell> := [];
    for c := 0 to |cols|
      invariant |theadElements| == c
      invariant forall k :: 0 <= k < c ==> theadElements[k] == HeaderCell(cols[k], cols[k])
    {
      theadElements := theadElements + [HeaderCell(cols[c], cols[c])];
    }

    var tbodyElements: seq<Row> := [];
    for r := 0 to |data|
      invariant |tbodyElements| == r
      invariant forall k :: 0 <= k < r ==> tbodyElements[k] == RenderRow(data[k], cols, conv)
    {
      var row := data[r];
      var tdatas: seq<Cell> := [];
      for c := 0 to |cols|
        invariant |tdatas| == c
        invariant forall k :: 0 <= k < c ==> tdatas[k] == RenderCell(row, cols[k], conv)
      {
        var value := CellValue(row, cols[c]);
        tdatas := tdatas + [Cell(cols[c] + ValueText(value, conv), value)];
      }
      tbodyElements := tbodyElements + [Row(RowKey(row, conv), tdatas)];
    }

    table := Table(theadElements, tbodyElements);
  }

  // ---------------------------------------------------------------------
  // Properties of the column set
  // ---------------------------------------------------------------------

  /** A key occurs in FlatKeys exactly when some record has it. */
  lemma {:induction false} FlatKeysElements(data: seq<DataObject>, k: string)
    ensures k in FlatKeys(data) <==> exists i :: 0 <= i < |data| && k in Keys(data[i])
  {
    if data != [] {
      var n := |data| - 1;
      FlatKeysElements(data[..n], k);
      if k in FlatKeys(data[..n]) {
        var i :| 0 <= i < n && k in Keys(data[..n][i]);
        assert data[i] == data[..n][i];
      }
      if exists i :: 0 <= i < |data| && k in Keys(data[i]) {
        var i :| 0 <= i < |data| && k in Keys(data[i]);
        if i < n {
          assert data[..n][i] == data[i];
        }
      }
    }
  }

  /** No column appears twice, however many records share a key. */
  lemma ColumnsDistinct(data: seq<DataObject>)
    ensures Distinct(Columns(data))
  {
    AddAllDistinct([], FlatKeys(data));
  }

  /** The columns are exactly the keys of the records: every key of every record, and nothing else. */
  lemma ColumnsCoverKeys(data: seq<DataObject>, k: string)
    ensures k in Columns(data) <==> exists i :: 0 <= i < |data| && k in Keys(data[i])
  {
    AddAllElements([], FlatKeys(data), k);
    FlatKeysElements(data, k);
  }

  /**
   * The columns are ordered by first appearance, scanning the records in
   * input order and each record's keys in enumeration order.
   */
  lemma ColumnsFirstSeen(data: seq<DataObject>)
    ensures OrderedByFirstSeen(Columns(data), FlatKeys(data))
  {
    AddAllFirstSeen(FlatKeys(data));
  }

  /**
   * The three properties above determine the columns: any duplicate-free
   * list of exactly the records' keys, in first-seen order, is Columns.
   */
  lemma ColumnsCharacterized(data: seq<DataObject>, cols: seq<string>)
    requires Distinct(cols)
    requires forall k :: k in cols <==> k in FlatKeys(data)
    requires OrderedByFirstSeen(cols, FlatKeys(data))
    ensures cols == Columns(data)
  {
    var flat := FlatKeys(data);
    ColumnsDistinct(data);
    ColumnsFirstSeen(data);
    forall k
      ensures k in cols <==> k in Columns(data)
    {
      AddAllElements([], flat, k);
    }
    FirstSeenOrderUnique(cols, Columns(data), flat);
  }

  // ---------------------------------------------------------------------
  // Properties of the rendered table
  // ---------------------------------------------------------------------

  /** One header cell per column, in column order, keyed and labelled by the column name. */
  lemma HeaderMatchesColumns(data: seq<DataObject>, conv: Conversions)
    ensures |Render(data, conv).header| == |Columns(data)|
    ensures forall i :: 0 <= i < |Columns(data)| ==>
      Render(data, conv).header[i] == HeaderCell(Columns(data)[i], Columns(data)[i])
  {
  }

  /**
   * One body row per record, in input order, each with exactly one cell per
   * column (records lacking some keys included), keyed by the record's row key.
   */
  lemma BodyMatchesRecords(data: seq<DataObject>, conv: Conversions)
    ensures |Render(data, conv).body| == |data|
    ensures forall r :: 0 <= r < |data| ==>
      && Render(data, conv).body[r].key == RowKey(data[r], conv)
      && |Render(data, conv).body[r].cells| == |Columns(data)|
  {
  }

  /**
   * The cell of record `r` in column `c` holds the record's value under that
   * key whenever the record has the key, whatever the value (`false`, `0`
   * and `''` included), and the empty string otherwise; its key is the
   * column name followed by the value's text.
   */
  lemma CellContents(data: seq<DataObject>, conv: Conversions, r: nat, c: nat)
    requires r < |data| && c < |Columns(data)|
    requires DistinctKeys(data[r])
    ensures var col, cell := Columns(data)[c], Render(data, conv).body[r].cells[c];
      && (forall v :: Field(col, v) in data[r] ==> cell == Cell(col + ValueText(v, conv), v))
      && (col !in Keys(data[r]) ==> cell == Cell(col, Str("")))
  {
    var col := Columns(data)[c];
    LookupSound(data[r], col);
    forall v | Field(col, v) in data[r]
      ensures CellValue(data[r], col) == v
    {
      LookupFindsField(data[r], col, v);
    }
  }

  /**
   * The row key is the text of the record's `id` when that is truthy; when
   * the record has no `id`, or its `id` is `false`, `0` or `''`, it is the
   * serialization of the whole record.
   */
  lemma RowKeyRule(row: DataObject, conv: Conversions)
    requires DistinctKeys(row)
    ensures "id" !in Keys(row) ==> RowKey(row, conv) == conv.stringify(row)
    ensures forall v :: Field("id", v) in row ==>
      RowKey(row, conv) == if v in {Bool(false), Num(0), Str("")} then conv.stringify(row) else ValueText(v, conv)
  {
    LookupSound(row, "id");
    forall v | Field("id", v) in row
      ensures Lookup(row, "id") == Some(v)
    {
      LookupFindsField(row, "id", v);
    }
  }

  /** No records: no columns, no header cells and no body rows. */
  lemma EmptyInput(conv: Conversions)
    ensures Columns([]) == [] && Render([], conv) == Table([], [])
  {
  }

  /** Records without fields give no columns, yet each still gets a body row, with no cells. */
  lemma {:induction false} EmptyRecords(data: seq<DataObject>, conv: Conversions)
    requires forall r :: 0 <= r < |data| ==> data[r] == []
    ensures Columns(data) == [] && Render(data, conv).header == []
    ensures |Render(data, conv).body| == |data|
    ensures forall r :: 0 <= r < |data| ==> Render(data, conv).body[r].cells == []
  {
    forall k
      ensures k !in Columns(data)
    {
      ColumnsCoverKeys(data, k);
    }
    HeadIn(Columns(data));
  }

  /** `[{A: 1, B: 2}, {B: 3, C: 4}]` */
  const TwoRecords: seq<DataObject> := [[Field("A", Num(1)), Field("B", Num(2))], [Field("B", Num(3)), Field("C", Num(4))]]

  /** Scanning the two records meets A, B, B, C. */
  lemma TwoRecordsKeys()
    ensures FlatKeys(TwoRecords) == ["A", "B", "B", "C"]
  {
    var data := TwoRecords;
    assert data[..1] == [data[0]] && data[..1][..0] == [];
    assert Keys(data[0]) == ["A", "B"] && Keys(data[1]) == ["B", "C"];
    assert FlatKeys(data[..1]) == ["A", "B"];
  }

  /** Two records sharing the key B give the columns A, B, C. */
  lemma TwoRecordsColumns()
    ensures Columns(TwoRecords) == ["A", "B", "C"]
  {
    TwoRecordsKeys();
    var flat := FlatKeys(TwoRecords);
    assert flat[..1] == ["A"] && flat[..2] == ["A", "B"] && flat[..3] == ["A", "B", "B"];
    assert AddAll([], flat[..1]) == ["A"];
    assert AddAll([], flat[..2]) == ["A", "B"];
    assert flat[..3][..2] == flat[..2] && flat[..3] == flat[..2] + ["B"];
    assert AddAll([], flat[..3]) == ["A", "B"];
  }

  /** The rows of `[{A: 1, B: 2}, {B: 3, C: 4}]` hold `[1, 2, '']` and `['', 3, 4]`. */
  lemma TwoRecordsRows(conv: Conversions)
    ensures var body := Render(TwoRecords, conv).body;
      && |body| == 2 && |body[0].cells| == 3 && |body[1].cells| == 3
      && body[0].cells[0].value == Num(1) && body[0].cells[1].value == Num(2) && body[0].cells[2].value == Str("")
      && body[1].cells[0].value == Str("") && body[1].cells[1].value == Num(3) && body[1].cells[2].value == Num(4)
  {
    var data := TwoRecords;
    TwoRecordsColumns();
    var cols := Columns(data);
    var body := Render(data, conv).body;
    assert body[0] == RenderRow(data[0], cols, conv) && body[1] == RenderRow(data[1], cols, conv);
    assert data[0][1..] == [Field("B", Num(2))] && data[1][1..] == [Field("C", Num(4))];
    assert CellValue(data[0], "A") == Num(1) && CellValue(data[0], "B") == Num(2) && CellValue(data[0], "C") == Str("");
    assert CellValue(data[1], "A") == Str("") && CellValue(data[1], "B") == Num(3) && CellValue(data[1], "C") == Num(4);
  }
}
