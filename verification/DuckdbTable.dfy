/** The in-memory `Table` of the DuckDB wrapper: named columns over rows, and filling it from a query result. */
module DuckdbTable {
  import opened Wrappers

  datatype ColumnType = DoubleColumn | IntColumn | StringColumn | UBigintColumn | BigintColumn

  /** A typed cell; no content until it is assigned. */
  datatype Value = Value(columnType: ColumnType, content: Option<string>)

  datatype Column = Column(name: string, columnType: ColumnType)

  /** A chunk of a query result: `size` cells for each column. */
  datatype Chunk = Chunk(size: nat, cells: seq<seq<string>>)

  datatype QueryResult = QueryResult(columns: seq<Column>, chunks: seq<Chunk>)

  predicate WellFormed(res: QueryResult) {
    forall k | 0 <= k < |res.chunks| ::
      |res.chunks[k].cells| == |res.columns|
      && forall c | 0 <= c < |res.columns| :: |res.chunks[k].cells[c]| == res.chunks[k].size
  }

  predicate Distinct(names: seq<string>) {
    forall i, j | 0 <= i < j < |names| :: names[i] != names[j]
  }

  function Names(columns: seq<Column>): (names: seq<string>)
    ensures |names| == |columns| && forall c | 0 <= c < |columns| :: names[c] == columns[c].name
  {
    seq(|columns|, c requires 0 <= c < |columns| => columns[c].name)
  }

  // ---------- What reading a result means ----------

  function RowOf(columns: seq<Column>, chunk: Chunk, r: nat): (row: seq<Value>)
    requires |chunk.cells| == |columns| && r < chunk.size
    requires forall c | 0 <= c < |columns| :: |chunk.cells[c]| == chunk.size
    ensures |row| == |columns|
  {
    seq(|columns|, c requires 0 <= c < |columns| => Value(columns[c].columnType, Some(chunk.cells[c][r])))
  }

  /** The rows of all chunks, one after the other. */
  function RowsOf(columns: seq<Column>, chunks: seq<Chunk>): (rows: seq<seq<Value>>)
    requires WellFormed(QueryResult(columns, chunks))
  {
    if chunks == [] then []
    else
      var n := |chunks| - 1;
      var last := QueryResult(columns, chunks).chunks[n];
      assert WellFormed(QueryResult(columns, chunks[..n]));
      RowsOf(columns, chunks[..n]) + seq(last.size, r requires 0 <= r < last.size => RowOf(columns, last, r))
  }

  lemma NoChunks(columns: seq<Column>)
    ensures WellFormed(QueryResult(columns, [])) && RowsOf(columns, []) == []
  {
  }

  lemma WellFormedUpTo(res: QueryResult, k: nat)
    requires WellFormed(res) && k <= |res.chunks|
    ensures WellFormed(QueryResult(res.columns, res.chunks[..k]))
  {
  }

  lemma RowsStep(res: QueryResult, k: nat)
    requires WellFormed(res) && k < |res.chunks|
    requires WellFormed(QueryResult(res.columns, res.chunks[..k]))
    requires WellFormed(QueryResult(res.columns, res.chunks[..k + 1]))
    ensures var chunk := res.chunks[k];
      && |chunk.cells| == |res.columns| && (forall c | 0 <= c < |res.columns| :: |chunk.cells[c]| == chunk.size)
      && RowsOf(res.columns, res.chunks[..k + 1]) ==
           RowsOf(res.columns, res.chunks[..k])
           + seq(chunk.size, r requires 0 <= r < chunk.size => RowOf(res.columns, chunk, r))
  {
    assert res.chunks[..k + 1][..k] == res.chunks[..k];
  }

  class Table {
    var headers: seq<string>
    var values: seq<seq<Value>>
    var refRow: seq<Value>
    var colmap: map<string, nat>

    constructor ()
      ensures Valid() && headers == [] && values == []
    {
      headers, values, refRow, colmap := [], [], [], map[];
    }

    /** Rectangular, one type per column, and every name leads to its own position. */
    ghost predicate Valid()
      reads this
    {
      && |refRow| == |headers|
      && (forall c | 0 <= c < |refRow| :: refRow[c].content == None)
      && (forall r | 0 <= r < |values| :: |values[r]| == |headers|)
      && (forall r, c | 0 <= r < |values| && 0 <= c < |headers| :: values[r][c].columnType == refRow[c].columnType)
      && (forall c | 0 <= c < |headers| :: headers[c] in colmap && colmap[headers[c]] == c)
      && (forall name | name in colmap :: colmap[name] < |headers| && headers[colmap[name]] == name)
    }

    method Reset()
      modifies this
      ensures Valid() && headers == [] && values == []
    {
      headers, colmap, values, refRow := [], map[], [], [];
    }

    /** The original asserts that the name is new. */
    method AddColumn(name: string, columnType: ColumnType)
      requires Valid() && name !in headers
      modifies this
      ensures Valid()
      ensures headers == old(headers) + [name] && refRow == old(refRow) + [Value(columnType, None)]
      ensures |values| == |old(values)|
      ensures forall r | 0 <= r < |values| :: values[r] == old(values)[r] + [Value(columnType, None)]
    {
      refRow := refRow + [Value(columnType, None)];
      ghost var before := values;
      for r := 0 to |values|
        invariant |values| == |before| && headers == old(headers) && colmap == old(colmap)
        invariant refRow == old(refRow) + [Value(columnType, None)]
        invariant forall k | 0 <= k < |values| ::
          values[k] == if k < r then before[k] + [Value(columnType, None)] else before[k]
      {
        values := values[r := values[r] + [Value(columnType, None)]];
      }
      headers := headers + [name];
      colmap := colmap[name := |refRow| - 1];
    }

    method AddRow() returns (index: nat)
      requires Valid()
      modifies this`values
      ensures Valid() && index == |old(values)| && values == old(values) + [refRow]
    {
      values := values + [refRow];
      index := |values| - 1;
    }

    /** Drops rows from the end, or adds unpopulated ones. */
    method ResizeRows(to: nat)
      requires Valid()
      modifies this`values
      ensures Valid() && |values| == to
      ensures forall r | 0 <= r < to :: values[r] == if r < |old(values)| then old(values)[r] else refRow
    {
      var blank := refRow;
      values := if to <= |values| then values[..to] else values + seq(to - |values|, _ => blank);
    }

    method Clear()
      requires Valid()
      modifies this`values
      ensures Valid() && values == []
    {
      values := [];
    }

    /** `tab(row, name)`. */
    function At(row: nat, name: string): (v: Value)
      requires Valid() && row < |values| && name in headers
      reads this
    {
      assert exists c :: 0 <= c < |headers| && headers[c] == name;
      values[row][colmap[name]]
    }

    /** Access by name is access by position, for every column. */
    lemma NameIsPosition(row: nat, c: nat)
      requires Valid() && row < |values| && c < |headers|
      ensures At(row, headers[c]) == values[row][c]
    {
    }

    /** `tab(row, name) = content`. */
    method Set(row: nat, name: string, content: string)
      requires Valid() && row < |values| && name in colmap
      modifies this`values
      ensures Valid()
      ensures var cells, c := old(values)[row], colmap[name];
        values == old(values)[row := cells[c := cells[c].(content := Some(content))]]
    {
      var c := colmap[name];
      values := values[row := values[row][c := values[row][c].(content := Some(content))]];
    }

    /** Fills column `c` of the rows from `rowOff` on with one column of a chunk. */
    method ReadColumn(rowOff: nat, c: nat, cells: seq<string>)
      requires Valid() && c < |headers| && rowOff + |cells| == |values|
      modifies this`values
      ensures Valid() && |values| == |old(values)|
      ensures forall r | 0 <= r < |values| ::
        values[r] == if r < rowOff then old(values)[r]
                     else old(values)[r][c := Value(refRow[c].columnType, Some(cells[r - rowOff]))]
    {
      for r := 0 to |cells|
        invariant Valid() && |values| == |old(values)|
        invariant forall k | 0 <= k < |values| ::
          values[k] == if k < rowOff || rowOff + r <= k then old(values)[k]
                       else old(values)[k][c := Value(refRow[c].columnType, Some(cells[k - rowOff]))]
      {
        values := values[rowOff + r := values[rowOff + r][c := values[rowOff + r][c].(content := Some(cells[r]))]];
      }
    }

    method AddRows(count: nat)
      requires Valid()
      modifies this`values
      ensures Valid() && |values| == |old(values)| + count
      ensures forall k | 0 <= k < |values| :: values[k] == if k < |old(values)| then old(values)[k] else refRow
    {
      hide Valid;
      for r := 0 to count
        invariant Valid() && |values| == |old(values)| + r
        invariant forall k | 0 <= k < |values| :: values[k] == if k < |old(values)| then old(values)[k] else refRow
      {
        var added := AddRow();
      }
    }

    /** Column after column, the rows from `rowOff` on take the cells of the chunk. */
    method ReadColumns(rowOff: nat, cells: seq<seq<string>>, size: nat)
      requires Valid() && |cells| == |headers| && |values| == rowOff + size
      requires forall c | 0 <= c < |cells| :: |cells[c]| == size
      requires forall r | rowOff <= r < |values| :: values[r] == refRow
      modifies this`values
      ensures Valid() && |values| == rowOff + size && values[..rowOff] == old(values)[..rowOff]
      ensures forall r, c | rowOff <= r < |values| && 0 <= c < |headers| ::
        values[r][c] == Value(refRow[c].columnType, Some(cells[c][r - rowOff]))
    {
      for c := 0 to |cells|
        invariant Valid() && |values| == rowOff + size && values[..rowOff] == old(values)[..rowOff]
        invariant forall r, k | rowOff <= r < |values| && 0 <= k < c ::
          values[r][k] == Value(refRow[k].columnType, Some(cells[k][r - rowOff]))
      {
        ReadColumn(rowOff, c, cells[c]);
      }
    }

    /** One chunk: new rows first, then its columns. */
    method ReadChunk(chunk: Chunk, ghost columns: seq<Column>)
      requires Valid() && HasColumns(columns)
      requires |chunk.cells| == |columns| && forall c | 0 <= c < |columns| :: |chunk.cells[c]| == chunk.size
      modifies this`values
      ensures Valid() && HasColumns(columns)
      ensures values == old(values) + seq(chunk.size, r requires 0 <= r < chunk.size => RowOf(columns, chunk, r))
    {
      var rowOff := |values|;
      AddRows(chunk.size);
      ReadColumns(rowOff, chunk.cells, chunk.size);
      forall r | rowOff <= r < |values| ensures values[r] == RowOf(columns, chunk, r - rowOff) {
        assert |values[r]| == |headers|;
      }
      assert values[..rowOff] == old(values);
    }

    ghost predicate HasColumns(columns: seq<Column>)
      reads this
    {
      && |headers| == |columns| && |refRow| == |columns|
      && forall c | 0 <= c < |columns| ::
           headers[c] == columns[c].name && refRow[c] == Value(columns[c].columnType, None)
    }

    /** The columns of a result, in order. */
    method AddColumns(columns: seq<Column>)
      requires Valid() && headers == [] && values == [] && Distinct(Names(columns))
      modifies this
      ensures Valid() && values == [] && HasColumns(columns)
    {
      for c := 0 to |columns|
        invariant Valid() && values == [] && HasColumns(columns[..c])
      {
        assert forall k | 0 <= k < c :: headers[k] == Names(columns)[k] != Names(columns)[c];
        AddColumn(columns[c].name, columns[c].columnType);
      }
      assert columns[..|columns|] == columns;
    }

    /** The table becomes the query result, row by row, whatever it held before. */
    method Read(res: QueryResult)
      requires WellFormed(res) && Distinct(Names(res.columns))
      modifies this
      ensures Valid() && HasColumns(res.columns)
      ensures values == RowsOf(res.columns, res.chunks)
    {
      Reset();
      AddColumns(res.columns);
      hide Valid, HasColumns, WellFormed, RowsOf;
      NoChunks(res.columns);
      WellFormedUpTo(res, 0);
      assert res.chunks[..0] == [];
      for k := 0 to |res.chunks|
        invariant Valid() && HasColumns(res.columns)
        invariant WellFormed(QueryResult(res.columns, res.chunks[..k]))
        invariant values == RowsOf(res.columns, res.chunks[..k])
      {
        WellFormedUpTo(res, k + 1);
        RowsStep(res, k);
        ReadChunk(res.chunks[k], res.columns);
      }
      assert res.chunks[..|res.chunks|] == res.chunks;
    }
  }

  /** Where a cell of a chunk ends up: below all rows of the chunks before it. */
  lemma {:induction false} CellOf(columns: seq<Column>, chunks: seq<Chunk>, k: nat, r: nat, c: nat)
    requires WellFormed(QueryResult(columns, chunks)) && k < |chunks| && r < chunks[k].size && c < |columns|
    ensures WellFormed(QueryResult(columns, chunks[..k]))
    ensures |chunks[k].cells| == |columns| && |chunks[k].cells[c]| == chunks[k].size
    ensures var rows, at := RowsOf(columns, chunks), |RowsOf(columns, chunks[..k])| + r;
      at < |rows| && |rows[at]| == |columns| && rows[at][c] == Value(columns[c].columnType, Some(chunks[k].cells[c][r]))
    decreases |chunks|
  {
    var res := QueryResult(columns, chunks);
    assert |res.chunks[k].cells| == |columns|;
    var n := |chunks| - 1;
    var init := chunks[..n];
    assert WellFormed(QueryResult(columns, init));
    if k < n {
      CellOf(columns, init, k, r, c);
      assert init[..k] == chunks[..k];
    }
  }
}
