/** Rows of a SQL query result and how they are built from an arrow record
    batch (src/model/sql_query/row.rs). Arrow arrays are abstracted to typed
    value sequences; the grid of rows is filled in place, column by column. */
module SqlRow {
  import opened Ints
  import opened Common
  import opened Values

  datatype Column = Column(name: string, value: Value)

  datatype Row = Row(columns: seq<Column>)

  /** Column `k` is the first one named `name`. */
  ghost predicate FirstNamed(row: Row, name: string, k: int) {
    && 0 <= k < |row.columns|
    && row.columns[k].name == name
    && forall j :: 0 <= j < k ==> row.columns[j].name != name
  }

  /** `Row::column`: the first column with the given name. */
  function FindColumn(row: Row, name: string): (r: Option<Column>)
    ensures r.None? <==> forall k :: 0 <= k < |row.columns| ==> row.columns[k].name != name
    ensures r.Some? ==> r.value.name == name
    ensures r.Some? ==> exists k :: FirstNamed(row, name, k) && row.columns[k] == r.value
    decreases |row.columns|
  {
    if row.columns == [] then None
    else if row.columns[0].name == name then Some(row.columns[0])
    else
      var r := FindColumn(Row(row.columns[1..]), name);
      assert forall k :: 0 < k < |row.columns| ==> row.columns[k] == row.columns[1..][k - 1];
      r
  }

  datatype RowBuilder = RowBuilder(colIdxToName: seq<string>, rowValues: seq<seq<Value>>)

  /** Every row has a name for each of its values (the source indexes the
      names by column position and panics otherwise). */
  predicate Named(b: RowBuilder) {
    forall i :: 0 <= i < |b.rowValues| ==> |b.rowValues[i]| <= |b.colIdxToName|
  }

  /** `RowBuilder::build`: one row per value vector, each value paired with
      the name of its column position. */
  function Build(b: RowBuilder): (rows: seq<Row>)
    requires Named(b)
    ensures |rows| == |b.rowValues|
    ensures forall i :: 0 <= i < |rows| ==> |rows[i].columns| == |b.rowValues[i]|
    ensures forall i, j :: 0 <= i < |rows| && 0 <= j < |rows[i].columns| ==>
      rows[i].columns[j] == Column(b.colIdxToName[j], b.rowValues[i][j])
  {
    seq(|b.rowValues|, i requires 0 <= i < |b.rowValues| =>
      Row(seq(|b.rowValues[i]|, j requires 0 <= j < |b.rowValues[i]| =>
        Column(b.colIdxToName[j], b.rowValues[i][j]))))
  }

  /** With distinct column names, looking a built row up by the name of a
      position gives back the value at that position, and a name the row
      has no value for is absent. */
  lemma BuildThenFind(b: RowBuilder, i: nat, j: nat)
    requires Named(b) && Distinct(b.colIdxToName)
    requires i < |b.rowValues| && j < |b.colIdxToName|
    ensures var r := FindColumn(Build(b)[i], b.colIdxToName[j]);
      if j < |b.rowValues[i]| then r == Some(Column(b.colIdxToName[j], b.rowValues[i][j]))
      else r.None?
  {
    var rows := Build(b);
    var row := rows[i];
    var r := FindColumn(row, b.colIdxToName[j]);
    assert forall k :: 0 <= k < |row.columns| ==> row.columns[k] == Column(b.colIdxToName[k], b.rowValues[i][k]);
    if r.Some? {
      var k :| FirstNamed(row, b.colIdxToName[j], k) && row.columns[k] == r.value;
      assert k == j;
    }
  }

  // ---------------------------------------------------------------------
  // Arrow columns.
  // ---------------------------------------------------------------------

  /** An arrow array by its data type and values. `Utf8Column` is a
      `Utf8` array and `BinaryColumn` a `Binary` one (32-bit offsets). The
      `LargeUtf8`, `LargeBinary`, `Float32` and `Float64` arms downcast to
      an array type the column does not have and would panic; such columns,
      like every other type, are `Unsupported`, named as arrow displays
      it. */
  datatype ArrowColumn =
    | NullColumn(len: nat)
    | BooleanColumn(bools: seq<bool>)
    | Int8Column(i8s: seq<i8>)
    | Int16Column(i16s: seq<i16>)
    | Int32Column(i32s: seq<i32>)
    | Int64Column(i64s: seq<i64>)
    | UInt8Column(u8s: seq<u8>)
    | UInt16Column(u16s: seq<u16>)
    | UInt32Column(u32s: seq<u32>)
    | UInt64Column(u64s: seq<u64>)
    | Utf8Column(strs: seq<string>)
    | BinaryColumn(bins: seq<seq<u8>>)
    | TimestampMillisColumn(millis: seq<i64>)
    | Time32MillisColumn(times: seq<i32>)
    | Unsupported(typeName: string, len: nat)

  function Len(c: ArrowColumn): nat {
    match c
    case NullColumn(n) => n
    case BooleanColumn(s) => |s|
    case Int8Column(s) => |s|
    case Int16Column(s) => |s|
    case Int32Column(s) => |s|
    case Int64Column(s) => |s|
    case UInt8Column(s) => |s|
    case UInt16Column(s) => |s|
    case UInt32Column(s) => |s|
    case UInt64Column(s) => |s|
    case Utf8Column(s) => |s|
    case BinaryColumn(s) => |s|
    case TimestampMillisColumn(s) => |s|
    case Time32MillisColumn(s) => |s|
    case Unsupported(_, n) => n
  }

  /** The value a column gives its `i`-th row: the matching `Value` kind,
      Time32 milliseconds widened to a 64-bit timestamp, `Null` for a Null
      column. */
  function Cell(c: ArrowColumn, i: nat): Value
    requires !c.Unsupported? && i < Len(c)
  {
    match c
    case NullColumn(_) => Null
    case BooleanColumn(s) => Boolean(s[i])
    case Int8Column(s) => Int8(s[i])
    case Int16Column(s) => Int16(s[i])
    case Int32Column(s) => Int32(s[i])
    case Int64Column(s) => Int64(s[i])
    case UInt8Column(s) => UInt8(s[i])
    case UInt16Column(s) => UInt16(s[i])
    case UInt32Column(s) => UInt32(s[i])
    case UInt64Column(s) => UInt64(s[i])
    case Utf8Column(s) => String(s[i])
    case BinaryColumn(s) => Varbinary(s[i])
    case TimestampMillisColumn(s) => Timestamp(s[i])
    case Time32MillisColumn(s) => Timestamp(s[i])
  }

  function UnsupportedType(typeName: string): Error {
    BuildRows("Unsupported arrow type:" + typeName)
  }

  /** `fill_column_in_row_batch` on values: column `col` of every row
      receives the column's cell, a Null column leaves the rows alone, an
      unsupported type fails. */
  function Fill(rows: seq<seq<Value>>, col: nat, c: ArrowColumn): Result<seq<seq<Value>>>
    requires |rows| <= Len(c)
    requires forall i :: 0 <= i < |rows| ==> col < |rows[i]|
  {
    if c.Unsupported? then Err(UnsupportedType(c.typeName))
    else if c.NullColumn? then Ok(rows)
    else Ok(seq(|rows|, i requires 0 <= i < |rows| => rows[i][col := Cell(c, i)]))
  }

  /** Filling touches only column `col`: its cells hold the column's values,
      every other cell and every row length stay as they were. */
  lemma FillOnlyColumn(rows: seq<seq<Value>>, col: nat, c: ArrowColumn)
    requires |rows| <= Len(c)
    requires forall i :: 0 <= i < |rows| ==> col < |rows[i]|
    ensures Fill(rows, col, c).Ok? <==> !c.Unsupported?
    ensures Fill(rows, col, c).Err? ==> Fill(rows, col, c).error == UnsupportedType(c.typeName)
    ensures Fill(rows, col, c).Ok? ==>
      var filled := Fill(rows, col, c).value;
      && |filled| == |rows|
      && (forall i :: 0 <= i < |rows| ==> |filled[i]| == |rows[i]|)
      && (forall i, j :: 0 <= i < |rows| && 0 <= j < |rows[i]| && j != col ==> filled[i][j] == rows[i][j])
      && (forall i :: 0 <= i < |rows| && !c.NullColumn? ==> filled[i][col] == Cell(c, i))
      && (c.NullColumn? ==> filled == rows)
  {
  }

  /** The arrow record batch: its schema's field names and its columns. */
  datatype RecordBatch = RecordBatch(fieldNames: seq<string>, columns: seq<ArrowColumn>, numRows: nat)

  /** What arrow guarantees of a record batch: one column per schema field,
      each with one value per row. */
  predicate WellFormed(batch: RecordBatch) {
    && |batch.fieldNames| == |batch.columns|
    && forall j :: 0 <= j < |batch.columns| ==> Len(batch.columns[j]) == batch.numRows
  }

  /** A grid of `rows` rows of `cols` Null values. */
  function NullGrid(rows: nat, cols: nat): (g: seq<seq<Value>>)
    ensures |g| == rows && forall i :: 0 <= i < rows ==> g[i] == seq(cols, _ => Null)
  {
    seq(rows, _ => seq(cols, _ => Null))
  }

  /** Filling the grid with the given columns in order, stopping at the
      first failure. Filling keeps the shape of the grid. */
  function FillAll(grid: seq<seq<Value>>, columns: seq<ArrowColumn>, numRows: nat): (r: Result<seq<seq<Value>>>)
    requires |grid| == numRows
    requires forall i :: 0 <= i < numRows ==> |grid[i]| >= |columns|
    requires forall j :: 0 <= j < |columns| ==> Len(columns[j]) == numRows
    ensures r.Ok? ==> |r.value| == numRows && forall i :: 0 <= i < numRows ==> |r.value[i]| == |grid[i]|
    decreases |columns|
  {
    if columns == [] then Ok(grid)
    else
      var n := |columns| - 1;
      match FillAll(grid, columns[..n], numRows)
      case Err(e) => Err(e)
      case Ok(g) => FillOnlyColumn(g, n, columns[n]); Fill(g, n, columns[n])
  }

  /** Once filling a prefix of the columns fails, filling them all fails
      with the same error. */
  lemma {:induction false} FillAllErrSticks(grid: seq<seq<Value>>, columns: seq<ArrowColumn>, numRows: nat, c: nat)
    requires |grid| == numRows
    requires forall i :: 0 <= i < numRows ==> |grid[i]| >= |columns|
    requires forall j :: 0 <= j < |columns| ==> Len(columns[j]) == numRows
    requires c <= |columns| && FillAll(grid, columns[..c], numRows).Err?
    ensures FillAll(grid, columns, numRows) == FillAll(grid, columns[..c], numRows)
    decreases |columns| - c
  {
    if c < |columns| {
      assert columns[..c + 1][..c] == columns[..c];
      assert FillAll(grid, columns[..c + 1], numRows) == FillAll(grid, columns[..c], numRows);
      FillAllErrSticks(grid, columns, numRows, c + 1);
    } else {
      assert columns[..c] == columns;
    }
  }

  /** What `with_arrow_record_batch` returns for a batch. */
  function BatchRows(batch: RecordBatch): (r: Result<RowBuilder>)
    requires WellFormed(batch)
    ensures r.Ok? ==> r.value.colIdxToName == batch.fieldNames && |r.value.rowValues| == batch.numRows
    ensures r.Ok? ==> forall i :: 0 <= i < batch.numRows ==> |r.value.rowValues[i]| == |batch.columns|
  {
    match FillAll(NullGrid(batch.numRows, |batch.columns|), batch.columns, batch.numRows)
    case Err(e) => Err(e)
    case Ok(g) => Ok(RowBuilder(batch.fieldNames, g))
  }

  /** The grid after the first `c` columns are filled: cells of those
      columns hold their column's values, the others are still Null. */
  function PartialGrid(columns: seq<ArrowColumn>, numRows: nat, c: nat): (g: seq<seq<Value>>)
    requires c <= |columns|
    requires forall j :: 0 <= j < c ==> Len(columns[j]) == numRows && !columns[j].Unsupported?
    ensures |g| == numRows && forall i :: 0 <= i < numRows ==> |g[i]| == |columns|
  {
    seq(numRows, i requires 0 <= i < numRows =>
      seq(|columns|, j requires 0 <= j < |columns| => if j < c then Cell(columns[j], i) else Null))
  }

  /** None of the first `c` columns has an unsupported type. */
  ghost predicate SupportedUpTo(columns: seq<ArrowColumn>, c: nat) {
    c <= |columns| && forall j :: 0 <= j < c ==> !columns[j].Unsupported?
  }

  lemma FillStep(columns: seq<ArrowColumn>, numRows: nat, c: nat)
    requires SupportedUpTo(columns, c + 1)
    requires forall j :: 0 <= j < |columns| ==> Len(columns[j]) == numRows
    ensures Fill(PartialGrid(columns, numRows, c), c, columns[c]) == Ok(PartialGrid(columns, numRows, c + 1))
  {
    var g := PartialGrid(columns, numRows, c);
    var g' := PartialGrid(columns, numRows, c + 1);
    var f := Fill(g, c, columns[c]).value;
    forall i | 0 <= i < numRows ensures f[i] == g'[i] {
      assert |f[i]| == |g'[i]|;
      forall j | 0 <= j < |columns| ensures f[i][j] == g'[i][j] {
        if j == c && columns[c].NullColumn? {
          assert g[i][j] == Null;
        }
      }
    }
    assert f == g';
  }

  /** With the first `c` columns supported, filling them into the Null grid
      gives the partial grid. */
  lemma {:induction false} FillAllSupported(batch: RecordBatch, c: nat)
    requires WellFormed(batch) && SupportedUpTo(batch.columns, c)
    ensures FillAll(NullGrid(batch.numRows, |batch.columns|), batch.columns[..c], batch.numRows)
      == Ok(PartialGrid(batch.columns, batch.numRows, c))
  {
    var grid := NullGrid(batch.numRows, |batch.columns|);
    if c == 0 {
      var g := PartialGrid(batch.columns, batch.numRows, 0);
      forall i | 0 <= i < batch.numRows ensures grid[i] == g[i] {
        assert forall j :: 0 <= j < |batch.columns| ==> grid[i][j] == g[i][j];
      }
      assert grid == g;
      assert batch.columns[..0] == [];
      assert FillAll(grid, [], batch.numRows) == Ok(grid);
    } else {
      assert batch.columns[..c][..c - 1] == batch.columns[..c - 1];
      FillAllSupported(batch, c - 1);
      FillStep(batch.columns, batch.numRows, c - 1);
    }
  }

  /** Filling stops at the first unsupported column, with its error. */
  lemma {:induction false} FillAllUnsupported(batch: RecordBatch, k: nat, c: nat)
    requires WellFormed(batch) && SupportedUpTo(batch.columns, k)
    requires k < c <= |batch.columns| && batch.columns[k].Unsupported?
    ensures FillAll(NullGrid(batch.numRows, |batch.columns|), batch.columns[..c], batch.numRows)
      == Err(UnsupportedType(batch.columns[k].typeName))
  {
    assert batch.columns[..c][..c - 1] == batch.columns[..c - 1];
    if c - 1 == k {
      FillAllSupported(batch, k);
    } else {
      FillAllUnsupported(batch, k, c - 1);
    }
  }

  /** `with_arrow_record_batch` succeeds iff every column type is
      supported. Then the names are the schema's and row `i`, column `j`
      holds the `i`-th value of column `j` (Null for a Null column);
      otherwise the error names the first unsupported type. */
  lemma BatchRowsSpec(batch: RecordBatch)
    requires WellFormed(batch)
    ensures SupportedUpTo(batch.columns, |batch.columns|) ==>
      BatchRows(batch) == Ok(RowBuilder(batch.fieldNames, PartialGrid(batch.columns, batch.numRows, |batch.columns|)))
    ensures forall k: nat :: SupportedUpTo(batch.columns, k) && k < |batch.columns| && batch.columns[k].Unsupported? ==>
      BatchRows(batch) == Err(UnsupportedType(batch.columns[k].typeName))
  {
    assert batch.columns[..|batch.columns|] == batch.columns;
    if SupportedUpTo(batch.columns, |batch.columns|) {
      FillAllSupported(batch, |batch.columns|);
    }
    forall k: nat | SupportedUpTo(batch.columns, k) && k < |batch.columns| && batch.columns[k].Unsupported?
      ensures BatchRows(batch) == Err(UnsupportedType(batch.columns[k].typeName))
    {
      FillAllUnsupported(batch, k, |batch.columns|);
    }
  }

  /** Building the rows of a batch whose column types are all supported:
      one row per batch row, and column `j` of row `i` is named after field
      `j` and holds the `i`-th value of arrow column `j`. */
  lemma BatchThenBuild(batch: RecordBatch)
    requires WellFormed(batch) && SupportedUpTo(batch.columns, |batch.columns|)
    ensures BatchRows(batch).Ok? && Named(BatchRows(batch).value)
    ensures var rows := Build(BatchRows(batch).value);
      && |rows| == batch.numRows
      && (forall i :: 0 <= i < |rows| ==> |rows[i].columns| == |batch.columns|)
      && (forall i, j :: 0 <= i < |rows| && 0 <= j < |batch.columns| ==>
            rows[i].columns[j] == Column(batch.fieldNames[j], Cell(batch.columns[j], i)))
  {
    BatchRowsSpec(batch);
  }

  /** `fill_column_in_row_batch`: overwrite column `col` of every row of the
      grid in place; a Null column leaves the grid alone and an unsupported
      type fails without touching it. */
  method FillColumnInRowBatch(rows: array<seq<Value>>, col: nat, c: ArrowColumn) returns (r: Result<()>)
    requires rows.Length <= Len(c)
    requires forall i :: 0 <= i < rows.Length ==> col < |rows[i]|
    modifies rows
    ensures Fill(old(rows[..]), col, c) == if r.Ok? then Ok(rows[..]) else Err(r.error)
    ensures r.Err? ==> rows[..] == old(rows[..])
  {
    if c.Unsupported? {
      return Err(UnsupportedType(c.typeName));
    }
    if c.NullColumn? {
      return Ok(());
    }
    var rowCount := rows.Length;
    for i := 0 to rowCount
      invariant forall k :: 0 <= k < i ==> rows[k] == old(rows[k])[col := Cell(c, k)]
      invariant forall k :: i <= k < rowCount ==> rows[k] == old(rows[k])
    {
      rows[i] := rows[i][col := Cell(c, i)];
    }
    ghost var before := old(rows[..]);
    ghost var expected := Fill(before, col, c).value;
    assert forall k :: 0 <= k < rowCount ==> expected[k] == rows[..][k];
    assert expected == rows[..];
    return Ok(());
  }

  /** `RowBuilder::with_arrow_record_batch`: the schema's names, and a grid
      of Nulls filled column by column, aborting at the first failure. */
  method WithArrowRecordBatch(batch: RecordBatch) returns (r: Result<RowBuilder>)
    requires WellFormed(batch)
    ensures r == BatchRows(batch)
  {
    var colIdxToName := batch.fieldNames;
    var colCount := |batch.columns|;
    var rowCount := batch.numRows;
    ghost var grid := NullGrid(rowCount, colCount);
    var rows := new seq<Value>[rowCount](_ => seq(colCount, _ => Null));
    assert rows[..] == grid;
    for col := 0 to colCount
      invariant forall i :: 0 <= i < rowCount ==> |rows[i]| == colCount
      invariant FillAll(grid, batch.columns[..col], rowCount) == Ok(rows[..])
    {
      var column := batch.columns[col];
      assert batch.columns[..col + 1][..col] == batch.columns[..col];
      var filled := FillColumnInRowBatch(rows, col, column);
      if filled.Err? {
        FillAllErrSticks(grid, batch.columns, rowCount, col + 1);
        return Err(filled.error);
      }
    }
    assert batch.columns[..colCount] == batch.columns;
    return Ok(RowBuilder(colIdxToName, rows[..]));
  }
}
