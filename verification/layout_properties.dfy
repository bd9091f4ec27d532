/**
 * Properties of the layout pipeline of module `Layout`: what the column
 * loop does to widths and cells, how the output is put together, the
 * error cases, and a worked example.
 */
module LayoutProperties {
  import opened Wrappers
  import opened Text
  import opened Formatters
  import opened Border
  import opened Layout

  /* ---------------- the column loop ---------------- */

  /**
   * One iteration of the column loop: the column's width becomes the
   * larger of its previous width and the widest cell the formatter
   * returned, every returned cell lands in the row it came from (when that
   * row has the cell), and no other column's width changes.
   */
  lemma {:induction false} ColumnStepEffect(apply: ColumnFn, g: Grid, j: nat, bufLen: nat)
    requires KeepsShape(apply)
    requires j < |g.widths| && bufLen > 0 && FitsBuffer(g.rows, bufLen)
    ensures var r := ColumnStep(apply, g, j, bufLen);
      var out := apply(j, ColumnValues(g.rows, j, bufLen), g.widths[j]);
      && r.widths[j] >= g.widths[j]
      && (forall i :: 0 <= i < |out| ==> |out[i]| <= r.widths[j])
      && (r.widths[j] == g.widths[j] || exists i :: 0 <= i < |out| && r.widths[j] == |out[i]|)
      && (forall k :: 0 <= k < |g.widths| && k != j ==> r.widths[k] == g.widths[k])
      && (forall i :: 0 <= i < |g.rows| && j < |g.rows[i]| ==> r.rows[i][j] == out[i])
  {
    var out := apply(j, ColumnValues(g.rows, j, bufLen), g.widths[j]);
    WidestIsMax(out, g.widths[j], |out|);
  }

  /** One iteration of the column loop leaves every other column's width and cells alone. */
  lemma ColumnStepElsewhere(apply: ColumnFn, g: Grid, j: nat, bufLen: nat, k: nat)
    requires KeepsShape(apply)
    requires j < |g.widths| && bufLen > 0 && FitsBuffer(g.rows, bufLen)
    requires k < |g.widths| && k != j
    ensures var r := ColumnStep(apply, g, j, bufLen);
      && r.widths[k] == g.widths[k]
      && forall i :: 0 <= i < |g.rows| && k < |g.rows[i]| ==> r.rows[i][k] == g.rows[i][k]
  {
  }

  /** One iteration of the column loop never narrows a column. */
  lemma ColumnStepWidens(apply: ColumnFn, g: Grid, j: nat, bufLen: nat)
    requires KeepsShape(apply)
    requires j < |g.widths| && bufLen > 0 && FitsBuffer(g.rows, bufLen)
    ensures forall k :: 0 <= k < |g.widths| ==> ColumnStep(apply, g, j, bufLen).widths[k] >= g.widths[k]
  {
    var out := apply(j, ColumnValues(g.rows, j, bufLen), g.widths[j]);
    WidestIsMax(out, g.widths[j], |out|);
  }

  /**
   * After the first `k` iterations no width has shrunk, and the widths and
   * cells of the columns from `k` on are as they were.
   */
  lemma {:induction false} ColumnsUntouched(apply: ColumnFn, g: Grid, bufLen: nat, k: nat)
    requires KeepsShape(apply)
    requires k <= |g.widths|
    requires k > 0 ==> bufLen > 0 && FitsBuffer(g.rows, bufLen)
    ensures var r := Columns(apply, g, bufLen, k);
      && (forall j :: 0 <= j < |g.widths| ==> r.widths[j] >= g.widths[j])
      && (forall j :: k <= j < |g.widths| ==> r.widths[j] == g.widths[j])
      && (forall i, j :: 0 <= i < |g.rows| && k <= j < |g.rows[i]| ==> r.rows[i][j] == g.rows[i][j])
  {
    if k > 0 {
      ColumnsUntouched(apply, g, bufLen, k - 1);
      var s := Columns(apply, g, bufLen, k - 1);
      assert FitsBuffer(s.rows, bufLen);
      ColumnStepWidens(apply, s, k - 1, bufLen);
      forall j | k <= j < |g.widths|
        ensures Columns(apply, g, bufLen, k).widths[j] == g.widths[j]
        ensures forall i :: 0 <= i < |g.rows| && j < |g.rows[i]| ==> Columns(apply, g, bufLen, k).rows[i][j] == g.rows[i][j]
      {
        ColumnStepElsewhere(apply, s, k - 1, bufLen, j);
      }
    }
  }

  /** Once column `j` is done, the later iterations leave its width alone. */
  lemma {:induction false} ColumnsSettledWidth(apply: ColumnFn, g: Grid, bufLen: nat, j: nat, k: nat)
    requires KeepsShape(apply)
    requires j < k <= |g.widths|
    requires bufLen > 0 && FitsBuffer(g.rows, bufLen)
    ensures Columns(apply, g, bufLen, k).widths[j] == Columns(apply, g, bufLen, j + 1).widths[j]
    decreases k
  {
    if k > j + 1 {
      ColumnsSettledWidth(apply, g, bufLen, j, k - 1);
      var s := Columns(apply, g, bufLen, k - 1);
      assert FitsBuffer(s.rows, bufLen);
      ColumnStepElsewhere(apply, s, k - 1, bufLen, j);
    }
  }

  /** Once column `j` is done, the later iterations leave its cell in row `i` alone. */
  lemma {:induction false} ColumnsSettledCell(apply: ColumnFn, g: Grid, bufLen: nat, j: nat, k: nat, i: nat)
    requires KeepsShape(apply)
    requires j < k <= |g.widths|
    requires bufLen > 0 && FitsBuffer(g.rows, bufLen)
    requires i < |g.rows| && j < |g.rows[i]|
    ensures Columns(apply, g, bufLen, k).rows[i][j] == Columns(apply, g, bufLen, j + 1).rows[i][j]
    decreases k
  {
    if k > j + 1 {
      ColumnsSettledCell(apply, g, bufLen, j, k - 1, i);
      var s := Columns(apply, g, bufLen, k - 1);
      assert FitsBuffer(s.rows, bufLen);
      ColumnStepElsewhere(apply, s, k - 1, bufLen, j);
    }
  }

  /** Column `j`'s formatter brings every buffer whose cells fit the width to exactly that width. */
  ghost predicate PadsColumn(apply: ColumnFn, j: nat)
    requires KeepsShape(apply)
  {
    forall v: seq<string>, w: nat :: |v| > 0 && (forall i :: 0 <= i < |v| ==> |v[i]| <= w) ==>
      forall i :: 0 <= i < |v| ==> |apply(j, v, w)[i]| == w
  }

  /** The alignments that pad every cell to the column width. */
  predicate Padding(f: ColumnFormatter) {
    f.AlignRightFormatter? || f.AlignLeftFormatter? || f.AlignCenterFormatter?
  }

  /** Right, left and centre alignment bring every cell no wider than the width to exactly that width. */
  lemma PaddingPads(cfs: seq<Option<ColumnFormatter>>, j: nat)
    requires Padding(ColumnFormatterAt(cfs, j))
    ensures PadsColumn(Formatting(cfs), j)
  {
    forall v: seq<string>, w: nat | |v| > 0 && (forall i :: 0 <= i < |v| ==> |v[i]| <= w)
      ensures forall i :: 0 <= i < |v| ==> |Formatting(cfs)(j, v, w)[i]| == w
    {
      assert Formatting(cfs)(j, v, w) == Applied(ColumnFormatterAt(cfs, j), j, v, w);
    }
  }

  /**
   * Columns line up: when column `j`'s formatter pads and no cell of the
   * column is wider than its width, then after the loop every cell of that
   * column has exactly the column's width, and the width has not changed.
   */
  lemma {:induction false} ColumnsLineUp(apply: ColumnFn, g: Grid, bufLen: nat, k: nat, j: nat)
    requires KeepsShape(apply)
    requires j < k <= |g.widths|
    requires bufLen > 0 && FitsBuffer(g.rows, bufLen)
    requires PadsColumn(apply, j)
    requires forall i :: 0 <= i < |g.rows| ==> CellWidth(g.rows[i], j) <= g.widths[j]
    ensures var r := Columns(apply, g, bufLen, k);
      && r.widths[j] == g.widths[j]
      && forall i :: 0 <= i < |r.rows| && j < |r.rows[i]| ==> |r.rows[i][j]| == r.widths[j]
  {
    ColumnsUntouched(apply, g, bufLen, j);
    var s := Columns(apply, g, bufLen, j);
    assert FitsBuffer(s.rows, bufLen);
    var w := g.widths[j];
    var values := ColumnValues(s.rows, j, bufLen);
    forall i | 0 <= i < bufLen
      ensures |values[i]| <= w
    {
      if i < |s.rows| && j < |s.rows[i]| {
        assert s.rows[i][j] == g.rows[i][j];
        assert CellWidth(g.rows[i], j) == |g.rows[i][j]|;
      }
    }
    var out := apply(j, values, w);
    ColumnStepEffect(apply, s, j, bufLen);
    var d := Columns(apply, g, bufLen, j + 1);
    assert d == ColumnStep(apply, s, j, bufLen);
    assert d.widths[j] == w;
    ColumnsSettledWidth(apply, g, bufLen, j, k);
    var r := Columns(apply, g, bufLen, k);
    forall i | 0 <= i < |r.rows| && j < |r.rows[i]|
      ensures |r.rows[i][j]| == r.widths[j]
    {
      ColumnsSettledCell(apply, g, bufLen, j, k, i);
    }
  }

  /** A new row raises the column count to its own length when it is longer. */
  lemma NumColsAddRow(header: seq<string>, rows: seq<seq<Value>>, row: seq<Value>)
    ensures NumCols(header, rows + [row]) == Max(NumCols(header, rows), |row|)
  {
    assert (rows + [row])[..|rows|] == rows;
  }

  /* ---------------- the whole pipeline ---------------- */

  /** Every cell of the formatted rows fits the merged width of its column. */
  lemma {:induction false} PreparedWidthsCover(c: Config, bufLen: nat, j: nat)
    requires Prepared(c, bufLen).Success?
    requires j < NumCols(c.header, c.rows)
    ensures var g := Prepared(c, bufLen).value;
      forall i :: 0 <= i < |g.rows| ==> CellWidth(g.rows[i], j) <= g.widths[j]
  {
    var numCols := NumCols(c.header, c.rows);
    FormatRowsSuccess(c.valueFormatters, c.rows, |c.rows|);
    var cells := FormatRows(c.valueFormatters, c.rows, |c.rows|).value;
    assert forall i :: 0 <= i < |cells| ==> |cells[i]| == |c.rows[i]|;
    var hdr := c.headerFormatter(0, c.header, Observed(cells, numCols));
    WidthAfterHeader(cells, numCols, hdr, j);
    var g := Prepared(c, bufLen).value;
    assert g.rows == [hdr] + cells;
    forall i | 0 <= i < |g.rows|
      ensures CellWidth(g.rows[i], j) <= g.widths[j]
    {
      if i > 0 {
        assert g.rows[i] == cells[i - 1];
      }
    }
  }

  /**
   * In the rendered table every cell of a right-, left- or centre-aligned
   * column is exactly as wide as the column, and the column is as wide as
   * its widest body cell or its header cell, whichever is wider.
   */
  lemma {:induction false} RenderedColumnsLineUp(c: Config, j: nat)
    requires Laid(c, NumCols(c.header, c.rows)).Success?
    requires j < NumCols(c.header, c.rows)
    requires Padding(ColumnFormatterAt(c.columnFormatters, j))
    ensures var g := Laid(c, NumCols(c.header, c.rows)).value;
      var g0 := Prepared(c, NumCols(c.header, c.rows)).value;
      && g.widths[j] == g0.widths[j]
      && forall i :: 0 <= i < |g.rows| && j < |g.rows[i]| ==> |g.rows[i][j]| == g.widths[j]
  {
    var numCols := NumCols(c.header, c.rows);
    var g0 := Prepared(c, numCols).value;
    PreparedWidthsCover(c, numCols, j);
    PaddingPads(c.columnFormatters, j);
    ColumnsLineUp(Formatting(c.columnFormatters), g0, numCols, numCols, j);
  }

  /**
   * The first cell whose value formatter fails, in row-major order, is
   * what `Format` reports, tagged with its body-row and column index.
   */
  lemma {:induction false} RenderReportsFirstFailure(c: Config)
    requires exists i, j :: 0 <= i < |c.rows| && 0 <= j < |c.rows[i]| && !CellOk(c.valueFormatters, c.rows, i, j)
    ensures Render(c).Failure? && Render(c).error.CellError?
    ensures var e := Render(c).error;
      && e.row < |c.rows| && e.col < |c.rows[e.row]|
      && FormatValue(c.valueFormatters, c.rows[e.row][e.col]) == Failure(e.reason)
      && forall i, j :: 0 <= i < |c.rows| && 0 <= j < |c.rows[i]| && Before(i, j, e.row, e.col) ==>
        CellOk(c.valueFormatters, c.rows, i, j)
  {
    FormatRowsSuccess(c.valueFormatters, c.rows, |c.rows|);
    var i, j :| 0 <= i < |c.rows| && 0 <= j < |c.rows[i]| && !CellOk(c.valueFormatters, c.rows, i, j);
    assert !RowOk(c.valueFormatters, c.rows[i]);
    FormatRowsFailure(c.valueFormatters, c.rows, |c.rows|);
  }

  /**
   * When every value formats, `Format` fails exactly when some non-empty
   * body row has no place in the per-column buffer, and the index it
   * reports is the first such row's place among the formatted rows.
   */
  lemma {:induction false} RenderOutOfRange(c: Config)
    requires forall i :: 0 <= i < |c.rows| ==> RowOk(c.valueFormatters, c.rows[i])
    ensures Render(c).Failure? <==> Overflows(c.header, c.rows)
    ensures Render(c).Failure? ==>
      var e := Render(c).error;
      && e.IndexOutOfRange? && e.length == NumCols(c.header, c.rows)
      && 1 <= e.index <= |c.rows| && |c.rows[e.index - 1]| > 0 && e.index >= NumCols(c.header, c.rows)
      && forall i :: 0 <= i < e.index - 1 && |c.rows[i]| > 0 ==> i + 1 < NumCols(c.header, c.rows)
  {
    PreparedOutOfRange(c);
  }

  lemma {:induction false} PreparedOutOfRange(c: Config)
    requires forall i :: 0 <= i < |c.rows| ==> RowOk(c.valueFormatters, c.rows[i])
    ensures var p := Prepared(c, NumCols(c.header, c.rows));
      p.Failure? <==> Overflows(c.header, c.rows)
    ensures var p := Prepared(c, NumCols(c.header, c.rows));
      p.Failure? ==>
      var e := p.error;
      && e.IndexOutOfRange? && e.length == NumCols(c.header, c.rows)
      && 1 <= e.index <= |c.rows| && |c.rows[e.index - 1]| > 0 && e.index >= NumCols(c.header, c.rows)
      && forall i :: 0 <= i < e.index - 1 && |c.rows[i]| > 0 ==> i + 1 < NumCols(c.header, c.rows)
  {
    var numCols := NumCols(c.header, c.rows);
    var formatted := PreparedIsMisfit(c, numCols);
    if numCols > 0 {
      MisfitIsOverflow(c.rows, formatted, numCols);
    }
  }

  /**
   * When every value formats, the steps up to the column loop fail
   * exactly when column 0 of the formatted rows misses the buffer, and
   * then with the index of the first row that misses it.
   */
  lemma PreparedIsMisfit(c: Config, bufLen: nat) returns (formatted: seq<seq<string>>)
    requires forall i :: 0 <= i < |c.rows| ==> RowOk(c.valueFormatters, c.rows[i])
    ensures |formatted| == |c.rows| + 1
    ensures forall i :: 1 <= i < |formatted| ==> |formatted[i]| == |c.rows[i - 1]|
    ensures var m := FirstMisfit(formatted, 0, bufLen, |formatted|);
      && (Prepared(c, bufLen).Failure? <==> NumCols(c.header, c.rows) > 0 && m.Some?)
      && (Prepared(c, bufLen).Failure? ==> Prepared(c, bufLen).error == IndexOutOfRange(m.value, bufLen))
  {
    var numCols := NumCols(c.header, c.rows);
    FormatRowsSuccess(c.valueFormatters, c.rows, |c.rows|);
    var cells := FormatRows(c.valueFormatters, c.rows, |c.rows|).value;
    var hdr := c.headerFormatter(0, c.header, Observed(cells, numCols));
    formatted := [hdr] + cells;
  }

  /**
   * The first row whose first cell misses the buffer is a body row
   * (the header sits at index 0), and there is one exactly when a
   * non-empty body row sits at or past the buffer's end.
   */
  lemma {:induction false} MisfitIsOverflow(rows: seq<seq<Value>>, formatted: seq<seq<string>>, bufLen: nat)
    requires bufLen > 0 && |formatted| == |rows| + 1
    requires forall i :: 1 <= i < |formatted| ==> |formatted[i]| == |rows[i - 1]|
    ensures var m := FirstMisfit(formatted, 0, bufLen, |formatted|);
      m.Some? <==> exists i :: 0 <= i < |rows| && |rows[i]| > 0 && i + 1 >= bufLen
    ensures var m := FirstMisfit(formatted, 0, bufLen, |formatted|);
      m.Some? ==>
      && 1 <= m.value <= |rows| && |rows[m.value - 1]| > 0 && m.value >= bufLen
      && forall i :: 0 <= i < m.value - 1 && |rows[i]| > 0 ==> i + 1 < bufLen
  {
    var m := FirstMisfit(formatted, 0, bufLen, |formatted|);
    if exists i :: 0 <= i < |rows| && |rows[i]| > 0 && i + 1 >= bufLen {
      var i :| 0 <= i < |rows| && |rows[i]| > 0 && i + 1 >= bufLen;
      assert Misfit(formatted, 0, bufLen, i + 1);
    }
    if m.Some? {
      var k := m.value;
      assert k >= 1;
      assert |rows[k - 1]| > 0;
      forall i | 0 <= i < k - 1 && |rows[i]| > 0
        ensures i + 1 < bufLen
      {
        assert !Misfit(formatted, 0, bufLen, i + 1);
      }
    }
  }

  /**
   * With one buffer cell per formatted row, the column loop never writes
   * outside the buffer: the table renders exactly when every value
   * formats, and otherwise reports the first failing cell.
   */
  lemma {:induction false} RowBufferNeverOverflows(c: Config)
    ensures RenderWithRowBuffer(c).Success? <==> forall i :: 0 <= i < |c.rows| ==> RowOk(c.valueFormatters, c.rows[i])
    ensures RenderWithRowBuffer(c).Failure? ==>
      RenderWithRowBuffer(c).error == FormatRows(c.valueFormatters, c.rows, |c.rows|).error
      && RenderWithRowBuffer(c).error.CellError?
  {
    FormatRowsSuccess(c.valueFormatters, c.rows, |c.rows|);
    var r := FormatRows(c.valueFormatters, c.rows, |c.rows|);
    if r.Success? {
      var cells := r.value;
      var numCols := NumCols(c.header, c.rows);
      var formatted := [c.headerFormatter(0, c.header, Observed(cells, numCols))] + cells;
      assert FirstMisfit(formatted, 0, |c.rows| + 1, |formatted|).None?;
    } else {
      FormatRowsFailure(c.valueFormatters, c.rows, |c.rows|);
    }
  }

  /* ---------------- assembly ---------------- */

  lemma {:induction false} CellsTextPrefix(b: Internal, row: seq<string>, i: int, numRows: int, n: nat)
    requires n <= |row|
    ensures CellsText(b, row, i, numRows, n) ==
      JoinWith(row[..n], b.columnSeparator) + (if 0 < n < |row| then b.columnSeparator else "")
  {
    if n > 0 {
      CellsTextPrefix(b, row, i, numRows, n - 1);
      assert row[..n][..n - 1] == row[..n - 1];
      JoinWithStep(row[..n], b.columnSeparator);
    }
  }

  /** With the `Internal` border a row's cells come out joined by the column separator. */
  lemma CellsJoined(b: Internal, row: seq<string>, i: int, numRows: int)
    ensures CellsText(b, row, i, numRows, |row|) == JoinWith(row, b.columnSeparator)
  {
    CellsTextPrefix(b, row, i, numRows, |row|);
    assert row[..|row|] == row;
  }

  /**
   * The output, row by row: the row's cells joined by the column
   * separator, the row separator, then the separator line after the row.
   */
  function JoinedRows(b: Internal, rows: seq<seq<string>>, widths: seq<nat>, numRows: nat, rowSep: string, n: nat): string
    requires n <= |rows|
  {
    if n == 0 then ""
    else
      JoinedRows(b, rows, widths, numRows, rowSep, n - 1)
      + (JoinWith(rows[n - 1], b.columnSeparator) + rowSep + b.HorizontalLine(n - 1, numRows, widths))
  }

  /**
   * The assembly loop with the `Internal` border writes nothing before the
   * header nor before each row, and each row as its cells joined by the
   * column separator, the row separator and the line after the row.
   */
  lemma {:induction false} AssembleIsJoined(b: Internal, rows: seq<seq<string>>, widths: seq<nat>, numCols: nat, numRows: nat, rowSep: string, n: nat)
    requires n <= |rows|
    ensures AssembleText(b, rows, widths, numCols, numRows, rowSep, n) == JoinedRows(b, rows, widths, numRows, rowSep, n)
  {
    if n == 0 {
      NoLineBeforeHeader(b, numRows, widths);
    } else {
      AssembleIsJoined(b, rows, widths, numCols, numRows, rowSep, n - 1);
      AssembleStep(b, rows, widths, numCols, numRows, rowSep, n);
    }
  }

  /** One more row on both sides: the assembly and the joined rows grow by the same text. */
  lemma AssembleStep(b: Internal, rows: seq<seq<string>>, widths: seq<nat>, numCols: nat, numRows: nat, rowSep: string, n: nat)
    requires 0 < n <= |rows|
    requires AssembleText(b, rows, widths, numCols, numRows, rowSep, n - 1) == JoinedRows(b, rows, widths, numRows, rowSep, n - 1)
    ensures AssembleText(b, rows, widths, numCols, numRows, rowSep, n) == JoinedRows(b, rows, widths, numRows, rowSep, n)
  {
    RowTextJoined(b, rows, widths, numCols, numRows, rowSep, n - 1);
  }

  /** No separator line is drawn above the header. */
  lemma NoLineBeforeHeader(b: Internal, numRows: nat, widths: seq<nat>)
    ensures b.HorizontalLine(-1, numRows, widths) == ""
  {
    assert !b.Draws(-1, numRows);
  }

  lemma RowTextJoined(b: Internal, rows: seq<seq<string>>, widths: seq<nat>, numCols: nat, numRows: nat, rowSep: string, i: nat)
    requires i < |rows|
    ensures RowText(b, rows, widths, numCols, numRows, rowSep, i)
      == JoinWith(rows[i], b.columnSeparator) + rowSep + b.HorizontalLine(i, numRows, widths)
  {
    assert b.Vertical(i, -1, numRows, numCols) == "";
    CellsJoined(b, rows[i], i, numRows);
  }

  /**
   * The rendered table is its formatted rows (header first), each joined
   * by the column separator and followed by the row separator; a separator
   * line follows the header and every body row but the last, and none
   * precedes the header.
   */
  lemma RenderedRows(c: Config)
    requires Render(c).Success?
    ensures var g := Laid(c, NumCols(c.header, c.rows)).value;
      Render(c).value == JoinedRows(c.border, g.rows, g.widths, |c.rows|, c.rowSeparator, |g.rows|)
    ensures var g := Laid(c, NumCols(c.header, c.rows)).value;
      forall i :: -1 <= i <= |c.rows| ==>
        (c.border.HorizontalLine(i, |c.rows|, g.widths) != [] <==> |c.border.rowSeparator| > 0 && 0 <= i < |c.rows|)
  {
    var g := Laid(c, NumCols(c.header, c.rows)).value;
    AssembleIsJoined(c.border, g.rows, g.widths, NumCols(c.header, c.rows), |c.rows|, c.rowSeparator, |g.rows|);
  }
}
