/**
 * The table `T` of table.go: its configuration fields, the builder
 * methods that update them in place, and `Format`, which renders the
 * table step by step into arrays and a string builder and is proved to
 * compute `Layout.Render` of the table's fields.
 */
module Table {
  import opened Wrappers
  import opened Text
  import opened Formatters
  import opened Border
  import opened Layout
  import LayoutProperties

  /* ---------------- the steps of Format ---------------- */

  /** The fold that counts the columns: the header's length, raised by every longer row. */
  method CountColumns(header: seq<string>, rows: seq<seq<Value>>) returns (n: nat)
    ensures n == NumCols(header, rows)
  {
    n := |header|;
    for i := 0 to |rows|
      invariant n == NumCols(header, rows[..i])
    {
      assert rows[..i + 1][..i] == rows[..i];
      n := Max(n, |rows[i]|);
    }
    assert rows[..|rows|] == rows;
  }

  /** The widths after one more row: each column's width raised to the row's cell, if it has one. */
  lemma ObservedStep(prefix: seq<seq<string>>, line: seq<string>, numCols: nat, k: nat)
    requires k < numCols
    ensures Observed(prefix + [line], numCols)[k] == Max(ColMax(prefix, k), CellWidth(line, k))
  {
    assert (prefix + [line])[..|prefix|] == prefix;
  }

  /**
   * The inner loop of the first pass over body row `i`: formats the
   * row's values left to right, raising the recorded column widths, and
   * stops at the first value whose formatter fails.
   */
  method FormatRowCells(registry: map<string, ValueFormatter>, row: seq<Value>, i: nat, colWidths: array<nat>,
                        ghost prefix: seq<seq<string>>)
    returns (r: Result<seq<string>, Error>)
    requires |row| <= colWidths.Length
    requires colWidths[..] == Observed(prefix, colWidths.Length)
    modifies colWidths
    ensures r == FormatRow(registry, row, i, |row|)
    ensures r.Success? ==> colWidths[..] == Observed(prefix + [r.value], colWidths.Length)
  {
    var line: seq<string> := [];
    for j := 0 to |row|
      invariant FormatRow(registry, row, i, j) == Success(line)
      invariant forall k :: 0 <= k < colWidths.Length ==>
        colWidths[k] == if k < j then Max(ColMax(prefix, k), |line[k]|) else ColMax(prefix, k)
    {
      var cell := FormatValue(registry, row[j]);
      if cell.Failure? {
        FormatRowFailureSticks(registry, row, i, j + 1, |row|);
        return Failure(CellError(i, j, cell.error));
      }
      line := line + [cell.value];
      colWidths[j] := Max(colWidths[j], |cell.value|);
    }
    forall k | 0 <= k < colWidths.Length
      ensures colWidths[k] == Observed(prefix + [line], colWidths.Length)[k]
    {
      ObservedStep(prefix, line, colWidths.Length, k);
    }
    r := Success(line);
  }

  /**
   * The first pass: every body row formatted into `formatted[i + 1]`,
   * the widest cell of every column recorded in `colWidths`; the first
   * failing value ends the pass.
   */
  method FormatBody(registry: map<string, ValueFormatter>, rows: seq<seq<Value>>, formatted: array<seq<string>>, colWidths: array<nat>)
    returns (err: Option<Error>)
    requires formatted.Length == |rows| + 1
    requires forall i :: 0 <= i < |rows| ==> |rows[i]| <= colWidths.Length
    requires forall k :: 0 <= k < colWidths.Length ==> colWidths[k] == 0
    modifies formatted, colWidths
    ensures err.None? <==> FormatRows(registry, rows, |rows|).Success?
    ensures err.Some? ==> err.value == FormatRows(registry, rows, |rows|).error
    ensures err.None? ==>
      formatted[1..] == FormatRows(registry, rows, |rows|).value
      && colWidths[..] == Observed(FormatRows(registry, rows, |rows|).value, colWidths.Length)
    ensures formatted[0] == old(formatted[0])
  {
    assert colWidths[..] == Observed([], colWidths.Length);
    for i := 0 to |rows|
      invariant FormatRows(registry, rows, i).Success?
      invariant formatted[1..i + 1] == FormatRows(registry, rows, i).value
      invariant colWidths[..] == Observed(FormatRows(registry, rows, i).value, colWidths.Length)
      invariant formatted[0] == old(formatted[0])
    {
      ghost var prefix := FormatRows(registry, rows, i).value;
      var line := FormatRowCells(registry, rows[i], i, colWidths, prefix);
      if line.Failure? {
        FormatRowsFailureSticks(registry, rows, i + 1, |rows|);
        return Some(line.error);
      }
      formatted[i + 1] := line.value;
      assert formatted[1..i + 2] == formatted[1..i + 1] + [line.value];
    }
    err := None;
  }

  /** The recorded widths merged with the formatted header's, position by position. */
  method MergeHeaderWidths(colWidths: array<nat>, hdr: seq<string>) returns (widths: array<nat>)
    ensures fresh(widths)
    ensures widths[..] == ZipMax(colWidths[..], hdr)
  {
    var n := Max(colWidths.Length, |hdr|);
    widths := new nat[n];
    for j := 0 to n
      invariant forall k :: 0 <= k < j ==> widths[k] == ZipMax(colWidths[..], hdr)[k]
    {
      var w := if j < colWidths.Length then colWidths[j] else 0;
      var h := if j < |hdr| then |hdr[j]| else 0;
      widths[j] := Max(w, h);
    }
  }

  /**
   * Copies cell `j` of every formatted row into a fresh buffer of
   * `bufLen` cells, row `i` to index `i`; reports the first row whose
   * cell has no place in the buffer.
   */
  method GatherColumn(formatted: array<seq<string>>, j: nat, bufLen: nat) returns (values: array<string>, misfit: Option<nat>)
    ensures fresh(values) && values.Length == bufLen
    ensures misfit == FirstMisfit(formatted[..], j, bufLen, formatted.Length)
    ensures misfit.None? ==> values[..] == ColumnValues(formatted[..], j, bufLen)
  {
    values := new string[bufLen](_ => "");
    for i := 0 to formatted.Length
      invariant FirstMisfit(formatted[..], j, bufLen, i).None?
      invariant forall k :: 0 <= k < bufLen ==>
        values[k] == if k < i && j < |formatted[k]| then formatted[k][j] else ""
    {
      if j < |formatted[i]| {
        if i >= bufLen {
          assert Misfit(formatted[..], j, bufLen, i);
          assert FirstMisfit(formatted[..], j, bufLen, formatted.Length) == Some(i) by {
            assert forall k :: 0 <= k < i ==> !Misfit(formatted[..], j, bufLen, k);
          }
          return values, Some(i);
        }
        values[i] := formatted[i][j];
      }
    }
    misfit := None;
  }

  /** The width fold over the buffer a column formatter returned. */
  method WidestCell(values: array<string>, w: nat) returns (m: nat)
    ensures m == Widest(values[..], w, values.Length)
  {
    m := w;
    for i := 0 to values.Length
      invariant m == Widest(values[..], w, i)
    {
      m := Max(m, |values[i]|);
    }
  }

  /** Writes the buffer back into cell `j` of every row that has one. */
  method ScatterColumn(formatted: array<seq<string>>, j: nat, values: array<string>)
    requires forall i :: 0 <= i < formatted.Length && j < |formatted[i]| ==> i < values.Length
    modifies formatted
    ensures formatted[..] == WriteBack(old(formatted[..]), j, values[..])
  {
    ghost var rows := formatted[..];
    for i := 0 to formatted.Length
      invariant forall k :: 0 <= k < i ==> formatted[k] == WriteBack(rows, j, values[..])[k]
      invariant forall k :: i <= k < formatted.Length ==> formatted[k] == rows[k]
    {
      if j < |formatted[i]| {
        formatted[i] := formatted[i][j := values[i]];
      }
    }
  }

  /** Rows of the same lengths fit the same buffer. */
  lemma FitsSameShape(rows: seq<seq<string>>, rows': seq<seq<string>>, bufLen: nat)
    requires |rows| == |rows'| && forall i :: 0 <= i < |rows| ==> |rows'[i]| == |rows[i]|
    requires FitsBuffer(rows, bufLen)
    ensures FitsBuffer(rows', bufLen)
  {
  }

  /** A buffer every row fits has no misfit in any column. */
  lemma FitsNoMisfit(rows: seq<seq<string>>, j: nat, bufLen: nat)
    requires FitsBuffer(rows, bufLen)
    ensures FirstMisfit(rows, j, bufLen, |rows|).None?
  {
    forall i | 0 <= i < |rows|
      ensures !Misfit(rows, j, bufLen, i)
    {
    }
  }

  /** The table's column formatter for column `j`, as the column loop applies it. */
  lemma FormattingApplies(cfs: seq<Option<ColumnFormatter>>, j: nat, v: seq<string>, w: nat)
    requires |v| > 0
    ensures Formatting(cfs)(j, v, w) == Applied(ColumnFormatterAt(cfs, j), j, v, w)
  {
  }

  /**
   * One iteration of the column loop, on the arrays. Gathering column `j`
   * stops at the first row that has no place in the buffer; that can only
   * happen in the first iteration, which is where every non-empty row is
   * first written.
   */
  method FormatColumn(formatted: array<seq<string>>, widths: array<nat>, cfs: seq<Option<ColumnFormatter>>, j: nat, bufLen: nat)
    returns (misfit: Option<nat>)
    requires j < widths.Length && bufLen > 0
    requires j > 0 ==> FitsBuffer(formatted[..], bufLen)
    modifies formatted, widths
    ensures misfit == FirstMisfit(old(formatted[..]), j, bufLen, formatted.Length)
    ensures misfit.Some? ==> j == 0 && formatted[..] == old(formatted[..]) && widths[..] == old(widths[..])
    ensures misfit.None? ==>
      && FitsBuffer(old(formatted[..]), bufLen)
      && Grid(formatted[..], widths[..]) == ColumnStep(Formatting(cfs), Grid(old(formatted[..]), old(widths[..])), j, bufLen)
  {
    if j > 0 {
      FitsNoMisfit(formatted[..], j, bufLen);
    }
    var values;
    values, misfit := GatherColumn(formatted, j, bufLen);
    if misfit.Some? {
      return;
    }
    if j == 0 {
      NoMisfitFits(formatted[..], bufLen);
    }
    FormatGathered(formatted, widths, cfs, j, bufLen, values);
  }

  /** The rest of an iteration: the formatter on the gathered buffer, the width, the write-back. */
  method FormatGathered(formatted: array<seq<string>>, widths: array<nat>, cfs: seq<Option<ColumnFormatter>>, j: nat, bufLen: nat,
                        values: array<string>)
    requires j < widths.Length && bufLen > 0
    requires FitsBuffer(formatted[..], bufLen)
    requires values[..] == ColumnValues(formatted[..], j, bufLen)
    modifies formatted, widths, values
    ensures Grid(formatted[..], widths[..]) == ColumnStep(Formatting(cfs), Grid(old(formatted[..]), old(widths[..])), j, bufLen)
  {
    ghost var rows0, widths0, v := formatted[..], widths[..], values[..];
    var f := ColumnFormatterAt(cfs, j);
    var out := ApplyColumnFormatter(f, j, values, widths[j]);
    FormattingApplies(cfs, j, v, widths0[j]);
    ghost var applied := out[..];
    assert applied == Formatting(cfs)(j, ColumnValues(rows0, j, bufLen), widths0[j]);
    var w := WidestCell(out, widths[j]);
    widths[j] := w;
    ScatterColumn(formatted, j, out);
    assert formatted[..] == WriteBack(rows0, j, applied);
    assert widths[..] == widths0[j := Widest(applied, widths0[j], |applied|)];
  }

  /**
   * The column loop: every column through its formatter, the buffer
   * having `bufLen` cells. The iteration for column 0 is written out
   * before the others: a row whose first cell has no place in the buffer
   * stops the loop there, and no later iteration can stop it.
   */
  method FormatColumns(formatted: array<seq<string>>, widths: array<nat>, cfs: seq<Option<ColumnFormatter>>, numCols: nat, bufLen: nat)
    returns (err: Option<Error>)
    requires numCols <= widths.Length && (numCols > 0 ==> bufLen > 0)
    modifies formatted, widths
    ensures var misfit := FirstMisfit(old(formatted[..]), 0, bufLen, formatted.Length);
      numCols > 0 && misfit.Some? ==> err == Some(IndexOutOfRange(misfit.value, bufLen))
    ensures var g := Grid(old(formatted[..]), old(widths[..]));
      !(numCols > 0 && FirstMisfit(g.rows, 0, bufLen, |g.rows|).Some?) ==>
      && err.None?
      && (numCols > 0 ==> FitsBuffer(g.rows, bufLen))
      && Grid(formatted[..], widths[..]) == Columns(Formatting(cfs), g, bufLen, numCols)
  {
    ghost var g := Grid(formatted[..], widths[..]);
    if numCols == 0 {
      return None;
    }
    var misfit := FormatColumn(formatted, widths, cfs, 0, bufLen);
    if misfit.Some? {
      return Some(IndexOutOfRange(misfit.value, bufLen));
    }
    for j := 1 to numCols
      invariant FitsBuffer(g.rows, bufLen)
      invariant Grid(formatted[..], widths[..]) == Columns(Formatting(cfs), g, bufLen, j)
    {
      FitsSameShape(g.rows, formatted[..], bufLen);
      misfit := FormatColumn(formatted, widths, cfs, j, bufLen);
    }
    err := None;
  }

  /** The cells of one row, each followed by the border's vertical piece. */
  method WriteCells(sb: Builder, b: Internal, row: seq<string>, i: int, numRows: int)
    modifies sb
    ensures sb.contents == old(sb.contents) + CellsText(b, row, i, numRows, |row|)
  {
    for j := 0 to |row|
      invariant sb.contents == old(sb.contents) + CellsText(b, row, i, numRows, j)
    {
      ghost var before := CellsText(b, row, i, numRows, j);
      sb.WriteString(row[j]);
      sb.WriteString(b.Vertical(i, j, numRows, |row|));
      Assoc(old(sb.contents), before, row[j]);
      Assoc(old(sb.contents), before + row[j], b.Vertical(i, j, numRows, |row|));
    }
  }

  /** One row of the output: leading piece, cells, row separator, separator line. */
  method WriteRow(sb: Builder, b: Internal, rows: seq<seq<string>>, widths: seq<nat>, numCols: nat, numRows: nat, rowSep: string, i: nat)
    requires i < |rows|
    modifies sb
    ensures sb.contents == old(sb.contents) + RowText(b, rows, widths, numCols, numRows, rowSep, i)
  {
    var lead := b.Vertical(i, -1, numRows, numCols);
    sb.WriteString(lead);
    WriteCells(sb, b, rows[i], i, numRows);
    ghost var cells := CellsText(b, rows[i], i, numRows, |rows[i]|);
    Assoc(old(sb.contents), lead, cells);
    sb.WriteString(rowSep);
    Assoc(old(sb.contents), lead + cells, rowSep);
    var line := b.Horizontal(i, numRows, widths);
    sb.WriteString(line);
    Assoc(old(sb.contents), lead + cells + rowSep, line);
  }

  /** The assembly loop: the top line, then every formatted row. */
  method Assemble(b: Internal, formatted: seq<seq<string>>, widths: seq<nat>, numCols: nat, numRows: nat, rowSep: string)
    returns (s: string)
    ensures s == AssembleText(b, formatted, widths, numCols, numRows, rowSep, |formatted|)
  {
    var sb := new Builder();
    var top := b.Horizontal(-1, numRows, widths);
    sb.WriteString(top);
    for i := 0 to |formatted|
      invariant sb.contents == AssembleText(b, formatted, widths, numCols, numRows, rowSep, i)
    {
      WriteRow(sb, b, formatted, widths, numCols, numRows, rowSep, i);
    }
    s := sb.contents;
  }

  /**
   * `Format` after the first pass: the header row formatter, the width
   * merge, the column loop with its buffer of one cell per column, and
   * the assembly.
   */
  method FormatAfterBody(c: Config, numCols: nat, formatted: array<seq<string>>, colWidths: array<nat>)
    returns (r: Result<string, Error>)
    requires numCols == NumCols(c.header, c.rows) && colWidths.Length == numCols
    requires FormatRows(c.valueFormatters, c.rows, |c.rows|).Success?
    requires formatted.Length == |c.rows| + 1 && formatted[0] == c.header
    requires formatted[1..] == FormatRows(c.valueFormatters, c.rows, |c.rows|).value
    requires colWidths[..] == Observed(FormatRows(c.valueFormatters, c.rows, |c.rows|).value, numCols)
    modifies formatted
    ensures r == Render(c)
  {
    ghost var cells := formatted[1..];
    var hdr := c.headerFormatter(0, formatted[0], colWidths[..]);
    formatted[0] := hdr;
    assert formatted[..] == [hdr] + cells;
    var widths := MergeHeaderWidths(colWidths, hdr);
    var err := FormatColumns(formatted, widths, c.columnFormatters, numCols, numCols);
    if err.Some? {
      return Failure(err.value);
    }
    var s := Assemble(c.border, formatted[..], widths[..], numCols, |c.rows|, c.rowSeparator);
    r := Success(s);
  }

  /* ---------------- the table ---------------- */

  class T {
    var header: seq<string>
    var rows: seq<seq<Value>>
    var border: Internal
    var rowSeparator: string
    var valueFormatters: map<string, ValueFormatter>
    var headerFormatter: RowFormatter
    var columnFormatters: seq<Option<ColumnFormatter>>

    /** The fields `Format` reads. */
    function Snapshot(): (c: Config)
      reads this
    {
      Config(header, rows, border, rowSeparator, valueFormatters, headerFormatter, columnFormatters)
    }

    /**
     * `New`: no header and no rows, a blank between columns, a newline
     * after every row, no value formatters, the header left as it is and
     * no column formatter set.
     */
    constructor New()
      ensures Snapshot() == Config([], [], DefaultBorder, "\n", map[], NoopRowFormatter, [])
    {
      header := [];
      rows := [];
      border := DefaultBorder;
      rowSeparator := "\n";
      valueFormatters := map[];
      headerFormatter := NoopRowFormatter;
      columnFormatters := [];
    }

    /** Registers `f` for the kind of `sample`, replacing an earlier one. */
    method WithValueFormatter(sample: Value, f: ValueFormatter) returns (t: T)
      modifies this
      ensures t == this
      ensures Snapshot() == old(Snapshot()).(valueFormatters := old(valueFormatters)[sample.kind := f])
    {
      valueFormatters := valueFormatters[sample.kind := f];
      t := this;
    }

    method WithHeaderFormatter(f: RowFormatter) returns (t: T)
      modifies this
      ensures t == this
      ensures Snapshot() == old(Snapshot()).(headerFormatter := f)
    {
      headerFormatter := f;
      t := this;
    }

    /** Sets column `col`'s formatter, growing the list with unset entries when it is shorter. */
    method WithColumnFormatter(col: nat, f: ColumnFormatter) returns (t: T)
      modifies this
      ensures t == this
      ensures Snapshot() == old(Snapshot()).(columnFormatters := WithColumn(old(columnFormatters), col, f))
    {
      var cfs := columnFormatters;
      if col >= |cfs| {
        cfs := cfs + seq(col + 1 - |cfs|, _ => None);
      }
      columnFormatters := cfs[col := Some(f)];
      t := this;
    }

    method WithFirstColumnFormatter(f: ColumnFormatter) returns (t: T)
      modifies this
      ensures t == this
      ensures Snapshot() == old(Snapshot()).(columnFormatters := WithColumn(old(columnFormatters), 0, f))
    {
      t := WithColumnFormatter(0, f);
    }

    /** Replaces the whole list of column formatters. */
    method WithColumnFormatters(fs: seq<Option<ColumnFormatter>>) returns (t: T)
      modifies this
      ensures t == this
      ensures Snapshot() == old(Snapshot()).(columnFormatters := fs)
    {
      columnFormatters := fs;
      t := this;
    }

    method AddRow(values: seq<Value>) returns (t: T)
      modifies this
      ensures t == this
      ensures Snapshot() == old(Snapshot()).(rows := old(rows) + [values])
    {
      rows := rows + [values];
      t := this;
    }

    /**
     * `Format`: the rendered table, or the first value formatter's
     * failure, or the index at which the column loop's buffer (one cell
     * per column) overflows.
     */
    method Format() returns (r: Result<string, Error>)
      ensures r == Render(Snapshot())
    {
      var numCols := CountColumns(header, rows);
      var formatted := new seq<string>[|rows| + 1];
      formatted[0] := header;
      var colWidths := new nat[numCols](_ => 0);
      var err := FormatBody(valueFormatters, rows, formatted, colWidths);
      if err.Some? {
        return Failure(err.value);
      }
      r := FormatAfterBody(Snapshot(), numCols, formatted, colWidths);
    }

    /** `String`: the rendered table, or the error wrapped in `<error: …>`; an overflow panics. */
    function String(): (s: string)
      reads this
      requires !(Render(Snapshot()).Failure? && Render(Snapshot()).error.IndexOutOfRange?)
      ensures Render(Snapshot()).Success? ==> s == Render(Snapshot()).value
      ensures Render(Snapshot()).Failure? ==> s == "<error: " + ErrorMessage(Render(Snapshot()).error) + ">"
    {
      match Render(Snapshot())
      case Success(text) => text
      case Failure(e) => "<error: " + ErrorMessage(e) + ">"
    }
  }

  /**
   * When some value formatter fails, `String` shows the cell error
   * `Format` reports (the first failing cell in row-major order, by
   * `RenderReportsFirstFailure`): its body-row and column index and the
   * formatter's reason.
   */
  lemma StringShowsFirstFailure(t: T)
    requires exists i, j :: 0 <= i < |t.rows| && 0 <= j < |t.rows[i]| && !CellOk(t.valueFormatters, t.rows, i, j)
    ensures Render(t.Snapshot()).Failure? && Render(t.Snapshot()).error.CellError?
    ensures var e := Render(t.Snapshot()).error;
      t.String() == "<error: could not format cell " + NatToString(e.row) + ", " + NatToString(e.col)
        + " (row, col), reason: " + e.reason + ">"
  {
    LayoutProperties.RenderReportsFirstFailure(t.Snapshot());
    StringOfCellError(t);
  }

  /** A cell error shown by `String`. */
  lemma StringOfCellError(t: T)
    requires Render(t.Snapshot()).Failure? && Render(t.Snapshot()).error.CellError?
    ensures var e := Render(t.Snapshot()).error;
      t.String() == "<error: could not format cell " + NatToString(e.row) + ", " + NatToString(e.col)
        + " (row, col), reason: " + e.reason + ">"
  {
    var e := Render(t.Snapshot()).error;
    CellErrorShown(e.row, e.col, e.reason);
  }

  /** The text `String` makes of a cell error. */
  lemma CellErrorShown(row: nat, col: nat, reason: string)
    ensures "<error: " + ErrorMessage(CellError(row, col, reason)) + ">" ==
      "<error: could not format cell " + NatToString(row) + ", " + NatToString(col) + " (row, col), reason: " + reason + ">"
  {
    Prefixed("<error: ", "could not format cell ", NatToString(row), ", ", NatToString(col), " (row, col), reason: ", reason);
    assert "<error: " + "could not format cell " == "<error: could not format cell ";
  }

  lemma Prefixed(p: string, a: string, b: string, c: string, d: string, e: string, f: string)
    ensures p + (a + b + c + d + e + f) == p + a + b + c + d + e + f
  {
    Assoc(p, a + b + c + d + e, f);
    Assoc(p, a + b + c + d, e);
    Assoc(p, a + b + c, d);
    Assoc(p, a + b, c);
    Assoc(p, a, b);
  }
}
