/**
 * What `T.Format` (table.go) computes, stated as functions over values:
 * the column count, the first pass through the value formatters, the
 * observed column widths, the header row formatter and the width merge,
 * the per-column formatters with their width recompute, and the final
 * assembly of cells and border pieces. The imperative `T.Format` in
 * module `Table` is proved to compute `Render`.
 */
module Layout {
  import opened Wrappers
  import opened Text
  import opened Formatters
  import opened Border

  /**
   * Why `Format` gives no table: a value formatter failed on a body cell
   * (tagged with its body-row and column index, the header not counted),
   * or a write to the per-column buffer fell outside it, which is a
   * run-time panic in the source.
   */
  datatype Error =
    | CellError(row: nat, col: nat, reason: string)
    | IndexOutOfRange(index: nat, length: nat)

  function ErrorMessage(e: Error): string {
    match e
    case CellError(row, col, reason) =>
      "could not format cell " + NatToString(row) + ", " + NatToString(col) + " (row, col), reason: " + reason
    case IndexOutOfRange(index, length) =>
      "runtime error: index out of range [" + NatToString(index) + "] with length " + NatToString(length)
  }

  /** The fields of a table `T` that `Format` reads. */
  datatype Config = Config(
    header: seq<string>,
    rows: seq<seq<Value>>,
    border: Internal,
    rowSeparator: string,
    valueFormatters: map<string, ValueFormatter>,
    headerFormatter: RowFormatter,
    columnFormatters: seq<Option<ColumnFormatter>>)

  /** The border `New` installs: a blank between columns and no separator lines. */
  const DefaultBorder := Internal(" ", "", "")

  /* ---------------- value formatting ---------------- */

  /** `T.formatValue`: the formatter registered for the value's kind, otherwise the default one. */
  function FormatValue(registry: map<string, ValueFormatter>, v: Value): (r: Result<string, string>)
    ensures v.kind in registry ==> r == registry[v.kind](v)
    ensures v.kind !in registry ==> r == Success(v.text)
  {
    if v.kind in registry then registry[v.kind](v) else DefaultValueFormatter(v)
  }

  /** Registering a formatter for one kind changes how values of that kind, and only those, are formatted. */
  lemma RegisterOnlyAffectsKind(registry: map<string, ValueFormatter>, kind: string, f: ValueFormatter, v: Value)
    ensures v.kind == kind ==> FormatValue(registry[kind := f], v) == f(v)
    ensures v.kind != kind ==> FormatValue(registry[kind := f], v) == FormatValue(registry, v)
  {
  }

  /* ---------------- column count ---------------- */

  /** The number of columns: the longest of the header and every row. */
  function NumCols(header: seq<string>, rows: seq<seq<Value>>): (n: nat)
    ensures n >= |header|
    ensures forall i :: 0 <= i < |rows| ==> |rows[i]| <= n
    ensures n == |header| || exists i :: 0 <= i < |rows| && n == |rows[i]|
  {
    if rows == [] then |header|
    else
      var prefix := rows[..|rows| - 1];
      var n := Max(NumCols(header, prefix), |rows[|rows| - 1]|);
      assert forall i :: 0 <= i < |prefix| ==> prefix[i] == rows[i];
      n
  }

  /* ---------------- first pass: value formatters ---------------- */

  /** The first `n` values of body row `i`; the first failure is tagged with `(i, column)`. */
  function FormatRow(registry: map<string, ValueFormatter>, row: seq<Value>, i: nat, n: nat): (r: Result<seq<string>, Error>)
    requires n <= |row|
    ensures r.Success? ==> |r.value| == n
  {
    if n == 0 then Success([])
    else
      match FormatRow(registry, row, i, n - 1)
      case Failure(e) => Failure(e)
      case Success(prefix) =>
        match FormatValue(registry, row[n - 1])
        case Failure(reason) => Failure(CellError(i, n - 1, reason))
        case Success(s) => Success(prefix + [s])
  }

  /** The first `m` body rows, row by row and left to right. */
  function FormatRows(registry: map<string, ValueFormatter>, rows: seq<seq<Value>>, m: nat): (r: Result<seq<seq<string>>, Error>)
    requires m <= |rows|
    ensures r.Success? ==> |r.value| == m
  {
    if m == 0 then Success([])
    else
      match FormatRows(registry, rows, m - 1)
      case Failure(e) => Failure(e)
      case Success(prefix) =>
        match FormatRow(registry, rows[m - 1], m - 1, |rows[m - 1]|)
        case Failure(e) => Failure(e)
        case Success(cells) => Success(prefix + [cells])
  }

  predicate CellOk(registry: map<string, ValueFormatter>, rows: seq<seq<Value>>, i: nat, j: nat)
    requires i < |rows| && j < |rows[i]|
  {
    FormatValue(registry, rows[i][j]).Success?
  }

  /** Cell `(i', j')` comes before `(i, j)` in row-major order. */
  predicate Before(i': nat, j': nat, i: nat, j: nat) {
    i' < i || (i' == i && j' < j)
  }

  lemma {:induction false} FormatRowSuccess(registry: map<string, ValueFormatter>, row: seq<Value>, i: nat, n: nat)
    requires n <= |row|
    ensures FormatRow(registry, row, i, n).Success? <==>
      forall j :: 0 <= j < n ==> FormatValue(registry, row[j]).Success?
    ensures FormatRow(registry, row, i, n).Success? ==>
      forall j :: 0 <= j < n ==> FormatRow(registry, row, i, n).value[j] == FormatValue(registry, row[j]).value
  {
    if n > 0 {
      FormatRowSuccess(registry, row, i, n - 1);
    }
  }

  lemma {:induction false} FormatRowFailure(registry: map<string, ValueFormatter>, row: seq<Value>, i: nat, n: nat)
    requires n <= |row|
    requires FormatRow(registry, row, i, n).Failure?
    ensures var e := FormatRow(registry, row, i, n).error;
      e.CellError? && e.row == i && e.col < n
      && FormatValue(registry, row[e.col]) == Failure(e.reason)
      && forall j :: 0 <= j < e.col ==> FormatValue(registry, row[j]).Success?
  {
    if FormatRow(registry, row, i, n - 1).Failure? {
      FormatRowFailure(registry, row, i, n - 1);
    } else {
      FormatRowSuccess(registry, row, i, n - 1);
    }
  }

  /** Every value of the row formats. */
  predicate RowOk(registry: map<string, ValueFormatter>, row: seq<Value>) {
    forall j :: 0 <= j < |row| ==> FormatValue(registry, row[j]).Success?
  }

  /** The texts of a row whose values all format. */
  function RowTexts(registry: map<string, ValueFormatter>, row: seq<Value>): (r: seq<string>)
    requires RowOk(registry, row)
    ensures |r| == |row|
  {
    seq(|row|, j requires 0 <= j < |row| => FormatValue(registry, row[j]).value)
  }

  /**
   * The first pass succeeds exactly when every value formatter succeeds,
   * and then holds, row by row, the texts of the values.
   */
  lemma {:induction false} FormatRowsSuccess(registry: map<string, ValueFormatter>, rows: seq<seq<Value>>, m: nat)
    requires m <= |rows|
    ensures FormatRows(registry, rows, m).Success? <==> forall i :: 0 <= i < m ==> RowOk(registry, rows[i])
    ensures FormatRows(registry, rows, m).Success? ==>
      forall i :: 0 <= i < m ==> RowOk(registry, rows[i]) && FormatRows(registry, rows, m).value[i] == RowTexts(registry, rows[i])
  {
    if m > 0 {
      FormatRowsSuccess(registry, rows, m - 1);
      var row := rows[m - 1];
      FormatRowSuccess(registry, row, m - 1, |row|);
      var r := FormatRows(registry, rows, m);
      var p := FormatRows(registry, rows, m - 1);
      var last := FormatRow(registry, row, m - 1, |row|);
      if r.Success? {
        assert p.Success? && last.Success?;
        assert r.value == p.value + [last.value];
        assert last.value == RowTexts(registry, row);
      }
    }
  }

  /**
   * When the first pass fails, the error names the first failing cell in
   * row-major order, with the formatter's own reason.
   */
  lemma {:induction false} FormatRowsFailure(registry: map<string, ValueFormatter>, rows: seq<seq<Value>>, m: nat)
    requires m <= |rows|
    requires FormatRows(registry, rows, m).Failure?
    ensures var e := FormatRows(registry, rows, m).error;
      e.CellError? && e.row < m && e.col < |rows[e.row]|
      && FormatValue(registry, rows[e.row][e.col]) == Failure(e.reason)
      && forall i, j :: 0 <= i < m && 0 <= j < |rows[i]| && Before(i, j, e.row, e.col) ==> CellOk(registry, rows, i, j)
  {
    if FormatRows(registry, rows, m - 1).Failure? {
      FormatRowsFailure(registry, rows, m - 1);
    } else {
      FormatRowsSuccess(registry, rows, m - 1);
      FormatRowFailure(registry, rows[m - 1], m - 1, |rows[m - 1]|);
    }
  }

  /** A failure among the first cells of a row is the failure of the whole row. */
  lemma {:induction false} FormatRowFailureSticks(registry: map<string, ValueFormatter>, row: seq<Value>, i: nat, n: nat, n': nat)
    requires n <= n' <= |row|
    requires FormatRow(registry, row, i, n).Failure?
    ensures FormatRow(registry, row, i, n') == FormatRow(registry, row, i, n)
    decreases n' - n
  {
    if n < n' {
      FormatRowFailureSticks(registry, row, i, n, n' - 1);
    }
  }

  /** A failure in the first rows is the failure of the whole pass. */
  lemma {:induction false} FormatRowsFailureSticks(registry: map<string, ValueFormatter>, rows: seq<seq<Value>>, m: nat, m': nat)
    requires m <= m' <= |rows|
    requires FormatRows(registry, rows, m).Failure?
    ensures FormatRows(registry, rows, m') == FormatRows(registry, rows, m)
    decreases m' - m
  {
    if m < m' {
      FormatRowsFailureSticks(registry, rows, m, m' - 1);
    }
  }

  /* ---------------- observed widths ---------------- */

  /** Width of cell `j` of a row; a cell the row does not have counts as 0. */
  function CellWidth(row: seq<string>, j: nat): nat {
    if j < |row| then |row[j]| else 0
  }

  /** The widest cell of column `j` among the given rows, 0 when there is none. */
  function ColMax(cells: seq<seq<string>>, j: nat): nat {
    if cells == [] then 0 else Max(ColMax(cells[..|cells| - 1], j), CellWidth(cells[|cells| - 1], j))
  }

  lemma {:induction false} ColMaxIsMax(cells: seq<seq<string>>, j: nat)
    ensures forall i :: 0 <= i < |cells| ==> CellWidth(cells[i], j) <= ColMax(cells, j)
    ensures ColMax(cells, j) == 0 || exists i :: 0 <= i < |cells| && ColMax(cells, j) == CellWidth(cells[i], j)
  {
    if cells != [] {
      var prefix := cells[..|cells| - 1];
      ColMaxIsMax(prefix, j);
      assert forall i :: 0 <= i < |prefix| ==> prefix[i] == cells[i];
    }
  }

  /** The widths the first pass records: one per column, the widest body cell. */
  function Observed(cells: seq<seq<string>>, numCols: nat): (w: seq<nat>)
    ensures |w| == numCols
  {
    seq(numCols, j requires 0 <= j < numCols => ColMax(cells, j))
  }

  /**
   * The merge after the header row formatter: as many widths as the longer
   * of the two, each the larger of the recorded width and the header
   * cell's width, a missing entry counting as 0.
   */
  function ZipMax(widths: seq<nat>, hdr: seq<string>): (r: seq<nat>)
    ensures |r| == Max(|widths|, |hdr|)
  {
    seq(Max(|widths|, |hdr|), j requires 0 <= j < Max(|widths|, |hdr|) =>
      Max(if j < |widths| then widths[j] else 0, CellWidth(hdr, j)))
  }

  /**
   * After the header is formatted, the width of column `j` is the widest
   * of the body cells of that column and the header cell: at least each
   * of them, and equal to one of them (or 0).
   */
  lemma {:induction false} WidthAfterHeader(cells: seq<seq<string>>, numCols: nat, hdr: seq<string>, j: nat)
    requires forall i :: 0 <= i < |cells| ==> |cells[i]| <= numCols
    requires j < Max(numCols, |hdr|)
    ensures var w := ZipMax(Observed(cells, numCols), hdr)[j];
      w >= CellWidth(hdr, j)
      && (forall i :: 0 <= i < |cells| ==> w >= CellWidth(cells[i], j))
      && (w == 0 || w == CellWidth(hdr, j) || exists i :: 0 <= i < |cells| && w == CellWidth(cells[i], j))
  {
    ColMaxIsMax(cells, j);
  }

  /* ---------------- buffer bounds ---------------- */

  /** Writing cell `j` of row `i` into a buffer of `bufLen` cells is out of bounds. */
  predicate Misfit(rows: seq<seq<string>>, j: nat, bufLen: nat, i: nat)
    requires i < |rows|
  {
    j < |rows[i]| && i >= bufLen
  }

  /** The first row among the first `n` whose cell `j` does not fit the buffer. */
  function FirstMisfit(rows: seq<seq<string>>, j: nat, bufLen: nat, n: nat): (r: Option<nat>)
    requires n <= |rows|
    ensures r.None? <==> forall i :: 0 <= i < n ==> !Misfit(rows, j, bufLen, i)
    ensures r.Some? ==>
      && r.value < n && Misfit(rows, j, bufLen, r.value)
      && forall i :: 0 <= i < r.value ==> !Misfit(rows, j, bufLen, i)
  {
    if n == 0 then None
    else
      var earlier := FirstMisfit(rows, j, bufLen, n - 1);
      if earlier.Some? then earlier
      else if Misfit(rows, j, bufLen, n - 1) then Some(n - 1)
      else
        assert forall i :: 0 <= i < n ==> !Misfit(rows, j, bufLen, i) by {
          assert forall i :: 0 <= i < n - 1 ==> !Misfit(rows, j, bufLen, i);
        }
        None
  }

  /** No misfit in the first column means every non-empty row has a place in the buffer. */
  lemma NoMisfitFits(rows: seq<seq<string>>, bufLen: nat)
    requires FirstMisfit(rows, 0, bufLen, |rows|).None?
    ensures FitsBuffer(rows, bufLen)
  {
    forall i | 0 <= i < |rows| && |rows[i]| > 0
      ensures i < bufLen
    {
      assert !Misfit(rows, 0, bufLen, i);
    }
  }

  /** Every row's cells fit a buffer of `bufLen` cells. */
  predicate FitsBuffer(rows: seq<seq<string>>, bufLen: nat) {
    forall i :: 0 <= i < |rows| && |rows[i]| > 0 ==> i < bufLen
  }

  /**
   * Some non-empty body row sits at an index the source's per-column
   * buffer (one cell per column) does not have: body row `i` is written
   * at index `i + 1`, after the header.
   */
  predicate Overflows(header: seq<string>, rows: seq<seq<Value>>) {
    var numCols := NumCols(header, rows);
    numCols > 0 && exists i :: 0 <= i < |rows| && |rows[i]| > 0 && i + 1 >= numCols
  }

  /* ---------------- per-column formatters ---------------- */

  /** The rows being laid out and the current column widths. */
  datatype Grid = Grid(rows: seq<seq<string>>, widths: seq<nat>)

  /** The explicit formatter of column `j` when there is one, otherwise right alignment. */
  function ColumnFormatterAt(cfs: seq<Option<ColumnFormatter>>, j: nat): (f: ColumnFormatter)
    ensures j < |cfs| && cfs[j].Some? ==> f == cfs[j].value
    ensures !(j < |cfs| && cfs[j].Some?) ==> f == AlignRightFormatter
  {
    if j < |cfs| && cfs[j].Some? then cfs[j].value else AlignRightFormatter
  }

  /**
   * The list after `WithColumnFormatter(col, f)`: grown to `col + 1`
   * entries when shorter, the new entries unset, and entry `col` set.
   */
  function WithColumn(cfs: seq<Option<ColumnFormatter>>, col: nat, f: ColumnFormatter): (r: seq<Option<ColumnFormatter>>)
    ensures |r| == Max(|cfs|, col + 1)
    ensures r[col] == Some(f)
    ensures forall k :: 0 <= k < |r| && k != col ==> r[k] == (if k < |cfs| then cfs[k] else None)
  {
    var grown := if col >= |cfs| then cfs + seq(col + 1 - |cfs|, _ => None) else cfs;
    grown[col := Some(f)]
  }

  /** Setting column `col`'s formatter decides that column and leaves every other column's choice as it was. */
  lemma WithColumnChoice(cfs: seq<Option<ColumnFormatter>>, col: nat, f: ColumnFormatter, j: nat)
    ensures ColumnFormatterAt(WithColumn(cfs, col, f), j) ==
      if j == col then f else ColumnFormatterAt(cfs, j)
  {
  }

  /** The buffer handed to a column formatter: cell `j` of each row, "" where a row has none. */
  function ColumnValues(rows: seq<seq<string>>, j: nat, bufLen: nat): (v: seq<string>)
    ensures |v| == bufLen
  {
    seq(bufLen, i requires 0 <= i < bufLen => if i < |rows| && j < |rows[i]| then rows[i][j] else "")
  }

  /** Cell `j` of every row that has one replaced by the buffer's entry for that row; short rows stay short. */
  function WriteBack(rows: seq<seq<string>>, j: nat, values: seq<string>): (r: seq<seq<string>>)
    requires forall i :: 0 <= i < |rows| && j < |rows[i]| ==> i < |values|
    ensures |r| == |rows|
    ensures forall i :: 0 <= i < |rows| ==> |r[i]| == |rows[i]|
  {
    seq(|rows|, i requires 0 <= i < |rows| => if j < |rows[i]| then rows[i][j := values[i]] else rows[i])
  }

  /** The width fold after a column formatter: the previous width and every returned cell. */
  function Widest(cells: seq<string>, w: nat, n: nat): nat
    requires n <= |cells|
  {
    if n == 0 then w else Max(Widest(cells, w, n - 1), |cells[n - 1]|)
  }

  lemma {:induction false} WidestIsMax(cells: seq<string>, w: nat, n: nat)
    requires n <= |cells|
    ensures Widest(cells, w, n) >= w
    ensures forall i :: 0 <= i < n ==> |cells[i]| <= Widest(cells, w, n)
    ensures Widest(cells, w, n) == w || exists i :: 0 <= i < n && Widest(cells, w, n) == |cells[i]|
  {
    if n > 0 {
      WidestIsMax(cells, w, n - 1);
    }
  }

  /**
   * A column formatter as the column loop calls it: column index, buffer
   * and width in, cells out.
   */
  type ColumnFn = (nat, seq<string>, nat) --> seq<string>

  /** Defined on every non-empty buffer, and gives back as many cells as it gets. */
  ghost predicate KeepsShape(apply: ColumnFn) {
    forall j, v, w :: |v| > 0 ==> apply.requires(j, v, w) && |apply(j, v, w)| == |v|
  }

  /** The column formatters of a table: column `j`'s explicit one, else right alignment. */
  function Formatting(cfs: seq<Option<ColumnFormatter>>): (apply: ColumnFn)
    ensures KeepsShape(apply)
  {
    (j: nat, v: seq<string>, w: nat) requires |v| > 0 => Applied(ColumnFormatterAt(cfs, j), j, v, w)
  }

  /** What the column loop does for column `j`. */
  function ColumnStep(apply: ColumnFn, g: Grid, j: nat, bufLen: nat): (r: Grid)
    requires KeepsShape(apply)
    requires j < |g.widths| && bufLen > 0 && FitsBuffer(g.rows, bufLen)
    ensures |r.rows| == |g.rows| && |r.widths| == |g.widths|
    ensures forall i :: 0 <= i < |g.rows| ==> |r.rows[i]| == |g.rows[i]|
  {
    var out := apply(j, ColumnValues(g.rows, j, bufLen), g.widths[j]);
    Grid(WriteBack(g.rows, j, out), g.widths[j := Widest(out, g.widths[j], |out|)])
  }

  /** The first `k` iterations of the column loop. */
  function Columns(apply: ColumnFn, g: Grid, bufLen: nat, k: nat): (r: Grid)
    requires KeepsShape(apply)
    requires k <= |g.widths|
    requires k > 0 ==> bufLen > 0 && FitsBuffer(g.rows, bufLen)
    ensures |r.rows| == |g.rows| && |r.widths| == |g.widths|
    ensures forall i :: 0 <= i < |g.rows| ==> |r.rows[i]| == |g.rows[i]|
  {
    if k == 0 then g else ColumnStep(apply, Columns(apply, g, bufLen, k - 1), k - 1, bufLen)
  }

  /* ---------------- assembly ---------------- */

  /** The first `n` cells of row `i`, each followed by the border's vertical piece. */
  function CellsText(b: Internal, row: seq<string>, i: int, numRows: int, n: nat): string
    requires n <= |row|
  {
    if n == 0 then "" else CellsText(b, row, i, numRows, n - 1) + row[n - 1] + b.Vertical(i, n - 1, numRows, |row|)
  }

  /** Row `i` of the output, header = 0: leading piece, cells, row separator, separator line. */
  function RowText(b: Internal, rows: seq<seq<string>>, widths: seq<nat>, numCols: nat, numRows: nat, rowSep: string, i: nat): string
    requires i < |rows|
  {
    b.Vertical(i, -1, numRows, numCols) + CellsText(b, rows[i], i, numRows, |rows[i]|) + rowSep
      + b.HorizontalLine(i, numRows, widths)
  }

  /** The top line followed by the first `n` rows. */
  function AssembleText(b: Internal, rows: seq<seq<string>>, widths: seq<nat>, numCols: nat, numRows: nat, rowSep: string, n: nat): string
    requires n <= |rows|
  {
    if n == 0 then b.HorizontalLine(-1, numRows, widths)
    else AssembleText(b, rows, widths, numCols, numRows, rowSep, n - 1) + RowText(b, rows, widths, numCols, numRows, rowSep, n - 1)
  }

  /* ---------------- the whole pipeline ---------------- */

  /**
   * Everything up to the column loop: the formatted rows (header first)
   * and the merged widths, or the first cell error, or the index at which
   * the first column's write into a buffer of `bufLen` cells overflows.
   * The source's buffer has `NumCols` cells.
   */
  function Prepared(c: Config, bufLen: nat): (r: Result<Grid, Error>)
    ensures r.Success? ==> |r.value.rows| == |c.rows| + 1 && |r.value.widths| >= NumCols(c.header, c.rows)
    ensures r.Success? && NumCols(c.header, c.rows) > 0 ==> FitsBuffer(r.value.rows, bufLen)
  {
    var numCols := NumCols(c.header, c.rows);
    match FormatRows(c.valueFormatters, c.rows, |c.rows|)
    case Failure(e) => Failure(e)
    case Success(cells) =>
      var observed := Observed(cells, numCols);
      var hdr := c.headerFormatter(0, c.header, observed);
      var formatted := [hdr] + cells;
      var misfit := FirstMisfit(formatted, 0, bufLen, |formatted|);
      if numCols > 0 && misfit.Some? then Failure(IndexOutOfRange(misfit.value, bufLen))
      else
        assert misfit.None? ==> FitsBuffer(formatted, bufLen) by {
          if misfit.None? {
            NoMisfitFits(formatted, bufLen);
          }
        }
        Success(Grid(formatted, ZipMax(observed, hdr)))
  }

  /** The formatted rows and the final column widths. */
  function Laid(c: Config, bufLen: nat): (r: Result<Grid, Error>)
    requires NumCols(c.header, c.rows) > 0 ==> bufLen > 0
    ensures r.Success? ==> |r.value.rows| == |c.rows| + 1 && |r.value.widths| >= NumCols(c.header, c.rows)
    ensures r.Failure? <==> Prepared(c, bufLen).Failure?
    ensures r.Failure? ==> r.error == Prepared(c, bufLen).error
  {
    match Prepared(c, bufLen)
    case Failure(e) => Failure(e)
    case Success(g) =>
      var numCols := NumCols(c.header, c.rows);
      if numCols == 0 then Success(g)
      else Success(Columns(Formatting(c.columnFormatters), g, bufLen, numCols))
  }

  /** The text the pipeline returns with a per-column buffer of `bufLen` cells, or its error. */
  function RenderWith(c: Config, bufLen: nat): (r: Result<string, Error>)
    requires NumCols(c.header, c.rows) > 0 ==> bufLen > 0
    ensures r.Success? <==> Laid(c, bufLen).Success?
    ensures r.Failure? ==> r.error == Prepared(c, bufLen).error
  {
    match Laid(c, bufLen)
    case Failure(e) => Failure(e)
    case Success(g) =>
      Success(AssembleText(c.border, g.rows, g.widths, NumCols(c.header, c.rows), |c.rows|, c.rowSeparator, |g.rows|))
  }

  /** `T.Format` as written: the per-column buffer has one cell per column. */
  function Render(c: Config): (r: Result<string, Error>)
    ensures r.Success? <==> Prepared(c, NumCols(c.header, c.rows)).Success?
    ensures r.Failure? ==> r.error == Prepared(c, NumCols(c.header, c.rows)).error
  {
    RenderWith(c, NumCols(c.header, c.rows))
  }

  /**
   * `T.Format` with a per-column buffer holding one cell per formatted row
   * (header included), which is what the column loop indexes it by.
   */
  function RenderWithRowBuffer(c: Config): (r: Result<string, Error>)
    ensures r.Success? <==> Prepared(c, |c.rows| + 1).Success?
    ensures r.Failure? ==> r.error == Prepared(c, |c.rows| + 1).error
  {
    RenderWith(c, |c.rows| + 1)
  }
}
