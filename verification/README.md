# table — a verified model of the layout engine

This project models the layout engine of `table`, a Go library that renders
rows of values as aligned plain-text tables, and proves properties of it in
Dafny.

A table `T` has a header (strings) and body rows (arbitrary values). It also
has value formatters keyed by the value's type name, a header row formatter,
per-column formatters, an `Internal` border and a row separator. `T.Format`
works in these steps:

1. It counts the columns: the longest of the header and the rows.
2. It runs every body value through its value formatter. The first failure
   ends the pass with an error tagged with the (body-row, column) index.
3. It records the widest cell of every column.
4. It runs the header through the header formatter and merges the header's
   widths into the recorded ones.
5. It calls every column's formatter on a buffer holding that column's cells.
   It raises the column width to the widest returned cell and writes the
   cells back into the rows that have that column.
6. It assembles the output from the cells, the border's vertical and
   horizontal pieces, and the row separator.

The built-in column formatters align right, left, centred, or at the decimal
point. The last one can exempt the header cell and hand it to a first-row
formatter instead.

Modules:

- `Text` (`text.dfy`): repetition, padding, Go's `strings.Split`, decimal
  rendering, and a `Builder` class standing for `strings.Builder`.
- `Formatters` (`formatters.dfy`): the value formatters, the no-op header
  formatter and the four alignments. Each alignment is a method that
  rewrites an `array<string>` in place. Each is proved equal to a function
  on `seq<string>`, and the width and layout facts are lemmas about those
  functions.
- `Border` (`border.dfy`): `Internal.Horizontal`, a builder loop proved equal
  to the function `HorizontalLine`, and `Internal.Vertical`.
- `Layout` (`layout.dfy`): what `Format` computes, as functions. `Render` is
  the pipeline as written.
- `LayoutProperties` (`layout_properties.dfy`): lemmas about the pipeline.
- `LayoutExample` (`layout_example.dfy`): the table of the package's test,
  rendered end to end, and the overflow counterexample below.
- `Table` (`table.dfy`): the class `T`. Its builder methods update the
  fields in place. `Format` works step by step on arrays and a builder and
  is proved to return `Render` of the fields.

Display width is the length of a string, which is what the default width
function (rune count) gives.

Two behaviours of the code are worth knowing:

- A row shorter than the column count is output with fewer cells and fewer
  column separators. Its missing cells are neither written back nor emitted
  (table.go:159-163, 178-181).
- The per-column buffer has one cell per column but is indexed by row
  (table.go:149-154). `Format` stops with an index-out-of-range failure,
  which is a run-time panic in Go, exactly when there is at least one column
  and some non-empty body row has an index at or past the number of columns.
  The header sits at index 0, and with no columns the column loop does not
  run. Empty rows are never written into the buffer. See "Findings".

## Model

| member | source | states |
|---|---|---|
| Text.Split | formatters.go:175 | `strings.Split` on one character: as many pieces as occurrences of the separator plus one |
| Text.SplitJoin | formatters.go:175 | the pieces of `strings.Split` joined back with the separator give the input |
| Text.SplitPieces | formatters.go:175 | no piece of a split contains the separator |
| Text.NatToString | table.go:124 | the `%d` rendering of a row or column index: decimal digits that spell the number, with no leading zero unless the number is 0 |
| Text.Builder.WriteString | formatters.go:152 | writing to a builder appends exactly the written text |
| Formatters.DefaultValueFormatter | formatters.go:114-116 | never fails, and yields the value's generic text |
| Formatters.KindGuarded | formatters.go:36-56 | the type guard of the domain formatters: fails exactly when the kind differs, with the message "expected type 'X', got type 'Y'"; otherwise renders the value |
| Formatters.NoopRowFormatter | formatters.go:118-120 | returns the cells unchanged |
| Formatters.FormatConstWidth | formatters.go:219-221 | `%<w>s`: the result is max(abs w, the length of s) wide; for w >= 0, s is a suffix with only spaces before it; for w < 0, s is a prefix with only spaces after it; so a string already that wide comes back unchanged |
| Formatters.GoQuo | formatters.go:146 | Go's integer division truncates toward zero: the remainder has the dividend's sign and is smaller than the divisor |
| Formatters.RightAligned | formatters.go:122-127 | every cell is max(abs width, its own width) wide; for a non-negative width the original is a suffix after spaces, for a negative width (`%-Ns`) it is a prefix before spaces |
| Formatters.LeftAligned | formatters.go:129-134 | every cell is max(abs width, its own width) wide; for a non-negative width the original is a prefix before spaces, for a negative width (the width is negated, so `%Ns`) it is a suffix after spaces |
| Formatters.AlignRight | formatters.go:122-127 | rewrites the column in place and hands back the same array, each cell right-aligned |
| Formatters.AlignLeft | formatters.go:129-134 | rewrites the column in place and hands back the same array, each cell left-aligned |
| Formatters.StringBuilderAddN | formatters.go:213-217 | appends `s` exactly `times` times, nothing when `times <= 0` |
| Formatters.CenterPadding | formatters.go:145-147 | the two paddings add up to the surplus, and the left one exceeds the right one by 0 or 1; both are non-positive when the cell is wider than the column |
| Formatters.CenterCell | formatters.go:143-155 | a centred cell is max(width, its own width) wide, holds the original between spaces after the left padding, and is unchanged when at least as wide as the column |
| Formatters.CenterWithBuilder | formatters.go:143-155 | for a non-negative width (the builder's capacity reservation panics otherwise), the builder loop writes the left padding, the cell and the right padding, which is `CenterCell` |
| Formatters.AlignCenter | formatters.go:142-158 | rewrites the column in place and hands back the same array, each cell centred; a non-empty column needs a non-negative width |
| Formatters.MaxIntWidthIsMax | formatters.go:169-183 | the integer-part width is the widest integer part of a measured cell (0 when there is none); the exempt cell and cells with two or more dots do not count |
| Formatters.MaxFracWidthIsMax | formatters.go:169-183 | the fraction-part width is the widest fraction part of a measured one-dot cell (0 when there is none) |
| Formatters.MeasureDots | formatters.go:167-183 | the first loop splits every non-exempt cell at its dots and yields exactly those two widths |
| Formatters.WriteDotCells | formatters.go:195-209 | the last loop lays out every non-exempt cell with the final integer and fraction widths and leaves the exempt cell alone |
| Formatters.AlignAtDot | formatters.go:166-211 | rewrites the column in place and hands back the same array, the cells aligned at their decimal point |
| Formatters.ApplyColumnFormatter | table.go:156 | calling a column's formatter rewrites the buffer in place into that formatter's result |
| Formatters.PadLeft | formatters.go:219-221 | a string no wider than w, padded to w, is w minus its width spaces followed by the string |
| Formatters.PadRight | formatters.go:219-221 | a string no wider than w, padded to -w, is the string followed by w minus its width spaces |
| Formatters.DotCellOneDot | formatters.go:203-204 | a one-dot cell becomes spaces, the original cell, then spaces; it is L+1+R wide, with its dot at column L |
| Formatters.DotCellNoDot | formatters.go:206-207 | a cell without a dot becomes the cell right-aligned to L, then a blank and R blanks |
| Formatters.DotAlignedCell | formatters.go:185-208 | every non-exempt cell is laid out with the column's final integer width L and fraction width R; its parts fit them, and L+1+R is the column's final width |
| Formatters.DotAlignedWidth | formatters.go:185-208 | every non-exempt cell with at most one dot ends exactly as wide as the column's final width |
| Formatters.DotAlignedInvalid | formatters.go:200-202 | a non-exempt cell with two or more dots becomes `<invalid number of dots: '<cell>'>` |
| Formatters.DotAlignedFirst | formatters.go:185-190 | with a first-row formatter, cell 0 is that formatter's output at max(width, maxLeft+1+maxRight), and the final width is that base widened to the new cell 0 |
| Border.Fill | border/internal.go:31-34 | a column segment is exactly as wide as the column: the glyph repeated and cut short at the end |
| Border.WriteFill | border/internal.go:31-34 | the whole-glyph loop followed by the partial glyph appends exactly that segment |
| Border.WriteColumn | border/internal.go:30-40 | one column's fill, followed by a crossing fill unless it is the last column |
| Border.WriteFills | border/internal.go:30-41 | the column loop appends the column fills with a crossing fill between every two adjacent columns and none after the last |
| Border.Internal.HorizontalLine | border/internal.go:23-48 | a line is drawn exactly when the row separator is non-empty and 0 <= row < numRows, and a drawn line ends in a newline |
| Border.Internal.Horizontal | border/internal.go:23-48 | the builder loop, on a copy of the receiver with the crossing fallback, returns `HorizontalLine` |
| Border.Internal.Vertical | border/internal.go:50-55 | the column separator exactly when 0 <= col < numCols-1, otherwise empty |
| Border.Internal.HorizontalLineWidth | border/internal.go:30-42 | a drawn line is as wide as the columns plus one separator width between every two columns, plus the newline |
| Border.Internal.HorizontalLineOneNewline | border/internal.go:42 | when the glyphs hold no newline, a drawn line holds exactly one, at its end |
| Border.Internal.VerticalIgnoresRow | border/internal.go:50-55 | the vertical piece depends on neither the row nor the row count |
| Border.CrossingFallback | border/internal.go:25-27 | an empty crossing glyph draws the same lines as the row-separator glyph |
| Layout.FormatValue | table.go:198-205 | the formatter registered for the value's kind, otherwise the default formatter |
| Layout.RegisterOnlyAffectsKind | table.go:68-71 | registering a formatter changes how values of that kind, and only those, are formatted |
| Layout.NumCols | table.go:108-111 | the column count is at least the header's length and every row's length, and equals one of them |
| Layout.FormatRowSuccess | table.go:119-128 | a row formats exactly when each of its values does, and yields their texts |
| Layout.FormatRowFailure | table.go:119-125 | a failing row reports its first failing value, tagged with the row and column and the formatter's reason |
| Layout.FormatRowsSuccess | table.go:113-128 | the first pass succeeds exactly when every value formats, and then holds every row's texts |
| Layout.FormatRowsFailure | table.go:118-125 | a failing first pass reports the first failing cell in row-major order, header not counted |
| Layout.ColMaxIsMax | table.go:127 | the recorded width of a column is its widest body cell (0 when none), and is attained |
| Layout.WidthAfterHeader | table.go:129-140 | after the header formatter, a column is as wide as the widest of its body cells and its header cell, a missing cell counting as 0 |
| Layout.FirstMisfit | table.go:150-154 | the first row whose cell `j` has no place in the buffer; none exactly when every such write fits |
| Layout.ColumnFormatterAt | table.go:143-148 | column `j` uses its explicit formatter when one is set, otherwise right alignment |
| Layout.WithColumn | table.go:82-90 | the list grows to col+1 when shorter, earlier entries are kept, gaps are unset, and entry col is the new formatter |
| Layout.WithColumnChoice | table.go:82-90 | setting column col's formatter decides that column and no other |
| Layout.WriteBack | table.go:159-163 | writing a column back changes no row's length, so short rows stay short |
| Layout.WidestIsMax | table.go:157 | the width after a column formatter is at least the previous width and every returned cell, and equal to one of them |
| Layout.Formatting | table.go:142-156 | the table's column formatters accept every non-empty buffer and return as many cells |
| Layout.ColumnStep | table.go:142-164 | one column iteration keeps the number of rows, each row's length and the number of widths |
| Layout.Columns | table.go:142-164 | the column loop keeps the number of rows, each row's length and the number of widths |
| Layout.Prepared | table.go:107-154 | the steps up to the column loop: on success one formatted row per body row plus the header, at least one width per column, and (with at least one column) every non-empty row has a place in the buffer |
| Layout.Laid | table.go:107-164 | fails exactly when `Prepared` fails, with the same error |
| Layout.RenderWith | table.go:107-187 | succeeds exactly when the layout does; otherwise it gives the layout's error |
| Layout.Render | table.go:107-187 | `Format` as written, with a buffer of one cell per column: succeeds exactly when the steps up to the column loop do, and otherwise fails with their error |
| Layout.RenderWithRowBuffer | table.go:149 | `Format` with one buffer cell per formatted row: succeeds exactly when the steps up to the column loop do with that buffer, and otherwise fails with their error |
| LayoutProperties.ColumnStepEffect | table.go:150-163 | after a column's formatter, the column's width is at least the old width and every returned cell, and equals one of them; other widths are unchanged, and every row that has the column holds the returned cell |
| LayoutProperties.ColumnStepElsewhere | table.go:159-163 | one column iteration leaves every other column's cells alone |
| LayoutProperties.ColumnStepWidens | table.go:157 | a column's width never shrinks |
| LayoutProperties.ColumnsUntouched | table.go:142-164 | after the first k iterations, widths have only grown and columns k and beyond are as they were |
| LayoutProperties.ColumnsSettledWidth | table.go:142-164 | a column's width does not change after its own iteration |
| LayoutProperties.ColumnsSettledCell | table.go:142-164 | a column's cells do not change after its own iteration |
| LayoutProperties.PaddingPads | formatters.go:122-158 | right, left and centre alignment bring every cell no wider than the column to exactly the column's width |
| LayoutProperties.ColumnsLineUp | table.go:142-164 | for a padding formatter whose cells already fit, every cell of the column ends as wide as the column, and the width is unchanged |
| LayoutProperties.NumColsAddRow | table.go:102-111 | adding a row raises the column count to that row's length when it is longer |
| LayoutProperties.PreparedWidthsCover | table.go:117-140 | after the width merge every formatted cell, header included, fits its column's width |
| LayoutProperties.RenderedColumnsLineUp | table.go:107-164 | in a right-, left- or centre-aligned column every rendered cell is exactly the column's width, which is the wider of its widest body cell and its header cell |
| LayoutProperties.RenderReportsFirstFailure | table.go:118-125 | when some value fails to format, `Format` reports a cell error for the first such cell in row-major order, with the formatter's reason |
| LayoutProperties.RenderOutOfRange | table.go:149-154 | when every value formats, `Format` fails exactly when a non-empty body row's place in the buffer is at or past its end; the index is the first such place and the length is the column count |
| LayoutProperties.PreparedOutOfRange | table.go:149-154 | the same statement for the steps up to the column loop |
| LayoutProperties.PreparedIsMisfit | table.go:117-154 | when every value formats, the steps up to the column loop fail exactly when column 0 of the formatted rows misses the buffer (with at least one column), and then with the first missing row's index |
| LayoutProperties.MisfitIsOverflow | table.go:149-154 | the first row missing the buffer is never the header, and exists exactly when a non-empty body row sits at or past the buffer's end |
| LayoutProperties.RowBufferNeverOverflows | table.go:149 | with one buffer cell per formatted row the table renders exactly when every value formats, and otherwise reports the first-pass cell error |
| LayoutProperties.CellsJoined | table.go:178-181 | with the `Internal` border, a row's cells are output joined by the column separator |
| LayoutProperties.AssembleIsJoined | table.go:173-186 | the output is each formatted row's joined cells, then the row separator, then the separator line for that row, with nothing before the header |
| LayoutProperties.RenderedRows | table.go:173-186 | the rendered table is its formatted rows joined; a separator line follows the header and every body row but the last, and none precedes the header |
| LayoutExample.ExampleRender | table_test.go:8-15 | the default table with header A, B, C and rows (14, 2, 3) and (4, 5, 622) renders as `" A B   C\n14 2   3\n 4 5 622\n"` |
| LayoutExample.SquareOverflows | table.go:149-154 | header A, B with rows (1, 2) and (3, 4) fails with index 2 out of range for length 2 |
| LayoutExample.SquareWithRowBuffer | table.go:149 | the same table renders once the buffer has one cell per row |
| Table.CountColumns | table.go:108-111 | the counting fold returns `NumCols` |
| Table.FormatRowCells | table.go:119-128 | the inner loop formats the row's values left to right, stops at the first failure, and raises each column's recorded width to the new cell |
| Table.FormatBody | table.go:113-128 | the first pass fills rows 1.. of the formatted rows with the texts and records each column's widest cell, or stops at the first failing cell |
| Table.MergeHeaderWidths | table.go:131-140 | the merged widths are `ZipMax` of the recorded widths and the formatted header |
| Table.GatherColumn | table.go:149-154 | the buffer gets cell j of every row that has it, at the row's index, and "" elsewhere; it reports the first row that has no place |
| Table.WidestCell | table.go:157 | the width fold over the returned cells |
| Table.ScatterColumn | table.go:159-163 | the returned cells are written back into the rows that have the column, and only those |
| Table.FormatColumn | table.go:142-164 | one iteration of the column loop on the arrays: it stops, changing nothing, at the first row of column j with no place in the buffer (only possible for column 0); otherwise it is `ColumnStep` |
| Table.FormatGathered | table.go:156-163 | the formatter on the gathered buffer, the width fold and the write-back together are `ColumnStep` |
| Table.FormatColumns | table.go:142-164 | the column loop stops with the out-of-range index when the first column does not fit the buffer, and is otherwise `Columns` |
| Table.WriteCells | table.go:178-181 | writes every cell followed by its vertical piece |
| Table.WriteRow | table.go:175-185 | writes the leading piece, the cells, the row separator and the line after the row |
| Table.Assemble | table.go:173-187 | the assembly loop returns `AssembleText` |
| Table.FormatAfterBody | table.go:129-187 | the steps after the first pass return `Render` |
| Table.T.New | table.go:55-66 | no header, no rows, the default border, a newline row separator, no value formatters, the no-op header formatter and no column formatters |
| Table.T.WithValueFormatter | table.go:68-71 | registers the formatter under the sample value's kind and changes nothing else |
| Table.T.WithHeaderFormatter | table.go:73-76 | replaces the header formatter and changes nothing else |
| Table.T.WithColumnFormatter | table.go:82-90 | column formatters become `WithColumn(old, col, f)`, and nothing else changes |
| Table.T.WithFirstColumnFormatter | table.go:78-80 | the same for column 0 |
| Table.T.WithColumnFormatters | table.go:92-95 | replaces the whole list and changes nothing else |
| Table.T.AddRow | table.go:102-105 | appends one row and changes nothing else |
| Table.T.Format | table.go:107-188 | returns `Render` of the table's fields |
| Table.T.String | table.go:190-196 | the rendered table, or the error wrapped in `<error: ...>` |
| Table.StringShowsFirstFailure | table.go:118-125 | when some value fails, `String` shows the cell error `Format` reports |
| Table.StringOfCellError | table.go:190-196 | a cell error is shown as `<error: could not format cell <row>, <col> (row, col), reason: <reason>>` |

## Left out

- Custom width functions (`WithuWidthFunction`, `T.WidthFunc`): width is always the string's length.
- Byte and rune slicing in `Horizontal` differ for glyphs wider than one byte. The model works on characters.
- The humanize-based formatters (`FormatSI`, `FormatterSI`, `FormatterPercent`, `FormatterBytes1000`, `RegisterHumanizeFormatters`, `formatPercent`) are left out: they are floating-point formatting in an external library. Only their type guard is modelled, as `KindGuarded`.
- `unifyUnitLength` is left out: nothing calls it.
- `reflect.TypeOf(...).String()` and `fmt.Sprint` are left out. A value carries its type name (`kind`) and its generic text (`text`).
- The functional combinators used for the column count, the width merge and the width fold are modelled as the plain folds they compute.
- Column formatters are the four built-in alignments. An arbitrary user closure is not modelled, and neither is a first-row formatter outside those four.
- Value and header formatters are arbitrary functions, so any aliasing between the header slice and the formatter's result is not captured.
- Borders other than `Internal` are not modelled.
- `builder.Grow` in `Format` and `rowWidth` only reserve capacity and do not change the output.
- Formatters.CenterWithBuilder: `sb.Grow` panics on a negative width (formatters.go:150). The model requires a non-negative width instead of modelling the panic.
- Formatters.AlignCenter: for the same reason it requires a non-negative width when the column is non-empty. Formatters.ApplyColumnFormatter carries the same requirement for the centre alignment. `Format` only passes non-negative widths, so `Render` is unaffected.
- Formatters.AlignAtDot: with a first-row formatter, Go panics on an empty column at `cells[0]` (formatters.go:187). The model requires a non-empty column in that case. `Format` never passes an empty column.
- Layout.FormatValue: an untyped `nil` cell panics in Go, because `reflect.TypeOf(nil)` is nil and `.String()` on it panics (table.go:199-200). A `Value` always has a kind, so the model cannot represent that cell and formats it like any other.
- Table.T.WithValueFormatter: a `nil` sample panics in Go for the same reason (table.go:69). The model's sample always has a kind.
- Table.T.WithValueFormatter: registering a `nil` formatter makes every later value of that kind panic when it is called (table.go:204). A `ValueFormatter` is a total function in the model, so it cannot be nil.
- Table.T.WithHeaderFormatter: a `nil` header formatter makes every later `Format` panic, even on an empty table (table.go:131). A `RowFormatter` is a total function in the model, so it cannot be nil.
- Table.T.WithColumnFormatter: a negative column panics in Go. The model takes a natural number.
- Formatters.FormatConstWidth: Go's fmt refuses a width of 10,000,010 or more (in either direction) and prints an error text such as `%!(NOVERB)%!(EXTRA string=…)` instead of the padded string. The same holds for the `Sprintf` calls in `AlignAtDot` (formatters.go:195-207). The model pads to any width. `Format` passes only non-negative widths, and one that large only for a cell at least that long.
- Border.Internal.Horizontal: Go takes `[]int` widths. A negative width that is a multiple of the glyph's width gives an empty fill for that column, and any other negative width panics at `RowSeparator[:colWidth%w]` (border/internal.go:30-34). The model takes natural widths, which are all `Format` passes.
- Table.T.AddRow: Go keeps the caller's slice as the row (table.go:103), so a later write to that slice by the caller changes what `Format` renders. The model stores the row's values.
- Table.T.WithColumnFormatters: Go keeps the caller's slice (table.go:93), and a later `WithColumnFormatter` writes into that same slice when it is long enough. The model stores the list's values, so neither side sees the other's writes.
- Table.T.WithHeaderFormatter: Go passes the header formatter the `colWidths` slice itself (table.go:131), so whatever the formatter writes there flows into the width merge. The model passes the widths as a value, and a formatter cannot change them.
- Table.T.String: on the out-of-range panic Go's `String` panics too. The model requires that `Format` does not end that way.
- `Format`'s empty string returned beside an error is not modelled: the result is either text or an error.
- The `fmt.Println` in the package test is not modelled.
- Concurrency is not modelled.

## Findings

| source | as written | input that shows it | evidently intended | confidence | as-written member | corrected member |
|---|---|---|---|---|---|---|
| table.go:149-154 | the per-column buffer is `make([]string, numCols)` but is indexed by formatted-row index `i` (header = 0) | header A, B with rows (1, 2) and (3, 4): two columns and three formatted rows, so `values[2]` is written into a two-cell buffer and the call panics | a buffer with one cell per formatted row (`len(formatted)`), so every table whose values format renders | high; not executed | LayoutExample.SquareOverflows (with LayoutProperties.RenderOutOfRange) | Layout.RenderWithRowBuffer (with LayoutProperties.RowBufferNeverOverflows) |
