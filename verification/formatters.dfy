/**
 * The built-in formatters of the table: value formatters (a value to its
 * text), the no-op header formatter, and the four column alignments
 * (right, left, center, at the decimal point).
 *
 * A column formatter rewrites the cells of one column in place and hands the
 * same buffer back; each one is a method over an `array<string>` proved
 * against a function on `seq<string>` that states the resulting cells.
 */
module Formatters {
  import opened Wrappers
  import opened Text

  /**
   * A value put into a table row: `kind` is the name of its Go type (the key
   * value formatters are registered under) and `text` is its generic textual
   * representation.
   */
  datatype Value = Value(kind: string, text: string)

  /** Turns one value into the text of its cell, or fails with a reason. */
  type ValueFormatter = Value -> Result<string, string>

  /** Receives the row index, the cells of the row and the widest cell of every column. */
  type RowFormatter = (int, seq<string>, seq<int>) -> seq<string>

  /** The column formatters the table ships with. */
  datatype ColumnFormatter =
    | AlignRightFormatter
    | AlignLeftFormatter
    | AlignCenterFormatter
      /** `firstRow`, when present, formats cell 0 (the header) on its own. */
    | AlignAtDotFormatter(firstRow: Option<ColumnFormatter>)

  // ---------------------------------------------------------------------
  // Value and row formatters
  // ---------------------------------------------------------------------

  /** The fallback value formatter: the generic text of the value; it never fails. */
  function DefaultValueFormatter(v: Value): (r: Result<string, string>)
    ensures r.Success? && r.value == v.text
  {
    Success(v.text)
  }

  /**
   * The type guard of the domain formatters (bytes, percent): a value of
   * kind `expected` is rendered, any other kind is rejected with a message
   * naming both kinds.
   */
  function KindGuarded(expected: string, render: Value -> string, v: Value): (r: Result<string, string>)
    ensures r.Failure? <==> v.kind != expected
    ensures r.Success? ==> r.value == render(v)
    ensures r.Failure? ==> r.error == "expected type '" + expected + "', got type '" + v.kind + "'"
  {
    if v.kind == expected then Success(render(v))
    else Failure("expected type '" + expected + "', got type '" + v.kind + "'")
  }

  /** The default header formatter: the cells come back as they are. */
  function NoopRowFormatter(row: int, cells: seq<string>, maxObservedWidths: seq<int>): (r: seq<string>)
    ensures r == cells
  {
    cells
  }

  // ---------------------------------------------------------------------
  // Padding
  // ---------------------------------------------------------------------

  function Abs(x: int): nat {
    if x < 0 then -x else x
  }

  /**
   * Go's `%<width>s`: a non-negative width pads on the left, a negative one
   * pads on the right to `-width`; a string already that wide is unchanged.
   */
  function FormatConstWidth(s: string, width: int): (r: string)
    ensures |r| == Max(Abs(width), |s|)
    ensures width >= 0 ==> r[|r| - |s|..] == s && AllSpaces(r[..|r| - |s|])
    ensures width < 0 ==> r[..|s|] == s && AllSpaces(r[|s|..])
  {
    if width >= 0 then Spaces(width - |s|) + s else s + Spaces(-width - |s|)
  }

  /**
   * Go's integer division, which truncates toward zero: the remainder
   * takes the dividend's sign and is smaller than the divisor.
   */
  function GoQuo(a: int, b: int): (q: int)
    requires b > 0
    ensures a >= 0 ==> 0 <= a - b * q < b
    ensures a < 0 ==> -b < a - b * q <= 0
  {
    if a >= 0 then a / b else -((-a) / b)
  }

  // ---------------------------------------------------------------------
  // Right and left alignment
  // ---------------------------------------------------------------------

  /** Every cell right-aligned to `width`; a negative width left-aligns to `-width`, as `%<width>s` does. */
  function RightAligned(cells: seq<string>, width: int): (r: seq<string>)
    ensures |r| == |cells|
    ensures forall i :: 0 <= i < |r| ==>
      && |r[i]| == Max(Abs(width), |cells[i]|)
      && (width >= 0 ==> r[i][|r[i]| - |cells[i]|..] == cells[i] && AllSpaces(r[i][..|r[i]| - |cells[i]|]))
      && (width < 0 ==> r[i][..|cells[i]|] == cells[i] && AllSpaces(r[i][|cells[i]|..]))
  {
    seq(|cells|, i requires 0 <= i < |cells| => FormatConstWidth(cells[i], width))
  }

  /** Every cell left-aligned to `width`; a negative width right-aligns to `-width`, as `%-<width>s` does. */
  function LeftAligned(cells: seq<string>, width: int): (r: seq<string>)
    ensures |r| == |cells|
    ensures forall i :: 0 <= i < |r| ==>
      && |r[i]| == Max(Abs(width), |cells[i]|)
      && (width >= 0 ==> r[i][..|cells[i]|] == cells[i] && AllSpaces(r[i][|cells[i]|..]))
      && (width < 0 ==> r[i][|r[i]| - |cells[i]|..] == cells[i] && AllSpaces(r[i][..|r[i]| - |cells[i]|]))
  {
    seq(|cells|, i requires 0 <= i < |cells| => FormatConstWidth(cells[i], -width))
  }

  method AlignRight(col: int, cells: array<string>, maxObservedWidth: int) returns (r: array<string>)
    modifies cells
    ensures r == cells
    ensures cells[..] == RightAligned(old(cells[..]), maxObservedWidth)
  {
    for i := 0 to cells.Length
      invariant forall k :: 0 <= k < i ==> cells[k] == FormatConstWidth(old(cells[k]), maxObservedWidth)
      invariant forall k :: i <= k < cells.Length ==> cells[k] == old(cells[k])
    {
      cells[i] := FormatConstWidth(cells[i], maxObservedWidth);
    }
    r := cells;
  }

  method AlignLeft(col: int, cells: array<string>, maxObservedWidth: int) returns (r: array<string>)
    modifies cells
    ensures r == cells
    ensures cells[..] == LeftAligned(old(cells[..]), maxObservedWidth)
  {
    for i := 0 to cells.Length
      invariant forall k :: 0 <= k < i ==> cells[k] == FormatConstWidth(old(cells[k]), -maxObservedWidth)
      invariant forall k :: i <= k < cells.Length ==> cells[k] == old(cells[k])
    {
      cells[i] := FormatConstWidth(cells[i], -maxObservedWidth);
    }
    r := cells;
  }

  // ---------------------------------------------------------------------
  // Center alignment
  // ---------------------------------------------------------------------

  /** Writes `s` to `sb` `times` times (nothing when `times <= 0`). */
  method StringBuilderAddN(sb: Builder, s: string, times: int)
    modifies sb
    ensures sb.contents == old(sb.contents) + Repeat(s, times)
  {
    var i := 0;
    while i < times
      invariant times >= 0 ==> 0 <= i <= times
      invariant times < 0 ==> i == 0
      invariant sb.contents == old(sb.contents) + Repeat(s, i)
    {
      sb.WriteString(s);
      i := i + 1;
    }
  }

  /**
   * The left and right padding of a cell that is `surplus` narrower than the
   * column: the right side gets half (rounded toward zero), the left side
   * the rest, so an odd space goes to the left.
   */
  function CenterPadding(surplus: int): (p: (int, int))
    ensures surplus >= 0 ==> p.0 + p.1 == surplus && p.1 <= p.0 <= p.1 + 1
    ensures surplus < 0 ==> p.0 <= 0 && p.1 <= 0
  {
    var right := GoQuo(surplus, 2);
    (surplus - right, right)
  }

  /** One cell centered in `width`; a cell at least that wide is unchanged. */
  function CenterCell(c: string, width: int): (r: string)
    ensures |r| == Max(width, |c|)
    ensures |c| >= width ==> r == c
    ensures var left := Max(CenterPadding(width - |c|).0, 0);
      && r[left..left + |c|] == c
      && AllSpaces(r[..left]) && AllSpaces(r[left + |c|..])
  {
    var p := CenterPadding(width - |c|);
    Spaces(p.0) + c + Spaces(p.1)
  }

  function Centered(cells: seq<string>, width: int): (r: seq<string>)
    ensures |r| == |cells|
    ensures forall i :: 0 <= i < |r| ==> r[i] == CenterCell(cells[i], width)
  {
    seq(|cells|, i requires 0 <= i < |cells| => CenterCell(cells[i], width))
  }

  /**
   * One cell of `AlignCenter`: padding, the cell, padding, written to a
   * fresh builder. Reserving a negative capacity on the builder panics.
   */
  method CenterWithBuilder(v: string, maxObservedWidth: int) returns (s: string)
    requires maxObservedWidth >= 0
    ensures s == CenterCell(v, maxObservedWidth)
  {
    var width := |v|;
    var paddingSum := maxObservedWidth - width;
    var paddingRight := GoQuo(paddingSum, 2);
    var paddingLeft := paddingSum - paddingRight;
    assert (paddingLeft, paddingRight) == CenterPadding(maxObservedWidth - |v|);

    var sb := new Builder();
    StringBuilderAddN(sb, " ", paddingLeft);
    sb.WriteString(v);
    StringBuilderAddN(sb, " ", paddingRight);

    SpacesAreRepeat(paddingLeft);
    SpacesAreRepeat(paddingRight);
    s := sb.contents;
  }

  method AlignCenter(col: int, cells: array<string>, maxObservedWidth: int) returns (r: array<string>)
    requires cells.Length > 0 ==> maxObservedWidth >= 0
    modifies cells
    ensures r == cells
    ensures cells[..] == Centered(old(cells[..]), maxObservedWidth)
  {
    for i := 0 to cells.Length
      invariant forall k :: 0 <= k < i ==> cells[k] == CenterCell(old(cells[k]), maxObservedWidth)
      invariant forall k :: i <= k < cells.Length ==> cells[k] == old(cells[k])
    {
      cells[i] := CenterWithBuilder(cells[i], maxObservedWidth);
    }
    r := cells;
  }

  // ---------------------------------------------------------------------
  // Alignment at the decimal point
  // ---------------------------------------------------------------------

  /**
   * Whether cell `i` takes part in the width computation: it is not the
   * exempt first cell and it holds at most one dot.
   */
  predicate Measured(cells: seq<string>, exempt: bool, i: int)
    requires 0 <= i < |cells|
  {
    !(i == 0 && exempt) && |Split(cells[i], '.')| <= 2
  }

  /** The widest integer part among the measured cells of `cells[..n]`. */
  function MaxIntWidth(cells: seq<string>, exempt: bool, n: nat): nat
    requires n <= |cells|
  {
    if n == 0 then 0
    else if Measured(cells, exempt, n - 1) then
      Max(MaxIntWidth(cells, exempt, n - 1), |Split(cells[n - 1], '.')[0]|)
    else MaxIntWidth(cells, exempt, n - 1)
  }

  /** The widest fraction part among the measured one-dot cells of `cells[..n]`. */
  function MaxFracWidth(cells: seq<string>, exempt: bool, n: nat): nat
    requires n <= |cells|
  {
    if n == 0 then 0
    else if Measured(cells, exempt, n - 1) && |Split(cells[n - 1], '.')| == 2 then
      Max(MaxFracWidth(cells, exempt, n - 1), |Split(cells[n - 1], '.')[1]|)
    else MaxFracWidth(cells, exempt, n - 1)
  }

  /**
   * The integer-part width is the widest integer part of a measured cell
   * (0 when there is none): cells with two or more dots and the exempt cell
   * do not count.
   */
  lemma {:induction false} MaxIntWidthIsMax(cells: seq<string>, exempt: bool, n: nat)
    requires n <= |cells|
    ensures forall i :: 0 <= i < n && Measured(cells, exempt, i) ==>
      |Split(cells[i], '.')[0]| <= MaxIntWidth(cells, exempt, n)
    ensures MaxIntWidth(cells, exempt, n) == 0 || exists i ::
      0 <= i < n && Measured(cells, exempt, i) && |Split(cells[i], '.')[0]| == MaxIntWidth(cells, exempt, n)
  {
    if n > 0 {
      MaxIntWidthIsMax(cells, exempt, n - 1);
    }
  }

  /** The fraction-part width is the widest fraction part of a measured one-dot cell (0 when there is none). */
  lemma {:induction false} MaxFracWidthIsMax(cells: seq<string>, exempt: bool, n: nat)
    requires n <= |cells|
    ensures forall i :: 0 <= i < n && Measured(cells, exempt, i) && |Split(cells[i], '.')| == 2 ==>
      |Split(cells[i], '.')[1]| <= MaxFracWidth(cells, exempt, n)
    ensures MaxFracWidth(cells, exempt, n) == 0 || exists i ::
      0 <= i < n && Measured(cells, exempt, i) && |Split(cells[i], '.')| == 2 &&
      |Split(cells[i], '.')[1]| == MaxFracWidth(cells, exempt, n)
  {
    if n > 0 {
      MaxFracWidthIsMax(cells, exempt, n - 1);
    }
  }

  /** The inline marker that replaces a cell with two or more dots. */
  function InvalidDotsMarker(cell: string): string {
    "<invalid number of dots: '" + cell + "'>"
  }

  /**
   * One non-exempt cell laid out with an integer part `left` wide and a
   * fraction part `right` wide.
   */
  function DotCell(cell: string, left: int, right: int): string {
    var p := Split(cell, '.');
    if |p| > 2 then InvalidDotsMarker(cell)
    else if |p| == 2 then FormatConstWidth(p[0], left) + "." + FormatConstWidth(p[1], -right)
    else FormatConstWidth(p[0], left) + " " + FormatConstWidth("", -right)
  }

  /** The width every measured cell is brought to before the first cell is formatted. */
  function DotBaseWidth(firstRow: Option<ColumnFormatter>, cells: seq<string>, width: int): int {
    var exempt := firstRow.Some?;
    Max(width, MaxIntWidth(cells, exempt, |cells|) + 1 + MaxFracWidth(cells, exempt, |cells|))
  }

  /** The final width of the column: the base width, widened by the formatted first cell. */
  function DotWidth(firstRow: Option<ColumnFormatter>, col: int, cells: seq<string>, width: int): int
    requires firstRow.Some? ==> |cells| > 0
    decreases firstRow, 1
  {
    var base := DotBaseWidth(firstRow, cells, width);
    if firstRow.Some? then Max(base, |Applied(firstRow.value, col, [cells[0]], base)[0]|) else base
  }

  /** The width of the integer part once the column is padded to its final width. */
  function DotLeft(firstRow: Option<ColumnFormatter>, col: int, cells: seq<string>, width: int): int
    requires firstRow.Some? ==> |cells| > 0
    decreases firstRow, 2
  {
    var exempt := firstRow.Some?;
    var maxLeft := MaxIntWidth(cells, exempt, |cells|);
    var maxRight := MaxFracWidth(cells, exempt, |cells|);
    maxLeft + Max(0, DotWidth(firstRow, col, cells, width) - maxLeft - 1 - maxRight)
  }

  /** Cell `i` of a column aligned at the decimal point. */
  function DotAlignedAt(firstRow: Option<ColumnFormatter>, col: int, cells: seq<string>, width: int, i: int): string
    requires firstRow.Some? ==> |cells| > 0
    requires 0 <= i < |cells|
    decreases firstRow, 3
  {
    if i == 0 && firstRow.Some? then Applied(firstRow.value, col, [cells[0]], DotBaseWidth(firstRow, cells, width))[0]
    else DotCell(cells[i], DotLeft(firstRow, col, cells, width), MaxFracWidth(cells, firstRow.Some?, |cells|))
  }

  /** The cells of a column aligned at their decimal point. */
  function DotAligned(firstRow: Option<ColumnFormatter>, col: int, cells: seq<string>, width: int): (r: seq<string>)
    requires firstRow.Some? ==> |cells| > 0
    ensures |r| == |cells|
    decreases firstRow, 4
  {
    seq(|cells|, i requires 0 <= i < |cells| => DotAlignedAt(firstRow, col, cells, width, i))
  }

  /** What calling a column formatter on a column's cells produces. */
  function Applied(f: ColumnFormatter, col: int, cells: seq<string>, width: int): (r: seq<string>)
    requires f.AlignAtDotFormatter? && f.firstRow.Some? ==> |cells| > 0
    ensures |r| == |cells|
    decreases f, 0
  {
    match f
    case AlignRightFormatter => RightAligned(cells, width)
    case AlignLeftFormatter => LeftAligned(cells, width)
    case AlignCenterFormatter => Centered(cells, width)
    case AlignAtDotFormatter(firstRow) => DotAligned(firstRow, col, cells, width)
  }

  /**
   * The first loop of `AlignAtDot`: splits every non-exempt cell at its dots
   * and tracks the widest integer and fraction parts.
   */
  method MeasureDots(cells: array<string>, exempt: bool)
    returns (parts: array<seq<string>>, maxLeftWidth: nat, maxRightWidth: nat)
    ensures fresh(parts) && parts.Length == cells.Length
    ensures forall k :: 0 <= k < cells.Length && !(k == 0 && exempt) ==> parts[k] == Split(cells[k], '.')
    ensures maxLeftWidth == MaxIntWidth(cells[..], exempt, cells.Length)
    ensures maxRightWidth == MaxFracWidth(cells[..], exempt, cells.Length)
  {
    maxLeftWidth, maxRightWidth := 0, 0;
    parts := new seq<string>[cells.Length];
    for i := 0 to cells.Length
      modifies parts
      invariant maxLeftWidth == MaxIntWidth(cells[..], exempt, i)
      invariant maxRightWidth == MaxFracWidth(cells[..], exempt, i)
      invariant forall k :: 0 <= k < i && !(k == 0 && exempt) ==> parts[k] == Split(cells[k], '.')
    {
      if i == 0 && exempt {
        continue;
      }
      parts[i] := Split(cells[i], '.');
      if |parts[i]| == 2 {
        maxLeftWidth := Max(maxLeftWidth, |parts[i][0]|);
        maxRightWidth := Max(maxRightWidth, |parts[i][1]|);
      }
      if |parts[i]| == 1 {
        maxLeftWidth := Max(maxLeftWidth, |parts[i][0]|);
      }
    }
  }

  /**
   * The last loop of `AlignAtDot`: every non-exempt cell is laid out with
   * integer-part width `left` and fraction-part width `right`.
   */
  method WriteDotCells(cells: array<string>, parts: array<seq<string>>, exempt: bool, left: int, right: int)
    requires parts.Length == cells.Length
    requires forall k :: 0 <= k < cells.Length && !(k == 0 && exempt) ==> parts[k] == Split(cells[k], '.')
    modifies cells
    ensures forall k :: 0 <= k < cells.Length && !(k == 0 && exempt) ==> cells[k] == DotCell(old(cells[k]), left, right)
    ensures exempt && cells.Length > 0 ==> cells[0] == old(cells[0])
  {
    for i := 0 to cells.Length
      invariant forall k :: 0 <= k < i && !(k == 0 && exempt) ==> cells[k] == DotCell(old(cells[k]), left, right)
      invariant forall k :: i <= k < cells.Length || (k == 0 && exempt && cells.Length > 0) ==> cells[k] == old(cells[k])
    {
      if i == 0 && exempt {
        continue;
      }
      var p := parts[i];
      if |p| > 2 {
        cells[i] := InvalidDotsMarker(cells[i]);
      }
      if |p| == 2 {
        cells[i] := FormatConstWidth(p[0], left) + "." + FormatConstWidth(p[1], -right);
      }
      if |p| == 1 {
        cells[i] := FormatConstWidth(p[0], left) + " " + FormatConstWidth("", -right);
      }
    }
  }

  /** Go's `AlignAtDot`, rewriting the column in place. */
  method AlignAtDot(firstRowFormatter: Option<ColumnFormatter>, col: int, cells: array<string>, maxObservedWidth: int)
    returns (r: array<string>)
    requires firstRowFormatter.Some? ==> cells.Length > 0
    modifies cells
    ensures r == cells
    ensures cells[..] == DotAligned(firstRowFormatter, col, old(cells[..]), maxObservedWidth)
    decreases firstRowFormatter, 2
  {
    ghost var orig := cells[..];
    var exempt := firstRowFormatter.Some?;
    var parts, maxLeftWidth, maxRightWidth := MeasureDots(cells, exempt);

    var width := Max(maxObservedWidth, maxLeftWidth + 1 + maxRightWidth);
    assert width == DotBaseWidth(firstRowFormatter, orig, maxObservedWidth);

    if firstRowFormatter.Some? {
      var first := new string[1];
      first[0] := cells[0];
      assert first[..] == [orig[0]];
      first := ApplyColumnFormatter(firstRowFormatter.value, col, first, width);
      cells[0] := first[0];
      width := Max(width, |cells[0]|);
    }
    assert width == DotWidth(firstRowFormatter, col, orig, maxObservedWidth);
    ghost var afterFirst := cells[..];

    var extraPadding := Max(0, width - maxLeftWidth - 1 - maxRightWidth);
    maxLeftWidth := maxLeftWidth + extraPadding;
    assert maxLeftWidth == DotLeft(firstRowFormatter, col, orig, maxObservedWidth);

    WriteDotCells(cells, parts, exempt, maxLeftWidth, maxRightWidth);

    forall k | 0 <= k < cells.Length
      ensures cells[k] == DotAligned(firstRowFormatter, col, orig, maxObservedWidth)[k]
    {
      if !(k == 0 && exempt) {
        DotAlignedCell(firstRowFormatter, col, orig, maxObservedWidth, k);
      }
    }
    r := cells;
  }

  /** Calling a column formatter: the column's cells are rewritten in place. */
  method ApplyColumnFormatter(f: ColumnFormatter, col: int, cells: array<string>, maxObservedWidth: int)
    returns (r: array<string>)
    requires f.AlignAtDotFormatter? && f.firstRow.Some? ==> cells.Length > 0
    requires f.AlignCenterFormatter? && cells.Length > 0 ==> maxObservedWidth >= 0
    modifies cells
    ensures r == cells
    ensures cells[..] == Applied(f, col, old(cells[..]), maxObservedWidth)
    decreases f, 0
  {
    match f
    case AlignRightFormatter =>
      r := AlignRight(col, cells, maxObservedWidth);
    case AlignLeftFormatter =>
      r := AlignLeft(col, cells, maxObservedWidth);
    case AlignCenterFormatter =>
      r := AlignCenter(col, cells, maxObservedWidth);
    case AlignAtDotFormatter(firstRow) =>
      r := AlignAtDot(firstRow, col, cells, maxObservedWidth);
  }

  // ---------------------------------------------------------------------
  // Properties of the decimal-point alignment
  // ---------------------------------------------------------------------

  /** A string padded on the left to `width`, when it is not wider. */
  lemma PadLeft(s: string, width: int)
    requires |s| <= width
    ensures FormatConstWidth(s, width) == Spaces(width - |s|) + s
  {
  }

  /** A string padded on the right to `width`, when it is not wider. */
  lemma PadRight(s: string, width: int)
    requires |s| <= width
    ensures FormatConstWidth(s, -width) == s + Spaces(width - |s|)
  {
    if width == 0 {
      assert s == [];
    }
  }

  /**
   * A one-dot cell laid out with integer-part width `left` and fraction-part
   * width `right` keeps its text between blanks, with its dot at column
   * `left`.
   */
  lemma {:induction false} DotCellOneDot(cell: string, left: int, right: int)
    requires |Split(cell, '.')| == 2
    requires |Split(cell, '.')[0]| <= left && |Split(cell, '.')[1]| <= right
    ensures var p := Split(cell, '.');
      DotCell(cell, left, right) == Spaces(left - |p[0]|) + cell + Spaces(right - |p[1]|)
    ensures |DotCell(cell, left, right)| == left + 1 + right
    ensures DotCell(cell, left, right)[left] == '.'
  {
    var p := Split(cell, '.');
    SplitTwo(cell, '.');
    PadLeft(p[0], left);
    PadRight(p[1], right);
    var x, y := Spaces(left - |p[0]|), Spaces(right - |p[1]|);
    var r := DotCell(cell, left, right);
    assert r == (x + p[0]) + "." + (p[1] + y);
    assert r == x + (p[0] + "." + p[1]) + y by {
      ConcatAssoc(x, p[0], ".", p[1], y);
    }
    assert r[left] == (x + p[0] + ".")[left];
  }

  lemma ConcatAssoc(a: string, b: string, c: string, d: string, e: string)
    ensures (a + b) + c + (d + e) == a + (b + c + d) + e
  {
  }

  /**
   * A cell without a dot laid out with integer-part width `left` and
   * fraction-part width `right` keeps its text, right-aligned to `left`,
   * followed by blanks for the dot and the fraction part.
   */
  lemma {:induction false} DotCellNoDot(cell: string, left: int, right: int)
    requires |Split(cell, '.')| == 1
    requires |cell| <= left && right >= 0
    ensures DotCell(cell, left, right) == Spaces(left - |cell|) + cell + " " + Spaces(right)
    ensures |DotCell(cell, left, right)| == left + 1 + right
  {
    SplitOne(cell, '.');
    PadLeft(cell, left);
    PadRight("", right);
  }

  /**
   * Every non-exempt cell of an aligned column is laid out by `DotCell` with
   * the column's integer-part width `DotLeft` and fraction-part width, and
   * its parts fit them; the integer part, the dot and the fraction part
   * together fill the final width of the column. With `DotCellOneDot`,
   * `DotCellNoDot` and `InvalidDotsMarker` this gives each cell's text.
   */
  lemma {:induction false} DotAlignedCell(firstRow: Option<ColumnFormatter>, col: int, cells: seq<string>, width: int, i: int)
    requires firstRow.Some? ==> |cells| > 0
    requires 0 <= i < |cells| && !(i == 0 && firstRow.Some?)
    ensures DotAligned(firstRow, col, cells, width)[i] ==
      DotCell(cells[i], DotLeft(firstRow, col, cells, width), MaxFracWidth(cells, firstRow.Some?, |cells|))
    ensures DotLeft(firstRow, col, cells, width) + 1 + MaxFracWidth(cells, firstRow.Some?, |cells|) ==
      DotWidth(firstRow, col, cells, width)
    ensures |Split(cells[i], '.')| <= 2 ==> |Split(cells[i], '.')[0]| <= DotLeft(firstRow, col, cells, width)
    ensures |Split(cells[i], '.')| == 2 ==> |Split(cells[i], '.')[1]| <= MaxFracWidth(cells, firstRow.Some?, |cells|)
  {
    var exempt := firstRow.Some?;
    var p := Split(cells[i], '.');
    var maxLeft := MaxIntWidth(cells, exempt, |cells|);
    var maxRight := MaxFracWidth(cells, exempt, |cells|);
    assert DotWidth(firstRow, col, cells, width) >= maxLeft + 1 + maxRight;
    if |p| <= 2 {
      assert Measured(cells, exempt, i);
      MaxIntWidthIsMax(cells, exempt, |cells|);
      MaxFracWidthIsMax(cells, exempt, |cells|);
    }
  }

  /**
   * Every non-exempt cell with at most one dot comes out exactly as wide as
   * the column's final width.
   */
  lemma {:induction false} DotAlignedWidth(firstRow: Option<ColumnFormatter>, col: int, cells: seq<string>, width: int, i: int)
    requires firstRow.Some? ==> |cells| > 0
    requires 0 <= i < |cells| && !(i == 0 && firstRow.Some?) && |Split(cells[i], '.')| <= 2
    ensures |DotAligned(firstRow, col, cells, width)[i]| == DotWidth(firstRow, col, cells, width)
  {
    DotAlignedCell(firstRow, col, cells, width, i);
    var left := DotLeft(firstRow, col, cells, width);
    var right := MaxFracWidth(cells, firstRow.Some?, |cells|);
    if |Split(cells[i], '.')| == 2 {
      DotCellOneDot(cells[i], left, right);
    } else {
      SplitOne(cells[i], '.');
      DotCellNoDot(cells[i], left, right);
    }
  }

  /** A non-exempt cell with two or more dots is replaced by the marker naming it. */
  lemma DotAlignedInvalid(firstRow: Option<ColumnFormatter>, col: int, cells: seq<string>, width: int, i: int)
    requires firstRow.Some? ==> |cells| > 0
    requires 0 <= i < |cells| && !(i == 0 && firstRow.Some?) && |Split(cells[i], '.')| > 2
    ensures DotAligned(firstRow, col, cells, width)[i] == InvalidDotsMarker(cells[i])
  {
    DotAlignedCell(firstRow, col, cells, width, i);
  }

  /**
   * The exempt first cell is whatever the first-row formatter makes of it
   * at the width the measured cells need, and the column's final width is
   * that width widened to the formatted first cell.
   */
  lemma DotAlignedFirst(firstRow: Option<ColumnFormatter>, col: int, cells: seq<string>, width: int)
    requires firstRow.Some? && |cells| > 0
    ensures var r := DotAligned(firstRow, col, cells, width);
      var base := Max(width, MaxIntWidth(cells, true, |cells|) + 1 + MaxFracWidth(cells, true, |cells|));
      && r[0] == Applied(firstRow.value, col, [cells[0]], base)[0]
      && DotWidth(firstRow, col, cells, width) == Max(base, |r[0]|)
  {
  }
}
