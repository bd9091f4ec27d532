/**
 * The table the package's test renders: header A, B, C and the rows
 * (14, 2, 3) and (4, 5, 622) under the defaults `New` installs (values
 * printed as they are, header untouched, every column right-aligned, a
 * blank between columns, a newline after every row, no separator lines).
 */
module LayoutExample {
  import opened Wrappers
  import opened Text
  import opened Formatters
  import opened Border
  import opened Layout
  import opened LayoutProperties

  function Int(text: string): Value {
    Value("int", text)
  }

  const Header: seq<string> := ["A", "B", "C"]
  const Rows: seq<seq<Value>> := [[Int("14"), Int("2"), Int("3")], [Int("4"), Int("5"), Int("622")]]
  const Example: Config := Config(Header, Rows, DefaultBorder, "\n", map[], NoopRowFormatter, [])

  /** The body cells after the value formatters, and the rows after the header formatter. */
  const Cells: seq<seq<string>> := [["14", "2", "3"], ["4", "5", "622"]]
  const Formatted: seq<seq<string>> := [["A", "B", "C"], ["14", "2", "3"], ["4", "5", "622"]]

  /** The rows after each iteration of the column loop. */
  const AfterFirst: seq<seq<string>> := [[" A", "B", "C"], ["14", "2", "3"], [" 4", "5", "622"]]
  const AfterThird: seq<seq<string>> := [[" A", "B", "  C"], ["14", "2", "  3"], [" 4", "5", "622"]]

  lemma ExampleFirstPass()
    ensures NumCols(Header, Rows) == 3
    ensures FormatRows(map[], Rows, 2) == Success(Cells)
  {
    FormatRowsSuccess(map[], Rows, 2);
    var r := FormatRows(map[], Rows, 2);
    assert RowTexts(map[], Rows[0]) == Cells[0];
    assert RowTexts(map[], Rows[1]) == Cells[1];
    assert r.value == Cells;
  }

  lemma ExampleObserved()
    ensures Observed(Cells, 3) == [2, 1, 3]
  {
    assert Cells[..1][..0] == [];
    assert Cells[..1] == [Cells[0]];
    assert ColMax(Cells, 0) == 2;
    assert ColMax(Cells, 1) == 1;
    assert ColMax(Cells, 2) == 3;
  }

  lemma ExamplePrepared()
    ensures Prepared(Example, 3) == Success(Grid(Formatted, [2, 1, 3]))
  {
    ExampleFirstPass();
    ExampleObserved();
    assert ZipMax([2, 1, 3], Header) == [2, 1, 3];
    assert [Header] + Cells == Formatted;
    assert FirstMisfit(Formatted, 0, 3, 3).None?;
  }

  /** Right alignment of one column of three cells that already fit the column's width. */
  lemma RightStep(g: Grid, j: nat, out: seq<string>)
    requires |g.rows| == 3 && j < |g.widths|
    requires j < |g.rows[0]| && j < |g.rows[1]| && j < |g.rows[2]|
    requires |out| == 3
    requires out[0] == FormatConstWidth(g.rows[0][j], g.widths[j])
    requires out[1] == FormatConstWidth(g.rows[1][j], g.widths[j])
    requires out[2] == FormatConstWidth(g.rows[2][j], g.widths[j])
    requires |g.rows[0][j]| <= g.widths[j] && |g.rows[1][j]| <= g.widths[j] && |g.rows[2][j]| <= g.widths[j]
    ensures ColumnStep(Formatting([]), g, j, 3) ==
      Grid([g.rows[0][j := out[0]], g.rows[1][j := out[1]], g.rows[2][j := out[2]]], g.widths)
  {
    RightApplied(g, j, out);
    WidestOfFitting(out, g.widths[j]);
    assert WriteBack(g.rows, j, out) == [g.rows[0][j := out[0]], g.rows[1][j := out[1]], g.rows[2][j := out[2]]];
    assert g.widths[j := g.widths[j]] == g.widths;
  }

  /** The default formatter right-aligns the column's three cells. */
  lemma RightApplied(g: Grid, j: nat, out: seq<string>)
    requires |g.rows| == 3 && j < |g.widths|
    requires j < |g.rows[0]| && j < |g.rows[1]| && j < |g.rows[2]|
    requires |out| == 3
    requires out[0] == FormatConstWidth(g.rows[0][j], g.widths[j])
    requires out[1] == FormatConstWidth(g.rows[1][j], g.widths[j])
    requires out[2] == FormatConstWidth(g.rows[2][j], g.widths[j])
    ensures Formatting([])(j, ColumnValues(g.rows, j, 3), g.widths[j]) == out
  {
    var v := ColumnValues(g.rows, j, 3);
    assert v == [g.rows[0][j], g.rows[1][j], g.rows[2][j]];
    DefaultIsRight(j, v, g.widths[j]);
    assert RightAligned(v, g.widths[j]) == out;
  }

  /** Three cells no wider than `w` leave the width fold at `w`. */
  lemma WidestOfFitting(out: seq<string>, w: nat)
    requires |out| == 3 && |out[0]| <= w && |out[1]| <= w && |out[2]| <= w
    ensures Widest(out, w, 3) == w
  {
    assert Widest(out, w, 1) == w;
    assert Widest(out, w, 2) == w;
  }

  /** Without explicit column formatters every column is right-aligned. */
  lemma DefaultIsRight(j: nat, v: seq<string>, w: nat)
    requires |v| > 0
    ensures Formatting([])(j, v, w) == RightAligned(v, w)
  {
    assert ColumnFormatterAt([], j) == AlignRightFormatter;
  }

  lemma PaddedZero()
    ensures FormatConstWidth("A", 2) == " A" && FormatConstWidth("14", 2) == "14" && FormatConstWidth("4", 2) == " 4"
  {
    assert Spaces(1) == " ";
  }

  lemma ColumnZero()
    ensures ColumnStep(Formatting([]), Grid(Formatted, [2, 1, 3]), 0, 3) == Grid(AfterFirst, [2, 1, 3])
  {
    var g := Grid(Formatted, [2, 1, 3]);
    PaddedZero();
    assert [g.rows[0][0 := " A"], g.rows[1][0 := "14"], g.rows[2][0 := " 4"]] == AfterFirst by {
      assert g.rows[0][0 := " A"] == AfterFirst[0];
      assert g.rows[1][0 := "14"] == AfterFirst[1];
      assert g.rows[2][0 := " 4"] == AfterFirst[2];
    }
    RightStep(g, 0, [" A", "14", " 4"]);
  }

  lemma ColumnOne()
    ensures ColumnStep(Formatting([]), Grid(AfterFirst, [2, 1, 3]), 1, 3) == Grid(AfterFirst, [2, 1, 3])
  {
    var g := Grid(AfterFirst, [2, 1, 3]);
    assert FormatConstWidth("B", 1) == "B" && FormatConstWidth("2", 1) == "2" && FormatConstWidth("5", 1) == "5";
    assert [g.rows[0][1 := "B"], g.rows[1][1 := "2"], g.rows[2][1 := "5"]] == AfterFirst by {
      assert g.rows[0][1 := "B"] == g.rows[0];
      assert g.rows[1][1 := "2"] == g.rows[1];
      assert g.rows[2][1 := "5"] == g.rows[2];
    }
    RightStep(g, 1, ["B", "2", "5"]);
  }

  lemma ColumnTwo()
    ensures ColumnStep(Formatting([]), Grid(AfterFirst, [2, 1, 3]), 2, 3) == Grid(AfterThird, [2, 1, 3])
  {
    var g := Grid(AfterFirst, [2, 1, 3]);
    assert Spaces(2) == "  ";
    assert FormatConstWidth("C", 3) == "  C" && FormatConstWidth("3", 3) == "  3" && FormatConstWidth("622", 3) == "622";
    assert [g.rows[0][2 := "  C"], g.rows[1][2 := "  3"], g.rows[2][2 := "622"]] == AfterThird by {
      assert g.rows[0][2 := "  C"] == AfterThird[0];
      assert g.rows[1][2 := "  3"] == AfterThird[1];
      assert g.rows[2][2 := "622"] == AfterThird[2];
    }
    RightStep(g, 2, ["  C", "  3", "622"]);
  }

  lemma ExampleColumns()
    ensures Columns(Formatting([]), Grid(Formatted, [2, 1, 3]), 3, 3) == Grid(AfterThird, [2, 1, 3])
  {
    var apply := Formatting([]);
    var g0 := Grid(Formatted, [2, 1, 3]);
    assert FitsBuffer(g0.rows, 3);
    ColumnZero();
    assert Columns(apply, g0, 3, 1) == Grid(AfterFirst, [2, 1, 3]);
    ColumnOne();
    assert Columns(apply, g0, 3, 2) == Grid(AfterFirst, [2, 1, 3]);
    ColumnTwo();
  }

  lemma ExampleJoined()
    ensures JoinedRows(DefaultBorder, AfterThird, [2, 1, 3], 2, "\n", 3) == " A B   C\n14 2   3\n 4 5 622\n"
  {
    var b := DefaultBorder;
    assert JoinedRows(b, AfterThird, [2, 1, 3], 2, "\n", 1) == " A B   C\n" by {
      JoinedRow(0, " A B   C");
    }
    assert JoinedRows(b, AfterThird, [2, 1, 3], 2, "\n", 2) == " A B   C\n14 2   3\n" by {
      JoinedRow(1, "14 2   3");
    }
    JoinedRow(2, " 4 5 622");
  }

  /** Row `i` of the example with its cells joined, its newline, and no separator line. */
  lemma JoinedRow(i: nat, text: string)
    requires i < 3
    requires text == AfterThird[i][0] + " " + AfterThird[i][1] + " " + AfterThird[i][2]
    ensures JoinWith(AfterThird[i], DefaultBorder.columnSeparator) + "\n" + DefaultBorder.HorizontalLine(i, 2, [2, 1, 3])
      == text + "\n"
  {
    assert !DefaultBorder.Draws(i, 2);
    assert AfterThird[i] == [AfterThird[i][0], AfterThird[i][1], AfterThird[i][2]];
    JoinThree(AfterThird[i][0], AfterThird[i][1], AfterThird[i][2]);
  }

  lemma JoinThree(x: string, y: string, z: string)
    ensures JoinWith([x, y, z], " ") == x + " " + y + " " + z
  {
    assert [x, y, z][..2] == [x, y];
    assert [x, y][..1] == [x];
    assert JoinWith([x], " ") == x;
    assert JoinWith([x, y], " ") == x + " " + y;
  }

  /** The rendering of the table the package's test prints. */
  lemma ExampleRender()
    ensures Render(Example) == Success(" A B   C\n14 2   3\n 4 5 622\n")
  {
    ExampleFirstPass();
    ExamplePrepared();
    ExampleColumns();
    AssembleIsJoined(DefaultBorder, AfterThird, [2, 1, 3], 3, 2, "\n", 3);
    ExampleJoined();
  }

  /** Two columns and two body rows: the second body row is written at index 2 of a two-cell buffer. */
  const Square: Config := Config(["A", "B"], [[Int("1"), Int("2")], [Int("3"), Int("4")]], DefaultBorder, "\n", map[], NoopRowFormatter, [])

  lemma SquareOverflows()
    ensures Render(Square) == Failure(IndexOutOfRange(2, 2))
  {
    assert NumCols(Square.header, Square.rows) == 2;
    assert RowOk(map[], Square.rows[0]) && RowOk(map[], Square.rows[1]);
    assert Overflows(Square.header, Square.rows) by {
      assert |Square.rows[1]| > 0 && 1 + 1 >= 2;
    }
    RenderOutOfRange(Square);
  }

  lemma SquareWithRowBuffer()
    ensures RenderWithRowBuffer(Square).Success?
  {
    assert RowOk(map[], Square.rows[0]) && RowOk(map[], Square.rows[1]);
    RowBufferNeverOverflows(Square);
  }
}
