/**
 * The `Internal` border: separator lines between rows and a separator
 * glyph between columns.
 *
 * A horizontal line fills every column with the row-separator glyph (a
 * partial glyph at the end when the width is not a multiple of the glyph's
 * width) and puts a run of the crossing glyph, as wide as the column
 * separator, between adjacent columns. An empty crossing glyph falls back to
 * the row-separator glyph.
 */
module Border {
  import opened Text

  // Box-drawing glyphs offered for use as separators.
  const FullWidthHorizontalLine: string := "─"
  const FullHeightVerticalLine: string := "│"
  const FullCross: string := "┼"

  /** `glyph` repeated to fill exactly `width` characters, the last copy cut short. */
  function Fill(glyph: string, width: nat): (r: string)
    requires |glyph| > 0
    ensures |r| == width
    ensures width <= |Repeat(glyph, width / |glyph| + 1)| && r == Repeat(glyph, width / |glyph| + 1)[..width]
  {
    RepeatLength(glyph, width / |glyph|);
    RepeatLength(glyph, width / |glyph| + 1);
    var whole := Repeat(glyph, width / |glyph|);
    assert Repeat(glyph, width / |glyph| + 1) == whole + glyph;
    whole + glyph[..width % |glyph|]
  }

  /** Sum of the column widths. */
  function Sum(ws: seq<nat>): nat {
    if ws == [] then 0 else Sum(ws[..|ws| - 1]) + ws[|ws| - 1]
  }

  /** Every character of a fill is a character of the glyph. */
  lemma {:induction false} FillChars(glyph: string, width: nat, ch: char)
    requires |glyph| > 0 && ch !in glyph
    ensures ch !in Fill(glyph, width)
  {
    RepeatChars(glyph, width / |glyph| + 1, ch);
  }

  lemma {:induction false} RepeatChars(s: string, n: nat, ch: char)
    requires ch !in s
    ensures ch !in Repeat(s, n)
  {
    if n > 0 {
      RepeatChars(s, n - 1, ch);
    }
  }

  /** A join only holds characters of its parts and of the separator. */
  lemma {:induction false} JoinWithChars(parts: seq<string>, sep: string, ch: char)
    requires forall k :: 0 <= k < |parts| ==> ch !in parts[k]
    requires ch !in sep
    ensures ch !in JoinWith(parts, sep)
  {
    if |parts| > 1 {
      JoinWithChars(parts[..|parts| - 1], sep, ch);
    }
  }

  /** The fills of the columns are together as wide as the columns. */
  lemma {:induction false} FillsLength(glyph: string, ws: seq<nat>)
    requires |glyph| > 0
    ensures TotalLength(seq(|ws|, c requires 0 <= c < |ws| => Fill(glyph, ws[c]))) == Sum(ws)
  {
    if ws != [] {
      var fills := seq(|ws|, c requires 0 <= c < |ws| => Fill(glyph, ws[c]));
      var init := ws[..|ws| - 1];
      FillsLength(glyph, init);
      assert fills[..|fills| - 1] == seq(|init|, c requires 0 <= c < |init| => Fill(glyph, init[c]));
    }
  }

  /**
   * Writes `glyph` as many whole times as fit in `width`, then the part of
   * it that fills the rest.
   */
  method WriteFill(sb: Builder, glyph: string, width: nat)
    requires |glyph| > 0
    modifies sb
    ensures sb.contents == old(sb.contents) + Fill(glyph, width)
  {
    for i := 0 to width / |glyph|
      invariant sb.contents == old(sb.contents) + Repeat(glyph, i)
    {
      sb.WriteString(glyph);
    }
    sb.WriteString(glyph[..width % |glyph|]);
  }

  lemma JoinWithStep(parts: seq<string>, sep: string)
    requires |parts| > 0
    ensures JoinWith(parts, sep) == JoinWith(parts[..|parts| - 1], sep)
      + (if |parts| > 1 then sep else "") + parts[|parts| - 1]
  {
  }

  /** What the loop in `Internal.Horizontal` has written once `c` columns are done. */
  ghost function Written(fills: seq<string>, cross: string, c: nat): string
    requires c <= |fills|
  {
    JoinWith(fills[..c], cross) + (if 0 < c < |fills| then cross else "")
  }

  /** One more column written: the join grows by that column's fill. */
  lemma {:induction false} FillsStep(fills: seq<string>, cross: string, c: nat)
    requires c < |fills|
    ensures Written(fills, cross, c) + (fills[c] + (if c < |fills| - 1 then cross else ""))
      == Written(fills, cross, c + 1)
  {
    assert fills[..c + 1][..c] == fills[..c];
    JoinWithStep(fills[..c + 1], cross);
  }

  /** One column's fill, followed by a crossing fill unless it is the last column. */
  method WriteColumn(sb: Builder, glyph: string, crossGlyph: string, width: nat, crossWidth: nat, crossAfter: bool)
    requires |glyph| > 0 && |crossGlyph| > 0
    modifies sb
    ensures sb.contents == old(sb.contents) + Fill(glyph, width)
      + (if crossAfter then Fill(crossGlyph, crossWidth) else "")
  {
    WriteFill(sb, glyph, width);
    if crossAfter {
      WriteFill(sb, crossGlyph, crossWidth);
    }
  }

  /**
   * The body of the loop in `Internal.Horizontal`: one fill per column,
   * with a fill of the crossing glyph after every column but the last.
   */
  method WriteFills(sb: Builder, glyph: string, crossGlyph: string, columnWidths: seq<nat>, crossWidth: nat)
    requires |glyph| > 0 && |crossGlyph| > 0
    modifies sb
    ensures sb.contents == old(sb.contents) + JoinWith(
      seq(|columnWidths|, c requires 0 <= c < |columnWidths| => Fill(glyph, columnWidths[c])),
      Fill(crossGlyph, crossWidth))
  {
    ghost var fills := seq(|columnWidths|, c requires 0 <= c < |columnWidths| => Fill(glyph, columnWidths[c]));
    ghost var cross := Fill(crossGlyph, crossWidth);
    for c := 0 to |columnWidths|
      invariant sb.contents == old(sb.contents) + Written(fills, cross, c)
    {
      ghost var before := sb.contents;
      WriteColumn(sb, glyph, crossGlyph, columnWidths[c], crossWidth, c < |columnWidths| - 1);
      ghost var tail := if c < |columnWidths| - 1 then cross else "";
      Assoc(before, fills[c], tail);
      Assoc(old(sb.contents), Written(fills, cross, c), fills[c] + tail);
      FillsStep(fills, cross, c);
    }
    assert fills[..|columnWidths|] == fills;
  }

  datatype Internal = Internal(columnSeparator: string, rowSeparator: string, crossingSymbol: string) {

    /** Whether a separator line is drawn below row `row` of `numRows`. */
    predicate Draws(row: int, numRows: int) {
      |rowSeparator| > 0 && 0 <= row < numRows
    }

    /** The glyph used where a separator line crosses a column boundary. */
    function Crossing(): string {
      if crossingSymbol == "" then rowSeparator else crossingSymbol
    }

    /** The specification of `Horizontal`. */
    function HorizontalLine(row: int, numRows: int, columnWidths: seq<nat>): (r: string)
      ensures r != [] <==> Draws(row, numRows)
      ensures r != [] ==> r[|r| - 1] == '\n'
    {
      if Draws(row, numRows) then
        JoinWith(seq(|columnWidths|, c requires 0 <= c < |columnWidths| => Fill(rowSeparator, columnWidths[c])),
                 Fill(Crossing(), |columnSeparator|)) + "\n"
      else ""
    }

    /** Go's `Internal.Horizontal`; the receiver is a copy, so only the copy's crossing glyph is replaced. */
    method Horizontal(row: int, numRows: int, columnWidths: seq<nat>) returns (s: string)
      ensures s == HorizontalLine(row, numRows, columnWidths)
    {
      var b := this;
      if |b.rowSeparator| > 0 && row >= 0 && row < numRows {
        if b.crossingSymbol == "" {
          b := b.(crossingSymbol := b.rowSeparator);
        }
        assert b.crossingSymbol == Crossing();
        var sb := new Builder();
        WriteFills(sb, b.rowSeparator, b.crossingSymbol, columnWidths, |b.columnSeparator|);
        ghost var fills := seq(|columnWidths|, c requires 0 <= c < |columnWidths| => Fill(rowSeparator, columnWidths[c]));
        assert sb.contents == JoinWith(fills, Fill(Crossing(), |columnSeparator|));
        sb.WriteString("\n");
        s := sb.contents;
      } else {
        s := "";
      }
    }

    /** Go's `Internal.Vertical`: the column separator after every column but the last. */
    function Vertical(row: int, col: int, numRows: int, numCols: int): (r: string)
      ensures 0 <= col < numCols - 1 ==> r == columnSeparator
      ensures !(0 <= col < numCols - 1) ==> r == []
    {
      if col >= 0 && col < numCols - 1 then columnSeparator else ""
    }
  

    /**
     * A drawn line is as wide as the columns plus one column separator
     * between every two of them, plus its newline.
     */
    lemma {:induction false} HorizontalLineWidth(row: int, numRows: int, columnWidths: seq<nat>)
      requires Draws(row, numRows) && |columnWidths| >= 1
      ensures |HorizontalLine(row, numRows, columnWidths)| ==
        Sum(columnWidths) + (|columnWidths| - 1) * |columnSeparator| + 1
    {
      var fills := seq(|columnWidths|, c requires 0 <= c < |columnWidths| => Fill(rowSeparator, columnWidths[c]));
      JoinWithLength(fills, Fill(Crossing(), |columnSeparator|));
      FillsLength(rowSeparator, columnWidths);
    }

    /**
     * When neither glyph holds a newline, a drawn line holds exactly one
     * newline, at its end.
     */
    lemma {:induction false} HorizontalLineOneNewline(row: int, numRows: int, columnWidths: seq<nat>)
      requires Draws(row, numRows)
      requires '\n' !in rowSeparator && '\n' !in crossingSymbol
      ensures var r := HorizontalLine(row, numRows, columnWidths);
        r[|r| - 1] == '\n' && '\n' !in r[..|r| - 1]
    {
      var fills := seq(|columnWidths|, c requires 0 <= c < |columnWidths| => Fill(rowSeparator, columnWidths[c]));
      forall k | 0 <= k < |fills|
        ensures '\n' !in fills[k]
      {
        FillChars(rowSeparator, columnWidths[k], '\n');
      }
      var cross := Fill(Crossing(), |columnSeparator|);
      FillChars(Crossing(), |columnSeparator|, '\n');
      JoinWithChars(fills, cross, '\n');
      var r := HorizontalLine(row, numRows, columnWidths);
      assert r[..|r| - 1] == JoinWith(fills, cross);
    }

    /** The separator glyph depends only on the column position, never on the row. */
    lemma VerticalIgnoresRow(row: int, otherRow: int, col: int, numRows: int, otherNumRows: int, numCols: int)
      ensures Vertical(row, col, numRows, numCols) == Vertical(otherRow, col, otherNumRows, numCols)
    {
    }
  }

  /** An empty crossing glyph draws the same lines as the row-separator glyph itself. */
  lemma CrossingFallback(columnSeparator: string, rowSeparator: string, row: int, numRows: int, columnWidths: seq<nat>)
    ensures Internal(columnSeparator, rowSeparator, "").HorizontalLine(row, numRows, columnWidths)
         == Internal(columnSeparator, rowSeparator, rowSeparator).HorizontalLine(row, numRows, columnWidths)
  {
  }
}
