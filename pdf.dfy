/**
 * The report's `PDF` class (myPDF.py) over an abstract fpdf canvas. The canvas
 * keeps the cursor, the font's boldness and size, the fill colour, and the
 * list of everything drawn so far; font metrics and line wrapping are
 * functions it is given.
 */
module Pdf {
  import opened Options

  datatype Colour = RGB(red: int, green: int, blue: int)

  const White := RGB(255, 255, 255)
  const Black := RGB(0, 0, 0)
  /** The header background: the logo colour (40, 72, 124) lightened by 120 per channel. */
  const HeaderFill := RGB(160, 192, 244)

  type Positive = n: int | n >= 1 witness 1

  /** What a drawing call leaves on the page. */
  datatype Mark =
    | CellMark(x: real, y: real, w: real, h: real, text: string, border: bool, fill: Option<Colour>, bold: bool)
    | TextMark(x: real, y: real, w: real, lineHeight: real, text: string)
    | RuleMark(x1: real, y1: real, x2: real, y2: real)

  /** `sum(ws)`. */
  function Sum(ws: seq<real>): real
    decreases |ws|
  {
    if ws == [] then 0.0 else Sum(ws[..|ws| - 1]) + ws[|ws| - 1]
  }

  /** One table row drawn from `x0`: a bordered, filled cell per text, each starting where the previous ended. */
  function RowMarks(x0: real, y0: real, texts: seq<string>, widths: seq<real>, h: real, fill: Colour, bold: bool)
    : (r: seq<Mark>)
    requires |texts| == |widths|
    ensures |r| == |texts|
    decreases |texts|
  {
    if texts == [] then []
    else
      var n := |texts| - 1;
      RowMarks(x0, y0, texts[..n], widths[..n], h, fill, bold)
        + [CellMark(x0 + Sum(widths[..n]), y0, widths[n], h, texts[n], true, Some(fill), bold)]
  }

  /** Cell `i` of a row: at `x0` plus the widths before it, on the row's line, with its own text and width. */
  lemma {:induction false} RowMarksAt(x0: real, y0: real, texts: seq<string>, widths: seq<real>, h: real,
                                      fill: Colour, bold: bool, i: nat)
    requires |texts| == |widths| && i < |texts|
    ensures RowMarks(x0, y0, texts, widths, h, fill, bold)[i]
         == CellMark(x0 + Sum(widths[..i]), y0, widths[i], h, texts[i], true, Some(fill), bold)
    decreases |texts|
  {
    var n := |texts| - 1;
    if i < n {
      RowMarksAt(x0, y0, texts[..n], widths[..n], h, fill, bold, i);
      assert widths[..n][..i] == widths[..i];
    }
  }

  /** How far row `i` of a table starts below row 0: `i` row heights. */
  function RowOffset(i: nat, h: real): real
  {
    if i == 0 then 0.0 else RowOffset(i - 1, h) + h
  }

  /** The offset is the product `i * h`. */
  lemma {:induction false} RowOffsetIsProduct(i: nat, h: real)
    ensures RowOffset(i, h) == i as real * h
  {
    if i > 0 {
      RowOffsetIsProduct(i - 1, h);
    }
  }

  /** Body rows of a table, one below the other from `y0`, all with the same widths, a white fill and a regular font. */
  function BodyMarks(x0: real, y0: real, rows: seq<seq<string>>, widths: seq<real>, h: real): seq<Mark>
    requires forall i :: 0 <= i < |rows| ==> |rows[i]| == |widths|
    decreases |rows|
  {
    if rows == [] then []
    else
      var n := |rows| - 1;
      BodyMarks(x0, y0, rows[..n], widths, h) + RowMarks(x0, y0 + RowOffset(n, h), rows[n], widths, h, White, false)
  }

  /**
   * Row `i` adds its cells after those of the rows above it (and after any
   * marks drawn before the table), `RowOffset(i, h)` below the first row.
   */
  lemma BodyMarksStep(before: seq<Mark>, x0: real, y0: real, rows: seq<seq<string>>, widths: seq<real>, h: real, i: nat)
    requires forall k :: 0 <= k < |rows| ==> |rows[k]| == |widths|
    requires i < |rows|
    ensures before + BodyMarks(x0, y0, rows[..i + 1], widths, h)
         == before + BodyMarks(x0, y0, rows[..i], widths, h) + RowMarks(x0, y0 + RowOffset(i, h), rows[i], widths, h, White, false)
  {
    assert rows[..i + 1][..i] == rows[..i];
  }

  /** Drawing fewer rows draws a prefix of the marks. */
  lemma {:induction false} BodyMarksPrefix(x0: real, y0: real, rows: seq<seq<string>>, widths: seq<real>, h: real, m: nat)
    requires forall i :: 0 <= i < |rows| ==> |rows[i]| == |widths|
    requires m <= |rows|
    ensures BodyMarks(x0, y0, rows[..m], widths, h) <= BodyMarks(x0, y0, rows, widths, h)
    decreases |rows|
  {
    if m < |rows| {
      var n := |rows| - 1;
      BodyMarksPrefix(x0, y0, rows[..n], widths, h, m);
      assert rows[..n][..m] == rows[..m];
    } else {
      assert rows[..m] == rows;
    }
  }

  /**
   * The table is a grid: the marks of body row `i` follow those of the rows
   * above it, and its cell `j` sits `RowOffset(i, h)` below the first row at
   * the same offset `Sum(widths[..j])` as in every other row.
   */
  lemma BodyMarksAt(x0: real, y0: real, rows: seq<seq<string>>, widths: seq<real>, h: real, i: nat, j: nat)
    requires forall k :: 0 <= k < |rows| ==> |rows[k]| == |widths|
    requires i < |rows| && j < |widths|
    ensures |BodyMarks(x0, y0, rows[..i], widths, h)| + j < |BodyMarks(x0, y0, rows, widths, h)|
    ensures BodyMarks(x0, y0, rows, widths, h)[|BodyMarks(x0, y0, rows[..i], widths, h)| + j]
         == CellMark(x0 + Sum(widths[..j]), y0 + RowOffset(i, h), widths[j], h, rows[i][j], true, Some(White), false)
  {
    var upTo := rows[..i + 1];
    assert upTo[..i] == rows[..i];
    var before := BodyMarks(x0, y0, rows[..i], widths, h);
    var row := RowMarks(x0, y0 + RowOffset(i, h), rows[i], widths, h, White, false);
    assert BodyMarks(x0, y0, upTo, widths, h) == before + row;
    BodyMarksPrefix(x0, y0, rows, widths, h, i + 1);
    RowMarksAt(x0, y0 + RowOffset(i, h), rows[i], widths, h, White, false, j);
    assert (before + row)[|before| + j] == row[j];
  }

  /** The lines `multi_cell` fills for each bullet, added up. */
  function BulletLines(bullets: seq<string>, w: real, lines: (string, real) -> Positive): nat
    decreases |bullets|
  {
    if bullets == [] then 0
    else BulletLines(bullets[..|bullets| - 1], w, lines) + lines("- " + bullets[|bullets| - 1], w)
  }

  /** The bullet blocks of a paragraph: each at `xloc`, below the previous one, prefixed with `- `. */
  function BulletMarks(bullets: seq<string>, xloc: real, y0: real, w: real, lines: (string, real) -> Positive)
    : (r: seq<Mark>)
    ensures |r| == |bullets|
    decreases |bullets|
  {
    if bullets == [] then []
    else
      var n := |bullets| - 1;
      BulletMarks(bullets[..n], xloc, y0, w, lines)
        + [TextMark(xloc, y0 + 5.0 * BulletLines(bullets[..n], w, lines) as real, w, 5.0, "- " + bullets[n])]
  }

  /** Bullet `i` starts at `xloc`, no higher than the first, and reads `- ` followed by its text. */
  lemma {:induction false} BulletMarksAt(bullets: seq<string>, xloc: real, y0: real, w: real,
                                         lines: (string, real) -> Positive, i: nat)
    requires i < |bullets|
    ensures var m := BulletMarks(bullets, xloc, y0, w, lines)[i];
      m.TextMark? && m.x == xloc && m.y >= y0 && m.w == w && m.text == "- " + bullets[i]
    decreases |bullets|
  {
    var n := |bullets| - 1;
    if i < n {
      BulletMarksAt(bullets[..n], xloc, y0, w, lines, i);
      assert bullets[..n][i] == bullets[i];
    }
  }

  class PDF {
    var x: real
    var y: real
    /** The current font size in user units (`font_size`). */
    var fontSize: real
    var bold: bool
    var fillColour: Colour
    /** Everything drawn so far, in order. */
    var marks: seq<Mark>

    /** Points per user unit. */
    const k: real
    const lMargin: real
    const rMargin: real
    const pageWidth: real
    /** `get_string_width` for a text, boldness and font size. */
    const stringWidth: (string, bool, real) -> real
    /** How many lines `multi_cell` wraps a text into at a given width. */
    const wrapLines: (string, real) -> Positive

    predicate Valid()
    {
      k > 0.0
    }

    /** `font_size` after `set_font(..., 10)`, the size every table uses. */
    function TableFontSize(): real
      requires Valid()
    {
      10.0 / k
    }

    /** The height of every table row: twice the table font size. */
    function RowHeight(): real
      requires Valid()
    {
      2.0 * TableFontSize()
    }

    /** Header widths when none are supplied: each text's width in bold plus 2. */
    function HeaderWidths(text: seq<string>): (ws: seq<real>)
      requires Valid()
      ensures |ws| == |text|
    {
      seq(|text|, i requires 0 <= i < |text| => stringWidth(text[i], true, TableFontSize()) + 2.0)
    }

    /** The width `multi_cell(w=0, ...)` fills from `xloc`: up to the right margin. */
    function ParWidth(xloc: real): real
    {
      pageWidth - rMargin - xloc
    }

    /** The widths a row is drawn with: the supplied ones, else those of a header row. */
    function ColumnWidths(text: seq<string>, colWidths: Option<seq<real>>): seq<real>
      requires Valid()
    {
      if colWidths.Some? then colWidths.value else HeaderWidths(text)
    }

    /** Where the intro of a paragraph at (xloc, yloc) ends: one 5-unit line per wrapped line. */
    function IntroEnd(intro: string, xloc: real, yloc: real): real
    {
      yloc + 5.0 * wrapLines(intro, ParWidth(xloc)) as real
    }

    constructor (k: real, lMargin: real, rMargin: real, pageWidth: real, top: real,
                 stringWidth: (string, bool, real) -> real, wrapLines: (string, real) -> Positive)
      requires k > 0.0
      ensures Valid()
      ensures this.k == k && this.lMargin == lMargin && this.rMargin == rMargin && this.pageWidth == pageWidth
      ensures this.stringWidth == stringWidth && this.wrapLines == wrapLines
      ensures x == lMargin && y == top && marks == []
    {
      this.k, this.lMargin, this.rMargin, this.pageWidth := k, lMargin, rMargin, pageWidth;
      this.stringWidth, this.wrapLines := stringWidth, wrapLines;
      x, y := lMargin, top;
      fontSize, bold, fillColour := 0.0, false, Black;
      marks := [];
    }

    // fpdf primitives, with the effects the model assumes of them.

    /** `set_font(family, style, size)`: bold when the style holds `B`; the family is not modelled. */
    method SetFont(style: string, size: real)
      requires Valid()
      modifies this
      ensures bold == ('B' in style) && fontSize == size / k
      ensures x == old(x) && y == old(y) && fillColour == old(fillColour) && marks == old(marks)
    {
      bold := 'B' in style;
      fontSize := size / k;
    }

    /** `set_fill_color(r, g, b)`. */
    method SetFillColor(r: int, g: int, b: int)
      modifies this
      ensures fillColour == RGB(r, g, b)
      ensures x == old(x) && y == old(y) && fontSize == old(fontSize) && bold == old(bold) && marks == old(marks)
    {
      fillColour := RGB(r, g, b);
    }

    /** `cell(w, h, txt, border, ln, fill)`: draws at the cursor, then moves right by `w`, or to the next line when `ln`. */
    method Cell(w: real, h: real, txt: string, border: bool, ln: bool, fill: bool)
      modifies this
      ensures marks == old(marks) + [CellMark(old(x), old(y), w, h, txt, border, if fill then Some(fillColour) else None, bold)]
      ensures if ln then x == lMargin && y == old(y) + h else x == old(x) + w && y == old(y)
      ensures fontSize == old(fontSize) && bold == old(bold) && fillColour == old(fillColour)
    {
      marks := marks + [CellMark(x, y, w, h, txt, border, if fill then Some(fillColour) else None, bold)];
      if ln {
        x, y := lMargin, y + h;
      } else {
        x := x + w;
      }
    }

    /** `ln(h)`: back to the left margin, down by `h`. */
    method Ln(h: real)
      modifies this
      ensures x == lMargin && y == old(y) + h
      ensures fontSize == old(fontSize) && bold == old(bold) && fillColour == old(fillColour) && marks == old(marks)
    {
      x, y := lMargin, y + h;
    }

    /** `set_xy(x, y)`. */
    method SetXY(newX: real, newY: real)
      modifies this
      ensures x == newX && y == newY
      ensures fontSize == old(fontSize) && bold == old(bold) && fillColour == old(fillColour) && marks == old(marks)
    {
      x, y := newX, newY;
    }

    /** `set_x(x)`. */
    method SetX(newX: real)
      modifies this
      ensures x == newX && y == old(y)
      ensures fontSize == old(fontSize) && bold == old(bold) && fillColour == old(fillColour) && marks == old(marks)
    {
      x := newX;
    }

    /** `set_y(y)`: also moves back to the left margin. */
    method SetY(newY: real)
      modifies this
      ensures x == lMargin && y == newY
      ensures fontSize == old(fontSize) && bold == old(bold) && fillColour == old(fillColour) && marks == old(marks)
    {
      x, y := lMargin, newY;
    }

    /** `multi_cell(0, h, txt)`: a wrapped block up to the right margin; the cursor ends below it at the left margin. */
    method MultiCell(h: real, txt: string)
      modifies this
      ensures marks == old(marks) + [TextMark(old(x), old(y), ParWidth(old(x)), h, txt)]
      ensures x == lMargin && y == old(y) + h * wrapLines(txt, ParWidth(old(x))) as real
      ensures fontSize == old(fontSize) && bold == old(bold) && fillColour == old(fillColour)
    {
      var w := ParWidth(x);
      marks := marks + [TextMark(x, y, w, h, txt)];
      x, y := lMargin, y + h * wrapLines(txt, w) as real;
    }

    /** `line(x1, y1, x2, y2)`. */
    method Line(x1: real, y1: real, x2: real, y2: real)
      modifies this
      ensures marks == old(marks) + [RuleMark(x1, y1, x2, y2)]
      ensures x == old(x) && y == old(y) && fontSize == old(fontSize) && bold == old(bold) && fillColour == old(fillColour)
    {
      marks := marks + [RuleMark(x1, y1, x2, y2)];
    }

    /** `get_string_width(s)` in the current font. */
    function StringWidth(s: string): real
      reads this
    {
      stringWidth(s, bold, fontSize)
    }

    // The methods of myPDF.py.

    /** The cell loop of `buildTable`: one bordered, filled cell per text, left to right, without a line break. */
    method DrawRow(text: seq<string>, widths: seq<real>, h: real)
      requires |text| == |widths|
      modifies this
      ensures marks == old(marks) + RowMarks(old(x), old(y), text, widths, h, fillColour, bold)
      ensures x == old(x) + Sum(widths) && y == old(y)
      ensures fontSize == old(fontSize) && bold == old(bold) && fillColour == old(fillColour)
    {
      for i := 0 to |text|
        invariant x == old(x) + Sum(widths[..i]) && y == old(y)
        invariant fontSize == old(fontSize) && bold == old(bold) && fillColour == old(fillColour)
        invariant marks == old(marks) + RowMarks(old(x), old(y), text[..i], widths[..i], h, fillColour, bold)
      {
        Cell(widths[i], h, text[i], true, false, true);
        assert text[..i + 1][..i] == text[..i] && widths[..i + 1][..i] == widths[..i];
      }
      assert text[..|text|] == text && widths[..|text|] == widths;
    }


    /**
     * `buildTable`: one table row. A header row is bold on the header fill and,
     * when no widths are supplied, sizes each column to its text plus 2; a body
     * row uses the supplied widths and the current fill. Either way the cursor
     * ends one row height lower at the left margin, with a white fill and a
     * regular font; only a header row returns its widths.
     */
    method BuildTable(text: seq<string>, colWidths: Option<seq<real>>, isHead: bool) returns (r: Option<seq<real>>)
      requires Valid()
      requires isHead || colWidths.Some?
      requires colWidths.Some? ==> |colWidths.value| == |text|
      modifies this
      ensures marks == old(marks) + RowMarks(old(x), old(y), text, ColumnWidths(text, colWidths), RowHeight(),
                                             if isHead then HeaderFill else old(fillColour), isHead)
      ensures r == if isHead then Some(ColumnWidths(text, colWidths)) else None
      ensures x == lMargin && y == old(y) + RowHeight()
      ensures fillColour == White && !bold && fontSize == TableFontSize()
    {
      SetFont("", 10.0);
      var widths: seq<real>;
      if isHead {
        SetFillColor(160, 192, 244);
        SetFont("B", 10.0);
        if colWidths.None? {
          var style, size := bold, fontSize;
          assert style && size == TableFontSize();
          widths := seq(|text|, i requires 0 <= i < |text| => stringWidth(text[i], style, size) + 2.0);
          assert forall i :: 0 <= i < |text| ==> widths[i] == HeaderWidths(text)[i];
          assert widths == HeaderWidths(text);
        } else {
          widths := colWidths.value;
        }
      } else {
        widths := colWidths.value;
      }
      var th := fontSize;
      DrawRow(text, widths, 2.0 * th);
      SetFont("", 10.0);
      Ln(2.0 * th);
      SetFillColor(255, 255, 255);
      if isHead {
        r := Some(widths);
      } else {
        r := None;
      }
    }

    /**
     * `chapterSpace`: 10 units of space, a rule across the page, 10 more units,
     * then an empty 50-wide placeholder cell; returns the position recorded
     * before that cell, where `chapterFill` can later write the title.
     */
    method ChapterSpace() returns (xloc: real, yloc: real)
      requires Valid()
      modifies this
      ensures xloc == lMargin && yloc == old(y) + 20.0
      ensures marks == old(marks) + [RuleMark(lMargin, old(y) + 10.0, pageWidth - rMargin, old(y) + 10.0),
                                      CellMark(xloc, yloc, 50.0, 10.0, "", false, None, true)]
      ensures x == lMargin && y == yloc + 10.0
      ensures bold && fontSize == 15.0 / k && fillColour == old(fillColour)
    {
      Ln(10.0);
      Line(lMargin, y, pageWidth - rMargin, y);
      Ln(10.0);
      xloc := x;
      yloc := y;
      SetFont("B", 15.0);
      Cell(50.0, 10.0, "", false, true, false);
    }

    /**
     * `chapterFill`: writes the title at (xloc, yloc) and puts the cursor back
     * exactly where it was; only the title cell is drawn.
     */
    method ChapterFill(title: string, xloc: real, yloc: real)
      requires Valid()
      modifies this
      ensures marks == old(marks) + [CellMark(xloc, yloc, 150.0, 10.0, title, false, None, true)]
      ensures x == old(x) && y == old(y)
      ensures bold && fontSize == 15.0 / k && fillColour == old(fillColour)
    {
      var xcur := x;
      var ycur := y;
      SetXY(xloc, yloc);
      SetFont("B", 15.0);
      Cell(150.0, 10.0, title, false, true, false);
      SetXY(xcur, ycur);
    }

    /** `chapter`: a 150-wide, 10-high bold title cell, then the start of the next line. */
    method Chapter(title: string)
      requires Valid()
      modifies this
      ensures marks == old(marks) + [CellMark(old(x), old(y), 150.0, 10.0, title, false, None, true)]
      ensures x == lMargin && y == old(y) + 10.0
      ensures bold && fontSize == 15.0 / k && fillColour == old(fillColour)
    {
      SetFont("B", 15.0);
      Cell(150.0, 10.0, title, false, true, false);
    }

    /**
     * `printPar`: the intro at (xloc, yloc), then one block per bullet, each
     * starting again at `xloc` and prefixed with `- `. Every block runs to the
     * right margin with 5-unit lines; the cursor ends below the last block.
     */
    method PrintPar(intro: string, bulletText: seq<string>, xloc: real, yloc: real)
      requires Valid()
      modifies this
      ensures marks == old(marks) + [TextMark(xloc, yloc, ParWidth(xloc), 5.0, intro)]
                       + BulletMarks(bulletText, xloc, IntroEnd(intro, xloc, yloc), ParWidth(xloc), wrapLines)
      ensures y == IntroEnd(intro, xloc, yloc) + 5.0 * BulletLines(bulletText, ParWidth(xloc), wrapLines) as real
      ensures x == lMargin && !bold && fontSize == TableFontSize() && fillColour == old(fillColour)
    {
      SetFont("", 10.0);
      SetXY(xloc, yloc);
      MultiCell(5.0, intro);
      ghost var w := ParWidth(xloc);
      ghost var introEnd := y;
      ghost var marks0 := marks;
      for i := 0 to |bulletText|
        invariant marks == marks0 + BulletMarks(bulletText[..i], xloc, introEnd, w, wrapLines)
        invariant y == introEnd + 5.0 * BulletLines(bulletText[..i], w, wrapLines) as real
        invariant x == lMargin && !bold && fontSize == TableFontSize() && fillColour == old(fillColour)
      {
        SetX(xloc);
        MultiCell(5.0, "- " + bulletText[i]);
        assert bulletText[..i + 1][..i] == bulletText[..i];
      }
      assert bulletText[..|bulletText|] == bulletText;
    }
  }
}
