/** The column-major grid of the CLI: items run down the columns, and every column is as
    wide as the widest item plus the padding. */
module Grid {
  import opened Wrappers

  datatype Item = Item(display: string, width: nat)

  /** What is printed on a line: an item's text, or a run of spaces. */
  datatype Piece = Text(index: nat) | Blank(count: nat)

  /** An item and the offset on its line where its text starts. */
  datatype Placement = Placement(offset: nat, index: nat)

  datatype Layout = Layout(colWidth: int, cols: nat, rows: nat)

  function MaxWidth(items: seq<Item>): (m: nat)
    ensures forall i :: 0 <= i < |items| ==> items[i].width <= m
    ensures m == 0 || exists i :: 0 <= i < |items| && items[i].width == m
  {
    if items == [] then 0
    else
      var m := MaxWidth(items[..|items| - 1]);
      var last := items[|items| - 1];
      assert items == items[..|items| - 1] + [last];
      if last.width > m then last.width else m
  }

  /** Go's integer division, which truncates towards zero. */
  function Quotient(a: nat, b: int): int
    requires b != 0
  {
    if b > 0 then a / b else -(a / -b)
  }

  /** Go's division panics when no item has a width and there is no padding. */
  function LayoutOf(items: seq<Item>, padding: int, termWidth: nat): Option<Layout> {
    var colWidth := MaxWidth(items) + padding;
    if colWidth == 0 then None
    else
      var q := Quotient(termWidth, colWidth);
      var cols := if q < 1 then 1 else q;
      Some(Layout(colWidth, cols, (|items| + cols - 1) / cols))
  }

  function IndexOf(l: Layout, row: nat, col: nat): nat { col * l.rows + row }

  function Cell(items: seq<Item>, l: Layout, row: nat, col: nat): seq<Piece> {
    var idx := IndexOf(l, row, col);
    if idx >= |items| then []
    else if col < l.cols - 1 && idx + l.rows < |items| && l.colWidth > items[idx].width then
      [Text(idx), Blank(l.colWidth - items[idx].width)]
    else [Text(idx)]
  }

  /** The pieces of a line's first `n` columns. */
  function Columns(items: seq<Item>, l: Layout, row: nat, n: nat): seq<Piece> {
    if n == 0 then [] else Columns(items, l, row, n - 1) + Cell(items, l, row, n - 1)
  }

  function Line(items: seq<Item>, l: Layout, row: nat): seq<Piece> { Columns(items, l, row, l.cols) }

  function Lines(items: seq<Item>, l: Layout, n: nat): seq<seq<Piece>> {
    if n == 0 then [] else Lines(items, l, n - 1) + [Line(items, l, n - 1)]
  }

  // ----- what a line looks like

  predicate Indexed(pieces: seq<Piece>, n: nat) {
    forall i :: 0 <= i < |pieces| && pieces[i].Text? ==> pieces[i].index < n
  }

  function Width(items: seq<Item>, pieces: seq<Piece>): nat
    requires Indexed(pieces, |items|)
  {
    if pieces == [] then 0
    else
      var last := pieces[|pieces| - 1];
      Width(items, pieces[..|pieces| - 1]) + if last.Text? then items[last.index].width else last.count
  }

  function Placed(items: seq<Item>, pieces: seq<Piece>): seq<Placement>
    requires Indexed(pieces, |items|)
  {
    if pieces == [] then []
    else
      var prev, last := pieces[..|pieces| - 1], pieces[|pieces| - 1];
      Placed(items, prev) + if last.Text? then [Placement(Width(items, prev), last.index)] else []
  }

  /** How many items a row has. */
  function InRow(l: Layout, n: nat, row: nat): nat
    requires row < n && l.rows > 0
  {
    (n - 1 - row) / l.rows + 1
  }

  /** Column `c` of the row starts at offset c * colWidth and shows item c * rows + row. */
  function Places(l: Layout, row: nat, n: nat): (p: seq<Placement>)
    requires l.colWidth > 0
    ensures |p| == n && forall c :: 0 <= c < n ==> p[c] == Placement(c * l.colWidth, IndexOf(l, row, c))
  {
    if n == 0 then [] else Places(l, row, n - 1) + [Placement((n - 1) * l.colWidth, IndexOf(l, row, n - 1))]
  }

  /** The layout of a non-empty list with padding that makes columns wide enough. */
  predicate Fit(items: seq<Item>, l: Layout) {
    && items != [] && l.cols >= 1 && l.rows == (|items| + l.cols - 1) / l.cols
    && l.colWidth > 0 && forall i :: 0 <= i < |items| ==> items[i].width <= l.colWidth
  }

  lemma LayoutFits(items: seq<Item>, padding: nat, termWidth: nat)
    requires items != []
    ensures LayoutOf(items, padding, termWidth).None? <==> padding == 0 && MaxWidth(items) == 0
    ensures LayoutOf(items, padding, termWidth).Some? ==> Fit(items, LayoutOf(items, padding, termWidth).value)
  {
  }

  lemma Product(a: int, b: int, c: nat)
    ensures a <= b ==> a * c <= b * c
    ensures (a + 1) * c == a * c + c && 0 * c == 0
    ensures c >= 1 && a >= 0 ==> a * c >= a
  {
    if a <= b {
      assert (b - a) * c >= 0;
      assert b * c == (b - a) * c + a * c;
    }
    if c >= 1 && a >= 0 {
      assert a * (c - 1) >= 0;
      assert a * c == a * (c - 1) + a;
    }
  }

  lemma Division(x: nat, d: nat)
    requires d > 0
    ensures x / d * d + x % d == x && 0 <= x % d < d && x / d >= 0
  {
  }

  lemma RowsCover(n: nat, cols: nat)
    requires n > 0 && cols > 0
    ensures var rows := (n + cols - 1) / cols; 1 <= rows <= n && cols * rows >= n
  {
    var rows := (n + cols - 1) / cols;
    Division(n + cols - 1, cols);
    Product(rows, 0, cols);
    Product(n + 1, rows, cols);
    Product(n, n, cols);
  }

  lemma InRowExactly(l: Layout, n: nat, row: nat, col: nat)
    requires row < n && l.rows > 0
    ensures IndexOf(l, row, col) < n <==> col < InRow(l, n, row)
  {
    var q := (n - 1 - row) / l.rows;
    Division(n - 1 - row, l.rows);
    Product(col, q, l.rows);
    Product(q, q, l.rows);
    Product(q + 1, col, l.rows);
  }

  lemma InRowBound(items: seq<Item>, l: Layout, row: nat)
    requires Fit(items, l) && row < l.rows
    ensures 0 < l.rows && row < |items| && 1 <= InRow(l, |items|, row) <= l.cols
  {
    RowsCover(|items|, l.cols);
    InRowExactly(l, |items|, row, l.cols);
  }

  lemma Append(items: seq<Item>, pieces: seq<Piece>, cell: seq<Piece>)
    requires Indexed(pieces, |items|) && Indexed(cell, |items|) && 1 <= |cell| <= 2
    requires cell[0].Text? && (|cell| == 2 ==> cell[1].Blank?)
    ensures Indexed(pieces + cell, |items|)
    ensures Placed(items, pieces + cell) == Placed(items, pieces) + [Placement(Width(items, pieces), cell[0].index)]
    ensures Width(items, pieces + cell) ==
            Width(items, pieces) + items[cell[0].index].width + if |cell| == 2 then cell[1].count else 0
  {
    var one := pieces + [cell[0]];
    assert one[..|one| - 1] == pieces;
    if |cell| == 2 {
      var two := one + [cell[1]];
      assert pieces + cell == two && two[..|two| - 1] == one;
    } else {
      assert pieces + cell == one;
    }
  }

  /** After `n` columns of a row. */
  ghost predicate Aligned(items: seq<Item>, l: Layout, row: nat, n: nat)
    requires Fit(items, l) && row < |items| && l.rows > 0
  {
    var m := InRow(l, |items|, row);
    var pieces := Columns(items, l, row, n);
    && Indexed(pieces, |items|)
    && Placed(items, pieces) == Places(l, row, if n < m then n else m)
    && (n < m ==> Width(items, pieces) == n * l.colWidth)
    && (n >= m ==> IndexOf(l, row, m - 1) < |items| &&
                   Width(items, pieces) == (m - 1) * l.colWidth + items[IndexOf(l, row, m - 1)].width)
  }

  lemma {:induction false} ColumnsAligned(items: seq<Item>, l: Layout, row: nat, n: nat)
    requires Fit(items, l) && row < l.rows && n <= l.cols
    ensures row < |items| && Aligned(items, l, row, n)
  {
    hide Cell, IndexOf, InRow, Fit;
    InRowBound(items, l, row);
    if n > 0 {
      ColumnsAligned(items, l, row, n - 1);
      ColumnStep(items, l, row, n - 1);
    }
  }

  lemma ColumnStep(items: seq<Item>, l: Layout, row: nat, col: nat)
    requires Fit(items, l) && row < l.rows && row < |items| && col < l.cols && Aligned(items, l, row, col)
    ensures Aligned(items, l, row, col + 1)
  {
    hide InRow, Places, Placed, Width, Columns;
    var m := InRow(l, |items|, row);
    var pieces, cell := Columns(items, l, row, col), Cell(items, l, row, col);
    InRowBound(items, l, row);
    InRowExactly(l, |items|, row, col);
    InRowExactly(l, |items|, row, col + 1);
    ColumnsNext(items, l, row, col);
    NextIndex(l, row, col);
    if col < m {
      Append(items, pieces, cell);
      PlacesNext(l, row, col);
    } else {
      assert pieces + cell == pieces;
    }
  }

  lemma ColumnsNext(items: seq<Item>, l: Layout, row: nat, col: nat)
    ensures Columns(items, l, row, col + 1) == Columns(items, l, row, col) + Cell(items, l, row, col)
  {
  }

  lemma NextIndex(l: Layout, row: nat, col: nat)
    ensures IndexOf(l, row, col + 1) == IndexOf(l, row, col) + l.rows
    ensures (col + 1) * l.colWidth == col * l.colWidth + l.colWidth
  {
  }

  lemma PlacesNext(l: Layout, row: nat, n: nat)
    requires l.colWidth > 0
    ensures Places(l, row, n + 1) == Places(l, row, n) + [Placement(n * l.colWidth, IndexOf(l, row, n))]
  {
  }

  /** A line shows the items of its row in order, each at its column's offset, and ends
      with the text of the last one. */
  lemma LineIsAligned(items: seq<Item>, l: Layout, row: nat)
    requires Fit(items, l) && row < l.rows
    ensures row < |items| && Indexed(Line(items, l, row), |items|)
    ensures var m := InRow(l, |items|, row);
            && 1 <= m <= l.cols && Placed(items, Line(items, l, row)) == Places(l, row, m)
            && IndexOf(l, row, m - 1) < |items|
            && Width(items, Line(items, l, row)) ==
               (m - 1) * l.colWidth + items[IndexOf(l, row, m - 1)].width
  {
    InRowBound(items, l, row);
    ColumnsAligned(items, l, row, l.cols);
  }

  /** Each item is printed exactly once: item `k` is at place `c` of line `row` for one
      row and one place only. */
  lemma PrintedOnce(items: seq<Item>, l: Layout, k: nat, row: nat, c: nat)
    requires Fit(items, l) && k < |items| && row < l.rows
    ensures Indexed(Line(items, l, row), |items|)
    ensures k % l.rows < l.rows
    ensures c < |Placed(items, Line(items, l, row))| && Placed(items, Line(items, l, row))[c].index == k
            <==> row == k % l.rows && c == k / l.rows
  {
    hide Line, Placed, InRow;
    LineIsAligned(items, l, row);
    InRowExactly(l, |items|, row, c);
    DivModUnique(k, l.rows, c, row);
  }

  lemma {:induction false} LinesInOrder(items: seq<Item>, l: Layout, n: nat)
    ensures |Lines(items, l, n)| == n
    ensures forall row :: 0 <= row < n ==> Lines(items, l, n)[row] == Line(items, l, row)
  {
    hide Line;
    if n > 0 { LinesInOrder(items, l, n - 1); }
  }

  /** Place `c` of line `row` of the output shows item `k`. */
  ghost predicate ShownAt(items: seq<Item>, lines: seq<seq<Piece>>, k: nat, row: nat, c: nat) {
    && row < |lines| && Indexed(lines[row], |items|)
    && c < |Placed(items, lines[row])| && Placed(items, lines[row])[c].index == k
  }

  /** The whole output, line after line: every item is at exactly one place of it, running down
      the columns, and it has no more lines than that takes. */
  lemma GridShowsOnce(items: seq<Item>, l: Layout, k: nat, row: nat, c: nat)
    requires Fit(items, l) && k < |items|
    ensures ShownAt(items, Lines(items, l, l.rows), k, row, c) <==> l.rows > 0 && row == k % l.rows && c == k / l.rows
    ensures l.rows > 0 && |Lines(items, l, l.rows)| == l.rows
    ensures forall line <- Lines(items, l, l.rows) :: Indexed(line, |items|) && Placed(items, line) != []
  {
    hide Lines, Line, Placed, Fit;
    LinesInOrder(items, l, l.rows);
    RowsAre(items, l);
    forall r | 0 <= r < l.rows
      ensures Indexed(Line(items, l, r), |items|) && Placed(items, Line(items, l, r)) != []
    {
      LineIsAligned(items, l, r);
    }
    if row < l.rows { PrintedOnce(items, l, k, row, c); }
  }

  lemma RowsAre(items: seq<Item>, l: Layout)
    requires Fit(items, l)
    ensures l.rows > 0
  {
    RowsCover(|items|, l.cols);
  }

  lemma DivModUnique(k: nat, rows: nat, c: nat, row: nat)
    requires row < rows
    ensures c * rows + row == k <==> c == k / rows && row == k % rows
  {
    var q := k / rows;
    Division(k, rows);
    Product(c, c, rows);
    Product(q, q, rows);
    Product(c + 1, q, rows);
    Product(q + 1, c, rows);
  }

  predicate AllWithin(items: seq<Item>, width: nat) {
    forall i :: 0 <= i < |items| ==> items[i].width <= width
  }

  ghost predicate LineFits(items: seq<Item>, l: Layout, row: nat, width: nat) {
    Indexed(Line(items, l, row), |items|) && Width(items, Line(items, l, row)) <= width
  }

  /** Every line fits the terminal exactly when every item alone does. */
  lemma FitsExactly(items: seq<Item>, padding: nat, termWidth: nat)
    requires items != [] && LayoutOf(items, padding, termWidth).Some?
    ensures var l := LayoutOf(items, padding, termWidth).value;
            (forall row :: 0 <= row < l.rows ==> LineFits(items, l, row, termWidth)) <==> AllWithin(items, termWidth)
  {
    hide Line, Placed, InRow, IndexOf, Width;
    var l := LayoutOf(items, padding, termWidth).value;
    LayoutFits(items, padding, termWidth);
    if AllWithin(items, termWidth) {
      forall row | 0 <= row < l.rows ensures LineFits(items, l, row, termWidth) {
        LineIsAligned(items, l, row);
        var m := InRow(l, |items|, row);
        ColumnsFit(l.cols, l.colWidth, m - 1, MaxWidth(items), padding, termWidth);
      }
    } else {
      var i :| 0 <= i < |items| && items[i].width > termWidth;
      RowsCover(|items|, l.cols);
      WideIsOneColumn(items, l, i, termWidth);
    }
  }

  lemma ColumnsFit(cols: nat, colWidth: int, last: nat, widest: nat, padding: nat, termWidth: nat)
    requires colWidth == widest + padding > 0 && last < cols
    requires cols == if termWidth / colWidth < 1 then 1 else termWidth / colWidth
    ensures (cols == 1 && last == 0) || last * colWidth + widest <= termWidth
    ensures last == 0 ==> last * colWidth == 0
  {
    var q := termWidth / colWidth;
    Division(termWidth, colWidth);
    Product(last, q - 1, colWidth);
    Product(q - 1, q, colWidth);
  }

  lemma WideIsOneColumn(items: seq<Item>, l: Layout, i: nat, termWidth: nat)
    requires Fit(items, l) && i < |items| && items[i].width > termWidth
    requires l.cols == if termWidth / l.colWidth < 1 then 1 else termWidth / l.colWidth
    ensures i < l.rows && !LineFits(items, l, i, termWidth)
  {
    hide Line, Placed, Width;
    Division(termWidth, l.colWidth);
    Product(1, termWidth / l.colWidth, l.colWidth);
    assert l.cols == 1 && l.rows == |items|;
    LineIsAligned(items, l, i);
  }

  // ----- the loops

  method Widest(items: seq<Item>) returns (m: nat)
    ensures m == MaxWidth(items)
  {
    m := 0;
    for i := 0 to |items|
      invariant m == MaxWidth(items[..i])
    {
      assert items[..i + 1][..i] == items[..i];
      if items[i].width > m { m := items[i].width; }
    }
    assert items[..|items|] == items;
  }

  /** What a layout is for: columns as wide as the widest item and the padding, as many of
      them as fit but at least one, and as few rows as hold the items. */
  ghost predicate Snug(items: seq<Item>, padding: int, termWidth: nat, l: Layout) {
    && (forall i :: 0 <= i < |items| ==> items[i].width + padding <= l.colWidth)
    && (l.colWidth == padding || exists i :: 0 <= i < |items| && items[i].width + padding == l.colWidth)
    && l.cols >= 1 && (l.cols == 1 || (l.colWidth > 0 && l.cols * l.colWidth <= termWidth))
    && (l.colWidth > 0 ==> (l.cols + 1) * l.colWidth > termWidth)
    && (l.rows - 1) * l.cols < |items| <= l.rows * l.cols
  }

  lemma LayoutIsSnug(items: seq<Item>, padding: int, termWidth: nat)
    requires items != [] && LayoutOf(items, padding, termWidth).Some?
    ensures Snug(items, padding, termWidth, LayoutOf(items, padding, termWidth).value)
  {
    var l := LayoutOf(items, padding, termWidth).value;
    var n := |items|;
    Division(n + l.cols - 1, l.cols);
    Product(l.rows - 1, l.rows, l.cols);
    if l.colWidth > 0 {
      Division(termWidth, l.colWidth);
      Product(termWidth / l.colWidth, l.cols, l.colWidth);
      Product(l.cols, l.cols, l.colWidth);
    } else {
      NoRoom(termWidth, l.colWidth);
    }
  }

  lemma NoRoom(termWidth: nat, colWidth: int)
    requires colWidth < 0
    ensures Quotient(termWidth, colWidth) < 1
  {
  }

  /** There is no layout exactly when the division panics. */
  method Measure(items: seq<Item>, padding: int, termWidth: nat) returns (layout: Option<Layout>)
    requires items != []
    ensures layout == LayoutOf(items, padding, termWidth)
    ensures layout.None? <==> MaxWidth(items) + padding == 0
    ensures layout.Some? ==> Snug(items, padding, termWidth, layout.value)
  {
    hide MaxWidth;
    var maxWidth := Widest(items);
    var colWidth := maxWidth + padding;
    if colWidth == 0 { return None; }
    var cols := Quotient(termWidth, colWidth);
    if cols < 1 { cols := 1; }
    layout := Some(Layout(colWidth, cols, (|items| + cols - 1) / cols));
    LayoutIsSnug(items, padding, termWidth);
    hide LayoutOf, Snug;
  }

  method PrintGrid(items: seq<Item>, padding: int, termWidth: nat) returns (out: Option<seq<seq<Piece>>>)
    ensures items == [] ==> out == Some([])
    ensures items != [] ==> (out.None? <==> LayoutOf(items, padding, termWidth).None?)
    ensures items != [] && out.Some? ==>
              var l := LayoutOf(items, padding, termWidth).value;
              && out.value == Lines(items, l, l.rows)
              && |out.value| == l.rows
              && forall row :: 0 <= row < l.rows ==> out.value[row] == Line(items, l, row)
  {
    hide Line, LayoutOf, MaxWidth;
    if |items| == 0 { return Some([]); }
    var layout := Measure(items, padding, termWidth);
    if layout.None? { return None; }
    var lines := [];
    for row := 0 to layout.value.rows
      invariant lines == Lines(items, layout.value, row)
    {
      var line := PrintRow(items, layout.value, row);
      lines := lines + [line];
    }
    LinesInOrder(items, layout.value, layout.value.rows);
    return Some(lines);
  }

  method PrintRow(items: seq<Item>, l: Layout, row: nat) returns (line: seq<Piece>)
    ensures line == Line(items, l, row)
  {
    line := [];
    for col := 0 to l.cols
      invariant line == Columns(items, l, row, col)
    {
      ColumnsNext(items, l, row, col);
      var idx := col * l.rows + row;
      if idx >= |items| {
        continue;
      }
      line := line + [Text(idx)];
      if col < l.cols - 1 && idx + l.rows < |items| {
        var spaces := l.colWidth - items[idx].width;
        if spaces > 0 {
          line := line + [Blank(spaces)];
        }
      }
    }
  }
}
