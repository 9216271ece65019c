// crates/posh-term/src/screen.rs: the screen grid with its scrollback. `Screen` edits its rows in
// place; each method is proved against a closed form on the `Scr` value.
module Screens {
  import opened Cells
  import opened Reflow

  function Clamp(v: nat, max: nat): nat {
    if v < max then v else max
  }

  /** How many rows a scroll of `n` moves in a region of `size` rows: at least one. */
  function ScrollBy(n: nat, size: nat): nat {
    Max(1, Min(n, size))
  }

  /** The grid after `n` rows have left the region at its top, and `n` blank ones come in below. */
  function MovedUp(g: seq<Row>, top: nat, bot: nat, n: nat, blank: Row): (r: seq<Row>)
    requires top + n <= bot + 1 <= |g|
    ensures |r| == |g|
  {
    g[..top] + g[top + n..bot + 1] + seq(n, i => blank) + g[bot + 1..]
  }

  /** Remove the row at `top`, then insert a blank one at `bot`. */
  function UpOne(g: seq<Row>, top: nat, bot: nat, blank: Row): (r: seq<Row>)
    requires top <= bot < |g|
    ensures |r| == |g|
  {
    var k := g[..top] + g[top + 1..];
    k[..bot] + [blank] + k[bot..]
  }

  function MovedDown(g: seq<Row>, top: nat, bot: nat, n: nat, blank: Row): (r: seq<Row>)
    requires top + n <= bot + 1 <= |g|
    ensures |r| == |g|
  {
    g[..top] + seq(n, i => blank) + g[top..bot + 1 - n] + g[bot + 1..]
  }

  /** The scrollback after rows `top..top + n` of `g` went into it, oldest first. */
  function Saved(sb: seq<Row>, g: seq<Row>, top: nat, n: nat, save: bool, max: nat): seq<Row>
    requires top + n <= |g|
  {
    if save then KeepLast(sb + g[top..top + n], max) else sb
  }

  function ScrollUp(s: Scr, top: nat, bot: nat, n: nat, save: bool, style: Style): (t: Scr)
    requires ScrOk(s)
    ensures ScrOk(t)
  {
    var bot := Clamp(bot, s.rows - 1);
    if top > bot then s
    else
      var n := ScrollBy(n, bot - top + 1);
      s.(grid := MovedUp(s.grid, top, bot, n, BlankRow(s.cols, style)),
         scrollback := Saved(s.scrollback, s.grid, top, n, save, s.maxScrollback))
  }

  function ScrollDown(s: Scr, top: nat, bot: nat, n: nat, style: Style): (t: Scr)
    requires ScrOk(s)
    ensures ScrOk(t)
  {
    var bot := Clamp(bot, s.rows - 1);
    if top > bot then s
    else s.(grid := MovedDown(s.grid, top, bot, ScrollBy(n, bot - top + 1), BlankRow(s.cols, style)))
  }

  function PutRow(s: Scr, row: nat, r: Row): Scr
    requires s.grid != []
  {
    s.(grid := s.grid[Clamp(row, |s.grid| - 1) := r])
  }

  function RowAt(s: Scr, row: nat): Row
    requires s.grid != []
  {
    s.grid[Clamp(row, |s.grid| - 1)]
  }

  function PutCell(s: Scr, row: nat, col: nat, c: Cell): Scr
    requires ScrOk(s)
  {
    var r := RowAt(s, row);
    PutRow(s, row, r.(cells := r.cells[Clamp(col, s.cols - 1) := c]))
  }

  // ---- resizing -------------------------------------------------------------

  /** Truncation blanks a wide head whose spacer is cut off; widening pads. */
  function FitRow(r: Row, cols: nat): Row {
    if cols < |r.cells| then
      var cells := r.cells[..cols];
      r.(cells := if cols > 0 && cells[cols - 1].width == 2 then cells[cols - 1 := Blank(PLAIN)] else cells)
    else r.(cells := r.cells + Blanks(cols - |r.cells|, PLAIN))
  }

  function FitRows(rows: seq<Row>, cols: nat): (r: seq<Row>)
    ensures |r| == |rows| && forall i | 0 <= i < |rows| :: r[i] == FitRow(rows[i], cols)
  {
    seq(|rows|, i requires 0 <= i < |rows| => FitRow(rows[i], cols))
  }

  /** Too tall: blank rows below the cursor go first, then the top row (into the scrollback when
      reflowing), else the bottom row. */
  function Shorten(s: Scr, at: Spot, rows: nat, reflow: bool): (Scr, Spot)
    requires 1 <= rows
    decreases |s.grid|
  {
    var n := |s.grid|;
    if n <= rows then (s, at)
    else if reflow && (at.row >= n - 1 || !RowBlank(s.grid[n - 1])) then
      Shorten(s.(grid := s.grid[1..], scrollback := KeepLast(s.scrollback + [s.grid[0]], s.maxScrollback)),
              at.(row := if at.row > 0 then at.row - 1 else 0), rows, reflow)
    else Shorten(s.(grid := s.grid[..n - 1]), at, rows, reflow)
  }

  /** Too short: rows come back from the scrollback when reflowing, then blank rows at the end. */
  function Lengthen(s: Scr, at: Spot, rows: nat, reflow: bool): (Scr, Spot) {
    var take := if reflow && rows > |s.grid| then Min(rows - |s.grid|, |s.scrollback|) else 0;
    var keep := |s.scrollback| - take;
    (s.(grid := PadRows(s.scrollback[keep..] + s.grid, rows, s.cols), scrollback := s.scrollback[..keep]),
     at.(row := at.row + take))
  }

  function FitWidth(s: Scr, cols: nat, at: Spot, reflow: bool): (Scr, Spot)
    requires 1 <= cols
  {
    if cols == s.cols then (s, at)
    else
      var (t, to) := if reflow then ReflowWidth(s, cols, at)
                     else (s.(grid := FitRows(s.grid, cols), scrollback := FitRows(s.scrollback, cols), cols := cols),
                       at);
      (t, to.(col := Clamp(to.col, cols - 1)))
  }

  function Resize(s: Scr, rows: nat, cols: nat, at: Spot, reflow: bool): (Scr, Spot) {
    var rows, cols := Max(rows, 1), Max(cols, 1);
    var (t, to) := FitWidth(s, cols, at, reflow);
    var (u, up) := Shorten(t, to, rows, reflow);
    var (v, end) := Lengthen(u, up, rows, reflow);
    (v.(rows := rows), end.(row := Clamp(end.row, rows - 1)))
  }

  // ---- the class ------------------------------------------------------------

  class Screen {
    var rows: nat
    var cols: nat
    var grid: seq<Row>
    var scrollback: seq<Row>
    var maxScrollback: nat

    function View(): Scr
      reads this
    {
      Scr(rows, cols, grid, scrollback, maxScrollback)
    }

    ghost predicate Valid()
      reads this
    {
      ScrOk(View())
    }

    constructor (rows: nat, cols: nat, maxScrollback: nat)
      requires rows <= 0xFFFF && cols <= 0xFFFF
      ensures View() == Scr(Max(rows, 1), Max(cols, 1), BlankRows(Max(rows, 1), Max(cols, 1), PLAIN), [], maxScrollback)
      ensures Valid()
    {
      this.rows, this.cols := Max(rows, 1), Max(cols, 1);
      this.grid := BlankRows(Max(rows, 1), Max(cols, 1), PLAIN);
      this.scrollback, this.maxScrollback := [], maxScrollback;
    }

    method SetRow(row: nat, r: Row)
      requires Valid() && |r.cells| == cols
      modifies this
      ensures View() == PutRow(old(View()), row, r) && Valid()
    {
      grid := grid[Clamp(row, |grid| - 1) := r];
    }

    method SetCell(row: nat, col: nat, c: Cell)
      requires Valid()
      modifies this
      ensures View() == PutCell(old(View()), row, col, c) && Valid()
    {
      var r := grid[Clamp(row, |grid| - 1)];
      grid := grid[Clamp(row, |grid| - 1) := r.(cells := r.cells[Clamp(col, cols - 1) := c])];
    }

    method PushScrollback(row: Row)
      requires |scrollback| <= maxScrollback
      modifies this
      ensures View() == old(View()).(scrollback := KeepLast(old(scrollback) + [row], maxScrollback))
    {
      if maxScrollback > 0 {
        if |scrollback| >= maxScrollback { scrollback := scrollback[1..]; }
        scrollback := scrollback + [row];
      }
    }

    /** One row leaves at `top`, a blank one comes in at `bot`. */
    method LoseTop(top: nat, bot: nat, save: bool, style: Style)
      requires top <= bot < |grid| && |scrollback| <= maxScrollback
      modifies this
      ensures View() == old(View()).(grid := UpOne(old(grid), top, bot, BlankRow(cols, style)),
                scrollback := scrollback)
      ensures scrollback == if save then KeepLast(old(scrollback) + [old(grid)[top]], maxScrollback)
              else old(scrollback)
    {
      var row := grid[top];
      if save { PushScrollback(row); }
      grid := grid[..top] + grid[top + 1..];
      grid := grid[..bot] + [BlankRow(cols, style)] + grid[bot..];
    }

    method ScrollRegion(top: nat, bot: nat, n: nat, save: bool, style: Style)
      requires top + n <= bot + 1 <= |grid| && top <= bot && |scrollback| <= maxScrollback
      modifies this
      ensures View() == old(View()).(grid := MovedUp(old(grid), top, bot, n, BlankRow(cols, style)),
                scrollback := scrollback)
      ensures scrollback == Saved(old(scrollback), old(grid), top, n, save, maxScrollback)
    {
      ghost var g, sb, blank := grid, scrollback, BlankRow(cols, style);
      MovedNone(g, top, bot, blank);
      SavedNone(sb, g, top, save, maxScrollback);
      hide MovedUp, BlankRow, Saved, UpOne, KeepLast;
      for i := 0 to n
        invariant rows == old(rows) && cols == old(cols) && maxScrollback == old(maxScrollback)
        invariant grid == MovedUp(g, top, bot, i, blank)
        invariant |scrollback| <= maxScrollback && scrollback == Saved(sb, g, top, i, save, maxScrollback)
      {
        LoseNext(top, bot, save, style, g, sb, i);
      }
    }

    method LoseNext(top: nat, bot: nat, save: bool, style: Style, ghost g: seq<Row>, ghost sb: seq<Row>, ghost i: nat)
      requires top + i <= bot < |g| == |grid| && grid == MovedUp(g, top, bot, i, BlankRow(cols, style))
      requires |scrollback| <= maxScrollback && scrollback == Saved(sb, g, top, i, save, maxScrollback)
      modifies this
      ensures rows == old(rows) && cols == old(cols) && maxScrollback == old(maxScrollback)
      ensures grid == MovedUp(g, top, bot, i + 1, BlankRow(cols, style))
      ensures |scrollback| <= maxScrollback && scrollback == Saved(sb, g, top, i + 1, save, maxScrollback)
    {
      hide MovedUp, BlankRow, Saved, UpOne;
      MoveUp(g, top, bot, i, BlankRow(cols, style));
      SaveMore(sb, g, top, i, save, maxScrollback);
      LoseTop(top, bot, save, style);
    }

    method Scroll(top: nat, bottom: nat, n: nat, save: bool, style: Style)
      requires Valid()
      modifies this
      ensures View() == ScrollUp(old(View()), top, bottom, n, save, style) && Valid()
    {
      var bot := Clamp(bottom, |grid| - 1);
      if top > bot { return; }
      ScrollRegion(top, bot, ScrollBy(n, bot - top + 1), save, style);
    }

    /** One row leaves at `bot`, a blank one comes in at `top`. */
    method LoseBottom(top: nat, bot: nat, blank: Row)
      requires top <= bot < |grid|
      modifies `grid
      ensures var h := old(grid);
              var k := h[..bot] + h[bot + 1..];
              grid == k[..top] + [blank] + k[top..]
    {
      grid := grid[..bot] + grid[bot + 1..];
      grid := grid[..top] + [blank] + grid[top..];
    }

    method ScrollBack(top: nat, bottom: nat, n: nat, style: Style)
      requires Valid()
      modifies this
      ensures View() == ScrollDown(old(View()), top, bottom, n, style) && Valid()
    {
      var bot := Clamp(bottom, |grid| - 1);
      if top > bot { return; }
      var m := ScrollBy(n, bot - top + 1);
      ghost var g := grid;
      var blank := BlankRow(cols, style);
      MovedNone(g, top, bot, blank);
      hide MovedDown, BlankRow, RowsFit;
      for i := 0 to m
        invariant rows == old(rows) && cols == old(cols) && maxScrollback == old(maxScrollback)
                  && scrollback == old(scrollback)
        invariant grid == MovedDown(g, top, bot, i, blank)
      {
        MoveDown(g, top, bot, i, blank);
        LoseBottom(top, bot, blank);
      }
    }

    method ClearScrollback()
      requires Valid()
      modifies this
      ensures View() == old(View()).(scrollback := []) && Valid()
    {
      scrollback := [];
    }

    method ClearGrid(style: Style)
      requires Valid()
      modifies this
      ensures View() == old(View()).(grid := BlankRows(rows, cols, style)) && Valid()
    {
      var i := 0;
      while i < |grid|
        invariant 0 <= i <= |grid| == rows
        invariant View() == old(View()).(grid := grid)
        invariant forall k | 0 <= k < i :: grid[k] == BlankRow(cols, style)
      {
        grid := grid[i := BlankRow(cols, style)];
        i := i + 1;
      }
    }

    /** The new width of every row, and the cursor on its cell. */
    method ReflowTo(width: nat, at: Spot) returns (to: Spot)
      requires Valid() && 1 <= width <= 0xFFFF && at.row < rows && at.col < cols
      modifies this
      ensures (View(), to) == ReflowWidth(old(View()), width, at) && |scrollback| <= maxScrollback
    {
      var abs := |scrollback| + at.row;
      var rows0 := scrollback + grid;
      ghost var all := rows0;
      hide LastShown, LinesFrom, LayLines, LayLine, RowsFit;
      while |rows0| > abs + 1 && RowBlank(rows0[|rows0| - 1]) && !rows0[|rows0| - 1].wrapped
        invariant DropTail(rows0, abs + 1) == DropTail(all, abs + 1)
      {
        rows0 := rows0[..|rows0| - 1];
      }
      var newRows: seq<Row>, spot: Option<Spot> := [], None;
      var i := 0;
      ghost var lines: seq<Line> := [];
      NoLines(rows0, width, Spot(abs, at.col));
      while i < |rows0|
        invariant 0 <= i <= |rows0| && View() == old(View())
        invariant (newRows, spot) == LayLines(lines, width)
        invariant lines + LinesFrom(rows0, i, Spot(abs, at.col)) == LinesFrom(rows0, 0, Spot(abs, at.col))
      {
        NextLine(rows0, i, lines, width, Spot(abs, at.col));
        var line;
        line, i := Unwrap(rows0, i, abs, at.col);
        newRows, spot := WrapLine(line, width, newRows, spot);
        lines := lines + [line];
      }
      assert lines == Extract(View(), at) by { assert lines + [] == lines; }
      to := PlaceRows(width, newRows, spot);
    }

    /** Older rows go to the scrollback, but none at or below the cursor's. */
    method PlaceRows(width: nat, text: seq<Row>, spot: Option<Spot>) returns (to: Spot)
      modifies this
      ensures (View(), to) == Place(old(View()), width, text, spot) && |scrollback| <= maxScrollback
    {
      var at := if spot.Some? then spot.value else Spot(0, 0);
      var newRows := text;
      var start := if |newRows| > rows then |newRows| - rows else 0;
      if at.row < start {
        // The cursor's row comes first: what does not fit below it is lost.
        start := at.row;
        newRows := newRows[..start + rows];
      }
      assert newRows[..start] == text[..start] && newRows[start..] == text[start..Min(|text|, start + rows)];
      scrollback := Newest(newRows[..start], maxScrollback);
      cols := width;
      grid := FillGrid(newRows[start..], rows, width);
      to := Spot(if at.row >= start then at.row - start else 0, at.col);
    }

    method WidthTo(width: nat, at: Spot, reflow: bool) returns (to: Spot)
      requires Valid() && 1 <= width <= 0xFFFF && at.row < rows && at.col < cols
      modifies this
      ensures (View(), to) == FitWidth(old(View()), width, at, reflow) && |scrollback| <= maxScrollback
    {
      to := at;
      if width != cols {
        if reflow {
          to := ReflowTo(width, at);
        } else {
          grid, scrollback, cols := FitRows(grid, width), FitRows(scrollback, width), width;
        }
        to := to.(col := Clamp(to.col, width - 1));
      }
    }

    method ShortenTo(target: nat, at: Spot, reflow: bool) returns (to: Spot)
      requires |scrollback| <= maxScrollback && 1 <= target
      modifies this
      ensures (View(), to) == Shorten(old(View()), at, target, reflow)
      ensures |scrollback| <= maxScrollback && |grid| <= Max(target, |old(grid)|) && |grid| <= target
    {
      to := at;
      while |grid| > target
        invariant |scrollback| <= maxScrollback
        invariant Shorten(View(), to, target, reflow) == Shorten(old(View()), at, target, reflow)
      {
        var n := |grid| - 1;
        var atEnd := to.row >= n;
        if RowBlank(grid[n]) && !atEnd {
          grid := grid[..n];
        } else if reflow {
          var row := grid[0];
          grid := grid[1..];
          PushScrollback(row);
          to := to.(row := if to.row > 0 then to.row - 1 else 0);
        } else {
          grid := grid[..n];
        }
      }
    }

    method LengthenTo(target: nat, at: Spot, reflow: bool) returns (to: Spot)
      requires |grid| <= target
      modifies this
      ensures (View(), to) == Lengthen(old(View()), at, target, reflow) && rows == old(rows)
    {
      hide Lengthen;
      to := at;
      while |grid| < target
        invariant |grid| <= target && rows == old(rows)
        invariant Lengthen(View(), to, target, reflow) == Lengthen(old(View()), at, target, reflow)
      {
        if reflow && scrollback != [] {
          var n := |scrollback| - 1;
          TakeOne(View(), to, target);
          grid := [scrollback[n]] + grid;
          scrollback := scrollback[..n];
          to := to.(row := to.row + 1);
        } else {
          AddOne(View(), to, target, reflow);
          grid := grid + [BlankRow(cols, PLAIN)];
        }
      }
      LengthenDone(View(), to, target, reflow);
    }

    method ResizeTo(newRows: nat, newCols: nat, at: Spot, reflow: bool) returns (to: Spot)
      requires Valid() && newRows <= 0xFFFF && newCols <= 0xFFFF && at.row < rows && at.col < cols
      modifies this
      ensures (View(), to) == Resize(old(View()), newRows, newCols, at, reflow)
    {
      var target, width := Max(newRows, 1), Max(newCols, 1);
      to := WidthTo(width, at, reflow);
      to := ShortenTo(target, to, reflow);
      to := LengthenTo(target, to, reflow);
      rows := target;
      to := to.(row := Clamp(to.row, target - 1));
    }
  }

  /** Drops the oldest rows of a full ring. */
  method Newest(rows: seq<Row>, n: nat) returns (r: seq<Row>)
    ensures r == KeepLast(rows, n) && |r| <= n
  {
    r := rows;
    while |r| > n
      invariant KeepLast(r, n) == KeepLast(rows, n)
    {
      r := r[1..];
    }
  }

  method FillGrid(grid: seq<Row>, rows: nat, cols: nat) returns (g: seq<Row>)
    ensures g == PadRows(grid, rows, cols)
  {
    g := grid;
    while |g| < rows
      invariant PadRows(g, rows, cols) == PadRows(grid, rows, cols)
    {
      PadOne(g, rows, cols);
      g := g + [BlankRow(cols, PLAIN)];
    }
  }

  /** Joins the rows of the logical line at row `i`. */
  method JoinRows(rows: seq<Row>, first: nat, abs: nat, col: nat)
    returns (cells: seq<Cell>, mark: Option<nat>, cursor: Option<nat>, i: nat)
    requires first < |rows|
    ensures i == LineEnd(rows, first)
    ensures cells == Join(rows[first..i]) && mark == FirstMark(rows[first..i])
    ensures cursor == if first <= abs < i then Some(|Join(rows[first..abs])| + col) else None
  {
    i := first;
    cells, mark, cursor := [], None, None;
    var more := true;
    assert rows[first..first] == [];
    while more
      invariant first <= i <= |rows| && (more ==> i < |rows|) && (i == first ==> more)
      invariant if more then LineEnd(rows, i) == LineEnd(rows, first) else i == LineEnd(rows, first)
      invariant cells == Join(rows[first..i]) && mark == FirstMark(rows[first..i])
      invariant cursor == if first <= abs < i then Some(|Join(rows[first..abs])| + col) else None
      decreases |rows| - i, more
    {
      JoinStep(rows, first, i);
      if mark.None? { mark := rows[i].mark; }
      if i == abs { cursor := Some(|cells| + col); }
      cells := cells + rows[i].cells;
      more := rows[i].wrapped && i + 1 < |rows|;
      i := i + 1;
    }
  }

  lemma {:induction false} JoinStep(rows: seq<Row>, first: nat, i: nat)
    requires first <= i < |rows|
    ensures Join(rows[first..i + 1]) == Join(rows[first..i]) + rows[i].cells
    ensures FirstMark(rows[first..i + 1]) ==
            if FirstMark(rows[first..i]).Some? then FirstMark(rows[first..i]) else rows[i].mark
  {
    assert rows[first..i + 1][..i - first] == rows[first..i];
  }

  /** A logical line: trailing blanks are trimmed, but never past the cursor cell. */
  method Unwrap(rows: seq<Row>, first: nat, abs: nat, col: nat) returns (line: Line, i: nat)
    requires first < |rows|
    ensures line == LineAt(rows, first, Spot(abs, col)) && i == LineEnd(rows, first)
  {
    var cells, mark, cursor;
    cells, mark, cursor, i := JoinRows(rows, first, abs, col);
    var keep := LastShown(cells);
    if cursor.Some? { keep := Max(keep, cursor.value + 1); }
    line := Line(if keep < |cells| then cells[..keep] else cells, mark, cursor);
    assert cells[..|cells|] == cells;
  }

  /** The unfinished row filled up with blanks. */
  method FillRow(cells: seq<Cell>, width: nat) returns (row: Row)
    requires |cells| <= width
    ensures row == Padded(cells, width, true)
  {
    var cur := cells;
    while |cur| < width
      invariant |cur| <= width && Padded(cur, width, true) == Padded(cells, width, true)
    {
      PadCell(cur, width);
      cur := cur + [Blank(PLAIN)];
    }
    assert cur[..width] == cur;
    row := Row(cur, true, None);
  }

  /** Lays out one logical line after the rows so far (the inner loop of the reflow). */
  method WrapLine(line: Line, width: nat, before: seq<Row>, spot0: Option<Spot>)
      returns (rows: seq<Row>, spot: Option<Spot>)
    requires 1 <= width
    ensures var (more, to) := LayLine(line, width, |before|, spot0); rows == before + more && spot == to
  {
    hide LayFrom, Padded, LastShown;
    var cells, more: seq<Row> := line.cells, [];
    var base := |before|;
    spot := spot0;
    var cur: seq<Cell> := [];
    var j := 0;
    ghost var end := LayFrom(Layout(0, [], [], spot0), line, width, base);
    while j < |cells|
      invariant 0 <= j <= |cells| && |cur| <= width && (j < |cells| ==> |cur| < width)
      invariant LayFrom(Layout(j, cur, more, spot), line, width, base) == end
    {
      ghost var l := Layout(j, cur, more, spot);
      LayNext(l, line, width, base);
      StepFits(l, line, width, base);
      var cell := cells[j];
      if cell.width == 0 {
        // Spacers are made again after their head.
        if line.cursor == Some(j) && spot.None? { spot := Some(Spot(base + |more|, Min(|cur|, width - 1))); }
        j := j + 1;
      } else {
        var skip := 1;
        if cell.width > width {
          // A wide character that fits nowhere becomes a blank.
          if line.cursor == Some(j) || line.cursor == Some(j + 1) { spot := Some(Spot(base + |more|, |cur|)); }
          if SpacerAt(cells, j + 1) { skip := 2; }
          cur := cur + [Blank(PLAIN)];
        } else {
          if |cur| + cell.width > width {
            // Its second half would stand past the last column.
            var full := FillRow(cur, width);
            more := more + [full];
            cur := [];
          }
          if line.cursor == Some(j) { spot := Some(Spot(base + |more|, |cur|)); }
          else if cell.width == 2 && line.cursor == Some(j + 1) { spot := Some(Spot(base + |more|, |cur| + 1)); }
          cur := cur + [cell] + (if cell.width == 2 then [Spacer(cell.style, cell.link)] else []);
          if cell.width == 2 && SpacerAt(cells, j + 1) { skip := 2; }
        }
        j := j + skip;
        if |cur| == width && j < |cells| {
          more := more + [Row(cur, true, None)];
          cur := [];
        }
      }
      assert Layout(j, cur, more, spot) == LayOne(l, line, width, base);
    }
    LayDone(Layout(j, cur, more, spot), line, width, base);
    more := more + [Padded(cur, width, false)];
    more := more[0 := more[0].(mark := line.mark)];
    if line.cursor.Some? && spot.None? {
      var last := |more| - 1;
      spot := Some(Spot(base + last, Min(LastShown(more[last].cells), width - 1)));
    }
    rows := before + more;
  }

  lemma {:induction false} LayNext(l: Layout, line: Line, width: nat, base: nat)
    requires l.j < |line.cells| && 1 <= width
    ensures LayFrom(l, line, width, base) == LayFrom(LayOne(l, line, width, base), line, width, base)
  {
  }

  lemma {:induction false} LayDone(l: Layout, line: Line, width: nat, base: nat)
    requires l.j == |line.cells| && 1 <= width
    ensures LayFrom(l, line, width, base) == l.(done := l.done + [Padded(l.cur, width, false)])
  {
  }

  lemma {:induction false} StepFits(l: Layout, line: Line, width: nat, base: nat)
    requires l.j < |line.cells| && 1 <= width && |l.cur| < width
    ensures var m := LayOne(l, line, width, base);
            |m.cur| <= width && (m.j < |line.cells| ==> |m.cur| < width)
  {
  }

  lemma {:induction false} NoLines(rows: seq<Row>, width: nat, at: Spot)
    requires 1 <= width
    ensures LayLines([], width) == ([], None)
    ensures [] + LinesFrom(rows, 0, at) == LinesFrom(rows, 0, at) && LinesFrom(rows, |rows|, at) == []
  {
  }

  lemma {:induction false} NextLine(rows: seq<Row>, i: nat, lines: seq<Line>, width: nat, at: Spot)
    requires i < |rows| && 1 <= width
    ensures var line := LineAt(rows, i, at);
            && lines + LinesFrom(rows, i, at) == lines + [line] + LinesFrom(rows, LineEnd(rows, i), at)
            && (var (done, spot) := LayLines(lines, width);
                var (more, to) := LayLine(line, width, |done|, spot);
                LayLines(lines + [line], width) == (done + more, to))
  {
    var line := LineAt(rows, i, at);
    assert (lines + [line])[..|lines|] == lines;
    assert lines + ([line] + LinesFrom(rows, LineEnd(rows, i), at)) ==
      lines + [line] + LinesFrom(rows, LineEnd(rows, i), at);
  }

  lemma {:induction false} MovedNone(g: seq<Row>, top: nat, bot: nat, blank: Row)
    requires top <= bot < |g|
    ensures MovedUp(g, top, bot, 0, blank) == g && MovedDown(g, top, bot, 0, blank) == g
  {
  }

  /** One more row leaves: the first row of the region goes, a blank one is inserted at its end. */
  lemma {:induction false} MoveUp(g: seq<Row>, top: nat, bot: nat, n: nat, blank: Row)
    requires top + n <= bot < |g|
    ensures MovedUp(g, top, bot, n, blank)[top] == g[top + n]
    ensures UpOne(MovedUp(g, top, bot, n, blank), top, bot, blank) == MovedUp(g, top, bot, n + 1, blank)
  {
    var h := MovedUp(g, top, bot, n, blank);
    var b := seq(n, i => blank);
    assert seq(n + 1, i => blank) == b + [blank];
    assert h[..top] + h[top + 1..] == g[..top] + g[top + n + 1..bot + 1] + b + g[bot + 1..];
  }

  lemma {:induction false} MoveDown(g: seq<Row>, top: nat, bot: nat, n: nat, blank: Row)
    requires top + n <= bot < |g|
    ensures var h := MovedDown(g, top, bot, n, blank);
            var k := h[..bot] + h[bot + 1..];
            k[..top] + [blank] + k[top..] == MovedDown(g, top, bot, n + 1, blank)
  {
    var h := MovedDown(g, top, bot, n, blank);
    var b := seq(n, i => blank);
    assert seq(n + 1, i => blank) == [blank] + b;
    assert h[..bot] + h[bot + 1..] == g[..top] + b + g[top..bot - n] + g[bot + 1..];
  }

  lemma {:induction false} PadCell(cur: seq<Cell>, width: nat)
    requires |cur| < width
    ensures Padded(cur + [Blank(PLAIN)], width, true) == Padded(cur, width, true)
  {
    var n := width - |cur|;
    assert Blanks(n, PLAIN) == [Blank(PLAIN)] + Blanks(n - 1, PLAIN);
    assert cur + ([Blank(PLAIN)] + Blanks(n - 1, PLAIN)) == cur + [Blank(PLAIN)] + Blanks(n - 1, PLAIN);
    assert n == 1 ==> (cur + [Blank(PLAIN)])[..width] == cur + [Blank(PLAIN)];
    assert Blanks(0, PLAIN) == [];
  }

  lemma {:induction false} PadOne(grid: seq<Row>, rows: nat, cols: nat)
    requires |grid| < rows
    ensures PadRows(grid + [BlankRow(cols, PLAIN)], rows, cols) == PadRows(grid, rows, cols)
  {
    var n := rows - |grid|;
    assert BlankRows(n, cols, PLAIN) == [BlankRow(cols, PLAIN)] + BlankRows(n - 1, cols, PLAIN);
    assert grid + ([BlankRow(cols, PLAIN)] + BlankRows(n - 1, cols, PLAIN))
        == grid + [BlankRow(cols, PLAIN)] + BlankRows(n - 1, cols, PLAIN);
    assert BlankRows(0, cols, PLAIN) == [];
  }

  lemma {:induction false} SavedNone(sb: seq<Row>, g: seq<Row>, top: nat, save: bool, max: nat)
    requires top <= |g| && |sb| <= max
    ensures Saved(sb, g, top, 0, save, max) == sb
  {
    assert sb + g[top..top] == sb;
  }

  lemma {:induction false} SaveMore(sb: seq<Row>, g: seq<Row>, top: nat, i: nat, save: bool, max: nat)
    requires top + i < |g|
    ensures (if save then KeepLast(Saved(sb, g, top, i, save, max) + [g[top + i]], max)
              else Saved(sb, g, top, i, save, max))
            == Saved(sb, g, top, i + 1, save, max)
  {
    assert sb + g[top..top + i] + [g[top + i]] == sb + g[top..top + i + 1];
  }

  lemma {:induction false} TakeOne(s: Scr, at: Spot, rows: nat)
    requires |s.grid| < rows && s.scrollback != []
    ensures var n := |s.scrollback| - 1;
            var t := s.(grid := [s.scrollback[n]] + s.grid, scrollback := s.scrollback[..n]);
            Lengthen(t, at.(row := at.row + 1), rows, true) == Lengthen(s, at, rows, true)
  {
    var n := |s.scrollback| - 1;
    var t := s.(grid := [s.scrollback[n]] + s.grid, scrollback := s.scrollback[..n]);
    var take := Min(rows - |s.grid|, |s.scrollback|);
    var keep := n + 1 - take;
    assert Min(rows - |t.grid|, n) == take - 1;
    assert t.scrollback[keep..] + t.grid == s.scrollback[keep..] + s.grid;
    assert t.scrollback[..keep] == s.scrollback[..keep];
  }

  lemma {:induction false} AddOne(s: Scr, at: Spot, rows: nat, reflow: bool)
    requires |s.grid| < rows && (reflow ==> s.scrollback == [])
    ensures Lengthen(s.(grid := s.grid + [BlankRow(s.cols, PLAIN)]), at, rows, reflow) == Lengthen(s, at, rows, reflow)
  {
    var n := |s.scrollback|;
    var g := s.grid + [BlankRow(s.cols, PLAIN)];
    assert s.scrollback[n..] + s.grid == s.grid && s.scrollback[n..] + g == g;
    PadOne(s.grid, rows, s.cols);
  }

  lemma {:induction false} LengthenDone(s: Scr, at: Spot, rows: nat, reflow: bool)
    requires |s.grid| == rows
    ensures Lengthen(s, at, rows, reflow) == (s, at)
  {
    var n := |s.scrollback|;
    assert s.scrollback[n..] + s.grid == s.grid && s.scrollback[..n] == s.scrollback;
  }
}
