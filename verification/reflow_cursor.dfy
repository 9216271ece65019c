// Where reflowing leaves the cursor: on the character it was on, for any screen and any width.
module ReflowCursor {
  import opened Cells
  import opened Reflow
  import opened ReflowProofs
  import opened ReflowPath

  /** The cell a layout has at `at`, in a finished row or in the unfinished one. */
  function Here(l: Layout, base: nat, at: Spot): Option<Cell> {
    var r := at.row - base;
    if 0 <= r < |l.done| then (if at.col < |l.done[r].cells| then Some(l.done[r].cells[at.col]) else None)
    else if r == |l.done| && at.col < |l.cur| then Some(l.cur[at.col])
    else None
  }

  /** There is room for another cell, and the next one is not the second half of one already laid out. */
  ghost predicate Between(l: Layout, line: Line, width: nat) {
    && l.j <= |line.cells| && |l.cur| <= width && (l.j < |line.cells| ==> |l.cur| < width)
    && (0 < l.j < |line.cells| && line.cells[l.j - 1].width == 2 ==> line.cells[l.j].width != 0)
  }

  /** The cell under the cursor: the same character, the second half of the same wide character, or the
      blank that stands for a wide character where there is only one column. */
  ghost predicate Under(cells: seq<Cell>, off: nat, width: nat, here: Option<Cell>, left: Option<Cell>)
    requires off < |cells|
  {
    var x := cells[off];
    && (0 < x.width <= width ==> here == Some(x))
    && (x.width > width ==> here == Some(Blank(PLAIN)))
    && (x.width == 0 && off > 0 && cells[off - 1].width == 2 ==>
          var head := cells[off - 1];
          if width >= 2 then here == Some(Spacer(head.style, head.link)) && left == Some(head)
          else here == Some(Blank(PLAIN)))
  }

  ghost predicate Lands(l: Layout, line: Line, width: nat, base: nat, off: nat)
    requires off < |line.cells|
  {
    && l.spot.Some? && l.spot.value.row >= base && l.spot.value.col < width
    && var at := l.spot.value;
       Under(line.cells, off, width, Here(l, base, at),
         if at.col > 0 then Here(l, base, Spot(at.row, at.col - 1)) else None)
  }

  /** Before its cell is laid out the cursor has no place, or one that will be overwritten. */
  ghost predicate Awaits(l: Layout, line: Line, off: nat)
    requires off < |line.cells|
  {
    l.spot.Some? && l.j <= off ==> off == l.j && line.cells[off].width > 0
  }

  lemma {:induction false} HereKept(l: Layout, line: Line, width: nat, base: nat, at: Spot)
    requires l.j < |line.cells| && 1 <= width && Between(l, line, width) && Here(l, base, at).Some?
    ensures Here(LayOne(l, line, width, base), base, at) == Here(l, base, at)
  {
  }

  lemma {:induction false} BetweenStep(l: Layout, line: Line, width: nat, base: nat)
    requires l.j < |line.cells| && 1 <= width && Between(l, line, width)
    ensures Between(LayOne(l, line, width, base), line, width)
  {
  }

  /** The cursor's cell has been laid out before. */
  lemma {:induction false} LandsKept(l: Layout, line: Line, width: nat, base: nat, off: nat)
    requires l.j < |line.cells| && 1 <= width && Between(l, line, width) && line.cursor == Some(off) && off < l.j
    requires Lands(l, line, width, base, off)
    ensures Lands(LayOne(l, line, width, base), line, width, base, off)
  {
    hide Here, Under;
    var at := l.spot.value;
    assert LayOne(l, line, width, base).spot == l.spot by { SpotSame(l, line, width, base, off); }
    hide LayOne, Between;
    if Here(l, base, at).Some? { HereKept(l, line, width, base, at); }
    if at.col > 0 && Here(l, base, Spot(at.row, at.col - 1)).Some? {
      HereKept(l, line, width, base, Spot(at.row, at.col - 1));
    }
    UnderKept(line.cells, off, width, Here(l, base, at),
      if at.col > 0 then Here(l, base, Spot(at.row, at.col - 1)) else None,
      Here(LayOne(l, line, width, base), base, at),
      if at.col > 0 then Here(LayOne(l, line, width, base), base, Spot(at.row, at.col - 1)) else None);
  }

  lemma {:induction false} SpotSame(l: Layout, line: Line, width: nat, base: nat, off: nat)
    requires l.j < |line.cells| && 1 <= width && line.cursor == Some(off) && off < l.j
    ensures LayOne(l, line, width, base).spot == l.spot
  {
  }

  lemma {:induction false} UnderKept(cells: seq<Cell>, off: nat, width: nat, here: Option<Cell>, left: Option<Cell>,
      here': Option<Cell>, left': Option<Cell>)
    requires off < |cells| && Under(cells, off, width, here, left)
    requires (here.Some? ==> here' == here) && (left.Some? ==> left' == left)
    ensures Under(cells, off, width, here', left')
  {
  }

  /** The step that lays out the cursor's cell. */
  lemma {:induction false} LandsNow(l: Layout, line: Line, width: nat, base: nat, off: nat)
    requires l.j < |line.cells| && 1 <= width && Between(l, line, width) && line.cursor == Some(off)
    requires off < |line.cells| && l.j <= off < LayOne(l, line, width, base).j && Awaits(l, line, off)
    ensures Lands(LayOne(l, line, width, base), line, width, base, off)
  {
    hide *;
    BetweenMeans(l, line, width);
    AwaitsMeans(l, line, off);
    var cell := line.cells[l.j];
    if cell.width == 0 {
      LandsHalf(l, line, width, base, off);
    } else if cell.width > width {
      LandsBlank(l, line, width, base, off);
    } else {
      LandsCell(l, line, width, base, off);
    }
  }

  lemma {:induction false} BetweenMeans(l: Layout, line: Line, width: nat)
    requires l.j < |line.cells| && Between(l, line, width)
    ensures |l.cur| < width && (l.j > 0 && line.cells[l.j - 1].width == 2 ==> line.cells[l.j].width != 0)
  {
  }

  lemma {:induction false} AwaitsMeans(l: Layout, line: Line, off: nat)
    requires off < |line.cells| && Awaits(l, line, off)
    ensures l.spot.Some? && l.j <= off ==> off == l.j && line.cells[off].width > 0
  {
  }

  /** A second half whose first half is not there. */
  lemma {:induction false} LandsHalf(l: Layout, line: Line, width: nat, base: nat, off: nat)
    requires l.j < |line.cells| && |l.cur| < width && line.cursor == Some(off) && line.cells[l.j].width == 0
    requires l.j > 0 ==> line.cells[l.j - 1].width != 2
    requires off < |line.cells| && l.j <= off < LayOne(l, line, width, base).j && l.spot.None?
    ensures Lands(LayOne(l, line, width, base), line, width, base, off)
  {
    hide Here;
  }

  /** A wide character where there is one column. */
  lemma {:induction false} LandsBlank(l: Layout, line: Line, width: nat, base: nat, off: nat)
    requires l.j < |line.cells| && |l.cur| < width && line.cursor == Some(off) && line.cells[l.j].width > width >= 1
    requires off < |line.cells| && l.j <= off < LayOne(l, line, width, base).j
    ensures Lands(LayOne(l, line, width, base), line, width, base, off)
  {
    hide Under;
    var m := LayOne(l, line, width, base);
    assert m.spot == Some(Spot(base + |l.done|, |l.cur|));
    assert Here(m, base, m.spot.value) == Some(Blank(PLAIN));
    assert |l.cur| == 0;
    UnderBlank(line.cells, off, width, None);
  }

  lemma {:induction false} UnderBlank(cells: seq<Cell>, off: nat, width: nat, left: Option<Cell>)
    requires off < |cells| && width == 1 && (cells[off].width == 2 || (cells[off].width == 0 && off > 0))
    ensures Under(cells, off, width, Some(Blank(PLAIN)), left)
  {
  }

  lemma {:induction false} LandsCell(l: Layout, line: Line, width: nat, base: nat, off: nat)
    requires l.j < |line.cells| && |l.cur| < width && line.cursor == Some(off) && 0 < line.cells[l.j].width <= width
    requires off < |line.cells| && l.j <= off < LayOne(l, line, width, base).j
    ensures Lands(LayOne(l, line, width, base), line, width, base, off)
  {
    hide Under;
    var cell, m := line.cells[l.j], LayOne(l, line, width, base);
    var start := if |l.cur| + cell.width > width then Spot(base + |l.done| + 1, 0) else Spot(base + |l.done|, |l.cur|);
    assert Here(m, base, start) == Some(cell);
    if off == l.j {
      assert m.spot == Some(start);
    } else {
      assert cell.width == 2 && line.cells[off].width == 0 && off == l.j + 1;
      assert m.spot == Some(Spot(start.row, start.col + 1));
      assert Here(m, base, Spot(start.row, start.col + 1)) == Some(Spacer(cell.style, cell.link));
    }
    UnderCell(line.cells, l.j, off, width);
  }

  lemma {:induction false} UnderCell(cells: seq<Cell>, j: nat, off: nat, width: nat)
    requires j <= off < |cells| && 0 < cells[j].width <= width
    requires off == j || (off == j + 1 && cells[j].width == 2 && cells[off].width == 0)
    ensures off == j ==> forall left :: Under(cells, off, width, Some(cells[j]), left)
    ensures off == j + 1 ==> Under(cells, off, width, Some(Spacer(cells[j].style, cells[j].link)), Some(cells[j]))
  {
  }

  lemma {:induction false} AwaitsStep(l: Layout, line: Line, width: nat, base: nat, off: nat)
    requires l.j < |line.cells| && 1 <= width && line.cursor == Some(off)
    requires off < |line.cells| && LayOne(l, line, width, base).j <= off && Awaits(l, line, off)
    ensures Awaits(LayOne(l, line, width, base), line, off)
  {
  }

  lemma {:induction false} LaysDown(l: Layout, line: Line, width: nat, base: nat, off: nat)
    requires 1 <= width && Between(l, line, width) && line.cursor == Some(off) && off < |line.cells|
    requires Awaits(l, line, off) && (off < l.j ==> Lands(l, line, width, base, off))
    ensures Lands(LayFrom(l, line, width, base), line, width, base, off)
    decreases |line.cells| - l.j
  {
    hide Lands, Awaits, LayOne;
    if l.j == |line.cells| {
      LandsPadded(l, line, width, base, off);
    } else {
      var m := LayOne(l, line, width, base);
      BetweenStep(l, line, width, base);
      if off < l.j {
        LandsKept(l, line, width, base, off);
        Passed(m, line, off);
      } else if off < m.j {
        LandsNow(l, line, width, base, off);
        Passed(m, line, off);
      } else {
        AwaitsStep(l, line, width, base, off);
      }
      LaysDown(m, line, width, base, off);
    }
  }

  lemma {:induction false} Passed(l: Layout, line: Line, off: nat)
    requires off < |line.cells| && off < l.j
    ensures Awaits(l, line, off)
  {
  }

  lemma {:induction false} LandsPadded(l: Layout, line: Line, width: nat, base: nat, off: nat)
    requires 1 <= width && |l.cur| <= width && off < |line.cells| && Lands(l, line, width, base, off)
    ensures Lands(l.(done := l.done + [Padded(l.cur, width, false)]), line, width, base, off)
  {
    hide Under;
    var at, m := l.spot.value, l.(done := l.done + [Padded(l.cur, width, false)]);
    UnderKept(line.cells, off, width, Here(l, base, at),
      if at.col > 0 then Here(l, base, Spot(at.row, at.col - 1)) else None,
      Here(m, base, at), if at.col > 0 then Here(m, base, Spot(at.row, at.col - 1)) else None);
  }

  function CellAt(rows: seq<Row>, r: nat, c: nat): Option<Cell> {
    if r < |rows| && c < |rows[r].cells| then Some(rows[r].cells[c]) else None
  }

  /** The cursor's place among rows that are numbered from 0. */
  ghost predicate Puts(rows: seq<Row>, at: Spot, cells: seq<Cell>, off: nat, width: nat)
    requires off < |cells|
  {
    && at.row < |rows| && at.col < width
    && Under(cells, off, width, CellAt(rows, at.row, at.col),
       if at.col > 0 then CellAt(rows, at.row, at.col - 1) else None)
  }

  lemma {:induction false} LinePuts(line: Line, width: nat, a: seq<Row>, off: nat)
    requires 1 <= width && line.cursor == Some(off) && off < |line.cells|
    ensures var (rows, spot) := LayLine(line, width, |a|, None);
            spot.Some? && Puts(a + rows, spot.value, line.cells, off, width)
  {
    hide LayFrom, Lands, Under;
    var start := Layout(0, [], [], None);
    assert Between(start, line, width) && Awaits(start, line, off);
    LaysDown(start, line, width, |a|, off);
    var l := LayFrom(start, line, width, |a|);
    CursorBelow(line, width, |a|);
    LandsMeans(l, line, width, |a|, off);
    var (rows, spot) := LayLine(line, width, |a|, None);
    var at := spot.value;
    UnderKept(line.cells, off, width, Here(l, |a|, at),
      if at.col > 0 then Here(l, |a|, Spot(at.row, at.col - 1)) else None,
      CellAt(a + rows, at.row, at.col), if at.col > 0 then CellAt(a + rows, at.row, at.col - 1) else None);
  }

  lemma {:induction false} LandsMeans(l: Layout, line: Line, width: nat, base: nat, off: nat)
    requires off < |line.cells| && Lands(l, line, width, base, off)
    ensures l.spot.Some? && l.spot.value.col < width && l.spot.value.row >= base
    ensures var at := l.spot.value;
      Under(line.cells, off, width, Here(l, base, at),
        if at.col > 0 then Here(l, base, Spot(at.row, at.col - 1)) else None)
  {
    hide Under, Here;
  }

  lemma {:induction false} PutsAfter(rows: seq<Row>, more: seq<Row>, at: Spot, cells: seq<Cell>, off: nat, width: nat)
    requires off < |cells| && Puts(rows, at, cells, off, width)
    ensures Puts(rows + more, at, cells, off, width)
  {
    hide Under;
  }

  lemma {:induction false} LinesPut(lines: seq<Line>, k: nat, width: nat)
    requires 1 <= width && CursorIn(lines, k) && k < |lines| && lines[k].cursor.value < |lines[k].cells|
    ensures var (text, spot) := LayLines(lines, width);
            spot.Some? && Puts(text, spot.value, lines[k].cells, lines[k].cursor.value, width)
  {
    hide LayLine, Puts;
    var n := |lines| - 1;
    var init := lines[..n];
    var (rows, spot) := LayLines(init, width);
    assert lines[n].cursor.Some? <==> n == k;
    assert forall i | 0 <= i < n :: init[i] == lines[i];
    if k == n {
      NoCursorNoSpot(init, k, width);
      LinePuts(lines[n], width, rows, lines[n].cursor.value);
    } else {
      LinesPut(init, k, width);
      SpotStays(lines[n], width, |rows|, spot);
      PutsAfter(rows, LayLine(lines[n], width, |rows|, spot).0,
        spot.value, lines[k].cells, lines[k].cursor.value, width);
    }
  }

  // ---- the line the cursor is in --------------------------------------------

  /** Line `k` has the cursor, on the cell it is on in its row. */
  ghost predicate Holds(lines: seq<Line>, k: nat, row: Row, col: nat) {
    && k < |lines| && CursorIn(lines, k) && col < |row.cells|
    && var line := lines[k];
       && line.cursor.Some? && line.cursor.value < |line.cells| && line.cells[line.cursor.value] == row.cells[col]
       && (col > 0 ==> line.cursor.value > 0 && line.cells[line.cursor.value - 1] == row.cells[col - 1])
  }

  lemma {:induction false} NoCursor(rows: seq<Row>, i: nat, at: Spot)
    requires at.row < i <= |rows|
    ensures forall x | 0 <= x < |LinesFrom(rows, i, at)| :: LinesFrom(rows, i, at)[x].cursor.None?
    decreases |rows| - i
  {
    hide LineAt;
    if i < |rows| {
      NoCursor(rows, LineEnd(rows, i), at);
      CursorOf(rows, i, at);
    }
  }

  lemma {:induction false} CursorLine(rows: seq<Row>, i: nat, cols: nat, at: Spot) returns (k: nat)
    requires i <= at.row < |rows| && RowsFit(rows, cols) && at.col < cols
    ensures Holds(LinesFrom(rows, i, at), k, rows[at.row], at.col)
    decreases |rows| - i
  {
    hide LineAt;
    var j := LineEnd(rows, i);
    var more := LinesFrom(rows, j, at);
    CursorOf(rows, i, at);
    if at.row < j {
      k := 0;
      NoCursor(rows, j, at);
      CursorCell(rows, i, cols, at);
    } else {
      var m := CursorLine(rows, j, cols, at);
      k := m + 1;
    }
    var lines := LinesFrom(rows, i, at);
    forall x | 0 <= x < |lines|
      ensures lines[x].cursor.Some? <==> x == k
    {
      if x > 0 { assert lines[x] == more[x - 1]; }
    }
  }

  /** The cell at an offset within joined rows. */
  lemma {:induction false} CursorCell(rows: seq<Row>, i: nat, cols: nat, at: Spot)
    requires i < |rows| && i <= at.row < LineEnd(rows, i) && RowsFit(rows, cols) && at.col < cols
    ensures var line := LineAt(rows, i, at);
      && line.cursor.Some? && line.cursor.value < |line.cells|
      && line.cells[line.cursor.value] == rows[at.row].cells[at.col]
      && (at.col > 0 ==> line.cursor.value > 0 && line.cells[line.cursor.value - 1] == rows[at.row].cells[at.col - 1])
  {
    hide LastShown, LineEnd, FirstMark;
    var j := LineEnd(rows, i);
    var part := rows[i..j];
    var r := at.row - i;
    assert part[..r] == rows[i..at.row] && part[r] == rows[at.row];
    CursorInside(rows, i, j, cols, at);
    JoinAt(part, r, at.col);
    if at.col > 0 { JoinAt(part, r, at.col - 1); }
    hide Join;
    var off := |Join(rows[i..at.row])| + at.col;
    assert off + 1 <= Keep(Join(part), Some(off));
  }

  lemma {:induction false} JoinAt(rows: seq<Row>, r: nat, c: nat)
    requires r < |rows| && c < |rows[r].cells|
    ensures |Join(rows[..r])| + c < |Join(rows)| && Join(rows)[|Join(rows[..r])| + c] == rows[r].cells[c]
    decreases |rows|
  {
    var n := |rows| - 1;
    if r < n {
      JoinAt(rows[..n], r, c);
      assert rows[..n][..r] == rows[..r];
    }
  }

  lemma {:induction false} TailKept(rows: seq<Row>, keep: nat)
    requires keep <= |rows|
    ensures keep <= |DropTail(rows, keep)|
    decreases |rows|
  {
    hide RowBlank;
    if |rows| > keep && RowBlank(rows[|rows| - 1]) && !rows[|rows| - 1].wrapped { TailKept(rows[..|rows| - 1], keep); }
  }

  // ---- the whole screen -----------------------------------------------------

  lemma {:induction false} ExtractHolds(s: Scr, at: Spot) returns (k: nat)
    requires ScrOk(s) && at.row < s.rows && at.col < s.cols
    ensures Holds(Extract(s, at), k, s.grid[at.row], at.col)
  {
    hide LinesFrom, RowBlank, Holds;
    var abs := Spot(|s.scrollback| + at.row, at.col);
    var rows := DropTail(AllRows(s), abs.row + 1);
    TailKept(AllRows(s), abs.row + 1);
    assert AllRows(s) == s.scrollback + s.grid;
    assert rows[abs.row] == s.grid[at.row];
    assert RowsFit(rows, s.cols);
    k := CursorLine(rows, 0, s.cols, abs);
  }

  lemma {:induction false} PlacedAt(s: Scr, width: nat, text: seq<Row>, spot: Spot)
    requires spot.row < |text| && s.rows >= 1
    ensures var (t, to) := Place(s, width, text, Some(spot));
            to.row < s.rows && to.row < |t.grid| && t.grid[to.row] == text[spot.row] && to.col == spot.col
  {
    hide KeepLast;
  }

  /** Whatever the text and the width, the cursor stays on its character: on the same cell; on the second half
      of the same wide character; on the blank in its place where there is only one column. */
  lemma {:induction false} CursorFollows(s: Scr, width: nat, at: Spot)
    requires ScrOk(s) && 1 <= width && at.row < s.rows && at.col < s.cols
    ensures var (t, to) := ReflowWidth(s, width, at);
      var x := s.grid[at.row].cells[at.col];
      && to.row < s.rows && to.row < |t.grid| && to.col < width && to.col < |t.grid[to.row].cells|
      && var y := t.grid[to.row].cells[to.col];
         && (0 < x.width <= width ==> y == x)
         && (x.width > width ==> y == Blank(PLAIN))
         && (x.width == 0 && at.col > 0 && s.grid[at.row].cells[at.col - 1].width == 2 ==>
               var head := s.grid[at.row].cells[at.col - 1];
               if width >= 2 then
                 y == Spacer(head.style, head.link) && to.col > 0 && t.grid[to.row].cells[to.col - 1] == head
               else y == Blank(PLAIN))
  {
    GridFits(s);
    hide *;
    var k := ExtractHolds(s, at);
    var lines := Extract(s, at);
    HoldsMeans(lines, k, s.grid[at.row], at.col);
    LinesPut(lines, k, width);
    LayLinesFit(lines, width);
    var (text, spot) := LayLines(lines, width);
    PutsMeans(text, spot.value, lines[k].cells, lines[k].cursor.value, width);
    PlacedAt(s, width, text, spot.value);
    ReflowIs(s, width, at);
  }

  lemma {:induction false} GridFits(s: Scr)
    requires ScrOk(s)
    ensures |s.grid| == s.rows && forall i | 0 <= i < |s.grid| :: |s.grid[i].cells| == s.cols
  {
  }

  lemma {:induction false} ReflowIs(s: Scr, width: nat, at: Spot)
    requires 1 <= width
    ensures var (text, spot) := LayLines(Extract(s, at), width);
            ReflowWidth(s, width, at) == Place(s, width, text, spot)
  {
    hide LayLines, Extract, Place;
  }

  lemma {:induction false} LayLinesFit(lines: seq<Line>, width: nat)
    requires 1 <= width
    ensures forall i | 0 <= i < |LayLines(lines, width).0| :: |LayLines(lines, width).0[i].cells| == width
  {
    LayLinesOk(lines, width);
    hide LayLines;
  }

  lemma {:induction false} HoldsMeans(lines: seq<Line>, k: nat, row: Row, col: nat)
    requires Holds(lines, k, row, col)
    ensures k < |lines| && CursorIn(lines, k) && col < |row.cells|
    ensures lines[k].cursor.Some? && lines[k].cursor.value < |lines[k].cells|
    ensures lines[k].cells[lines[k].cursor.value] == row.cells[col]
    ensures col > 0 ==> lines[k].cursor.value > 0 && lines[k].cells[lines[k].cursor.value - 1] == row.cells[col - 1]
  {
  }

  lemma {:induction false} PutsMeans(rows: seq<Row>, at: Spot, cells: seq<Cell>, off: nat, width: nat)
    requires off < |cells| && Puts(rows, at, cells, off, width)
    requires forall i | 0 <= i < |rows| :: |rows[i].cells| == width
    ensures at.row < |rows| && at.col < width == |rows[at.row].cells|
    ensures var x, y := cells[off], rows[at.row].cells[at.col];
      && (0 < x.width <= width ==> y == x)
      && (x.width > width ==> y == Blank(PLAIN))
      && (x.width == 0 && off > 0 && cells[off - 1].width == 2 ==>
            var head := cells[off - 1];
            if width >= 2 then
              y == Spacer(head.style, head.link) && at.col > 0 && rows[at.row].cells[at.col - 1] == head
            else y == Blank(PLAIN))
  {
  }
}
