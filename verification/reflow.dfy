// What `Screen::reflow_width` of crates/posh-term/src/screen.rs computes, as functions on values:
// unwrap the rows into logical lines, trim them, lay each line out at the new width, and split
// the result into scrollback and grid.
module Reflow {
  import opened Cells

  /** A screen's fields as one value. */
  datatype Scr = Scr(rows: nat, cols: nat, grid: seq<Row>, scrollback: seq<Row>, maxScrollback: nat)

  datatype Spot = Spot(row: nat, col: nat)

  ghost predicate RowsFit(rows: seq<Row>, cols: nat) {
    forall i | 0 <= i < |rows| :: |rows[i].cells| == cols
  }

  ghost predicate ScrOk(s: Scr) {
    && 1 <= s.rows <= 0xFFFF && 1 <= s.cols <= 0xFFFF
    && |s.grid| == s.rows && RowsFit(s.grid, s.cols)
    && |s.scrollback| <= s.maxScrollback && RowsFit(s.scrollback, s.cols)
  }

  function KeepLast<T>(s: seq<T>, n: nat): seq<T> {
    if |s| > n then s[|s| - n..] else s
  }

  function Min(a: nat, b: nat): nat {
    if a < b then a else b
  }

  function Max(a: nat, b: nat): nat {
    if a < b then b else a
  }

  function AllRows(s: Scr): seq<Row> {
    s.scrollback + s.grid
  }

  predicate RowBlank(r: Row) {
    LastShown(r.cells) == 0
  }

  /** Rows below the cursor that show nothing do not take part. */
  function DropTail(rows: seq<Row>, keep: nat): (r: seq<Row>)
    ensures r <= rows
  {
    if |rows| > keep && RowBlank(rows[|rows| - 1]) && !rows[|rows| - 1].wrapped
    then DropTail(rows[..|rows| - 1], keep)
    else rows
  }

  // ---- logical lines --------------------------------------------------------

  datatype Line = Line(cells: seq<Cell>, mark: Option<nat>, cursor: Option<nat>)

  function Join(rows: seq<Row>): seq<Cell> {
    if rows == [] then [] else Join(rows[..|rows| - 1]) + rows[|rows| - 1].cells
  }

  function FirstMark(rows: seq<Row>): Option<nat> {
    if rows == [] then None
    else if FirstMark(rows[..|rows| - 1]).Some? then FirstMark(rows[..|rows| - 1])
    else rows[|rows| - 1].mark
  }

  /** One past the last row of the logical line that contains row `i`. */
  function LineEnd(rows: seq<Row>, i: nat): (j: nat)
    requires i < |rows|
    ensures i < j <= |rows|
    decreases |rows| - i
  {
    if !rows[i].wrapped || i + 1 == |rows| then i + 1 else LineEnd(rows, i + 1)
  }

  /** Trailing blanks go, but never the cursor's cell. */
  function Keep(cells: seq<Cell>, cursor: Option<nat>): nat {
    match cursor
    case None => LastShown(cells)
    case Some(off) => Min(|cells|, Max(LastShown(cells), off + 1))
  }

  function LineAt(rows: seq<Row>, i: nat, at: Spot): Line
    requires i < |rows|
  {
    var j := LineEnd(rows, i);
    var cells := Join(rows[i..j]);
    var cursor := if i <= at.row < j then Some(|Join(rows[i..at.row])| + at.col) else None;
    Line(cells[..Keep(cells, cursor)], FirstMark(rows[i..j]), cursor)
  }

  /** The logical lines from row `i` on; `at` is the cursor in rows counted from the oldest. */
  function LinesFrom(rows: seq<Row>, i: nat, at: Spot): seq<Line>
    requires i <= |rows|
    decreases |rows| - i
  {
    if i == |rows| then [] else [LineAt(rows, i, at)] + LinesFrom(rows, LineEnd(rows, i), at)
  }

  // ---- laying out one line --------------------------------------------------

  /** Progress within a line: next cell, cells of the unfinished row, finished rows, cursor. */
  datatype Layout = Layout(j: nat, cur: seq<Cell>, done: seq<Row>, spot: Option<Spot>)

  function Padded(cur: seq<Cell>, width: nat, wrapped: bool): Row {
    Row(if |cur| < width then cur + Blanks(width - |cur|, PLAIN) else cur[..width], wrapped, None)
  }

  /** A full row is emitted as wrapped when cells remain. */
  function Flush(l: Layout, line: Line, width: nat): Layout {
    if |l.cur| == width && l.j < |line.cells|
    then l.(cur := [], done := l.done + [Row(l.cur, true, None)])
    else l
  }

  function SpacerAt(cells: seq<Cell>, j: nat): bool {
    j < |cells| && cells[j].width == 0
  }

  function LayOne(l: Layout, line: Line, width: nat, base: nat): (r: Layout)
    requires l.j < |line.cells| && 1 <= width
    ensures l.j < r.j <= |line.cells|
  {
    var cell := line.cells[l.j];
    var row := base + |l.done|;
    if cell.width == 0 then
      var spot := if line.cursor == Some(l.j) && l.spot.None? then Some(Spot(row, Min(|l.cur|, width - 1))) else l.spot;
      l.(j := l.j + 1, spot := spot)
    else if cell.width > width then
      var hit := line.cursor == Some(l.j) || line.cursor == Some(l.j + 1);
      Flush(l.(j := l.j + (if SpacerAt(line.cells, l.j + 1) then 2 else 1),
               cur := l.cur + [Blank(PLAIN)],
               spot := if hit then Some(Spot(row, |l.cur|)) else l.spot), line, width)
    else
      var l := if |l.cur| + cell.width > width
               then l.(cur := [], done := l.done + [Padded(l.cur, width, true)]) else l;
      var wide := cell.width == 2;
      var spot := if line.cursor == Some(l.j) then Some(Spot(base + |l.done|, |l.cur|))
                  else if wide && line.cursor == Some(l.j + 1) then Some(Spot(base + |l.done|, |l.cur| + 1))
                  else l.spot;
      Flush(l.(j := l.j + (if wide && SpacerAt(line.cells, l.j + 1) then 2 else 1),
               cur := l.cur + [cell] + (if wide then [Spacer(cell.style, cell.link)] else []),
               spot := spot), line, width)
  }

  function LayFrom(l: Layout, line: Line, width: nat, base: nat): (r: Layout)
    requires l.j <= |line.cells| && 1 <= width
    ensures r.done != []
    decreases |line.cells| - l.j
  {
    if l.j == |line.cells| then l.(done := l.done + [Padded(l.cur, width, false)])
    else LayFrom(LayOne(l, line, width, base), line, width, base)
  }

  /** The rows of one line, the first carrying its mark, and where the cursor went. */
  function LayLine(line: Line, width: nat, base: nat, spot: Option<Spot>): (r: (seq<Row>, Option<Spot>))
    requires 1 <= width
  {
    var l := LayFrom(Layout(0, [], [], spot), line, width, base);
    var rows := l.done[0 := l.done[0].(mark := line.mark)];
    if line.cursor.Some? && l.spot.None? then
      var last := |rows| - 1;
      (rows, Some(Spot(base + last, Min(LastShown(rows[last].cells), width - 1))))
    else (rows, l.spot)
  }

  function LayLines(lines: seq<Line>, width: nat): (r: (seq<Row>, Option<Spot>))
    requires 1 <= width
  {
    if lines == [] then ([], None)
    else
      var (rows, spot) := LayLines(lines[..|lines| - 1], width);
      var (more, spot') := LayLine(lines[|lines| - 1], width, |rows|, spot);
      (rows + more, spot')
  }

  // ---- the whole screen -----------------------------------------------------

  /** First row of the new grid: the bottom of the text, unless the cursor is above it. */
  function GridStart(total: nat, rows: nat, at: nat): nat {
    Min(if total > rows then total - rows else 0, at)
  }

  function PadRows(grid: seq<Row>, rows: nat, cols: nat): seq<Row> {
    if |grid| < rows then grid + BlankRows(rows - |grid|, cols, PLAIN) else grid
  }

  function Place(s: Scr, width: nat, text: seq<Row>, spot: Option<Spot>): (Scr, Spot) {
    var at := if spot.Some? then spot.value else Spot(0, 0);
    var start := Min(GridStart(|text|, s.rows, at.row), |text|);
    var grid := text[start..Min(|text|, start + s.rows)];
    (s.(cols := width, grid := PadRows(grid, s.rows, width),
        scrollback := KeepLast(text[..start], s.maxScrollback)),
     Spot(if at.row >= start then at.row - start else 0, at.col))
  }

  /** The logical lines of a screen, with the cursor located in them. */
  function Extract(s: Scr, at: Spot): seq<Line> {
    var abs := Spot(|s.scrollback| + at.row, at.col);
    LinesFrom(DropTail(AllRows(s), abs.row + 1), 0, abs)
  }

  function ReflowWidth(s: Scr, width: nat, at: Spot): (Scr, Spot)
    requires 1 <= width
  {
    var (text, spot) := LayLines(Extract(s, at), width);
    Place(s, width, text, spot)
  }
}
