// Reflow of text with whole wide characters: exactly when no wide character has to be moved or blanked
// can the logical lines and the cursor's place in them be read back, and then resizing through
// intermediate widths equals resizing directly.
module ReflowPath {
  import opened Cells
  import opened Reflow
  import opened ReflowProofs

  ghost predicate Narrow(cells: seq<Cell>) {
    forall i | 0 <= i < |cells| :: cells[i].width == 1
  }

  ghost predicate NarrowRows(rows: seq<Row>) {
    forall i | 0 <= i < |rows| :: Narrow(rows[i].cells)
  }

  predicate FormedAt(cells: seq<Cell>, i: nat)
    requires i < |cells|
  {
    var c := cells[i];
    && (c.width == 2 ==>
          if i + 1 < |cells| then cells[i + 1] == Spacer(c.style, c.link) else Skippable(Spacer(c.style, c.link)))
    && (c.width == 0 ==> i > 0 && cells[i - 1].width == 2)
  }

  /** Every wide head has the spacer made for it; only one that shows nothing may be missing, at the end. */
  ghost predicate Formed(cells: seq<Cell>) {
    forall i | 0 <= i < |cells| :: FormedAt(cells, i)
  }

  ghost predicate FormedRow(cells: seq<Cell>) {
    Formed(cells) && (cells != [] ==> cells[|cells| - 1].width != 2)
  }

  ghost predicate FormedRows(rows: seq<Row>) {
    forall i | 0 <= i < |rows| :: FormedRow(rows[i].cells)
  }

  /** From column `col` on, no wide character would start in the last column, nor is one wider than
      the row. */
  predicate Seamless(cells: seq<Cell>, j: nat, col: nat, width: nat)
    decreases |cells| - j
  {
    if j >= |cells| then true
    else
      var next := col + cells[j].width;
      next <= width && Seamless(cells, j + 1, if next == width && cells[j].width > 0 then 0 else next, width)
  }

  /** Nothing left to trim, and the cursor is on one of the line's cells. */
  ghost predicate Trimmed(line: Line) {
    Keep(line.cells, line.cursor) == |line.cells| && (line.cursor.Some? ==> line.cursor.value < |line.cells|)
  }

  lemma {:induction false} NarrowSeamless(cells: seq<Cell>, j: nat, col: nat, width: nat)
    requires Narrow(cells) && col < width
    ensures Seamless(cells, j, col, width)
    decreases |cells| - j
  {
    if j < |cells| {
      NarrowSeamless(cells, j + 1, if col + 1 == width then 0 else col + 1, width);
    }
  }

  /** It is the text that flows without a blank being added. */
  lemma {:induction false} SeamlessMeans(cells: seq<Cell>, width: nat)
    requires 2 <= width
    ensures Seamless(cells, 0, 0, width) <==> Flowed(Glyphs(cells), 0, width) == Glyphs(cells)
  {
    assert cells[0..] == cells;
    if Seamless(cells, 0, 0, width) {
      SeamlessFlows(cells, 0, 0, width);
    }
    if Flowed(Glyphs(cells), 0, width) == Glyphs(cells) {
      FlowsSeamless(cells, 0, 0, width, [], []);
    }
  }

  lemma {:induction false} NextGlyph(cells: seq<Cell>, j: nat)
    requires j < |cells|
    ensures Glyphs(cells[j..]) == (if cells[j].width == 0 then [] else [cells[j]]) + Glyphs(cells[j + 1..])
  {
    assert cells[j..][1..] == cells[j + 1..];
  }

  lemma {:induction false} SeamlessFlows(cells: seq<Cell>, j: nat, col: nat, width: nat)
    requires j <= |cells| && col < width && 2 <= width && Seamless(cells, j, col, width)
    ensures Flowed(Glyphs(cells[j..]), col, width) == Glyphs(cells[j..])
    decreases |cells| - j
  {
    hide Glyphs;
    if j == |cells| {
      assert Glyphs(cells[j..]) == [] by { NoGlyphs(cells, j); }
    } else {
      var next := col + cells[j].width;
      NextGlyph(cells, j);
      SeamlessFlows(cells, j + 1, if next == width && cells[j].width > 0 then 0 else next, width);
      var more := Glyphs(cells[j + 1..]);
      if cells[j].width == 0 {
        assert [] + more == more;
      } else {
        FlowedStep(cells[j], more, col, width);
        FlowedEdge(more, width);
      }
    }
  }

  lemma {:induction false} NoGlyphs(cells: seq<Cell>, j: nat)
    requires j == |cells|
    ensures Glyphs(cells[j..]) == []
  {
  }

  /** An added blank is not mistaken for the wide character it precedes. */
  lemma {:induction false} FlowsSeamless(cells: seq<Cell>, j: nat, col: nat, width: nat, x: seq<Cell>, y: seq<Cell>)
    requires j <= |cells| && col < width && 2 <= width
    requires Flowed(Glyphs(cells[j..]), col, width) + x == Glyphs(cells[j..]) + y
    ensures Seamless(cells, j, col, width)
    decreases |cells| - j
  {
    hide Glyphs, Flowed;
    if j < |cells| {
      var c, next, more := cells[j], col + cells[j].width, Glyphs(cells[j + 1..]);
      NextGlyph(cells, j);
      if c.width == 0 {
        assert [] + more == more;
      } else {
        FlowedStep(c, more, col, width);
        FlowedEdge(more, width);
        SameFirst(c, Flowed(Glyphs(cells[j..]), col, width), more, x, y);
        assert next <= width;
        SameRest(c, Flowed(more, next, width), more, x, y);
      }
      FlowsSeamless(cells, j + 1, if next == width && c.width > 0 then 0 else next, width, x, y);
    }
  }

  lemma {:induction false} SameFirst(c: Cell, a: seq<Cell>, b: seq<Cell>, x: seq<Cell>, y: seq<Cell>)
    requires a != [] && a + x == [c] + b + y
    ensures a[0] == c
  {
    assert (a + x)[0] == ([c] + b + y)[0];
  }

  lemma {:induction false} SameRest(c: Cell, a: seq<Cell>, b: seq<Cell>, x: seq<Cell>, y: seq<Cell>)
    requires [] + ([c] + a) + x == [c] + b + y
    ensures a + x == b + y
  {
    assert ([] + ([c] + a) + x)[1..] == a + x;
    assert ([c] + b + y)[1..] == b + y;
  }

  // ---- one line -------------------------------------------------------------

  /** Where `off` cells into the rows lies. */
  ghost predicate At(rows: seq<Row>, row: nat, col: nat, off: nat, width: nat) {
    row < |rows| && col < width && |Join(rows[..row])| + col == off
  }

  /** The unfinished row counts as a row of its own. */
  function Shown(l: Layout): seq<Row> {
    l.done + [Row(l.cur, false, None)]
  }

  /** The cells with the spacer of the last put back. */
  function Whole(cells: seq<Cell>): seq<Cell> {
    if cells == [] then [] else cells[..|cells| - 1] + Unit(cells[|cells| - 1])
  }

  ghost predicate SmoothState(l: Layout, line: Line, width: nat, base: nat, spot: Option<Spot>) {
    && LayoutOk(l, line, width)
    && (l.j < |line.cells| ==> line.cells[l.j].width != 0 && Seamless(line.cells, l.j, |l.cur|, width))
    && Join(l.done) + l.cur == Whole(line.cells[..l.j])
    && (if line.cursor.Some? && line.cursor.value < l.j
        then l.spot.Some? && l.spot.value.row >= base
             && At(Shown(l), l.spot.value.row - base, l.spot.value.col, line.cursor.value, width)
        else l.spot == spot)
  }

  /** One past the character at `j`. */
  function After(cells: seq<Cell>, j: nat): nat
    requires j < |cells|
  {
    if cells[j].width == 2 && SpacerAt(cells, j + 1) then j + 2 else j + 1
  }

  lemma {:induction false} NextUnit(cells: seq<Cell>, j: nat)
    requires Formed(cells) && j < |cells| && cells[j].width != 0
    ensures var k := After(cells, j);
            && k <= |cells| && (k < |cells| ==> cells[k].width != 0)
            && Whole(cells[..j]) == cells[..j]
            && Whole(cells[..k]) == cells[..j] + Unit(cells[j])
  {
    var k, c := After(cells, j), cells[j];
    assert FormedAt(cells, j);
    if k < |cells| { assert FormedAt(cells, k); }
    if j > 0 {
      assert FormedAt(cells, j - 1);
    }
    assert k == j + 1 ==> cells[..k][..j] == cells[..j];
    assert k == j + 2 ==> cells[..k][..j + 1] == cells[..j] + [c] && Unit(cells[j + 1]) == [cells[j + 1]];
  }

  lemma {:induction false} NextSeamless(cells: seq<Cell>, j: nat, col: nat, width: nat)
    requires j < |cells| && cells[j].width != 0 && Seamless(cells, j, col, width)
    ensures var next := col + cells[j].width;
            next <= width && Seamless(cells, After(cells, j), if next == width then 0 else next, width)
  {
  }

  /** A step within a formed, seamless line puts down its character and nothing else. */
  lemma {:induction false} SmoothShape(l: Layout, line: Line, width: nat, base: nat)
    requires 1 <= width && l.j < |line.cells| && line.cells[l.j].width != 0
    requires |l.cur| + line.cells[l.j].width <= width
    ensures var c, m := line.cells[l.j], LayOne(l, line, width, base);
            && m.j == After(line.cells, l.j) && c.width <= 2 && |Unit(c)| == c.width
            && m.spot == (if line.cursor == Some(l.j) then Some(Spot(base + |l.done|, |l.cur|))
                          else if c.width == 2 && line.cursor == Some(l.j + 1)
                            then Some(Spot(base + |l.done|, |l.cur| + 1))
                          else l.spot)
            && (if |l.cur| + c.width == width && m.j < |line.cells|
                then m.cur == [] && m.done == l.done + [Row(l.cur + Unit(c), true, None)]
                else m.cur == l.cur + Unit(c) && m.done == l.done)
  {
    hide Padded;
    LayOneShape(l, line, width, base);
  }

  lemma {:induction false} SmoothOne(l: Layout, line: Line, width: nat, base: nat, spot: Option<Spot>)
    requires 1 <= width && Formed(line.cells) && Trimmed(line) && l.j < |line.cells|
    requires SmoothState(l, line, width, base, spot)
    ensures SmoothState(LayOne(l, line, width, base), line, width, base, spot)
    ensures LayOne(l, line, width, base).j == |line.cells| ==> LayOne(l, line, width, base).cur != []
  {
    hide At, Join, LayOne, Formed, FormedAt, Paired, Seamless, RowsOk, AllWrapped, Unit, Whole, After, Keep;
    var c, m := line.cells[l.j], LayOne(l, line, width, base);
    LayOneOk(l, line, width, base);
    NextUnit(line.cells, l.j);
    NextSeamless(line.cells, l.j, |l.cur|, width);
    SmoothShape(l, line, width, base);
    JoinOne(l.done, Row(l.cur + Unit(c), true, None));
    assert Join(l.done) + (l.cur + Unit(c)) == Whole(line.cells[..l.j]) + Unit(c);
    assert Join(m.done) + m.cur == Whole(line.cells[..m.j]);
    assert |Join(l.done)| + |l.cur| == l.j;
    if line.cursor.Some? && line.cursor.value < m.j {
      AfterIs(line.cells, l.j);
      SmoothSpot(l, line, width, base);
    }
    AfterIs(line.cells, l.j);
  }

  lemma {:induction false} AfterIs(cells: seq<Cell>, j: nat)
    requires j < |cells|
    ensures After(cells, j) == j + 1 || (After(cells, j) == j + 2 && cells[j].width == 2)
    ensures cells[j].width == 2 && j + 1 < |cells| && Formed(cells) ==> After(cells, j) == j + 2
  {
    if cells[j].width == 2 && Formed(cells) { assert FormedAt(cells, j); }
  }

  /** The cursor's place survives a step, or is set by it. */
  lemma {:induction false} SmoothSpot(l: Layout, line: Line, width: nat, base: nat)
    requires 1 <= width && l.j < |line.cells| && line.cells[l.j].width != 0
    requires |l.cur| + line.cells[l.j].width <= width
    requires line.cursor.Some? && line.cursor.value < After(line.cells, l.j)
    requires |Join(l.done)| + |l.cur| == l.j
    requires line.cursor.value < l.j ==>
               l.spot.Some? && l.spot.value.row >= base
               && At(Shown(l), l.spot.value.row - base, l.spot.value.col, line.cursor.value, width)
    ensures var m := LayOne(l, line, width, base);
            && m.spot.Some? && m.spot.value.row >= base
            && At(Shown(m), m.spot.value.row - base, m.spot.value.col, line.cursor.value, width)
  {
    hide LayOne, Unit, After, Join;
    var m := LayOne(l, line, width, base);
    SmoothShape(l, line, width, base);
    AfterIs(line.cells, l.j);
    var row := m.spot.value.row - base;
    assert row <= |l.done| && Shown(l)[..row] == l.done[..row] == Shown(m)[..row];
    assert l.done[..|l.done|] == l.done;
  }

  lemma {:induction false} SmoothFrom(l: Layout, line: Line, width: nat, base: nat, spot: Option<Spot>)
    requires 1 <= width && Formed(line.cells) && Trimmed(line) && SmoothState(l, line, width, base, spot)
    requires l.j <= |line.cells| && (line.cells != [] && l.j == |line.cells| ==> l.cur != [])
    ensures SmoothEnd(LayFrom(l, line, width, base), line, width, base, spot)
    ensures line.cells != [] ==> EndsShown(LayFrom(l, line, width, base), line, base)
    decreases |line.cells| - l.j
  {
    hide SmoothState, SmoothEnd, EndsShown, LayOne, Formed, Trimmed, Padded;
    if l.j == |line.cells| {
      SmoothDone(l, line, width, base, spot);
      if line.cells != [] { LastCell(l, line, width, base, spot); }
    } else {
      SmoothOne(l, line, width, base, spot);
      SmoothFrom(LayOne(l, line, width, base), line, width, base, spot);
    }
  }

  ghost predicate SmoothEnd(r: Layout, line: Line, width: nat, base: nat, spot: Option<Spot>) {
    && (exists k: nat :: Join(r.done) == Whole(line.cells) + Blanks(k, PLAIN))
    && (if line.cursor.Some? && line.cursor.value < |line.cells|
        then r.spot.Some? && r.spot.value.row >= base
             && At(r.done, r.spot.value.row - base, r.spot.value.col, line.cursor.value, width)
        else r.spot == spot)
  }

  lemma {:induction false} SmoothDone(l: Layout, line: Line, width: nat, base: nat, spot: Option<Spot>)
    requires 1 <= width && SmoothState(l, line, width, base, spot) && l.j == |line.cells|
    ensures SmoothEnd(l.(done := l.done + [Padded(l.cur, width, false)]), line, width, base, spot)
  {
    hide Join, Paired, Whole, Seamless, RowsOk, AllWrapped;
    var p := Padded(l.cur, width, false);
    var k := width - |l.cur|;
    assert p.cells == l.cur + Blanks(k, PLAIN);
    JoinOne(l.done, p);
    assert line.cells[..l.j] == line.cells;
    assert Join(l.done) + (l.cur + Blanks(k, PLAIN)) == Whole(line.cells) + Blanks(k, PLAIN);
    if line.cursor.Some? && line.cursor.value < l.j {
      var row := l.spot.value.row - base;
      assert Shown(l)[..row] == (l.done + [p])[..row];
    }
  }

  lemma {:induction false} ShownBlanks(cells: seq<Cell>, k: nat)
    ensures LastShown(cells + Blanks(k, PLAIN)) == LastShown(cells)
  {
    var t := cells + Blanks(k, PLAIN);
    if k == 0 {
      assert t == cells;
    } else {
      assert t[..|t| - 1] == cells + Blanks(k - 1, PLAIN);
      ShownBlanks(cells, k - 1);
    }
  }

  lemma {:induction false} WholeExtends(cells: seq<Cell>)
    requires Formed(cells)
    ensures cells <= Whole(cells) && LastShown(Whole(cells)) == LastShown(cells)
  {
    if cells != [] {
      var n := |cells| - 1;
      assert FormedAt(cells, n);
      assert cells == cells[..n] + [cells[n]];
      if cells[n].width == 2 {
        assert Whole(cells) == cells + [Spacer(cells[n].style, cells[n].link)];
        assert Whole(cells)[..n + 1] == cells;
      } else {
        assert Whole(cells) == cells;
      }
    }
  }

  // ---- the last row of a line -------------------------------------------------

  ghost predicate EndsShown(r: Layout, line: Line, base: nat) {
    r.done != [] &&
    (!RowBlank(r.done[|r.done| - 1])
     || (line.cursor.Some? && r.spot.Some? && r.spot.value.row + 1 == base + |r.done|))
  }

  lemma {:induction false} CursorRow(l: Layout, line: Line, width: nat, base: nat, spot: Option<Spot>)
    requires 1 <= width && line.cells != [] && l.j == |line.cells| && |Join(l.done)| < |line.cells|
    requires SmoothState(l, line, width, base, spot) && line.cursor == Some(|line.cells| - 1)
    ensures l.spot.Some? && l.spot.value.row == base + |l.done|
  {
    hide Paired, Whole, Seamless;
    var row := l.spot.value.row - base;
    if row < |l.done| {
      assert Shown(l)[..row] == l.done[..row];
      assert RowOk(l.done[row], width);
      JoinSplit(l.done, row);
    }
  }

  /** The last cell of a line ends up in the last row, and so does a cursor on it. */
  lemma {:induction false} LastCell(l: Layout, line: Line, width: nat, base: nat, spot: Option<Spot>)
    requires 1 <= width && Trimmed(line) && Formed(line.cells) && line.cells != [] && l.cur != []
    requires SmoothState(l, line, width, base, spot) && l.j == |line.cells|
    ensures EndsShown(l.(done := l.done + [Padded(l.cur, width, false)]), line, base)
  {
    hide *;
    var i := LateCell(l, line, width, base, spot);
    if Skippable(l.cur[i]) {
      OnlyCursorKeeps(line);
      CursorRow(l, line, width, base, spot);
      EndsAtCursor(l, line, width, base);
    } else {
      PaddedShows(l.cur, i, width);
      EndsBright(l, line, width, base);
    }
  }

  lemma {:induction false} EndsAtCursor(l: Layout, line: Line, width: nat, base: nat)
    requires line.cursor.Some? && l.spot.Some? && l.spot.value.row == base + |l.done|
    ensures EndsShown(l.(done := l.done + [Padded(l.cur, width, false)]), line, base)
  {
  }

  lemma {:induction false} EndsBright(l: Layout, line: Line, width: nat, base: nat)
    requires !RowBlank(Padded(l.cur, width, false))
    ensures EndsShown(l.(done := l.done + [Padded(l.cur, width, false)]), line, base)
  {
  }

  lemma {:induction false} LateCell(l: Layout, line: Line, width: nat, base: nat, spot: Option<Spot>) returns (i: nat)
    requires line.cells != [] && l.cur != [] && SmoothState(l, line, width, base, spot) && l.j == |line.cells|
    ensures |l.cur| <= width && i < |l.cur| && l.cur[i] == line.cells[|line.cells| - 1]
    ensures |Join(l.done)| < |line.cells|
  {
    hide Join, At, Seamless;
    var n, all := |line.cells| - 1, Whole(line.cells);
    assert line.cells[..l.j] == line.cells;
    assert |all| == n + |Unit(line.cells[n])| && all[n] == line.cells[n];
    assert !Orphan(l.cur, |l.cur| - 1);
    assert all == Join(l.done) + l.cur && all[|all| - 1] == l.cur[|l.cur| - 1];
    i := n - |Join(l.done)|;
  }

  /** A trimmed line ends in a blank only where the cursor is. */
  lemma {:induction false} OnlyCursorKeeps(line: Line)
    requires Trimmed(line) && line.cells != [] && Skippable(line.cells[|line.cells| - 1])
    ensures line.cursor == Some(|line.cells| - 1)
  {
    assert LastShown(line.cells) < |line.cells|;
  }

  lemma {:induction false} PaddedShows(cur: seq<Cell>, i: nat, width: nat)
    requires i < |cur| <= width && !Skippable(cur[i])
    ensures !RowBlank(Padded(cur, width, false))
  {
    var p := Padded(cur, width, false);
    assert p.cells == cur + Blanks(width - |cur|, PLAIN);
    ShownBlanks(cur, width - |cur|);
    assert LastShown(cur) > i;
  }

  lemma {:induction false} JoinSplit(rows: seq<Row>, k: nat)
    requires k < |rows|
    ensures |Join(rows[..k])| + |rows[k].cells| <= |Join(rows)|
    decreases |rows|
  {
    if k + 1 < |rows| {
      var init := rows[..|rows| - 1];
      assert init[..k] == rows[..k];
      JoinSplit(init, k);
    }
  }

  // ---- where the cursor goes, whatever the text ---------------------------------

  lemma {:induction false} SpotKept(l: Layout, line: Line, width: nat, base: nat)
    requires l.j <= |line.cells| && 1 <= width && line.cursor.None?
    ensures LayFrom(l, line, width, base).spot == l.spot
    decreases |line.cells| - l.j
  {
    if l.j < |line.cells| {
      SpotKept(LayOne(l, line, width, base), line, width, base);
    }
  }

  /** A line without the cursor leaves its place as found before. */
  lemma {:induction false} SpotStays(line: Line, width: nat, base: nat, spot: Option<Spot>)
    requires 1 <= width && line.cursor.None?
    ensures LayLine(line, width, base, spot).1 == spot
  {
    SpotKept(Layout(0, [], [], spot), line, width, base);
  }

  ghost predicate Within(l: Layout, base: nat, rows: nat) {
    l.spot.Some? ==> base <= l.spot.value.row < base + rows
  }

  lemma {:induction false} SpotWithin(l: Layout, line: Line, width: nat, base: nat)
    requires l.j <= |line.cells| && 1 <= width && Within(l, base, |l.done| + 1)
    ensures Within(LayFrom(l, line, width, base), base, |LayFrom(l, line, width, base).done|)
    decreases |line.cells| - l.j
  {
    if l.j < |line.cells| {
      hide Padded;
      SpotWithin(LayOne(l, line, width, base), line, width, base);
    }
  }

  /** The line of the cursor puts it on one of its own rows. */
  lemma {:induction false} CursorBelow(line: Line, width: nat, base: nat)
    requires 1 <= width && line.cursor.Some?
    ensures var (rows, spot) := LayLine(line, width, base, None);
            spot.Some? && base <= spot.value.row < base + |rows|
  {
    hide LayFrom;
    SpotWithin(Layout(0, [], [], None), line, width, base);
  }

  // ---- one line, read back ------------------------------------------------------

  /** What laying out the seamless line `line` gives. */
  lemma {:induction false} LineSmooth(line: Line, width: nat, base: nat, spot: Option<Spot>)
    requires 1 <= width && Formed(line.cells) && Trimmed(line) && Seamless(line.cells, 0, 0, width)
    ensures var l := LayFrom(Layout(0, [], [], spot), line, width, base);
            SmoothEnd(l, line, width, base, spot) && (line.cells != [] ==> EndsShown(l, line, base))
  {
    hide LayFrom, SmoothEnd, EndsShown, Seamless, Trimmed;
    var start := Layout(0, [], [], spot);
    assert line.cells[..0] == [];
    if line.cells != [] { assert FormedAt(line.cells, 0); }
    SmoothFrom(start, line, width, base, spot);
  }

  /** Where line `line`, laid out after `base` rows, puts the cursor, and that it reads back. */
  lemma {:induction false} LineBack(a: seq<Row>, line: Line, width: nat, spot: Option<Spot>, at: Spot)
    requires 1 <= width && Formed(line.cells) && Trimmed(line) && Seamless(line.cells, 0, 0, width)
    requires var (rows, spot') := LayLine(line, width, |a|, spot);
             if line.cursor.Some? then spot.None? && spot' == Some(at) else at.row < |a| || at.row >= |a| + |rows|
    ensures var (rows, spot') := LayLine(line, width, |a|, spot);
            && OneLine(rows)
            && LineAt(a + rows, |a|, at) == line
            && LineEnd(a + rows, |a|) == |a + rows|
            && (if line.cursor.Some? then |a| <= at.row < |a| + |rows| && at.col < width else spot' == spot)
  {
    hide LayFrom, Join, LastShown, FirstMark, Paired, LineEnd, Formed, Whole, Seamless, EndsShown;
    LineSmooth(line, width, |a|, spot);
    var l := LayFrom(Layout(0, [], [], spot), line, width, |a|);
    var (rows, spot') := LayLine(line, width, |a|, spot);
    LayLineOk(line, width, |a|, spot);
    LineEndOne(a, rows, |a|);
    assert (a + rows)[|a|..] == rows;
    JoinCells(l.done, rows);
    var k: nat :| Join(l.done) == Whole(line.cells) + Blanks(k, PLAIN);
    WholeExtends(line.cells);
    ShownBlanks(Whole(line.cells), k);
    assert spot' == l.spot;
    if line.cursor.Some? {
      assert (a + rows)[|a|..at.row] == rows[..at.row - |a|];
      JoinCells(l.done[..at.row - |a|], rows[..at.row - |a|]);
    }
    assert (Whole(line.cells) + Blanks(k, PLAIN))[..|line.cells|] == line.cells;
    var t := a + rows;
    assert t[|a|..LineEnd(t, |a|)] == rows;
    var cursor := if |a| <= at.row < |t| then Some(|Join(t[|a|..at.row])| + at.col) else None;
    assert cursor == line.cursor;
    assert Keep(Join(rows), cursor) == |line.cells|;
  }

  /** The last row of a nonempty line shows something or holds the cursor. */
  lemma {:induction false} LastRowShows(a: seq<Row>, line: Line, width: nat, spot: Option<Spot>, at: Spot)
    requires 1 <= width && Formed(line.cells) && Trimmed(line) && Seamless(line.cells, 0, 0, width) && line.cells != []
    requires var (rows, spot') := LayLine(line, width, |a|, spot);
             if line.cursor.Some? then spot.None? && spot' == Some(at) else at.row < |a|
    ensures var rows := LayLine(line, width, |a|, spot).0;
            !RowBlank(rows[|rows| - 1]) || at.row + 1 == |a| + |rows|
  {
    hide LayFrom, Join, LastShown, Formed, Whole, Seamless, Blanks, SmoothEnd;
    LineSmooth(line, width, |a|, spot);
    var l := LayFrom(Layout(0, [], [], spot), line, width, |a|);
    var rows := LayLine(line, width, |a|, spot).0;
    assert rows[|rows| - 1].cells == l.done[|rows| - 1].cells;
  }

  // ---- all lines ------------------------------------------------------------

  lemma {:induction false} LinesSplit(a: seq<Row>, b: seq<Row>, i: nat, at: Spot)
    requires Closed(a) && i <= |a|
    ensures LinesFrom(a + b, i, at) == LinesFrom(a, i, at) + LinesFrom(a + b, |a|, at)
    decreases |a| - i
  {
    if i < |a| {
      hide Join, FirstMark;
      LineEndInside(a, b, i);
      var j := LineEnd(a, i);
      assert (a + b)[i..j] == a[i..j];
      if i <= at.row < j { assert (a + b)[i..at.row] == a[i..at.row]; }
      assert LineAt(a + b, i, at) == LineAt(a, i, at);
      LinesSplit(a, b, j, at);
    }
  }

  /** Only line `k` holds the cursor; none does if `k` is past the end. */
  ghost predicate CursorIn(lines: seq<Line>, k: nat) {
    forall i | 0 <= i < |lines| :: lines[i].cursor.Some? <==> i == k
  }

  ghost predicate FormedLines(lines: seq<Line>) {
    forall i | 0 <= i < |lines| :: Formed(lines[i].cells) && Trimmed(lines[i])
  }

  /** At `width`, no wide character of these lines has to be moved to a new row, or blanked. */
  predicate Seamlessly(lines: seq<Line>, width: nat) {
    forall i | 0 <= i < |lines| :: Seamless(lines[i].cells, 0, 0, width)
  }

  /** Laid-out lines read back as the same lines, cursor included. */
  lemma {:induction false} LinesBack(lines: seq<Line>, k: nat, width: nat, at: Spot)
    requires 1 <= width && FormedLines(lines) && Seamlessly(lines, width) && CursorIn(lines, k)
    requires var (text, spot) := LayLines(lines, width);
             if k < |lines| then spot == Some(at) else at.row >= |text|
    ensures var (text, spot) := LayLines(lines, width);
            && Closed(text)
            && LinesFrom(text, 0, at) == lines
            && (if k < |lines| then at.row < |text| && at.col < width else spot.None?)
  {
    hide LayLine, LineAt, Formed, Seamless, Trimmed;
    if lines != [] {
      var n := |lines| - 1;
      var init, last := lines[..n], lines[n];
      var (rows, spot) := LayLines(init, width);
      assert init == lines[..n] && forall i | 0 <= i < n :: init[i] == lines[i];
      var (more, spot') := LayLine(last, width, |rows|, spot);
      assert last.cursor.Some? <==> n == k;
      if k < n {
        SpotStays(last, width, |rows|, spot);
        LinesBack(init, k, width, at);
      } else {
        NoCursorNoSpot(init, k, width);
        if k == n { CursorBelow(last, width, |rows|); }
        LinesBack(init, k, width, at);
      }
      LineBack(rows, last, width, spot, at);
      LinesSplit(rows, more, 0, at);
      assert LinesFrom(rows + more, |rows + more|, at) == [];
      assert LinesFrom(rows + more, |rows|, at) == [last];
      assert init + [last] == lines;
    }
  }

  lemma {:induction false} NoCursorNoSpot(lines: seq<Line>, k: nat, width: nat)
    requires 1 <= width && CursorIn(lines, k) && k >= |lines|
    ensures LayLines(lines, width).1.None?
  {
    if lines != [] {
      var n := |lines| - 1;
      NoCursorNoSpot(lines[..n], k, width);
      var (rows, spot) := LayLines(lines[..n], width);
      SpotStays(lines[n], width, |rows|, spot);
    }
  }

  lemma {:induction false} SpotFound(lines: seq<Line>, k: nat, width: nat)
    requires 1 <= width && CursorIn(lines, k) && k < |lines|
    ensures var (text, spot) := LayLines(lines, width);
            spot.Some? && spot.value.row < |text|
  {
    hide LayLine;
    var n := |lines| - 1;
    var (rows, spot) := LayLines(lines[..n], width);
    assert lines[n].cursor.Some? <==> n == k;
    if k == n {
      NoCursorNoSpot(lines[..n], k, width);
      CursorBelow(lines[n], width, |rows|);
    } else {
      assert forall i | 0 <= i < n :: lines[..n][i] == lines[i];
      SpotFound(lines[..n], k, width);
      SpotStays(lines[n], width, |rows|, spot);
    }
  }

  // ---- the whole screen -----------------------------------------------------

  lemma {:induction false} TrimTwice(cells: seq<Cell>, cursor: Option<nat>)
    requires cursor.Some? ==> cursor.value < |cells|
    ensures var k := Keep(cells, cursor);
            Keep(cells[..k], cursor) == k && (cursor.Some? ==> cursor.value < k)
  {
    var k := Keep(cells, cursor);
    ShownPrefix(cells, k);
  }

  lemma {:induction false} ShownPrefix(cells: seq<Cell>, k: nat)
    requires LastShown(cells) <= k <= |cells|
    ensures LastShown(cells[..k]) == LastShown(cells)
  {
    if k < |cells| {
      assert cells[..|cells| - 1][..k] == cells[..k];
      ShownPrefix(cells[..|cells| - 1], k);
    } else {
      assert cells[..k] == cells;
    }
  }

  /** Trimming can cut a spacer off its head only if the spacer shows nothing. */
  lemma {:induction false} FormedCut(cells: seq<Cell>, k: nat)
    requires Formed(cells) && LastShown(cells) <= k <= |cells|
    ensures Formed(cells[..k])
  {
    forall i | 0 <= i < k
      ensures FormedAt(cells[..k], i)
    {
      assert FormedAt(cells, i);
    }
  }

  lemma {:induction false} FormedJoin(rows: seq<Row>)
    requires FormedRows(rows)
    ensures FormedRow(Join(rows))
  {
    if rows != [] {
      var init, last := rows[..|rows| - 1], rows[|rows| - 1].cells;
      assert FormedRows(init);
      FormedJoin(init);
      FormedAppend(Join(init), last);
    }
  }

  lemma {:induction false} FormedAppend(a: seq<Cell>, b: seq<Cell>)
    requires FormedRow(a) && FormedRow(b)
    ensures FormedRow(a + b)
  {
    forall i | 0 <= i < |a + b|
      ensures FormedAt(a + b, i)
    {
      if i < |a| { assert FormedAt(a, i); } else { assert FormedAt(b, i - |a|); }
    }
  }

  lemma {:induction false} CutLine(cells: seq<Cell>, mark: Option<nat>, cursor: Option<nat>)
    requires Formed(cells) && (cursor.Some? ==> cursor.value < |cells|)
    ensures Keep(cells, cursor) <= |cells|
    ensures var line := Line(cells[..Keep(cells, cursor)], mark, cursor); Formed(line.cells) && Trimmed(line)
  {
    TrimTwice(cells, cursor);
    FormedCut(cells, Keep(cells, cursor));
  }

  lemma {:induction false} CursorInside(rows: seq<Row>, i: nat, j: nat, cols: nat, at: Spot)
    requires i <= at.row < j <= |rows| && RowsFit(rows, cols) && at.col < cols
    ensures |Join(rows[i..at.row])| + at.col < |Join(rows[i..j])|
  {
    JoinSplit(rows[i..j], at.row - i);
    assert rows[i..j][..at.row - i] == rows[i..at.row];
  }

  lemma {:induction false} LineFormed(rows: seq<Row>, i: nat, cols: nat, at: Spot)
    requires i < |rows| && RowsFit(rows, cols) && FormedRows(rows) && at.col < cols
    ensures Formed(LineAt(rows, i, at).cells) && Trimmed(LineAt(rows, i, at))
  {
    hide Formed, Trimmed, Keep, Join, LineEnd, FirstMark;
    var j := LineEnd(rows, i);
    FormedJoin(rows[i..j]);
    if i <= at.row < j { CursorInside(rows, i, j, cols, at); }
    var cursor := if i <= at.row < j then Some(|Join(rows[i..at.row])| + at.col) else None;
    CutLine(Join(rows[i..j]), FirstMark(rows[i..j]), cursor);
  }

  /** Lines read from rows are trimmed, and exactly the one under `at` has the cursor. */
  lemma {:induction false} LinesFormed(rows: seq<Row>, i: nat, cols: nat, at: Spot) returns (k: nat)
    requires i <= |rows| && RowsFit(rows, cols) && FormedRows(rows) && at.col < cols
    ensures FormedLines(LinesFrom(rows, i, at)) && CursorIn(LinesFrom(rows, i, at), k)
    ensures k < |LinesFrom(rows, i, at)| <==> i <= at.row < |rows|
    decreases |rows| - i
  {
    if i == |rows| {
      k := 0;
    } else {
      hide LineAt, Keep, Formed, FormedRow;
      var j := LineEnd(rows, i);
      LineFormed(rows, i, cols, at);
      CursorOf(rows, i, at);
      var m := LinesFormed(rows, j, cols, at);
      k := if i <= at.row < j then 0 else m + 1;
      if i <= at.row < j && m < |LinesFrom(rows, j, at)| { assert false; }
      assert LinesFrom(rows, i, at)[1..] == LinesFrom(rows, j, at);
      forall x | 0 <= x < |LinesFrom(rows, i, at)|
        ensures Formed(LinesFrom(rows, i, at)[x].cells) && Trimmed(LinesFrom(rows, i, at)[x])
        ensures LinesFrom(rows, i, at)[x].cursor.Some? <==> x == k
      {
        if x > 0 { assert LinesFrom(rows, i, at)[x] == LinesFrom(rows, j, at)[x - 1]; }
      }
    }
  }

  lemma {:induction false} CursorOf(rows: seq<Row>, i: nat, at: Spot)
    requires i < |rows|
    ensures LineAt(rows, i, at).cursor.Some? <==> i <= at.row < LineEnd(rows, i)
  {
  }

  /** A screen whose wide characters are whole, as drawing makes them, and a place on it. */
  ghost predicate FormedScreen(s: Scr, at: Spot) {
    ScrOk(s) && FormedRows(AllRows(s)) && at.row < s.rows && at.col < s.cols
  }

  /** Laying `lines` out at `width` neither overflows the scrollback nor pushes rows below the
      cursor off the screen. */
  ghost predicate Holds(s: Scr, lines: seq<Line>, width: nat)
    requires 1 <= width
  {
    var (text, spot) := LayLines(lines, width);
    var start := GridStart(|text|, s.rows, if spot.Some? then spot.value.row else 0);
    start <= s.maxScrollback && |text| <= start + s.rows
  }

  /** Rows that show nothing and carry no soft wrap. */
  ghost predicate Dropped(rows: seq<Row>) {
    forall r | r in rows :: RowBlank(r) && !r.wrapped
  }

  lemma {:induction false} DropRows(text: seq<Row>, tail: seq<Row>, keep: nat)
    requires keep <= |text| && text != [] && Dropped(tail)
    requires keep == |text| || !RowBlank(text[|text| - 1])
    ensures DropTail(text + tail, keep) == text
    decreases |tail|
  {
    hide RowBlank;
    var t := text + tail;
    if tail == [] {
      assert t == text;
    } else {
      var init := tail[..|tail| - 1];
      assert t[..|t| - 1] == text + init && t[|t| - 1] == tail[|tail| - 1];
      assert forall r | r in init :: r in tail;
      DropRows(text, init, keep);
    }
  }

  lemma {:induction false} BlankShows(n: nat)
    ensures LastShown(Blanks(n, PLAIN)) == 0
  {
    ShownBlanks([], n);
    assert [] + Blanks(n, PLAIN) == Blanks(n, PLAIN);
  }

  lemma {:induction false} DropKeeps(rows: seq<Row>, keep: nat)
    ensures |DropTail(rows, keep)| >= Min(keep, |rows|)
  {
    if |rows| > keep && RowBlank(rows[|rows| - 1]) && !rows[|rows| - 1].wrapped {
      DropKeeps(rows[..|rows| - 1], keep);
    }
  }

  // ---- the theorems ---------------------------------------------------------

  /** The last line laid out keeps the blank rows below it from being taken for text. */
  lemma {:induction false} TextEnds(lines: seq<Line>, k: nat, width: nat, at: Spot)
    requires 1 <= width && FormedLines(lines) && Seamlessly(lines, width) && CursorIn(lines, k) && k < |lines|
    requires lines[|lines| - 1].cells != [] && LayLines(lines, width).1 == Some(at)
    ensures var text := LayLines(lines, width).0;
            text != [] && at.row < |text| && (!RowBlank(text[|text| - 1]) || at.row + 1 == |text|)
  {
    hide LayLine, LinesFrom, RowBlank, Formed, Seamless, Trimmed, RowsOk, FirstMark, AllWrapped;
    var n := |lines| - 1;
    LinesBack(lines, k, width, at);
    var (rows, spot) := LayLines(lines[..n], width);
    assert lines[n].cursor.Some? <==> n == k;
    assert forall i | 0 <= i < n :: lines[..n][i] == lines[i];
    LayLineOk(lines[n], width, |rows|, spot);
    if k == n {
      NoCursorNoSpot(lines[..n], k, width);
    } else {
      SpotStays(lines[n], width, |rows|, spot);
      LinesBack(lines[..n], k, width, at);
    }
    LastRowShows(rows, lines[n], width, spot, at);
    var more := LayLine(lines[n], width, |rows|, spot).0;
    assert LayLines(lines, width).0 == rows + more;
  }

  /** Without the lines at the end that show nothing and do not hold the cursor. There are such when
      the blank rows below the cursor include one marked as wrapped. */
  function ShownLines(lines: seq<Line>): (r: seq<Line>)
    ensures r <= lines
  {
    if lines != [] && lines[|lines| - 1].cells == [] then ShownLines(lines[..|lines| - 1]) else lines
  }

  function EmptyRows(lines: seq<Line>, width: nat): seq<Row> {
    seq(|lines|, i requires 0 <= i < |lines| => Row(Blanks(width, PLAIN), false, lines[i].mark))
  }

  lemma {:induction false} EmptyLaid(line: Line, width: nat, base: nat, spot: Option<Spot>)
    requires 1 <= width && line.cells == [] && line.cursor.None?
    ensures LayLine(line, width, base, spot) == (EmptyRows([line], width), spot)
  {
    assert [] + Blanks(width, PLAIN) == Blanks(width, PLAIN);
    var l := LayFrom(Layout(0, [], [], spot), line, width, base);
    assert l == Layout(0, [], [Padded([], width, false)], spot);
    assert l.done[0 := l.done[0].(mark := line.mark)] == [Row(Blanks(width, PLAIN), false, line.mark)];
    assert EmptyRows([line], width) == [Row(Blanks(width, PLAIN), false, line.mark)];
  }

  lemma {:induction false} NotEmptyCursor(lines: seq<Line>, k: nat)
    requires lines != [] && FormedLines(lines) && CursorIn(lines, k) && k < |lines|
    ensures var n := |lines| - 1;
            FormedLines(lines[..n]) && CursorIn(lines[..n], k)
            && (lines[n].cells == [] ==> k < n && lines[n].cursor.None?)
  {
    hide Formed;
    var n := |lines| - 1;
    assert Trimmed(lines[n]);
  }

  /** They become one blank row each, after the rows of the lines that show. */
  lemma {:induction false} TailLaid(lines: seq<Line>, k: nat, width: nat)
    requires 1 <= width && FormedLines(lines) && CursorIn(lines, k) && k < |lines|
    ensures var init := ShownLines(lines);
            && k < |init| && FormedLines(init) && CursorIn(init, k) && init[|init| - 1].cells != []
            && LayLines(lines, width) ==
               (LayLines(init, width).0 + EmptyRows(lines[|init|..], width), LayLines(init, width).1)
    decreases |lines|
  {
    hide FormedLines, CursorIn, LayLine;
    var n, init := |lines| - 1, ShownLines(lines);
    var (text, spot) := LayLines(init, width);
    if lines[n].cells == [] {
      NotEmptyCursor(lines, k);
      TailLaid(lines[..n], k, width);
      EmptyLaid(lines[n], width, |LayLines(lines[..n], width).0|, spot);
      assert lines[|init|..] == lines[..n][|init|..] + [lines[n]];
      assert text + EmptyRows(lines[..n][|init|..], width) + EmptyRows([lines[n]], width) ==
        text + EmptyRows(lines[|init|..], width);
    } else {
      assert text + EmptyRows(lines[|init|..], width) == text;
    }
  }

  lemma {:induction false} EmptyDropped(lines: seq<Line>, width: nat, n: nat)
    ensures Dropped(EmptyRows(lines, width) + BlankRows(n, width, PLAIN))
  {
    BlankShows(width);
  }

  /** Then reading the reflowed screen gives back the logical lines that show something or hold the
      cursor, with the cursor on the same cell of the same line. */
  lemma {:induction false} SeamlessKept(s: Scr, width: nat, at: Spot)
    requires FormedScreen(s, at) && 1 <= width && Holds(s, Extract(s, at), width) && Seamlessly(Extract(s, at), width)
    ensures var (t, to) := ReflowWidth(s, width, at);
            Extract(t, to) == ShownLines(Extract(s, at)) && to.row < t.rows && to.col < width
  {
    hide *;
    var lines := Extract(s, at);
    var k := ExtractFormed(s, at);
    TailLaid(lines, k, width);
    var init := ShownLines(lines);
    SeamlessShown(lines, width);
    var (text, spot) := LayLines(init, width);
    SpotFound(init, k, width);
    TextEnds(init, k, width, spot.value);
    LinesBack(init, k, width, spot.value);
    ReadsBack(s, width, at, text, lines[|init|..], spot.value);
  }

  lemma {:induction false} SeamlessShown(lines: seq<Line>, width: nat)
    ensures Seamlessly(ShownLines(lines), width) <==> Seamlessly(lines, width)
  {
    if lines != [] && lines[|lines| - 1].cells == [] {
      SeamlessShown(lines[..|lines| - 1], width);
    }
  }

  lemma {:induction false} ReadsBack(s: Scr, width: nat, at: Spot, text: seq<Row>, rest: seq<Line>, spot: Spot)
    requires 1 <= width && LayLines(Extract(s, at), width) == (text + EmptyRows(rest, width), Some(spot))
    requires Holds(s, Extract(s, at), width) && spot.row < |text| && spot.col < width
    requires !RowBlank(text[|text| - 1]) || spot.row + 1 == |text|
    ensures var (t, to) := ReflowWidth(s, width, at);
            Extract(t, to) == LinesFrom(text, 0, spot) && to.row < t.rows && to.col < width
  {
    hide LayLines, LinesFrom, RowBlank, DropTail, Extract, EmptyRows, Dropped;
    var (t, to) := ReflowWidth(s, width, at);
    var all, tail := text + EmptyRows(rest, width), EmptyRows(rest, width);
    Placed(s, width, all, spot);
    var n := s.rows - (|all| - GridStart(|all|, s.rows, spot.row));
    EmptyDropped(rest, width, n);
    assert AllRows(t) == text + (tail + BlankRows(n, width, PLAIN));
    DropRows(text, tail + BlankRows(n, width, PLAIN), spot.row + 1);
    ExtractIs(t, to, text);
  }

  lemma {:induction false} ExtractIs(t: Scr, to: Spot, text: seq<Row>)
    requires DropTail(AllRows(t), |t.scrollback| + to.row + 1) == text
    ensures Extract(t, to) == LinesFrom(text, 0, Spot(|t.scrollback| + to.row, to.col))
  {
  }

  lemma {:induction false} RowsFitTail(s: Scr, keep: nat)
    requires ScrOk(s) && FormedRows(AllRows(s))
    ensures DropTail(AllRows(s), keep) <= AllRows(s)
    ensures RowsFit(DropTail(AllRows(s), keep), s.cols) && FormedRows(DropTail(AllRows(s), keep))
    ensures keep <= |AllRows(s)| ==> |DropTail(AllRows(s), keep)| >= keep
  {
    hide FormedRow;
    DropKeeps(AllRows(s), keep);
  }

  lemma {:induction false} FormedMeans(s: Scr, at: Spot)
    requires FormedScreen(s, at)
    ensures ScrOk(s) && FormedRows(AllRows(s)) && at.col < s.cols && |s.scrollback| + at.row < |AllRows(s)|
    ensures Extract(s, at) ==
      LinesFrom(DropTail(AllRows(s), |s.scrollback| + at.row + 1), 0, Spot(|s.scrollback| + at.row, at.col))
  {
    hide DropTail, LinesFrom, FormedRows;
  }

  lemma {:induction false} ExtractFormed(s: Scr, at: Spot) returns (k: nat)
    requires FormedScreen(s, at)
    ensures FormedLines(Extract(s, at)) && CursorIn(Extract(s, at), k) && k < |Extract(s, at)|
  {
    hide *;
    var rows := DropTail(AllRows(s), |s.scrollback| + at.row + 1);
    FormedMeans(s, at);
    RowsFitTail(s, |s.scrollback| + at.row + 1);
    k := LinesFormed(rows, 0, s.cols, Spot(|s.scrollback| + at.row, at.col));
  }

  /** When nothing is lost, the placed screen is the text followed by blank rows. */
  lemma {:induction false} Placed(s: Scr, width: nat, text: seq<Row>, at: Spot)
    requires at.row < |text|
    requires var start := GridStart(|text|, s.rows, at.row); start <= s.maxScrollback && |text| <= start + s.rows
    ensures var (t, to) := Place(s, width, text, Some(at));
            var start := GridStart(|text|, s.rows, at.row);
            && AllRows(t) == text + BlankRows(s.rows - (|text| - start), width, PLAIN)
            && |t.scrollback| + to.row == at.row && to.col == at.col && to.row < s.rows
  {
    var start := GridStart(|text|, s.rows, at.row);
    assert text[..start] + text[start..] == text;
    assert text + BlankRows(0, width, PLAIN) == text;
  }

  // ---- and only then ----------------------------------------------------------

  lemma {:induction false} JoinAppend(a: seq<Row>, b: seq<Row>)
    ensures Join(a + b) == Join(a) + Join(b)
  {
    if b == [] {
      assert a + b == a;
    } else {
      assert (a + b)[..|a + b| - 1] == a + b[..|b| - 1];
      JoinAppend(a, b[..|b| - 1]);
    }
  }

  lemma {:induction false} LineEndCut(d: seq<Row>, rows: seq<Row>, i: nat)
    requires d <= rows && i < |d|
    ensures LineEnd(d, i) == Min(LineEnd(rows, i), |d|)
    decreases |d| - i
  {
    if rows[i].wrapped && i + 1 < |d| {
      LineEndCut(d, rows, i + 1);
    }
  }

  /** The lines read from the first rows hold no more than the lines of all rows. */
  lemma {:induction false} CutLines(d: seq<Row>, rows: seq<Row>, i: nat, at: Spot, k: nat)
    requires d <= rows && i <= |d| && k < |LinesFrom(d, i, at)|
    ensures k < |RawLines(rows, i)| && LinesFrom(d, i, at)[k].cells <= RawLines(rows, i)[k]
    decreases |d| - i
  {
    hide Join, LineEnd, FirstMark;
    var j, upto := LineEnd(d, i), LineEnd(rows, i);
    LineEndCut(d, rows, i);
    if k == 0 {
      assert d[i..j] == rows[i..j] && rows[i..upto] == rows[i..j] + rows[j..upto];
      JoinAppend(rows[i..j], rows[j..upto]);
      assert LinesFrom(d, i, at)[0] == LineAt(d, i, at);
    } else {
      assert LinesFrom(d, i, at)[k] == LinesFrom(d, j, at)[k - 1];
      CutLines(d, rows, j, at, k - 1);
      assert RawLines(rows, i)[k] == RawLines(rows, j)[k - 1];
    }
  }

  lemma {:induction false} LineUnpadded(line: Line, raw: seq<Cell>, width: nat)
    requires 2 <= width && line.cells <= raw && Carries(raw, line, width)
    ensures Seamless(line.cells, 0, 0, width)
  {
    hide Glyphs, Flowed, Seamless;
    var k: nat :| Glyphs(raw) == Flowed(Glyphs(line.cells), 0, width) + Blanks(k, PLAIN);
    var rest := raw[|line.cells|..];
    assert raw == line.cells + rest && line.cells[0..] == line.cells;
    GlyphsJoin(line.cells, rest);
    FlowsSeamless(line.cells, 0, 0, width, Blanks(k, PLAIN), Glyphs(rest));
  }

  lemma {:induction false} JoinNarrow(rows: seq<Row>)
    requires NarrowRows(rows)
    ensures Narrow(Join(rows))
  {
    if rows != [] {
      assert NarrowRows(rows[..|rows| - 1]);
      JoinNarrow(rows[..|rows| - 1]);
    }
  }

  lemma {:induction false} NarrowLines(rows: seq<Row>, i: nat, at: Spot, width: nat)
    requires i <= |rows| && NarrowRows(rows) && 1 <= width
    ensures Seamlessly(LinesFrom(rows, i, at), width)
    decreases |rows| - i
  {
    if i < |rows| {
      hide Join, Keep, Seamless, FirstMark;
      var j, line := LineEnd(rows, i), LineAt(rows, i, at);
      JoinNarrow(rows[i..j]);
      NarrowSeamless(line.cells, 0, 0, width);
      NarrowLines(rows, j, at, width);
    }
  }

  /** Text without wide characters is formed, and seamless at every width. */
  lemma {:induction false} NarrowFits(s: Scr, width: nat, at: Spot)
    requires ScrOk(s) && NarrowRows(AllRows(s)) && at.row < s.rows && at.col < s.cols && 1 <= width
    ensures FormedScreen(s, at) && Seamlessly(Extract(s, at), width)
  {
    NarrowExtract(s, width, at);
    forall r | r in AllRows(s)
      ensures FormedRow(r.cells)
    {
    }
  }

  lemma {:induction false} NarrowExtract(s: Scr, width: nat, at: Spot)
    requires NarrowRows(AllRows(s)) && 1 <= width
    ensures Seamlessly(Extract(s, at), width)
  {
    hide LinesFrom, DropTail, Narrow, Seamlessly;
    NarrowLines(DropTail(AllRows(s), |s.scrollback| + at.row + 1), 0, Spot(|s.scrollback| + at.row, at.col), width);
  }

  lemma {:induction false} OneColumn(rows: seq<Row>)
    requires RowsOk(rows, 1)
    ensures NarrowRows(rows)
  {
    forall i | 0 <= i < |rows|
      ensures Narrow(rows[i].cells)
    {
      assert RowOk(rows[i], 1) && !Orphan(rows[i].cells, 0);
    }
  }

  /** Lines that read back carried no padding. */
  lemma {:induction false} KeptSeamless(s: Scr, width: nat, at: Spot)
    requires FormedScreen(s, at) && 1 <= width && Holds(s, Extract(s, at), width)
    requires var (t, to) := ReflowWidth(s, width, at); Extract(t, to) <= Extract(s, at)
    ensures var (t, to) := ReflowWidth(s, width, at); Seamlessly(Extract(t, to), width)
  {
    hide *;
    var (t, to) := ReflowWidth(s, width, at);
    if width == 1 {
      OnlyNarrow(s, at);
      NarrowExtract(t, width, to);
    } else {
      WideKept(s, width, at);
    }
  }

  lemma {:induction false} OnlyNarrow(s: Scr, at: Spot)
    requires FormedScreen(s, at)
    ensures NarrowRows(AllRows(ReflowWidth(s, 1, at).0))
  {
    hide ReflowWidth, FormedRows, NarrowRows, RowOk;
    ReflowShape(s, 1, at);
    var t := ReflowWidth(s, 1, at).0;
    OneColumn(AllRows(t));
  }

  lemma {:induction false} WideKept(s: Scr, width: nat, at: Spot)
    requires FormedScreen(s, at) && 2 <= width && Holds(s, Extract(s, at), width)
    requires var (t, to) := ReflowWidth(s, width, at); Extract(t, to) <= Extract(s, at)
    ensures var (t, to) := ReflowWidth(s, width, at); Seamlessly(Extract(t, to), width)
  {
    hide *;
    var lines := Extract(s, at);
    AllCarried(s, width, at);
    var (t, to) := ReflowWidth(s, width, at);
    forall k | 0 <= k < |Extract(t, to)|
      ensures Seamless(Extract(t, to)[k].cells, 0, 0, width)
    {
      CutExtract(t, to, k);
      CarriedAt(RawLines(AllRows(t), 0), lines, k, width);
      LineUnpadded(lines[k], RawLines(AllRows(t), 0)[k], width);
    }
    SeamlesslyIs(Extract(t, to), width);
  }

  lemma {:induction false} SeamlesslyIs(lines: seq<Line>, width: nat)
    requires forall i | 0 <= i < |lines| :: Seamless(lines[i].cells, 0, 0, width)
    ensures Seamlessly(lines, width)
  {
  }

  lemma {:induction false} CarriedAt(raws: seq<seq<Cell>>, lines: seq<Line>, k: nat, width: nat)
    requires 2 <= width && Carried(raws, lines, width) && k < |lines|
    ensures k < |raws| && Carries(raws[k], lines[k], width)
  {
  }

  lemma {:induction false} CutExtract(t: Scr, to: Spot, k: nat)
    requires k < |Extract(t, to)|
    ensures k < |RawLines(AllRows(t), 0)| && Extract(t, to)[k].cells <= RawLines(AllRows(t), 0)[k]
  {
    hide LinesFrom, RawLines, DropTail;
    CutLines(DropTail(AllRows(t), |t.scrollback| + to.row + 1),
      AllRows(t), 0, Spot(|t.scrollback| + to.row, to.col), k);
  }

  lemma {:induction false} AllCarried(s: Scr, width: nat, at: Spot)
    requires FormedScreen(s, at) && 2 <= width && Holds(s, Extract(s, at), width)
    ensures Carried(RawLines(AllRows(ReflowWidth(s, width, at).0), 0), Extract(s, at), width)
  {
    hide *;
    var lines := Extract(s, at);
    var k := ExtractFormed(s, at);
    TextKept(lines, width);
    SpotFound(lines, k, width);
    var n := PlacedText(s, width, at);
    BlankLines(LayLines(lines, width).0, n, width, lines);
  }

  lemma {:induction false} PlacedText(s: Scr, width: nat, at: Spot) returns (n: nat)
    requires 1 <= width && Holds(s, Extract(s, at), width)
    requires var (text, spot) := LayLines(Extract(s, at), width); spot.Some? && spot.value.row < |text|
    ensures AllRows(ReflowWidth(s, width, at).0) == LayLines(Extract(s, at), width).0 + BlankRows(n, width, PLAIN)
  {
    hide LayLines, Extract, AllRows, Place, GridStart;
    var (text, spot) := LayLines(Extract(s, at), width);
    Placed(s, width, text, spot.value);
    n := s.rows - (|text| - GridStart(|text|, s.rows, spot.value.row));
  }

  /** Reading the reflowed screen gives back the logical lines that show something or hold the cursor,
      with the cursor on the same cell of the same line, exactly when no wide character had to be moved
      to a new row, or blanked. */
  lemma {:induction false} LinesKept(s: Scr, width: nat, at: Spot)
    requires FormedScreen(s, at) && 1 <= width && Holds(s, Extract(s, at), width)
    ensures var (t, to) := ReflowWidth(s, width, at);
            Extract(t, to) == ShownLines(Extract(s, at)) <==> Seamlessly(Extract(s, at), width)
  {
    hide *;
    SeamlessShown(Extract(s, at), width);
    if Seamlessly(Extract(s, at), width) {
      SeamlessKept(s, width, at);
    }
    var (t, to) := ReflowWidth(s, width, at);
    if Extract(t, to) == ShownLines(Extract(s, at)) {
      KeptSeamless(s, width, at);
    }
  }

  /** Exactly when reflow loses nothing: the last logical line must also show something or hold the
      cursor. A blank row below the cursor that is marked as wrapped breaks it. */
  lemma {:induction false} LinesKeptExactly(s: Scr, width: nat, at: Spot)
    requires FormedScreen(s, at) && 1 <= width && Holds(s, Extract(s, at), width)
    ensures var (t, to) := ReflowWidth(s, width, at);
            var lines := Extract(s, at);
            lines != [] && (Extract(t, to) == lines <==> lines[|lines| - 1].cells != [] && Seamlessly(lines, width))
  {
    hide *;
    var k := ExtractFormed(s, at);
    TailLaid(Extract(s, at), k, width);
    LinesKept(s, width, at);
    AllShown(Extract(s, at));
    var (t, to) := ReflowWidth(s, width, at);
    if Extract(t, to) == Extract(s, at) {
      KeptSeamless(s, width, at);
    }
  }

  lemma {:induction false} AllShown(lines: seq<Line>)
    requires lines != []
    ensures ShownLines(lines) == lines <==> lines[|lines| - 1].cells != []
  {
    var n := |lines| - 1;
    assert |ShownLines(lines[..n])| <= n;
  }

  // ---- through an intermediate width ------------------------------------------

  /** Whether the lines an intermediate width drops leave no trace in a direct resize: the blank rows
      they would take neither scroll the text nor bring a prompt mark onto the screen. */
  predicate Traceless(lines: seq<Line>, rows: nat, width: nat)
    requires 1 <= width
  {
    var shown := ShownLines(lines);
    var (text, spot) := LayLines(shown, width);
    var row := if spot.Some? then spot.value.row else 0;
    var start := GridStart(|text|, rows, row);
    && start == GridStart(|text| + |lines| - |shown|, rows, row)
    && forall i | |shown| <= i < |lines| && |text| + i - |shown| < start + rows :: lines[i].mark == None
  }

  lemma {:induction false} PlaceIs(s: Scr, width: nat, text: seq<Row>, at: Spot)
    requires at.row < |text|
    ensures var start := GridStart(|text|, s.rows, at.row);
            && start <= at.row
            && Place(s, width, text, Some(at)) ==
               (s.(cols := width, grid := PadRows(text[start..Min(|text|, start + s.rows)], s.rows, width),
                   scrollback := KeepLast(text[..start], s.maxScrollback)),
                Spot(at.row - start, at.col))
  {
  }

  lemma {:induction false} PlacedSame(s: Scr, width: nat, text: seq<Row>, rest: seq<Line>, at: Spot)
    requires at.row < |text|
    ensures var start := GridStart(|text|, s.rows, at.row);
            Place(s, width, text + EmptyRows(rest, width), Some(at)) == Place(s, width, text, Some(at)) <==>
              && start == GridStart(|text| + |rest|, s.rows, at.row)
              && forall j | 0 <= j < |rest| && |text| + j < start + s.rows :: rest[j].mark == None
  {
    var tail := EmptyRows(rest, width);
    var all := text + tail;
    var start := GridStart(|text|, s.rows, at.row);
    hide EmptyRows, PadRows, KeepLast, Place, GridStart;
    PlaceIs(s, width, text, at);
    PlaceIs(s, width, all, at);
    if start == GridStart(|all|, s.rows, at.row) {
      assert text[..start] == all[..start];
      GridsSame(text, rest, start, s.rows, width);
    }
  }

  lemma {:induction false} GridsSame(text: seq<Row>, rest: seq<Line>, start: nat, rows: nat, width: nat)
    requires start <= |text|
    ensures var all := text + EmptyRows(rest, width);
            PadRows(all[start..Min(|all|, start + rows)], rows, width) ==
              PadRows(text[start..Min(|text|, start + rows)], rows, width)
            <==> forall j | 0 <= j < |rest| && |text| + j < start + rows :: rest[j].mark == None
  {
    var all := text + EmptyRows(rest, width);
    var g, h := PadRows(all[start..Min(|all|, start + rows)], rows, width),
      PadRows(text[start..Min(|text|, start + rows)], rows, width);
    assert |g| == |h| == rows;
    forall i | 0 <= i < rows
      ensures g[i] == h[i] <==> (0 <= start + i - |text| < |rest| ==> rest[start + i - |text|].mark == None)
    {
    }
    if g == h {
      forall j | 0 <= j < |rest| && |text| + j < start + rows
        ensures rest[j].mark == None
      {
        assert g[|text| + j - start] == h[|text| + j - start];
      }
    }
  }

  /** Resizing through an intermediate width at which no wide character has to be moved or blanked
      equals resizing directly, whatever the final width does to them, screen and cursor, exactly when
      what the intermediate width drops leaves no trace; so whenever the last logical line shows
      something or holds the cursor. */
  lemma {:induction false} PathIndependent(s: Scr, w1: nat, w2: nat, at: Spot)
    requires FormedScreen(s, at) && 1 <= w1 && 1 <= w2
    requires Holds(s, Extract(s, at), w1) && Seamlessly(Extract(s, at), w1)
    ensures var (t, to) := ReflowWidth(s, w1, at);
            var lines := Extract(s, at);
            && (ReflowWidth(t, w2, to) == ReflowWidth(s, w2, at) <==> Traceless(lines, s.rows, w2))
            && lines != [] && (lines[|lines| - 1].cells != [] ==> Traceless(lines, s.rows, w2))
  {
    hide *;
    var lines := Extract(s, at);
    var k := ExtractFormed(s, at);
    TailLaid(lines, k, w2);
    LinesKept(s, w1, at);
    AllShown(lines);
    var init := ShownLines(lines);
    var (text, spot) := LayLines(init, w2);
    SpotFound(init, k, w2);
    PlacedSame(s, w2, text, lines[|init|..], spot.value);
    BothPlaced(s, w1, w2, at, lines, text, spot.value);
  }

  lemma {:induction false} BothPlaced(s: Scr, w1: nat, w2: nat, at: Spot, lines: seq<Line>, text: seq<Row>, spot: Spot)
    requires 1 <= w1 && 1 <= w2 && lines == Extract(s, at) && spot.row < |text|
    requires LayLines(ShownLines(lines), w2) == (text, Some(spot))
    requires LayLines(lines, w2) == (text + EmptyRows(lines[|ShownLines(lines)|..], w2), Some(spot))
    requires var (t, to) := ReflowWidth(s, w1, at); Extract(t, to) == ShownLines(lines)
    ensures var (t, to) := ReflowWidth(s, w1, at);
            && ReflowWidth(t, w2, to) == Place(s, w2, text, Some(spot))
            && ReflowWidth(s, w2, at) == Place(s, w2, text + EmptyRows(lines[|ShownLines(lines)|..], w2), Some(spot))
    ensures var rest := lines[|ShownLines(lines)|..];
            var start := GridStart(|text|, s.rows, spot.row);
            Traceless(lines, s.rows, w2) <==>
              && start == GridStart(|text| + |rest|, s.rows, spot.row)
              && forall j | 0 <= j < |rest| && |text| + j < start + s.rows :: rest[j].mark == None
  {
    hide LayLines, Extract, EmptyRows, ShownLines, GridStart, KeepLast, PadRows;
    var shown, rest := ShownLines(lines), lines[|ShownLines(lines)|..];
    var start := GridStart(|text|, s.rows, spot.row);
    assert forall j | 0 <= j < |rest| :: rest[j] == lines[|shown| + j];
    if forall j | 0 <= j < |rest| && |text| + j < start + s.rows :: rest[j].mark == None {
      forall i | |shown| <= i < |lines| && |text| + i - |shown| < start + s.rows
        ensures lines[i].mark == None
      {
        assert rest[i - |shown|] == lines[i];
      }
    }
  }
}
