// What reflow preserves.
module ReflowProofs {
  import opened Cells
  import opened Reflow

  // ---- shape: every row has the new width and only paired wide cells --------

  ghost predicate RowOk(r: Row, width: nat) {
    |r.cells| == width && Paired(r.cells)
  }

  ghost predicate RowsOk(rows: seq<Row>, width: nat) {
    forall i | 0 <= i < |rows| :: RowOk(rows[i], width)
  }

  ghost predicate AllWrapped(rows: seq<Row>) {
    forall i | 0 <= i < |rows| :: rows[i].wrapped
  }

  ghost predicate LayoutOk(l: Layout, line: Line, width: nat) {
    && l.j <= |line.cells|
    && |l.cur| <= width && (l.j < |line.cells| ==> |l.cur| < width)
    && Paired(l.cur)
    && RowsOk(l.done, width) && AllWrapped(l.done)
  }

  lemma {:induction false} PairedJoin(a: seq<Cell>, b: seq<Cell>)
    requires Paired(a) && Paired(b)
    ensures Paired(a + b)
  {
    forall i | 0 <= i < |a + b|
      ensures !Orphan(a + b, i)
    {
      if i < |a| { assert !Orphan(a, i); } else { assert !Orphan(b, i - |a|); }
      if i + 1 < |a| { assert !Orphan(a, i + 1); }
      if |a| > 0 { assert !Orphan(a, |a| - 1); }
      if |b| > 0 { assert !Orphan(b, 0); }
    }
  }

  lemma {:induction false} PairedBlanks(n: nat, style: Style)
    ensures Paired(Blanks(n, style))
  {
  }

  lemma {:induction false} PaddedOk(cur: seq<Cell>, width: nat, wrapped: bool)
    requires |cur| <= width && Paired(cur)
    ensures RowOk(Padded(cur, width, wrapped), width)
  {
    if |cur| < width {
      PairedBlanks(width - |cur|, PLAIN);
      PairedJoin(cur, Blanks(width - |cur|, PLAIN));
    } else {
      assert cur[..width] == cur;
    }
  }

  lemma {:induction false} PairedUnit(cell: Cell)
    requires cell.width != 0
    ensures Paired(if cell.width == 2 then [cell] + [Spacer(cell.style, cell.link)] else [cell])
  {
  }

  lemma {:induction false} FlushOk(l: Layout, line: Line, width: nat)
    requires l.j <= |line.cells| && |l.cur| <= width && 1 <= width && Paired(l.cur)
    requires RowsOk(l.done, width) && AllWrapped(l.done)
    ensures LayoutOk(Flush(l, line, width), line, width)
  {
  }

  lemma {:induction false} LayOneOk(l: Layout, line: Line, width: nat, base: nat)
    requires LayoutOk(l, line, width) && l.j < |line.cells| && 1 <= width
    ensures LayoutOk(LayOne(l, line, width, base), line, width)
  {
    hide Paired;
    var cell := line.cells[l.j];
    if cell.width == 0 {
    } else if cell.width > width {
      PairedUnit(Blank(PLAIN));
      PairedJoin(l.cur, [Blank(PLAIN)]);
      FlushOk(l.(j := l.j + (if SpacerAt(line.cells, l.j + 1) then 2 else 1), cur := l.cur + [Blank(PLAIN)]),
        line, width);
    } else {
      PaddedOk(l.cur, width, true);
      PairedUnit(cell);
      var cur, done := l.cur, l.done;
      if |cur| + cell.width > width {
        done := done + [Padded(cur, width, true)];
        cur := [];
        assert Paired([]) by { PairedBlanks(0, PLAIN); }
      }
      var unit := if cell.width == 2 then [cell] + [Spacer(cell.style, cell.link)] else [cell];
      PairedJoin(cur, unit);
      assert cur + [cell] + (if cell.width == 2 then [Spacer(cell.style, cell.link)] else []) == cur + unit;
      var j := l.j + (if cell.width == 2 && SpacerAt(line.cells, l.j + 1) then 2 else 1);
      FlushOk(l.(j := j, cur := cur + unit, done := done), line, width);
    }
  }

  lemma {:induction false} LayFromOk(l: Layout, line: Line, width: nat, base: nat)
    requires LayoutOk(l, line, width) && 1 <= width
    ensures var r := LayFrom(l, line, width, base);
            RowsOk(r.done, width) && AllWrapped(r.done[..|r.done| - 1]) && !r.done[|r.done| - 1].wrapped
    decreases |line.cells| - l.j
  {
    if l.j == |line.cells| {
      PaddedOk(l.cur, width, false);
      assert (l.done + [Padded(l.cur, width, false)])[..|l.done|] == l.done;
    } else {
      LayOneOk(l, line, width, base);
      LayFromOk(LayOne(l, line, width, base), line, width, base);
    }
  }

  /** Rows of one logical line: all wrapped but the last. */
  ghost predicate OneLine(rows: seq<Row>) {
    rows != [] && AllWrapped(rows[..|rows| - 1]) && !rows[|rows| - 1].wrapped
  }

  lemma {:induction false} LayLineOk(line: Line, width: nat, base: nat, spot: Option<Spot>)
    requires 1 <= width
    ensures RowsOk(LayLine(line, width, base, spot).0, width)
    ensures OneLine(LayLine(line, width, base, spot).0)
    ensures FirstMark(LayLine(line, width, base, spot).0) == line.mark
  {
    hide LayFrom, Paired, FirstMark;
    assert Paired([]) by { PairedBlanks(0, PLAIN); }
    LayFromOk(Layout(0, [], [], spot), line, width, base);
    var l := LayFrom(Layout(0, [], [], spot), line, width, base);
    var rows := l.done[0 := l.done[0].(mark := line.mark)];
    assert forall i | 0 < i < |rows| :: rows[i] == l.done[i];
    LayMarks(Layout(0, [], [], spot), line, width, base);
    MarkFirst(rows);
  }

  ghost predicate Unmarked(rows: seq<Row>) {
    forall i | 0 <= i < |rows| :: rows[i].mark.None?
  }

  lemma {:induction false} LayMarks(l: Layout, line: Line, width: nat, base: nat)
    requires l.j <= |line.cells| && 1 <= width && Unmarked(l.done)
    ensures Unmarked(LayFrom(l, line, width, base).done)
    decreases |line.cells| - l.j
  {
    if l.j < |line.cells| {
      LayMarks(LayOne(l, line, width, base), line, width, base);
    }
  }

  lemma {:induction false} MarkFirst(rows: seq<Row>)
    requires rows != [] && Unmarked(rows[1..])
    ensures FirstMark(rows) == rows[0].mark
  {
    var n := |rows| - 1;
    assert n > 0 ==> rows[1..][n - 1] == rows[n];
    if n > 0 {
      assert rows[..n][1..] == rows[1..][..n - 1];
      MarkFirst(rows[..n]);
    }
  }

  lemma {:induction false} LayLinesOk(lines: seq<Line>, width: nat)
    requires 1 <= width
    ensures RowsOk(LayLines(lines, width).0, width)
    ensures |LayLines(lines, width).0| >= |lines|
  {
    if lines != [] {
      var init := lines[..|lines| - 1];
      LayLinesOk(init, width);
      var (rows, spot) := LayLines(init, width);
      LayLineOk(lines[|lines| - 1], width, |rows|, spot);
    }
  }

  /** Reflow to any width gives a well-formed screen, and never an unpaired wide half, whatever
      the rows held before. */
  lemma {:induction false} ReflowShape(s: Scr, width: nat, at: Spot)
    requires ScrOk(s) && 1 <= width <= 0xFFFF
    ensures var (t, _) := ReflowWidth(s, width, at);
            && ScrOk(t) && t.cols == width && t.rows == s.rows && t.maxScrollback == s.maxScrollback
            && RowsOk(t.grid, width) && RowsOk(t.scrollback, width)
  {
    hide LayLines, Extract, Paired;
    LayLinesOk(Extract(s, at), width);
    PairedBlanks(width, PLAIN);
  }

  // ---- content: only padding before a moved wide head, and trailing blanks ---

  /** The cells that hold characters: spacers are re-made after their heads. */
  function Glyphs(cells: seq<Cell>): (r: seq<Cell>)
    ensures forall c | c in r :: c.width > 0
  {
    if cells == [] then []
    else if cells[0].width == 0 then Glyphs(cells[1..])
    else [cells[0]] + Glyphs(cells[1..])
  }

  /** Text put down from column `col` on: a character that does not fit moves to the next row, and the
      columns it leaves become blanks. With two columns or more that is one blank before a wide
      character that would start in the last column, and nothing else. */
  function Flowed(a: seq<Cell>, col: nat, width: nat): (b: seq<Cell>)
    requires 2 <= width && col <= width
    decreases |a|, col
  {
    if a == [] then []
    else if col + a[0].width > width then Blanks(width - col, PLAIN) + Flowed(a, 0, width)
    else [a[0]] + Flowed(a[1..], col + a[0].width, width)
  }

  lemma {:induction false} GlyphsJoin(a: seq<Cell>, b: seq<Cell>)
    ensures Glyphs(a + b) == Glyphs(a) + Glyphs(b)
  {
    if a == [] {
      assert a + b == b;
    } else {
      assert (a + b)[1..] == a[1..] + b;
      GlyphsJoin(a[1..], b);
    }
  }

  lemma {:induction false} GlyphsBlanks(n: nat)
    ensures Glyphs(Blanks(n, PLAIN)) == Blanks(n, PLAIN)
  {
    if n > 0 {
      assert Blanks(n, PLAIN)[1..] == Blanks(n - 1, PLAIN);
      GlyphsBlanks(n - 1);
    }
  }

  lemma {:induction false} JoinOne(rows: seq<Row>, r: Row)
    ensures Join(rows + [r]) == Join(rows) + r.cells
  {
    assert (rows + [r])[..|rows|] == rows;
  }

  /** What has been laid out so far, as characters. */
  function Laid(l: Layout): seq<Cell> {
    Glyphs(Join(l.done)) + Glyphs(l.cur)
  }

  lemma {:induction false} LaidFlush(l: Layout, line: Line, width: nat)
    ensures Laid(Flush(l, line, width)) == Laid(l)
  {
    JoinOne(l.done, Row(l.cur, true, None));
    GlyphsJoin(Join(l.done), l.cur);
    assert Glyphs([]) == [];
    assert Laid(l) + [] == Laid(l);
  }

  lemma {:induction false} LaidPadded(l: Layout, width: nat, wrapped: bool)
    requires |l.cur| <= width
    ensures Glyphs(Join(l.done + [Padded(l.cur, width, wrapped)])) == Laid(l) + Blanks(width - |l.cur|, PLAIN)
  {
    var r := Padded(l.cur, width, wrapped);
    var fill := Blanks(width - |l.cur|, PLAIN);
    assert r.cells == l.cur + fill;
    JoinOne(l.done, r);
    GlyphsJoin(Join(l.done), r.cells);
    GlyphsJoin(l.cur, fill);
    GlyphsBlanks(width - |l.cur|);
    assert Glyphs(Join(l.done)) + (Glyphs(l.cur) + fill) == Laid(l) + fill;
  }

  function Unit(c: Cell): seq<Cell> {
    [c] + (if c.width == 2 then [Spacer(c.style, c.link)] else [])
  }

  /** The layout with the current row closed when the cell does not fit on it. */
  function Roomed(l: Layout, c: Cell, width: nat): Layout {
    if |l.cur| + c.width > width then l.(cur := [], done := l.done + [Padded(l.cur, width, true)]) else l
  }

  /** Step of a cell that fits the width: make room, append the unit, flush a full row. */
  lemma {:induction false} LayOneShape(l: Layout, line: Line, width: nat, base: nat)
    requires l.j < |line.cells| && 1 <= width && 1 <= line.cells[l.j].width <= width
    ensures var c := line.cells[l.j];
            var m := LayOne(l, line, width, base);
            var l1 := Roomed(l, c, width);
            m == Flush(l1.(j := m.j, cur := l1.cur + Unit(c), spot := m.spot), line, width)
    ensures LayOne(l, line, width, base).j == l.j + 1
            || (LayOne(l, line, width, base).j == l.j + 2 && line.cells[l.j + 1].width == 0)
  {
    var c := line.cells[l.j];
    var l1 := Roomed(l, c, width);
    assert l1.cur + [c] + (if c.width == 2 then [Spacer(c.style, c.link)] else []) == l1.cur + Unit(c);
  }

  /** What a cell that does not fit leaves behind. */
  function Gap(l: Layout, c: Cell, width: nat): seq<Cell>
    requires |l.cur| <= width
  {
    if |l.cur| + c.width > width then Blanks(width - |l.cur|, PLAIN) else []
  }

  lemma {:induction false} RoomedText(l: Layout, c: Cell, width: nat)
    requires |l.cur| <= width
    ensures Laid(Roomed(l, c, width)) == Laid(l) + Gap(l, c, width)
  {
    hide Padded, Blanks, Join;
    if |l.cur| + c.width > width {
      LaidPadded(l, width, true);
      assert Laid(Roomed(l, c, width)) == Glyphs(Join(Roomed(l, c, width).done)) + [];
    } else {
      assert Laid(l) + [] == Laid(l);
    }
  }

  lemma {:induction false} SkipSpacer(cells: seq<Cell>, j: nat, k: nat)
    requires j < k <= |cells| && cells[j].width != 0
    requires k == j + 1 || (k == j + 2 && cells[j + 1].width == 0)
    ensures Glyphs(cells[j..]) == [cells[j]] + Glyphs(cells[k..])
  {
    assert cells[j..][1..] == cells[j + 1..];
    if k == j + 2 {
      assert cells[j + 1..][1..] == cells[j + 2..];
    }
  }

  /** A step adds its own cell, after the gap it leaves if it does not fit. */
  lemma {:induction false} LaidUnit(l: Layout, line: Line, width: nat, base: nat)
    requires |l.cur| < width && l.j < |line.cells| && 1 <= line.cells[l.j].width && 2 <= width
    ensures var c := line.cells[l.j];
            Laid(LayOne(l, line, width, base)) == Laid(l) + Gap(l, c, width) + [c]
  {
    hide Glyphs, Join, Padded, Unit, Flush, Gap;
    var c, m := line.cells[l.j], LayOne(l, line, width, base);
    LayOneShape(l, line, width, base);
    var l1 := Roomed(l, c, width);
    var l2 := l1.(j := m.j, cur := l1.cur + Unit(c), spot := m.spot);
    RoomedText(l, c, width);
    UnitGlyphs(c);
    GlyphsJoin(l1.cur, Unit(c));
    LaidFlush(l2, line, width);
    assert Laid(l2) == Laid(l1) + [c];
  }

  /** And it is the next cell the text flows on with. */
  lemma {:induction false} FlowedUnit(l: Layout, line: Line, width: nat, base: nat)
    requires LayoutOk(l, line, width) && l.j < |line.cells| && 1 <= line.cells[l.j].width && 2 <= width
    ensures var c, m := line.cells[l.j], LayOne(l, line, width, base);
            |m.cur| <= width && Flowed(Glyphs(line.cells[l.j..]), |l.cur|, width)
            == Gap(l, c, width) + ([c] + Flowed(Glyphs(line.cells[m.j..]), |m.cur|, width))
  {
    hide Paired, Glyphs, Join, Padded;
    var c, m := line.cells[l.j], LayOne(l, line, width, base);
    LayOneShape(l, line, width, base);
    SkipSpacer(line.cells, l.j, m.j);
    var rest := Glyphs(line.cells[m.j..]);
    var col := (if |l.cur| + c.width > width then 0 else |l.cur|) + c.width;
    assert |Roomed(l, c, width).cur + Unit(c)| == col;
    FlowedEdge(rest, width);
    assert Flowed(rest, |m.cur|, width) == Flowed(rest, col, width);
    FlowedStep(c, rest, |l.cur|, width);
  }

  lemma {:induction false} FlowedStep(c: Cell, rest: seq<Cell>, col: nat, width: nat)
    requires 2 <= width && col <= width
    ensures var gap := if col + c.width > width then Blanks(width - col, PLAIN) else [];
            var at := if col + c.width > width then 0 else col;
            Flowed([c] + rest, col, width) == gap + ([c] + Flowed(rest, at + c.width, width))
  {
    var a := [c] + rest;
    assert a[1..] == rest;
    if col + c.width > width {
      assert Flowed(a, 0, width) == [c] + Flowed(rest, c.width, width);
    }
  }

  /** A full row is as good as a new one. */
  lemma {:induction false} FlowedEdge(a: seq<Cell>, width: nat)
    requires 2 <= width && forall c | c in a :: c.width > 0
    ensures Flowed(a, width, width) == Flowed(a, 0, width)
  {
  }

  lemma {:induction false} UnitGlyphs(c: Cell)
    requires c.width != 0
    ensures Glyphs(Unit(c)) == [c]
  {
    assert Glyphs([Spacer(c.style, c.link)]) == Glyphs([]);
    assert Unit(c)[1..] == if c.width == 2 then [Spacer(c.style, c.link)] else [];
  }

  /** The rows of the rest of a line hold its text flowed from the current column, then blanks. */
  lemma {:induction false} LaidFrom(l: Layout, line: Line, width: nat, base: nat) returns (k: nat)
    requires l.j <= |line.cells| && LayoutOk(l, line, width) && 2 <= width
    ensures |l.cur| <= width
    ensures Glyphs(Join(LayFrom(l, line, width, base).done))
            == Laid(l) + (Flowed(Glyphs(line.cells[l.j..]), |l.cur|, width) + Blanks(k, PLAIN))
    decreases |line.cells| - l.j
  {
    hide Laid, LayOne, Glyphs, Flowed, Join, LayoutOk, Padded, Blanks, Gap;
    Room(l, line, width);
    if l.j == |line.cells| {
      k := LaidEnd(l, line, width);
    } else {
      var c, m := line.cells[l.j], LayOne(l, line, width, base);
      LayOneOk(l, line, width, base);
      Room(m, line, width);
      k := LaidFrom(m, line, width, base);
      var rest := Flowed(Glyphs(line.cells[m.j..]), |m.cur|, width);
      if c.width == 0 {
        SpacerAddsNothing(l, line, width, base);
      } else {
        LaidUnit(l, line, width, base);
        FlowedUnit(l, line, width, base);
        Regroup(Laid(l), Gap(l, c, width), [c], rest, Blanks(k, PLAIN));
      }
    }
  }

  lemma {:induction false} Regroup(a: seq<Cell>, b: seq<Cell>, c: seq<Cell>, d: seq<Cell>, e: seq<Cell>)
    ensures a + b + c + (d + e) == a + ((b + (c + d)) + e)
  {
  }

  lemma {:induction false} SpacerAddsNothing(l: Layout, line: Line, width: nat, base: nat)
    requires l.j < |line.cells| && line.cells[l.j].width == 0 && 1 <= width
    ensures var m := LayOne(l, line, width, base);
            Laid(m) == Laid(l) && m.cur == l.cur && Glyphs(line.cells[l.j..]) == Glyphs(line.cells[m.j..])
  {
    assert line.cells[l.j..][1..] == line.cells[l.j + 1..];
  }

  lemma {:induction false} LaidEnd(l: Layout, line: Line, width: nat) returns (k: nat)
    requires LayoutOk(l, line, width) && l.j == |line.cells| && 2 <= width
    ensures |l.cur| <= width
    ensures Glyphs(Join(l.done + [Padded(l.cur, width, false)]))
            == Laid(l) + (Flowed(Glyphs(line.cells[l.j..]), |l.cur|, width) + Blanks(k, PLAIN))
  {
    k := width - |l.cur|;
    LaidPadded(l, width, false);
    assert Flowed(Glyphs(line.cells[l.j..]), |l.cur|, width) + Blanks(k, PLAIN) == Blanks(k, PLAIN);
  }

  lemma {:induction false} Room(l: Layout, line: Line, width: nat)
    requires LayoutOk(l, line, width)
    ensures |l.cur| <= width && l.j <= |line.cells| && (l.j < |line.cells| ==> |l.cur| < width)
  {
  }

  lemma {:induction false} JoinCells(a: seq<Row>, b: seq<Row>)
    requires |a| == |b| && forall i | 0 <= i < |a| :: a[i].cells == b[i].cells
    ensures Join(a) == Join(b)
  {
    if a != [] {
      JoinCells(a[..|a| - 1], b[..|b| - 1]);
    }
  }

  /** `raw`, rows joined, shows the text of `line` flowed at the new width, and blanks after it. */
  ghost predicate Carries(raw: seq<Cell>, line: Line, width: nat)
    requires 2 <= width
  {
    exists k: nat :: Glyphs(raw) == Flowed(Glyphs(line.cells), 0, width) + Blanks(k, PLAIN)
  }

  lemma {:induction false} LineText(line: Line, width: nat, base: nat, spot: Option<Spot>)
    requires 2 <= width
    ensures Carries(Join(LayLine(line, width, base, spot).0), line, width)
  {
    hide Flowed, Glyphs, Blanks, LayFrom, Join;
    var start := Layout(0, [], [], spot);
    assert LayoutOk(start, line, width) by { PairedBlanks(0, PLAIN); }
    var k := LaidFrom(start, line, width, base);
    LayFromOk(start, line, width, base);
    var l := LayFrom(start, line, width, base);
    JoinCells(l.done, l.done[0 := l.done[0].(mark := line.mark)]);
    NoneLaid(start);
    assert line.cells[0..] == line.cells;
  }

  lemma {:induction false} NoneLaid(l: Layout)
    requires l.done == [] && l.cur == []
    ensures Laid(l) == []
  {
  }

  // ---- the lines of the laid-out text ----------------------------------------

  /** The untrimmed logical lines from row `i` on. */
  function RawLines(rows: seq<Row>, i: nat): seq<seq<Cell>>
    requires i <= |rows|
    decreases |rows| - i
  {
    if i == |rows| then [] else [Join(rows[i..LineEnd(rows, i)])] + RawLines(rows, LineEnd(rows, i))
  }

  ghost predicate Closed(rows: seq<Row>) {
    rows != [] ==> !rows[|rows| - 1].wrapped
  }

  lemma {:induction false} LineEndInside(a: seq<Row>, b: seq<Row>, i: nat)
    requires Closed(a) && i < |a|
    ensures LineEnd(a + b, i) == LineEnd(a, i)
    decreases |a| - i
  {
    if a[i].wrapped {
      LineEndInside(a, b, i + 1);
    }
  }

  lemma {:induction false} LineEndOne(a: seq<Row>, rows: seq<Row>, i: nat)
    requires OneLine(rows) && |a| <= i < |a + rows|
    ensures LineEnd(a + rows, i) == |a + rows|
    decreases |a + rows| - i
  {
    var t := a + rows;
    if i + 1 < |t| {
      assert t[i] == rows[..|rows| - 1][i - |a|];
      LineEndOne(a, rows, i + 1);
    }
  }

  lemma {:induction false} RawSplit(a: seq<Row>, b: seq<Row>, i: nat)
    requires Closed(a) && i <= |a|
    ensures RawLines(a + b, i) == RawLines(a, i) + RawLines(a + b, |a|)
    decreases |a| - i
  {
    if i == |a| {
    } else {
      LineEndInside(a, b, i);
      var j := LineEnd(a, i);
      assert (a + b)[i..j] == a[i..j];
      RawSplit(a, b, j);
      assert [Join(a[i..j])] + (RawLines(a, j) + RawLines(a + b, |a|)) == RawLines(a, i) + RawLines(a + b, |a|);
    }
  }

  lemma {:induction false} RawOne(a: seq<Row>, rows: seq<Row>)
    requires OneLine(rows)
    ensures RawLines(a + rows, |a|) == [Join(rows)]
  {
    hide Join, LineEnd, AllWrapped;
    var t := a + rows;
    LineEndOne(a, rows, |a|);
    assert t[|a|..|t|] == rows;
    assert RawLines(t, |t|) == [];
    assert RawLines(t, |a|) == [Join(t[|a|..|t|])] + RawLines(t, |t|);
  }

  /** Line by line, the first of `raws` carry `lines`. */
  ghost predicate Carried(raws: seq<seq<Cell>>, lines: seq<Line>, width: nat)
    requires 2 <= width
  {
    |raws| >= |lines| && forall k | 0 <= k < |lines| :: Carries(raws[k], lines[k], width)
  }

  lemma {:induction false} CarriedNext(raws: seq<seq<Cell>>, lines: seq<Line>, raw: seq<Cell>, line: Line, width: nat)
    requires 2 <= width && |raws| == |lines| && Carried(raws, lines, width) && Carries(raw, line, width)
    ensures Carried(raws + [raw], lines + [line], width)
  {
    hide Carries;
  }

  /** Each logical line becomes exactly one logical line: its characters flowed at the new width. */
  lemma {:induction false} TextKept(lines: seq<Line>, width: nat)
    requires 2 <= width
    ensures var text := LayLines(lines, width).0;
            Closed(text) && |RawLines(text, 0)| == |lines| && Carried(RawLines(text, 0), lines, width)
  {
    hide Carries, LayLine, LineEnd, Join, Carried, OneLine, Closed, RawLines, FirstMark;
    if lines == [] {
      NoLines(width);
    } else {
      var init, last := lines[..|lines| - 1], lines[|lines| - 1];
      TextKept(init, width);
      var (rows, spot) := LayLines(init, width);
      LayLineOk(last, width, |rows|, spot);
      var more := LayLine(last, width, |rows|, spot).0;
      LineText(last, width, |rows|, spot);
      RawSplit(rows, more, 0);
      RawOne(rows, more);
      CarriedNext(RawLines(rows, 0), init, Join(more), last, width);
      ClosedMore(rows, more);
      assert init + [last] == lines;
    }
  }

  lemma {:induction false} NoLines(width: nat)
    requires 2 <= width
    ensures Closed([]) && RawLines([], 0) == [] && Carried([], [], width)
  {
  }

  lemma {:induction false} ClosedMore(a: seq<Row>, rows: seq<Row>)
    requires OneLine(rows)
    ensures Closed(a + rows)
  {
  }

  lemma {:induction false} RawBlanks(a: seq<Row>, n: nat, width: nat, i: nat)
    requires |a| <= i <= |a| + n
    ensures var t := a + BlankRows(n, width, PLAIN);
            |RawLines(t, i)| == |t| - i && forall k | 0 <= k < |t| - i :: RawLines(t, i)[k] == Blanks(width, PLAIN)
    decreases |a| + n - i
  {
    var t := a + BlankRows(n, width, PLAIN);
    if i < |t| {
      RawBlanks(a, n, width, i + 1);
      assert t[i] == BlankRow(width, PLAIN);
      assert t[i..i + 1] == [t[i]];
      assert Join([t[i]]) == [] + t[i].cells by { assert [t[i]][..0] == []; }
    }
  }

  /** The new screen shows a contiguous part of the laid-out text, then blank rows: rows leave only
      at the front, when the scrollback is full, and below a cursor that is kept on screen. */
  lemma {:induction false} PlaceSlices(s: Scr, width: nat, at: Spot)
    requires 1 <= width
    ensures var (text, spot) := LayLines(Extract(s, at), width);
            var (t, to) := ReflowWidth(s, width, at);
            var cursor := if spot.Some? then spot.value.row else 0;
            var start := Min(GridStart(|text|, s.rows, cursor), |text|);
            var from := if start > s.maxScrollback then start - s.maxScrollback else 0;
            var upto := Min(|text|, start + s.rows);
            && AllRows(t) == text[from..upto] + BlankRows(s.rows - (upto - start), width, PLAIN)
            && (from > 0 ==> |t.scrollback| == s.maxScrollback)
            && (upto < |text| ==> cursor < |text| - s.rows && to.row == 0)
  {
    hide LayLines, Extract;
    var (text, spot) := LayLines(Extract(s, at), width);
    var cursor := if spot.Some? then spot.value.row else 0;
    var start := Min(GridStart(|text|, s.rows, cursor), |text|);
    var from := if start > s.maxScrollback then start - s.maxScrollback else 0;
    var upto := Min(|text|, start + s.rows);
    SlicesMeet(text, from, start, upto);
    assert KeepLast(text[..start], s.maxScrollback) == text[..start][from..];
    if upto - start == s.rows {
      assert text[from..upto] + BlankRows(0, width, PLAIN) == text[from..upto];
    }
  }

  lemma {:induction false} SlicesMeet(text: seq<Row>, from: nat, start: nat, upto: nat)
    requires from <= start <= upto <= |text|
    ensures text[..start][from..] + text[start..upto] == text[from..upto]
  {
  }

  /** Reflow of any screen to any width of two or more, wide characters included. The rows of the new
      screen, between those evicted in front of a full scrollback and those cut below a cursor kept on
      the top row, are rows of a text whose logical lines are the old ones, flowed anew; nothing else
      is on it but blank rows. When nothing is evicted or cut, its own logical lines are these. */
  lemma {:induction false} ScreenText(s: Scr, width: nat, at: Spot)
      returns (front: seq<Row>, kept: seq<Row>, back: seq<Row>, n: nat)
    requires 2 <= width
    ensures var (t, to) := ReflowWidth(s, width, at);
            && AllRows(t) == kept + BlankRows(n, width, PLAIN)
            && (front != [] ==> |t.scrollback| == s.maxScrollback) && (back != [] ==> to.row == 0)
    ensures |RawLines(front + kept + back, 0)| == |Extract(s, at)|
    ensures Carried(RawLines(front + kept + back, 0), Extract(s, at), width)
    ensures front == [] && back == [] ==>
            var raws := RawLines(AllRows(ReflowWidth(s, width, at).0), 0);
            && |raws| == |Extract(s, at)| + n && Carried(raws, Extract(s, at), width)
            && forall k | |Extract(s, at)| <= k < |raws| :: raws[k] == Blanks(width, PLAIN)
  {
    hide *;
    TextKept(Extract(s, at), width);
    var from, upto, m := PlaceCut(s, width, at);
    var text := LayLines(Extract(s, at), width).0;
    front, kept, back, n := text[..from], text[from..upto], text[upto..], m;
    ThreeParts(text, from, upto);
    if front == [] && back == [] {
      assert kept == text;
      BlankLines(text, n, width, Extract(s, at));
    }
  }

  lemma {:induction false} ThreeParts(text: seq<Row>, from: nat, upto: nat)
    requires from <= upto <= |text|
    ensures text[..from] + text[from..upto] + text[upto..] == text
  {
  }

  lemma {:induction false} PlaceCut(s: Scr, width: nat, at: Spot) returns (from: nat, upto: nat, n: nat)
    requires 1 <= width
    ensures var text := LayLines(Extract(s, at), width).0;
            var (t, to) := ReflowWidth(s, width, at);
            && from <= upto <= |text| && AllRows(t) == text[from..upto] + BlankRows(n, width, PLAIN)
            && (from > 0 ==> |t.scrollback| == s.maxScrollback) && (upto < |text| ==> to.row == 0)
  {
    hide LayLines, Extract, ReflowWidth, AllRows;
    PlaceSlices(s, width, at);
    var (text, spot) := LayLines(Extract(s, at), width);
    var start := Min(GridStart(|text|, s.rows, if spot.Some? then spot.value.row else 0), |text|);
    from := if start > s.maxScrollback then start - s.maxScrollback else 0;
    upto := Min(|text|, start + s.rows);
    n := s.rows - (upto - start);
  }

  lemma {:induction false} BlankLines(text: seq<Row>, n: nat, width: nat, lines: seq<Line>)
    requires 2 <= width && Closed(text) && |RawLines(text, 0)| == |lines| && Carried(RawLines(text, 0), lines, width)
    ensures var raws := RawLines(text + BlankRows(n, width, PLAIN), 0);
            && |raws| == |lines| + n && Carried(raws, lines, width)
            && forall k | |lines| <= k < |raws| :: raws[k] == Blanks(width, PLAIN)
  {
    hide RawLines, Carries, BlankRows, Blanks;
    RawSplit(text, BlankRows(n, width, PLAIN), 0);
    RawBlanks(text, n, width, |text|);
  }
}
