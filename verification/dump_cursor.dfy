// The cursor half of the serializer: `dump_cursor` restores position, pen and pending wrap, and
// the flat dump of a terminal brings back its grid and its cursor together.
module DumpCursor {
  import opened Sequences
  import opened Cells
  import opened VtParser
  import opened VtParserProofs
  import opened Screens
  import opened Drawing
  import opened Dump
  import opened DumpProofs

  // ---- printing a glyph again -----------------------------------------------

  ghost predicate Ascii0(d: Draw) {
    DrawOk(d) && d.cur.g0 == Ascii && d.cur.shift == 0
  }

  ghost predicate SameFlags(g: seq<Row>, h: seq<Row>) {
    |g| == |h| && forall i | 0 <= i < |g| :: g[i].wrapped == h[i].wrapped
  }

  /** Everything but cells and cursor is as in `d`, and the cursor is where `c` says. */
  ghost predicate Leaves(e: Draw, d: Draw, c: Cursor) {
    e == d.(scr := d.scr.(grid := e.scr.grid), cur := c, last := e.last) && SameFlags(e.scr.grid, d.scr.grid)
  }

  lemma {:induction false} CombinesInPlace(w: Widths, d: Draw, x: char)
    requires Ascii0(d) && Combining(w, x) && x != DEL
    ensures 0x20 <= x as int != 0x7F
    ensures var e := Drawing.Print(w, d, x); Ascii0(e) && Leaves(e, d, d.cur)
  {
  }

  lemma {:induction false} DrawsCombining(w: Widths, d: Draw, t: string) returns (e: Draw)
    requires DrawOk(d) && Ascii0(d) && forall x <- t :: Combining(w, x)
    ensures Draws(w, d, t, e) && Ascii0(e) && Leaves(e, d, d.cur)
  {
    hide *;
    CombiningSent(w, t);
    e := DrawsMarks(w, d, Sent(t));
    DrawsSent(w, d, t, e);
  }

  lemma {:induction false} CombiningSent(w: Widths, t: string)
    requires forall x <- t :: Combining(w, x)
    ensures (forall x <- Sent(t) :: Combining(w, x) && x != DEL) && forall x | x in t :: 0x20 <= x as int
  {
  }

  lemma {:induction false} DrawsMarks(w: Widths, d: Draw, t: string) returns (e: Draw)
    requires DrawOk(d) && Ascii0(d) && forall x <- t :: Combining(w, x) && x != DEL
    ensures Draws(w, d, t, e) && Ascii0(e) && Leaves(e, d, d.cur)
    decreases |t|
  {
    hide *;
    if t == "" {
      Nothing(w, d);
      e := d;
      LeavesSelf(d);
    } else {
      CombinesInPlace(w, d, t[0]);
      var mid := Drawing.Print(w, d, t[0]);
      e := DrawsMarks(w, mid, t[1..]);
      LeavesTwice(e, mid, d, d.cur);
      DrawsChar(w, d, t[0]);
      Then(w, d, [t[0]], mid, t[1..], e);
      assert t == [t[0]] + t[1..];
    }
  }

  lemma {:induction false} LeavesSelf(d: Draw)
    ensures Leaves(d, d, d.cur)
  {
  }

  lemma {:induction false} LeavesTwice(e: Draw, m: Draw, d: Draw, c: Cursor)
    requires Leaves(m, d, c) && Leaves(e, m, m.cur)
    ensures Leaves(e, d, c)
  {
  }

  function AfterGlyph(d: Draw, w: nat): Cursor
    requires DrawOk(d)
  {
    Drawing.Advance(d, w).cur
  }

  /** A glyph that fits moves the cursor by its width, whatever it overwrites. */
  lemma {:induction false} DrawsFitting(w: Widths, d: Draw, c: Cell) returns (e: Draw)
    requires DrawOk(d) && Ascii0(d) && !d.cur.pendingWrap && CellOk(w, c) && c.width > 0
             && d.cur.col + c.width <= d.scr.cols
    ensures Draws(w, d, GlyphText(c), e) && Ascii0(e) && Leaves(e, d, AfterGlyph(d, c.width))
  {
    FittingChar(w, d, c);
    hide *;
    var mid := Drawing.Print(w, d, c.ch);
    DrawsChar(w, d, c.ch);
    e := DrawsCombining(w, mid, c.extra);
    Then(w, d, [c.ch], mid, c.extra, e);
    LeavesTwice(e, mid, d, AfterGlyph(d, c.width));
  }

  lemma {:induction false} FittingChar(w: Widths, d: Draw, c: Cell)
    requires Ascii0(d) && !d.cur.pendingWrap && CellOk(w, c) && c.width > 0 && d.cur.col + c.width <= d.scr.cols
    ensures 0x20 <= c.ch as int != 0x7F && GlyphText(c) == [c.ch] + c.extra
    ensures forall x <- c.extra :: Combining(w, x)
    ensures var e := Drawing.Print(w, d, c.ch); Ascii0(e) && Leaves(e, d, AfterGlyph(d, c.width))
  {
    PrintsPut(w, d, c);
    hide Drawing.Print, PutGlyph;
    PutLeaves(d.(last := Some(c.ch)), c.ch, c.width);
  }

  lemma {:induction false} PrintsPut(w: Widths, d: Draw, c: Cell)
    requires Ascii0(d) && !d.cur.pendingWrap && CellOk(w, c) && c.width > 0 && d.cur.col + c.width <= d.scr.cols
    ensures Drawing.Print(w, d, c.ch) == PutGlyph(d.(last := Some(c.ch)), c.ch, c.width)
  {
    hide PutGlyph;
  }

  lemma {:induction false} PutLeaves(d: Draw, c: char, w: Columns)
    requires Ascii0(d) && !d.cur.pendingWrap && w > 0
    ensures var e := PutGlyph(d, c, w); Ascii0(e) && Leaves(e, d, AfterGlyph(d, w))
  {
    hide Written, Inserted, Repaired;
  }

  // ---- printing the last cell of a row again --------------------------------

  /** The cursor stands on the last glyph of a well-formed row, with that glyph's pen. */
  ghost predicate OnLast(w: Widths, d: Draw, c: Cell) {
    && Ascii0(d) && !d.cur.pendingWrap && d.modes.autowrap && d.cur.link == 0
    && RowOk(w, CursorRow(d)) && c == CursorRow(d).cells[d.cur.col]
    && c.width > 0 && d.cur.col + c.width == d.scr.cols && d.cur.style == c.style && DEL !in c.extra
  }

  /** `d` with the first `j` combining characters of its last glyph, and the wrap pending. */
  function Reshown(d: Draw, c: Cell, j: nat): Draw
    requires DrawOk(d) && j <= |c.extra|
  {
    var row := CursorRow(d);
    var e := SetRow(d, row.(cells := row.cells[d.cur.col := c.(extra := c.extra[..j])]));
    e.(cur := d.cur.(col := d.scr.cols - 1, pendingWrap := true), last := Some(c.ch))
  }

  /** Overwriting the last glyph of a row with itself, insert mode or not. */
  lemma {:induction false} RewritesCell(w: Widths, row: Row, k: nat, erase: Style, insert: bool)
    requires RowOk(w, row) && k < |row.cells| && row.cells[k].width > 0 && k + row.cells[k].width == |row.cells|
    ensures var cells, c := row.cells, row.cells[k];
            var base := if insert then Repaired(Inserted(cells, k, c.width, erase), erase) else cells;
            Written(base, k, c.ch, c.width, c.style, 0, erase) == cells[k := Bare(c)]
  {
    HeadFits(w, row, k);
    var cells, c := row.cells, row.cells[k];
    assert CellOk(w, c);
    if insert {
      var shifted := Inserted(cells, k, c.width, erase);
      assert shifted == cells[..k] + Blanks(c.width, erase);
      assert !Orphan(cells, k);
      forall i | 0 <= i < |shifted|
        ensures !Orphan(shifted, i)
      {
        if i < k { assert !Orphan(cells, i) && shifted[i] == cells[i]; }
        if i + 1 < k { assert shifted[i + 1] == cells[i + 1]; }
        if 0 < i <= k { assert shifted[i - 1] == cells[i - 1]; }
      }
      assert Repaired(shifted, erase) == shifted;
      Unclean(shifted, k, c.width, erase);
    } else {
      Unclean(cells, k, c.width, erase);
    }
  }

  lemma {:induction false} Unclean(cells: seq<Cell>, k: nat, n: nat, erase: Style)
    requires k < |cells| == k + n && 1 <= n <= 2 && cells[k].width > 0
    requires cells[k].width == 2 ==> n == 2
    requires n == 2 ==> cells[k + 1].width < 2
    ensures Cleaned(cells, k, n, erase) == if cells[k].width == 2 then cells[k + 1 := Blank(erase)] else cells
  {
    var t := if cells[k].width == 2 then cells[k + 1 := Blank(erase)] else cells;
    assert CleanFrom(cells, k, n, erase) == CleanFrom(t, k + 1, n - 1, erase);
    if n == 2 {
      assert CleanFrom(t, k + 1, 1, erase) == CleanFrom(t, k + 2, 0, erase);
    }
  }

  lemma {:induction false} PrintsLast(w: Widths, d: Draw, c: Cell)
    requires OnLast(w, d, c)
    ensures 0x20 <= c.ch as int != 0x7F && GlyphText(c) == [c.ch] + c.extra
    ensures forall x <- c.extra :: Combining(w, x)
    ensures Drawing.Print(w, d, c.ch) == Reshown(d, c, 0)
    ensures DrawOk(Reshown(d, c, 0))
  {
    RewritesCell(w, CursorRow(d), d.cur.col, BlankStyle(d), d.modes.insert);
    assert CellOk(w, c);
    assert c.(extra := c.extra[..0]) == Bare(c);
    hide Written, Inserted, Repaired;
  }

  lemma {:induction false} CombinesLast(w: Widths, d: Draw, c: Cell, j: nat)
    requires OnLast(w, d, c) && j < |c.extra|
    ensures var x := c.extra[j];
            0x20 <= x as int != 0x7F
            && DrawOk(Reshown(d, c, j)) && Drawing.Print(w, Reshown(d, c, j), x) == Reshown(d, c, j + 1)
  {
    HeadFits(w, CursorRow(d), d.cur.col);
    assert CellOk(w, c) && Combining(w, c.extra[j]);
    assert c.extra[..j] + [c.extra[j]] == c.extra[..j + 1];
    var cells, k := CursorRow(d).cells, d.cur.col;
    assert cells[k := c.(extra := c.extra[..j])][k := c.(extra := c.extra[..j + 1])] ==
      cells[k := c.(extra := c.extra[..j + 1])];
  }

  lemma {:induction false} ReshownAll(w: Widths, d: Draw, c: Cell)
    requires OnLast(w, d, c)
    ensures Reshown(d, c, |c.extra|) ==
            d.(cur := d.cur.(col := d.scr.cols - 1, pendingWrap := true), last := Some(c.ch))
    ensures DrawOk(Reshown(d, c, |c.extra|))
  {
    assert c.(extra := c.extra[..|c.extra|]) == c;
    var row := CursorRow(d);
    assert row.cells[d.cur.col := c] == row.cells;
    assert d.scr.grid[d.cur.row := row] == d.scr.grid;
  }

  lemma {:induction false} DrawsLastExtra(w: Widths, d: Draw, c: Cell, j: nat)
    requires DrawOk(d) && OnLast(w, d, c) && j <= |c.extra|
    ensures DrawOk(Reshown(d, c, j)) && DrawOk(Reshown(d, c, |c.extra|))
    ensures Draws(w, Reshown(d, c, j), c.extra[j..], Reshown(d, c, |c.extra|))
    decreases |c.extra| - j
  {
    hide *;
    ReshownAll(w, d, c);
    if j == |c.extra| {
      assert c.extra[j..] == "";
      Nothing(w, Reshown(d, c, j));
    } else {
      CombinesLast(w, d, c, j);
      DrawsLastExtra(w, d, c, j + 1);
      DrawsChar(w, Reshown(d, c, j), c.extra[j]);
      Then(w, Reshown(d, c, j), [c.extra[j]], Reshown(d, c, j + 1), c.extra[j + 1..], Reshown(d, c, |c.extra|));
      assert c.extra[j..] == [c.extra[j]] + c.extra[j + 1..];
    }
  }

  /** Printing the last glyph of a row over itself changes nothing but arms the wrap. */
  lemma {:induction false} DrawsLast(w: Widths, d: Draw, c: Cell)
    requires DrawOk(d) && OnLast(w, d, c)
    ensures var e := d.(cur := d.cur.(col := d.scr.cols - 1, pendingWrap := true), last := Some(c.ch));
            DrawOk(e) && Draws(w, d, GlyphText(c), e)
  {
    hide *;
    PrintsLast(w, d, c);
    ReshownAll(w, d, c);
    DrawsLastExtra(w, d, c, 0);
    assert c.extra[0..] == c.extra;
    DrawsChar(w, d, c.ch);
    Then(w, d, [c.ch], Reshown(d, c, 0), c.extra, Reshown(d, c, |c.extra|));
  }

  // ---- the cursor -----------------------------------------------------------

  function Toggle(c: Cell, pen: Style, to: bool): string {
    if c.style.guarded != pen.guarded then GuardText(to) else ""
  }

  function Restyle(c: Cell, pen: Style, to: Style): string {
    if c.style.(guarded := pen.guarded) != pen then StyleText(to) else ""
  }

  lemma {:induction false} DrawsToggle(w: Widths, d: Draw, c: Cell, pen: Style, to: bool)
    requires DrawOk(d) && (c.style.guarded == pen.guarded ==> d.cur.style.guarded == to)
    ensures Draws(w, d, Toggle(c, pen, to), Pen(d, d.cur.style.(guarded := to)))
  {
    hide Draws, GuardText;
    if c.style.guarded != pen.guarded { DrawsGuard(w, d, to); } else { Nothing(w, d); }
  }

  lemma {:induction false} DrawsRestyle(w: Widths, d: Draw, c: Cell, pen: Style, to: Style)
    requires DrawOk(d) && d.cur.style.guarded == to.guarded
    requires c.style.(guarded := pen.guarded) == pen ==> d.cur.style == to
    ensures Draws(w, d, Restyle(c, pen, to), Pen(d, to))
  {
    hide Draws, StyleText;
    if c.style.(guarded := pen.guarded) != pen { DrawsStyle(w, d, to); } else { Nothing(w, d); }
  }

  /** Guard and style of the cell, from the pen. */
  lemma {:induction false} DrawsOwnPen(w: Widths, d: Draw, c: Cell, pen: Style)
    requires DrawOk(d) && d.cur.style == pen
    ensures DrawOk(Pen(d, c.style))
    ensures Draws(w, d, Toggle(c, pen, c.style.guarded) + Restyle(c, pen, c.style), Pen(d, c.style))
  {
    hide *;
    var mid := Pen(d, pen.(guarded := c.style.guarded));
    Pens(d, pen.(guarded := c.style.guarded), c.style);
    Pens(d, c.style, c.style);
    DrawsToggle(w, d, c, pen, c.style.guarded);
    DrawsRestyle(w, mid, c, pen, c.style);
    Then(w, d, Toggle(c, pen, c.style.guarded), mid, Restyle(c, pen, c.style), Pen(d, c.style));
  }

  /** And back, in the other order. */
  lemma {:induction false} DrawsPenBack(w: Widths, d: Draw, c: Cell, pen: Style)
    requires DrawOk(d) && d.cur.style == c.style
    ensures DrawOk(Pen(d, pen))
    ensures Draws(w, d, Restyle(c, pen, pen) + Toggle(c, pen, pen.guarded), Pen(d, pen))
  {
    var half := pen.(guarded := c.style.guarded);
    var mid := Pen(d, half);
    Pens(d, half, pen);
    Pens(d, pen, pen);
    hide *;
    DrawsHalf(w, d, c, pen);
    DrawsToggle(w, mid, c, pen, pen.guarded);
    Then(w, d, Restyle(c, pen, pen), mid, Toggle(c, pen, pen.guarded), Pen(d, pen));
  }

  /** The style alone: the guard stays the cell's. */
  lemma {:induction false} DrawsHalf(w: Widths, d: Draw, c: Cell, pen: Style)
    requires DrawOk(d) && d.cur.style == c.style
    ensures Draws(w, d, Restyle(c, pen, pen), Pen(d, pen.(guarded := c.style.guarded)))
  {
    hide Draws, StyleText;
    if c.style.(guarded := pen.guarded) != pen { DrawsStyle(w, d, pen); } else { Nothing(w, d); }
  }

  /** The reprinted cell, with its own pen, and the pen put back. */
  lemma {:induction false} DrawsReprint(w: Widths, d: Draw, c: Cell, mid: Draw)
    requires DrawOk(d) && DrawOk(mid) && DrawOk(Pen(d, c.style)) && Draws(w, Pen(d, c.style), GlyphText(c), mid)
    requires mid.cur.style == c.style
    ensures Draws(w, d, ReprintText(c, d.cur.style), Pen(mid, d.cur.style))
  {
    hide *;
    var pen := d.cur.style;
    var own, back := Toggle(c, pen, c.style.guarded) + Restyle(c, pen, c.style),
      Restyle(c, pen, pen) + Toggle(c, pen, pen.guarded);
    DrawsOwnPen(w, d, c, pen);
    DrawsPenBack(w, mid, c, pen);
    Then(w, d, own, Pen(d, c.style), GlyphText(c), mid);
    Then(w, d, own + GlyphText(c), mid, back, Pen(mid, pen));
    ReprintIs(c, pen);
  }

  lemma {:induction false} ReprintIs(c: Cell, pen: Style)
    ensures ReprintText(c, pen) == Toggle(c, pen, c.style.guarded) + Restyle(c, pen, c.style) + GlyphText(c)
                                   + (Restyle(c, pen, pen) + Toggle(c, pen, pen.guarded))
  {
    hide GuardText, StyleText, GlyphText;
    Assoc(Toggle(c, pen, c.style.guarded) + Restyle(c, pen, c.style) + GlyphText(c),
      Restyle(c, pen, pen), Toggle(c, pen, pen.guarded));
  }

  /** Plain charsets, no hyperlink, and cells a terminal can hold in the cursor's row. */
  ghost predicate CursorOk(w: Widths, d: Draw) {
    Ascii0(d) && d.cur.link == 0 && RowOk(w, CursorRow(d))
  }

  /** The target: same size, modes and region as the source, cursor and pen anything. */
  ghost predicate Sized(t: Draw, d: Draw) {
    && t.scr.rows == d.scr.rows && t.scr.cols == d.scr.cols && DrawOk(t)
    && t.modes == d.modes && t.top == d.top && t.bot == d.bot
    && t.cur.g0 == d.cur.g0 && t.cur.g1 == d.cur.g1 && t.cur.shift == d.cur.shift && t.cur.link == 0
  }

  /** When the printed cursor can be reached: in origin mode only inside the region, and a pending
      wrap only with autowrap on and in the last column. */
  predicate Addressable(d: Draw) {
    && (d.modes.origin ==> d.top <= d.cur.row <= d.bot)
    && (d.cur.pendingWrap ==> d.modes.autowrap && d.cur.col == d.scr.cols - 1)
  }

  function CupRow(d: Draw): nat {
    var top := if d.modes.origin then d.top else 0;
    if d.cur.row > top then d.cur.row - top else 0
  }

  /** The target after pen and position: where the reprint happens, if any. */
  function Placed(t: Draw, d: Draw): Draw
    requires DrawOk(t) && DrawOk(d)
  {
    MoveTo(Pen(t, d.cur.style), CupRow(d), PrintColumn(d))
  }

  lemma {:induction false} PlacedIs(w: Widths, t: Draw, d: Draw)
    requires CursorOk(w, d) && Sized(t, d)
    ensures var p := Placed(t, d);
            && DrawOk(p) && Ascii0(p)
            && p == t.(cur := d.cur.(row := p.cur.row, col := PrintColumn(d), pendingWrap := false))
            && (p.cur.row == d.cur.row <==> d.modes.origin ==> d.top <= d.cur.row <= d.bot)
            && PrintColumn(d) < d.scr.cols
            && (!d.cur.pendingWrap ==> PrintColumn(d) == d.cur.col)
  {
  }

  lemma {:induction false} PrintedCell(w: Widths, d: Draw)
    requires CursorOk(w, d) && d.cur.pendingWrap
    ensures PrintColumn(d) < |CursorRow(d).cells|
    ensures var c := CursorRow(d).cells[PrintColumn(d)];
            && CellOk(w, c) && 1 <= c.width <= 2 && PrintColumn(d) + c.width <= d.scr.cols
            && (d.cur.col == d.scr.cols - 1 ==> PrintColumn(d) + c.width == d.scr.cols)
  {
    var cells := CursorRow(d).cells;
    assert !Orphan(cells, d.cur.col);
    assert CellOk(w, cells[PrintColumn(d)]);
    if d.cur.col > 0 { assert !Orphan(cells, d.cur.col - 1); }
  }

  lemma {:induction false} CursorTextIs(w: Widths, d: Draw, pen: Style)
    requires CursorOk(w, d)
    ensures PrintColumn(d) < |CursorRow(d).cells|
    ensures CupRow(d) < 0xFFFF && PrintColumn(d) < 0xFFFF
    ensures var c := CursorRow(d).cells[PrintColumn(d)];
            CursorText(d, pen) == PenText(pen, d.cur.style) + CupText(CupRow(d), PrintColumn(d))
              + (if d.cur.pendingWrap then ReprintText(c, d.cur.style) else "")
  {
    hide PenText, CupText, ReprintText;
    if d.cur.pendingWrap { PrintedCell(w, d); }
  }

  /** Pen and position first. */
  lemma {:induction false} DrawsPlaced(w: Widths, t: Draw, d: Draw)
    requires CursorOk(w, d) && Sized(t, d) && DrawOk(t) && DrawOk(d)
    ensures DrawOk(Placed(t, d))
    ensures Draws(w, t, PenText(t.cur.style, d.cur.style) + CupText(CupRow(d), PrintColumn(d)), Placed(t, d))
  {
    CursorTextIs(w, d, t.cur.style);
    Pens(t, d.cur.style, d.cur.style);
    PlacedIs(w, t, d);
    hide Draws, PenText, CupText, CupRow, DrawOk, PrintColumn;
    DrawsPen(w, t, d.cur.style);
    DrawsCup(w, Pen(t, d.cur.style), CupRow(d), PrintColumn(d));
    Then(w, t, PenText(t.cur.style, d.cur.style), Pen(t, d.cur.style),
         CupText(CupRow(d), PrintColumn(d)), Placed(t, d));
  }

  /** Reprinting the last glyph of the cursor row where the target has what was sent of it. */
  lemma {:induction false} DrawsRearm(w: Widths, t: Draw, d: Draw, c: Cell)
    requires CursorOk(w, d) && Sized(t, d) && t.scr.grid == ResentRows(d.scr.grid) && DrawOk(t) && DrawOk(d)
    requires d.cur.pendingWrap && Addressable(d)
    requires PrintColumn(d) < |CursorRow(d).cells| && c == CursorRow(d).cells[PrintColumn(d)]
    requires DrawOk(Placed(t, d))
    ensures var e := t.(cur := d.cur, last := Some(c.ch));
            DrawOk(e) && Draws(w, Placed(t, d), ReprintText(c, d.cur.style), e)
  {
    PlacedIs(w, t, d);
    PrintedCell(w, d);
    var p, shown := Placed(t, d), Resent(c);
    var mid := Pen(p, c.style);
    ResentOk(w, CursorRow(d));
    assert OnLast(w, mid, shown);
    var armed := mid.(cur := mid.cur.(col := mid.scr.cols - 1, pendingWrap := true), last := Some(c.ch));
    assert p.cur.style == d.cur.style;
    assert Pen(armed, d.cur.style) == t.(cur := d.cur, last := Some(c.ch));
    GlyphSent(w, c);
    hide *;
    Pens(p, c.style, c.style);
    DrawsLast(w, mid, shown);
    DrawsSent(w, mid, GlyphText(c), armed);
    DrawsReprint(w, p, c, armed);
    Pens(armed, d.cur.style, d.cur.style);
  }

  lemma {:induction false} GlyphSent(w: Widths, c: Cell)
    requires CellOk(w, c) && c.width > 0
    ensures GlyphText(Resent(c)) == Sent(GlyphText(c)) && forall x | x in GlyphText(c) :: 0x20 <= x as int
    ensures Resent(c).ch == c.ch && Resent(c).style == c.style
  {
    SentFirst(GlyphText(c));
    assert GlyphText(c)[1..] == c.extra;
  }

  /** Reprinting anywhere keeps the rows' flags, and puts the cursor back exactly if it is addressable. */
  lemma {:induction false} DrawsStray(w: Widths, t: Draw, d: Draw, c: Cell) returns (e: Draw)
    requires CursorOk(w, d) && Sized(t, d) && DrawOk(t) && DrawOk(d) && d.cur.pendingWrap
    requires PrintColumn(d) < |CursorRow(d).cells| && c == CursorRow(d).cells[PrintColumn(d)]
    requires DrawOk(Placed(t, d))
    ensures DrawOk(e) && Draws(w, Placed(t, d), ReprintText(c, d.cur.style), e)
    ensures e.cur == d.cur <==> Addressable(d)
    ensures SameFlags(e.scr.grid, t.scr.grid)
  {
    PlacedIs(w, t, d);
    PrintedCell(w, d);
    var p := Placed(t, d);
    var mid := Pen(p, c.style);
    assert Ascii0(mid) && !mid.cur.pendingWrap && mid.cur.col + c.width <= mid.scr.cols;
    var got := DrawsFitting(w, mid, c);
    assert got.cur.style == c.style;
    StrayCursor(w, t, d, c, mid);
    assert got.cur.(style := p.cur.style) == d.cur <==> Addressable(d);
    assert DrawOk(got) && SameFlags(got.scr.grid, t.scr.grid);
    hide *;
    Pens(p, c.style, c.style);
    DrawsReprint(w, p, c, got);
    e := Pen(got, p.cur.style);
    PenOnly(got, p.cur.style);
  }

  lemma {:induction false} StrayCursor(w: Widths, t: Draw, d: Draw, c: Cell, mid: Draw)
    requires CursorOk(w, d) && Sized(t, d) && DrawOk(t) && DrawOk(d) && d.cur.pendingWrap && DrawOk(Placed(t, d))
    requires PrintColumn(d) < |CursorRow(d).cells| && c == CursorRow(d).cells[PrintColumn(d)]
    requires DrawOk(mid) && mid == Pen(Placed(t, d), c.style)
    ensures AfterGlyph(mid, c.width).(style := Placed(t, d).cur.style) == d.cur <==> Addressable(d)
  {
    PlacedIs(w, t, d);
    PrintedCell(w, d);
    hide RowOk, Placed, PrintColumn;
  }

  lemma {:induction false} PenOnly(d: Draw, s: Style)
    requires DrawOk(d)
    ensures var e := Pen(d, s); e.scr == d.scr && DrawOk(e) && e.cur == d.cur.(style := s)
  {
  }

  /** `dump_cursor` against any grid, cursor and pen of the target. It gives the source's cursor back
      exactly when that is addressable; if the target already shows what was sent of the source's grid,
      then the screen is untouched. */
  lemma {:induction false} CursorRoundTrip(w: Widths, t: Draw, d: Draw) returns (e: Draw)
    requires CursorOk(w, d) && Sized(t, d) && DrawOk(t) && DrawOk(d)
    ensures DrawOk(e) && Draws(w, t, CursorText(d, t.cur.style), e) && SameFlags(e.scr.grid, t.scr.grid)
    ensures e.cur == d.cur <==> Addressable(d)
    ensures t.scr.grid == ResentRows(d.scr.grid) && Addressable(d) ==> e == t.(cur := d.cur, last := e.last)
  {
    CursorTextIs(w, d, t.cur.style);
    DrawsPlaced(w, t, d);
    PlacedIs(w, t, d);
    var c := CursorRow(d).cells[PrintColumn(d)];
    var intro := PenText(t.cur.style, d.cur.style) + CupText(CupRow(d), PrintColumn(d));
    var p := Placed(t, d);
    if !d.cur.pendingWrap {
      e := p;
      assert intro + "" == intro;
    } else {
      hide Draws, ReprintText, CursorText, PenText, CupText, Placed, CupRow, PrintColumn;
      if t.scr.grid == ResentRows(d.scr.grid) && Addressable(d) {
        DrawsRearm(w, t, d, c);
        e := t.(cur := d.cur, last := Some(c.ch));
      } else {
        e := DrawsStray(w, t, d, c);
      }
      Then(w, t, intro, p, ReprintText(c, d.cur.style), e);
    }
  }

  // ---- the whole flat dump --------------------------------------------------

  /** A terminal whose dump needs no mode, region, tab or charset commands. */
  ghost predicate Dumpable(w: Widths, d: Draw) {
    && d.scr.cols >= 2 && RowsOk(w, d.scr.grid, d.scr.cols) && CursorOk(w, d) && d.cur.g1 == Ascii
    && d.modes == DEFAULT_MODES && d.top == 0 && d.bot == d.scr.rows - 1
  }

  /** The bytes of a flat dump, parsed by a new parser and performed on a fresh terminal of the same
      size, give the grid and the cursor back, pending wrap and pen included, exactly when every
      soft-wrapped row is followed by a row that prints something, no cell holds a DEL, and a pending
      wrap stands in the last column. */
  lemma {:induction false} FlatRoundTrip(w: Widths, f: Draw, d: Draw)
    requires IsFresh(f) && DrawOk(d) && Dumpable(w, d) && f.scr.rows == d.scr.rows && f.scr.cols == d.scr.cols
    ensures var (q, acts) := ParseText(FRESH, FlatText(d));
            && Idle(q) && AllDrawing(acts)
            && (PerformAll(w, f, acts).scr.grid == d.scr.grid && PerformAll(w, f, acts).cur == d.cur
                <==> Flows(d.scr.grid) && NoDel(d.scr.grid) && (d.cur.pendingWrap ==> d.cur.col == d.scr.cols - 1))
  {
    hide *;
    FreshIdle(f);
    var e := FlatDraws(w, f, d);
    DrawsApplies(w, f, FlatText(d), e);
  }

  lemma {:induction false} FlatDraws(w: Widths, f: Draw, d: Draw) returns (e: Draw)
    requires IsFresh(f) && DrawOk(f) && DrawOk(d) && Dumpable(w, d) && f.scr.rows == d.scr.rows
             && f.scr.cols == d.scr.cols
    ensures DrawOk(e) && Draws(w, f, FlatText(d), e)
    ensures e.scr.grid == d.scr.grid && e.cur == d.cur
            <==> Flows(d.scr.grid) && NoDel(d.scr.grid) && (d.cur.pendingWrap ==> d.cur.col == d.scr.cols - 1)
  {
    hide *;
    var g := d.scr.grid;
    DumpableMeans(w, d);
    ResentAll(g);
    var mid := GridSettles(w, f, g);
    FlatTextIs(d);
    FreshSized(w, f, d, mid);
    e := CursorRoundTrip(w, mid, d);
    if Flows(g) {
      SettledFlows(w, g, d.scr.cols);
    } else {
      var i := FlagLost(w, g, d.scr.cols);
      SameFlag(e.scr.grid, mid.scr.grid, i);
    }
    Then(w, f, [ESC] + "[H" + RowsText(g, PLAIN).0, mid, CursorText(d, mid.cur.style), e);
  }

  lemma {:induction false} SameFlag(g: seq<Row>, h: seq<Row>, i: nat)
    requires SameFlags(g, h) && i < |h|
    ensures |g| == |h| && g[i].wrapped == h[i].wrapped
  {
  }

  lemma {:induction false} DumpableMeans(w: Widths, d: Draw)
    requires DrawOk(d) && Dumpable(w, d)
    ensures d.scr.cols >= 2 && |d.scr.grid| == d.scr.rows && RowsOk(w, d.scr.grid, d.scr.cols) && CursorOk(w, d)
    ensures Addressable(d) <==> d.cur.pendingWrap ==> d.cur.col == d.scr.cols - 1
  {
    hide CursorOk, RowsOk;
  }

  /** After the grid the target differs from the source in cursor and flags only. */
  lemma {:induction false} FreshSized(w: Widths, f: Draw, d: Draw, mid: Draw)
    requires IsFresh(f) && DrawOk(d) && DrawOk(mid) && Dumpable(w, d) && f.scr.rows == d.scr.rows
             && f.scr.cols == d.scr.cols
    requires mid.scr == f.scr.(grid := Settled(d.scr.grid, d.scr.cols))
             && Finished(mid, f, Settled(d.scr.grid, d.scr.cols))
    ensures Sized(mid, d)
  {
    hide RowsOk, Settled, RowOk;
  }

  /** A hanging soft wrap shows up as a lost flag. */
  lemma {:induction false} FlagLost(w: Widths, g: seq<Row>, cols: nat) returns (i: nat)
    requires RowsOk(w, g, cols) && !Flows(g)
    ensures i < |g| && Settled(g, cols)[i].wrapped != g[i].wrapped
    decreases |g|
  {
    hide RowOk, Redrawn;
    RedrawnStep(g);
    FlowsStep(g);
    if g[0].wrapped == KeepsWrap(g) {
      WrapKept(g);
      assert Settled(g, cols) == [ResentRow(g[0]).(wrapped := KeepsWrap(g))] + Settled(g[1..], cols);
      var k := FlagLost(w, g[1..], cols);
      i := k + 1;
    } else {
      i := 0;
    }
  }

  lemma {:induction false} FlatTextIs(d: Draw)
    requires DrawOk(d)
    ensures FlatText(d) == [ESC] + "[H" + RowsText(d.scr.grid, PLAIN).0 + CursorText(d, RowsText(d.scr.grid, PLAIN).1)
  {
    hide RowsText, CursorText;
  }

  lemma {:induction false} FreshIdle(f: Draw)
    requires IsFresh(f)
    ensures Idle(FRESH) && DrawOk(f)
  {
  }

  lemma {:induction false} DrawsApplies(w: Widths, d: Draw, text: string, e: Draw)
    requires DrawOk(d) && Draws(w, d, text, e) && Idle(FRESH)
    ensures var (q, acts) := ParseText(FRESH, text); Idle(q) && AllDrawing(acts) && PerformAll(w, d, acts) == e
  {
    hide ParseText, PerformAll;
    assert DrawsFrom(w, d, text, e, FRESH);
  }
}
