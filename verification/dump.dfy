// crates/posh-term/src/dump.rs: printing a grid and the cursor as an escape stream. The functions
// say which text comes out; class `Emitter` pushes it piece by piece, tracking the target's pen.
module Dump {
  import opened Cells
  import opened VtParser
  import opened VtParserProofs
  import opened Drawing
  import Sgr

  function GuardText(on: bool): string {
    [ESC] + (if on then "[1\"q" else "[0\"q")
  }

  function StyleText(s: Style): string {
    [ESC] + "[" + Sgr.SgrParams(s) + "m"
  }

  /** Brings the pen from `pen` to `want`: DECSCA first, then SGR if anything else differs. */
  function PenText(pen: Style, want: Style): string {
    (if want.guarded != pen.guarded then GuardText(want.guarded) else "")
    + (if want != pen.(guarded := want.guarded) then StyleText(want) else "")
  }

  function GlyphText(c: Cell): string {
    [if c.ch == '\0' then ' ' else c.ch] + c.extra
  }

  /** How many cells of a row are printed. */
  function RowEnd(row: Row): (n: nat)
    ensures n <= |row.cells|
  {
    if row.wrapped then |row.cells| else LastShown(row.cells)
  }

  /** Cells `k..end` of a row: spacers are skipped. */
  function CellsText(cells: seq<Cell>, pen: Style): (r: (string, Style)) {
    if cells == [] then ("", pen)
    else if cells[0].width == 0 then CellsText(cells[1..], pen)
    else
      var (rest, after) := CellsText(cells[1..], cells[0].style);
      (PenText(pen, cells[0].style) + GlyphText(cells[0]) + rest, after)
  }

  function RowText(row: Row, pen: Style): (string, Style) {
    CellsText(row.cells[..RowEnd(row)], pen)
  }

  /** Rows in flow order; a hard line end between rows that are not soft-wrapped. */
  function RowsText(rows: seq<Row>, pen: Style): (string, Style) {
    if rows == [] then ("", pen)
    else
      var (first, p) := RowText(rows[0], pen);
      var (rest, q) := RowsText(rows[1..], p);
      (first + (if !rows[0].wrapped && |rows| > 1 then "\r\n" else "") + rest, q)
  }

  function CupText(row: nat, col: nat): string {
    [ESC] + "[" + Dec(row + 1) + ";" + Dec(col + 1) + "H"
  }

  /** A pending wrap on a wide character is armed by its head, one column to the left. */
  function PrintColumn(d: Draw): (col: nat)
    requires DrawOk(d)
    ensures col < d.scr.cols
  {
    if d.cur.pendingWrap && d.cur.col > 0 && d.scr.grid[d.cur.row].cells[d.cur.col].width == 0
    then d.cur.col - 1 else d.cur.col
  }

  /** Prints the last cell of the row again, with its own style, and restores the pen. */
  function ReprintText(c: Cell, pen: Style): string {
    var toggle := c.style.guarded != pen.guarded;
    var restyle := c.style.(guarded := pen.guarded) != pen;
    (if toggle then GuardText(c.style.guarded) else "")
    + (if restyle then StyleText(c.style) else "")
    + GlyphText(c)
    + (if restyle then StyleText(pen) else "")
    + (if toggle then GuardText(pen.guarded) else "")
  }

  /** Pen, position and pending wrap of `d`, starting from pen `pen`. */
  function CursorText(d: Draw, pen: Style): string
    requires DrawOk(d)
  {
    var top := if d.modes.origin then d.top else 0;
    var col := PrintColumn(d);
    var cell := d.scr.grid[d.cur.row].cells[col];
    PenText(pen, d.cur.style)
    + CupText(if d.cur.row > top then d.cur.row - top else 0, col)
    + (if d.cur.pendingWrap && (cell.width == 1 || cell.width == 2) then ReprintText(cell, d.cur.style) else "")
  }

  /** `dump_vt_flat` of a terminal whose modes, colors, titles and images are the initial ones. */
  function FlatText(d: Draw): string
    requires DrawOk(d)
  {
    var (grid, pen) := RowsText(d.scr.grid, PLAIN);
    [ESC] + "[H" + grid + CursorText(d, pen)
  }

  // ---- the emitter ----------------------------------------------------------

  class Emitter {
    var out: string
    var pen: Style

    constructor ()
      ensures out == "" && pen == PLAIN
    {
      out, pen := "", PLAIN;
    }

    method SyncPen(want: Style)
      modifies this
      ensures out == old(out) + PenText(old(pen), want) && pen == want
    {
      hide Sgr.SgrParams;
      ghost var o, p := out, pen;
      if want.guarded != pen.guarded {
        out := out + GuardText(want.guarded);
        pen := pen.(guarded := want.guarded);
      }
      assert out == o + (if want.guarded != p.guarded then GuardText(want.guarded) else "");
      if want != pen {
        out := out + StyleText(want);
        pen := want;
      }
    }

    method EmitRow(row: Row)
      modifies this
      ensures var (t, p) := RowText(row, old(pen)); out == old(out) + t && pen == p
    {
      hide PenText, GlyphText;
      var cells := row.cells;
      var end := if row.wrapped then |cells| else LastShown(cells);
      assert cells[0..end] == cells[..end];
      for i := 0 to end
        invariant var (t, p) := CellsText(cells[i..end], pen);
                  var (all, q) := RowText(row, old(pen));
                  out + t == old(out) + all && p == q
      {
        assert cells[i..end][1..] == cells[i + 1..end];
        if cells[i].width == 0 { continue; }
        ghost var o, p0 := out, pen;
        SyncPen(cells[i].style);
        out := out + GlyphText(cells[i]);
        Regroup(o, PenText(p0, cells[i].style), GlyphText(cells[i]), CellsText(cells[i + 1..end], pen).0);
      }
      assert CellsText(cells[end..end], pen).0 == "";
    }

    method DrawGrid(grid: seq<Row>)
      modifies this
      ensures var (t, p) := RowsText(grid, old(pen)); out == old(out) + t && pen == p
    {
      hide RowText;
      assert grid[0..] == grid;
      for r := 0 to |grid|
        invariant var (t, p) := RowsText(grid[r..], pen);
                  var (all, q) := RowsText(grid, old(pen));
                  out + t == old(out) + all && p == q
      {
        assert grid[r..][1..] == grid[r + 1..];
        ghost var o, p0 := out, pen;
        EmitRow(grid[r]);
        var eol := if !grid[r].wrapped && r + 1 < |grid| then "\r\n" else "";
        out := out + eol;
        Regroup(o, RowText(grid[r], p0).0, eol, RowsText(grid[r + 1..], pen).0);
      }
      assert RowsText(grid[|grid|..], pen).0 == "";
    }

    method DumpCursor(d: Draw)
      requires DrawOk(d)
      modifies this
      ensures out == old(out) + CursorText(d, old(pen)) && pen == d.cur.style
    {
      hide PenText, CupText, ReprintText;
      ghost var o, p := out, pen;
      SyncPen(d.cur.style);
      var top := if d.modes.origin then d.top else 0;
      var wide := d.cur.pendingWrap && d.cur.col > 0 && d.scr.grid[d.cur.row].cells[d.cur.col].width == 0;
      var col := if wide then d.cur.col - 1 else d.cur.col;
      var cup := CupText(if d.cur.row > top then d.cur.row - top else 0, col);
      out := out + cup;
      var tail := "";
      if d.cur.pendingWrap {
        var cell := d.scr.grid[d.cur.row].cells[col];
        if cell.width == 1 || cell.width == 2 { tail := Reprint(cell, pen); }
      }
      out := out + tail;
      Regroup(o, PenText(p, d.cur.style), cup, tail);
    }

    /** The whole flat dump: home, grid, cursor. */
    method DumpFlat(d: Draw)
      requires DrawOk(d) && out == "" && pen == PLAIN
      modifies this
      ensures out == FlatText(d)
    {
      hide RowsText, CursorText;
      out := out + ([ESC] + "[H");
      DrawGrid(d.scr.grid);
      DumpCursor(d);
    }
  }

  method Reprint(cell: Cell, pen: Style) returns (t: string)
    ensures t == ReprintText(cell, pen)
  {
    hide StyleText, GuardText, GlyphText;
    var toggle := cell.style.guarded != pen.guarded;
    var restyle := cell.style.(guarded := pen.guarded) != pen;
    t := "";
    if toggle { t := t + GuardText(cell.style.guarded); }
    if restyle { t := t + StyleText(cell.style); }
    t := t + GlyphText(cell);
    if restyle { t := t + StyleText(pen); }
    if toggle { t := t + GuardText(pen.guarded); }
  }

  lemma {:induction false} Regroup(o: string, a: string, b: string, c: string)
    ensures o + a + b + c == o + (a + b + c)
  {
  }
}
