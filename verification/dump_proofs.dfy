// The serializer round trip: a grid printed by `draw_grid` and fed to a fresh terminal of the
// same size comes back, and `dump_cursor` puts the cursor, its pen and a pending wrap back.
module DumpProofs {
  import opened Utf8
  import opened Cells
  import opened VtParser
  import opened VtParserProofs
  import opened Reflow
  import opened Screens
  import opened Drawing
  import opened Dump
  import Sgr

  // ---- feeding text ---------------------------------------------------------

  predicate AllDrawing(acts: seq<Action>) {
    forall a <- acts :: IsDrawing(a)
  }

  ghost predicate DrawsFrom(w: Widths, d: Draw, text: string, e: Draw, p: Fields)
    requires DrawOk(d)
  {
    var (q, acts) := ParseText(p, text);
    Idle(q) && AllDrawing(acts) && PerformAll(w, d, acts) == e
  }

  /** Whatever an idle parser went through before, the bytes of `text` take `d` to `e`. */
  ghost predicate Draws(w: Widths, d: Draw, text: string, e: Draw)
    requires DrawOk(d)
  {
    forall p | Idle(p) :: DrawsFrom(w, d, text, e, p)
  }

  lemma {:induction false} PerformAppend(w: Widths, d: Draw, s: seq<Action>, t: seq<Action>)
    requires DrawOk(d) && AllDrawing(s) && AllDrawing(t)
    ensures AllDrawing(s + t)
    ensures PerformAll(w, d, s + t) == PerformAll(w, PerformAll(w, d, s), t)
    decreases |s|
  {
    hide Perform;
    if s == [] {
      assert s + t == t;
    } else {
      assert (s + t)[1..] == s[1..] + t;
      PerformAppend(w, Perform(w, d, s[0]), s[1..], t);
    }
  }

  lemma {:induction false} Then(w: Widths, d: Draw, s: string, e: Draw, t: string, f: Draw)
    requires DrawOk(d) && DrawOk(e) && Draws(w, d, s, e) && Draws(w, e, t, f)
    ensures Draws(w, d, s + t, f)
  {
    hide PerformAll, IsDrawing, ParseText, Idle, DrawOk;
    forall p | Idle(p)
      ensures DrawsFrom(w, d, s + t, f, p)
    {
      assert DrawsFrom(w, d, s, e, p);
      var (q, acts) := ParseText(p, s);
      assert DrawsFrom(w, e, t, f, q);
      TextAppend(p, s, t);
      PerformAppend(w, d, acts, ParseText(q, t).1);
    }
  }

  lemma {:induction false} Nothing(w: Widths, d: Draw)
    requires DrawOk(d)
    ensures Draws(w, d, "", d)
  {
    forall p | Idle(p)
      ensures DrawsFrom(w, d, "", d, p)
    {
      assert EncodeAll("") == [];
    }
  }

  lemma {:induction false} PerformOne(w: Widths, d: Draw, a: Action)
    requires DrawOk(d) && IsDrawing(a)
    ensures PerformAll(w, d, [a]) == Perform(w, d, a)
  {
    hide Perform;
    assert [a][1..] == [];
  }

  lemma {:induction false} DrawsChar(w: Widths, d: Draw, c: char)
    requires DrawOk(d) && 0x20 <= c as int != 0x7F
    ensures Draws(w, d, [c], Drawing.Print(w, d, c))
  {
    hide Drawing.Print, PerformAll, ParseText;
    PerformOne(w, d, Action.Print(c));
    forall p | Idle(p)
      ensures DrawsFrom(w, d, [c], Drawing.Print(w, d, c), p)
    {
      PrintsChar(p, c);
    }
  }

  lemma {:induction false} DrawsControl(w: Widths, d: Draw, c: char)
    requires DrawOk(d) && (c == '\r' || c == '\n')
    ensures Draws(w, d, [c], Control(d, c as int))
  {
    hide Control, PerformAll, ParseText;
    PerformOne(w, d, Execute(c as int));
    forall p | Idle(p)
      ensures DrawsFrom(w, d, [c], Control(d, c as int), p)
    {
      TextAscii(p, c);
    }
  }

  function Pen(d: Draw, s: Style): Draw {
    d.(cur := d.cur.(style := s))
  }

  lemma {:induction false} DrawsStyle(w: Widths, d: Draw, s: Style)
    requires DrawOk(d)
    ensures Draws(w, d, StyleText(s), Pen(d, s.(guarded := d.cur.style.guarded)))
  {
    hide PerformAll, ParseText, Sgr.Apply, Sgr.ParamList, Sgr.SgrParams;
    PerformOne(w, d, Csi(Sgr.ParamList(s), [], 0, 'm' as int));
    forall p | Idle(p)
      ensures DrawsFrom(w, d, StyleText(s), Pen(d, s.(guarded := d.cur.style.guarded)), p)
    {
      Sgr.StyleRoundTrip(p, s, d.cur.style);
    }
  }

  lemma {:induction false} GuardRendered(on: bool)
    ensures GuardText(on) == RenderCsi([[if on then 1 else 0]], "\"", 'q')
    ensures EncodeAll("\"") == [0x22]
  {
    assert EncodeAll("\"") == Encode('"') + EncodeAll("");
  }

  lemma {:induction false} DrawsGuard(w: Widths, d: Draw, on: bool)
    requires DrawOk(d)
    ensures Draws(w, d, GuardText(on), Pen(d, d.cur.style.(guarded := on)))
  {
    GuardRendered(on);
    hide PerformAll, ParseText, GuardText, RenderCsi, EncodeAll;
    var params: seq<Parts> := [[if on then 1 else 0]];
    PerformOne(w, d, Csi(params, [0x22], 0, 'q' as int));
    forall p | Idle(p)
      ensures DrawsFrom(w, d, GuardText(on), Pen(d, d.cur.style.(guarded := on)), p)
    {
      ParsesCsi(p, params, "\"", 'q');
    }
  }

  lemma {:induction false} CupRendered(row: nat, col: nat)
    ensures CupText(row, col) == RenderCsi([[row + 1], [col + 1]], "", 'H')
    ensures EncodeAll("") == []
  {
    hide Dec;
    var ps: seq<Parts> := [[row + 1], [col + 1]];
    assert ps[..1] == [[row + 1]];
    assert RenderParams(ps) == Dec(row + 1) + ";" + Dec(col + 1);
    Shape([ESC] + "[", Dec(row + 1), Dec(col + 1));
  }

  lemma {:induction false} Shape(intro: string, a: string, b: string)
    ensures intro + a + ";" + b + "H" == intro + (a + ";" + b) + "" + "H"
  {
  }

  lemma {:induction false} DrawsCup(w: Widths, d: Draw, row: nat, col: nat)
    requires DrawOk(d) && row < 0xFFFF && col < 0xFFFF
    ensures Draws(w, d, CupText(row, col), MoveTo(d, row, col))
  {
    CupRendered(row, col);
    hide PerformAll, ParseText, CupText, RenderCsi, EncodeAll, MoveTo;
    var params: seq<Parts> := [[row + 1], [col + 1]];
    PerformOne(w, d, Csi(params, [], 0, 'H' as int));
    forall p | Idle(p)
      ensures DrawsFrom(w, d, CupText(row, col), MoveTo(d, row, col), p)
    {
      ParsesCsi(p, params, "", 'H');
    }
  }

  lemma {:induction false} DrawsHome(w: Widths, d: Draw)
    requires DrawOk(d)
    ensures Draws(w, d, [ESC] + "[H", MoveTo(d, 0, 0))
  {
    assert RenderCsi([], "", 'H') == [ESC] + "[H";
    assert EncodeAll("") == [];
    hide PerformAll, ParseText, RenderCsi, EncodeAll, MoveTo;
    PerformOne(w, d, Csi([], [], 0, 'H' as int));
    forall p | Idle(p)
      ensures DrawsFrom(w, d, [ESC] + "[H", MoveTo(d, 0, 0), p)
    {
      ParsesCsi(p, [], "", 'H');
    }
  }

  /** The transition text really turns the target's pen into the wanted one. */
  lemma {:induction false} DrawsPen(w: Widths, d: Draw, want: Style)
    requires DrawOk(d)
    ensures Draws(w, d, PenText(d.cur.style, want), Pen(d, want))
  {
    hide *;
    var pen := d.cur.style;
    var on := want.guarded;
    var mid := Pen(d, pen.(guarded := on));
    Pens(d, pen.(guarded := on), want);
    Pens(d, pen, want);
    if on != pen.guarded { DrawsGuard(w, d, on); } else { Nothing(w, d); }
    if want != mid.cur.style { DrawsStyle(w, mid, want); } else { Nothing(w, mid); }
    Then(w, d, if on != pen.guarded then GuardText(on) else "", mid,
         if want != pen.(guarded := on) then StyleText(want) else "", Pen(d, want));
    PenTextIs(pen, want);
  }

  lemma {:induction false} Pens(d: Draw, s: Style, t: Style)
    requires DrawOk(d)
    ensures DrawOk(Pen(d, s)) && Pen(d, s).cur.style == s && Pen(Pen(d, s), t) == Pen(d, t)
    ensures Pen(d, d.cur.style) == d
  {
  }

  lemma {:induction false} PenTextIs(pen: Style, want: Style)
    ensures PenText(pen, want) == (if want.guarded != pen.guarded then GuardText(want.guarded) else "")
                                  + (if want != pen.(guarded := want.guarded) then StyleText(want) else "")
  {
  }

  // ---- the target while a grid is being drawn -------------------------------

  /** Where drawing happens: autowrap on, no insert mode, ASCII, no hyperlink, and the bottom
      margin on the last row. `h` is the grid to be reached. */
  ghost predicate Canvas(b: Draw, h: seq<Row>) {
    && DrawOk(b) && |h| == b.scr.rows && RowsFit(h, b.scr.cols) && b.scr.cols >= 2
    && b.modes.autowrap && !b.modes.insert && b.bot == b.scr.rows - 1
    && b.cur.link == 0 && b.cur.g0 == Ascii && b.cur.shift == 0
  }

  function PartRow(cells: seq<Cell>, k: nat): (r: Row)
    requires k <= |cells|
    ensures |r.cells| == |cells|
  {
    Row(cells[..k] + Blanks(|cells| - k, PLAIN), false, None)
  }

  /** Rows before `r` are done, row `r` up to column `k`, the rest is blank. */
  function Part(h: seq<Row>, r: nat, k: nat, cols: nat): (g: seq<Row>)
    requires r < |h| && k <= |h[r].cells|
    ensures |g| == |h|
  {
    h[..r] + [PartRow(h[r].cells, k)] + BlankRows(|h| - r - 1, cols, PLAIN)
  }

  /** `b` with its grid drawn up to row `r`, column `k`; the cursor waits there. */
  function Stage(b: Draw, h: seq<Row>, r: nat, k: nat, pen: Style, last: Option<char>): Draw
    requires b.scr.cols >= 1 && r < |h| && k <= |h[r].cells|
  {
    b.(scr := b.scr.(grid := Part(h, r, k, b.scr.cols)),
       cur := b.cur.(row := r, col := if k == b.scr.cols then k - 1 else k,
         pendingWrap := k == b.scr.cols, style := pen),
       last := last)
  }

  ghost predicate At(d: Draw, b: Draw, h: seq<Row>, r: nat, k: nat, pen: Style)
    requires Canvas(b, h) && r < |h| && k <= b.scr.cols
  {
    d == Stage(b, h, r, k, pen, d.last)
  }

  lemma {:induction false} StageOk(b: Draw, h: seq<Row>, r: nat, k: nat, pen: Style, last: Option<char>)
    requires Canvas(b, h) && r < |h| && k <= b.scr.cols
    ensures DrawOk(Stage(b, h, r, k, pen, last))
  {
  }

  /** The next glyph goes to row `r`, column `k`: a pending wrap may still stand before it. */
  ghost predicate Ready(d: Draw, b: Draw, h: seq<Row>, r: nat, k: nat, pen: Style)
    requires Canvas(b, h) && r < |h| && k <= b.scr.cols
  {
    && DrawOk(d) && d.cur.style == pen && (d.cur.pendingWrap ==> d.cur.row < d.bot && d.modes.autowrap)
    && At(ResolveWrap(d), b, h, r, k, pen)
  }

  // ---- one glyph ------------------------------------------------------------

  function Bare(c: Cell): Cell {
    c.(extra := "")
  }

  /** `h` with the cell at row `r`, column `k` replaced. */
  function With(h: seq<Row>, r: nat, k: nat, c: Cell): (g: seq<Row>)
    requires r < |h| && k < |h[r].cells|
    ensures |g| == |h|
  {
    h[r := h[r].(cells := h[r].cells[k := c])]
  }

  /** A cell a terminal can hold: its width is its character's, its extras are combining. */
  ghost predicate CellOk(w: Widths, c: Cell) {
    && c.width <= 2 && c.link == 0
    && (c.width > 0 ==> w.Of(c.ch) == c.width && forall e <- c.extra :: Combining(w, e))
  }

  /** What a zero-width character printed into a cell can be; DEL gets there by OSC 66 only. */
  predicate Combining(w: Widths, e: char) {
    w.Of(e) == 0 && (e == DEL || e as int >= 0xA0)
  }

  // ---- what gets through the parser -----------------------------------------

  const DEL: char := '\U{7F}'

  /** The parser drops DEL. */
  function Sent(t: string): (s: string)
    ensures forall x | x in s :: x in t && x != DEL
  {
    if t == "" then "" else (if t[0] == DEL then "" else [t[0]]) + Sent(t[1..])
  }

  function Resent(c: Cell): Cell {
    c.(extra := Sent(c.extra))
  }

  function ResentCells(cells: seq<Cell>): (r: seq<Cell>)
    ensures |r| == |cells| && forall i | 0 <= i < |cells| :: r[i] == Resent(cells[i])
  {
    seq(|cells|, i requires 0 <= i < |cells| => Resent(cells[i]))
  }

  function ResentRow(row: Row): (r: Row)
    ensures |r.cells| == |row.cells|
  {
    row.(cells := ResentCells(row.cells))
  }

  function ResentRows(rows: seq<Row>): (r: seq<Row>)
    ensures |r| == |rows| && forall i | 0 <= i < |rows| :: r[i] == ResentRow(rows[i])
  {
    seq(|rows|, i requires 0 <= i < |rows| => ResentRow(rows[i]))
  }

  lemma {:induction false} SentAll(t: string)
    ensures Sent(t) == t <==> DEL !in t
  {
    if t != "" {
      SentAll(t[1..]);
      if t[0] == DEL {
        SentLength(t[1..]);
      } else {
        assert t == [t[0]] + t[1..];
      }
    }
  }

  lemma {:induction false} SentLength(t: string)
    ensures |Sent(t)| <= |t|
  {
    if t != "" { SentLength(t[1..]); }
  }

  lemma {:induction false} DropsDel(p: Fields)
    requires Idle(p)
    ensures ParseText(p, [DEL]) == (p, [])
  {
    TextAscii(p, DEL);
  }

  lemma {:induction false} SentParses(p: Fields, t: string)
    requires Idle(p) && forall x | x in t :: 0x20 <= x as int
    ensures ParseText(p, t) == ParseText(p, Sent(t))
    decreases |t|
  {
    hide *;
    if t == "" {
      SentNone();
    } else {
      SentFirst(t);
      var q := ParseText(p, [t[0]]).0;
      assert t[0] in t && forall x | x in t[1..] :: x in t;
      if t[0] == DEL { DropsDel(p); } else { PrintsChar(p, t[0]); }
      SentParses(q, t[1..]);
      TextAppend(p, [t[0]], t[1..]);
      if t[0] == DEL {
        assert [] + ParseText(p, t[1..]).1 == ParseText(p, t[1..]).1;
      } else {
        TextAppend(p, [t[0]], Sent(t[1..]));
      }
    }
  }

  lemma {:induction false} SentNone()
    ensures Sent("") == ""
  {
  }

  lemma {:induction false} SentFirst(t: string)
    requires t != ""
    ensures t == [t[0]] + t[1..] && Sent(t) == if t[0] == DEL then Sent(t[1..]) else [t[0]] + Sent(t[1..])
    ensures 0x7F == DEL as int
  {
  }

  /** So what the text without DEL draws, the text draws. */
  lemma {:induction false} DrawsSent(w: Widths, d: Draw, t: string, e: Draw)
    requires DrawOk(d) && Draws(w, d, Sent(t), e) && forall x | x in t :: 0x20 <= x as int
    ensures Draws(w, d, t, e)
  {
    hide PerformAll, ParseText, Sent, DrawOk;
    forall p | Idle(p)
      ensures DrawsFrom(w, d, t, e, p)
    {
      SentParses(p, t);
      assert DrawsFrom(w, d, Sent(t), e, p);
    }
  }

  lemma {:induction false} ResentOk(w: Widths, row: Row)
    requires RowOk(w, row)
    ensures RowOk(w, ResentRow(row))
  {
    var cells, t := row.cells, ResentCells(row.cells);
    forall i | 0 <= i < |t|
      ensures !Orphan(t, i) && CellOk(w, t[i])
    {
      assert !Orphan(cells, i) && CellOk(w, cells[i]);
    }
    forall i | 0 < i < |t| && t[i].width == 0
      ensures t[i] == Spacer(t[i - 1].style, 0)
    {
      assert cells[i] == Spacer(cells[i - 1].style, 0);
    }
  }

  // ---- rows a terminal can hold ---------------------------------------------

  ghost predicate RowOk(w: Widths, row: Row) {
    && Paired(row.cells) && row.mark == None
    && (forall i | 0 <= i < |row.cells| :: CellOk(w, row.cells[i]))
    && (forall i | 0 < i < |row.cells| && row.cells[i].width == 0 :: row.cells[i] == Spacer(row.cells[i - 1].style, 0))
  }

  /** What writing a character does to a row whose cells from `k` on are blank. */
  lemma {:induction false} WritesCell(cells: seq<Cell>, k: nat, c: Cell, erase: Style)
    requires k < |cells| && 1 <= c.width <= 2 && k + c.width <= |cells| && c == cells[k] && c.extra == "" && c.link == 0
    requires c.width == 2 ==> cells[k + 1] == Spacer(c.style, 0)
    ensures Written(PartRow(cells, k).cells, k, c.ch, c.width, c.style, 0, erase) == PartRow(cells, k + c.width).cells
  {
    var t := PartRow(cells, k).cells;
    assert t[k] == Blank(PLAIN);
    assert CleanFrom(t, k, c.width, erase) == t by {
      assert CleanFrom(t, k + 1, c.width - 1, erase) == t by {
        if c.width == 2 {
          assert t[k + 1] == Blank(PLAIN);
          assert CleanFrom(t, k + 2, 0, erase) == t;
        }
      }
    }
    assert Cleaned(t, k, c.width, erase) == t;
  }

  lemma {:induction false} PartSet(h: seq<Row>, r: nat, k: nat, j: nat, cols: nat, row: Row)
    requires r < |h| && k <= j <= |h[r].cells| && row == PartRow(h[r].cells, j)
    ensures Part(h, r, k, cols)[r := row] == Part(h, r, j, cols)
    ensures Part(h, r, k, cols)[r] == PartRow(h[r].cells, k)
  {
  }

  lemma {:induction false} PutsGlyph(b: Draw, h: seq<Row>, r: nat, k: nat, last: Option<char>, c: Cell)
    requires Canvas(b, h) && r < |h| && k < b.scr.cols && c == h[r].cells[k] && c.extra == "" && c.link == 0
    requires 1 <= c.width <= 2 && k + c.width <= b.scr.cols
             && (c.width == 2 ==> h[r].cells[k + 1] == Spacer(c.style, 0))
    ensures DrawOk(Stage(b, h, r, k, c.style, last))
    ensures PutGlyph(Stage(b, h, r, k, c.style, last), c.ch, c.width) == Stage(b, h, r, k + c.width, c.style, last)
  {
    var d := Stage(b, h, r, k, c.style, last);
    StageOk(b, h, r, k, c.style, last);
    hide Written, Inserted, Repaired;
    WritesCell(h[r].cells, k, c, BlankStyle(d));
    PartSet(h, r, k, k + c.width, b.scr.cols, PartRow(h[r].cells, k + c.width));
  }

  lemma {:induction false} PrintsGlyph(w: Widths, d: Draw, b: Draw, h: seq<Row>, r: nat, k: nat, c: Cell)
    requires Canvas(b, h) && r < |h| && k < b.scr.cols && c == h[r].cells[k] && c.extra == "" && CellOk(w, c)
    requires 1 <= c.width && k + c.width <= b.scr.cols && (c.width == 2 ==> h[r].cells[k + 1] == Spacer(c.style, 0))
    requires Ready(d, b, h, r, k, c.style)
    ensures 0x20 <= c.ch as int != 0x7F
    ensures Drawing.Print(w, d, c.ch) == Stage(b, h, r, k + c.width, c.style, Some(c.ch))
  {
    ResolveLast(d, Some(c.ch));
    hide PutGlyph, Canvas, DrawOk, Drawing.WrapLine;
    var e := ResolveWrap(d.(last := Some(c.ch)));
    assert e == Stage(b, h, r, k, c.style, Some(c.ch));
    PutsGlyph(b, h, r, k, Some(c.ch), c);
    Plain(d, b, h, r, k, c.style);
  }

  lemma {:induction false} Plain(d: Draw, b: Draw, h: seq<Row>, r: nat, k: nat, pen: Style)
    requires Canvas(b, h) && r < |h| && k <= b.scr.cols && Ready(d, b, h, r, k, pen)
    ensures d.cur.g0 == Ascii && d.cur.shift == 0 && d.modes == b.modes && d.scr.cols == b.scr.cols && DrawOk(d)
  {
  }

  lemma {:induction false} ResolveLast(d: Draw, last: Option<char>)
    requires DrawOk(d)
    ensures DrawOk(d.(last := last)) && ResolveWrap(d.(last := last)) == ResolveWrap(d).(last := last)
  {
    hide ScrollUp;
  }

  lemma {:induction false} PenReady(d: Draw, b: Draw, h: seq<Row>, r: nat, k: nat, pen: Style, s: Style)
    requires Canvas(b, h) && r < |h| && k < b.scr.cols && Ready(d, b, h, r, k, pen)
    ensures Ready(Pen(d, s), b, h, r, k, s)
  {
    hide RowsFit, ScrollUp, Part;
    if d.cur.pendingWrap {
      WrapDown(d);
      WrapDown(Pen(d, s));
    }
  }

  /** Wrapping above the bottom margin marks the row and moves down; nothing scrolls. */
  lemma {:induction false} WrapDown(d: Draw)
    requires DrawOk(d) && d.cur.pendingWrap && d.modes.autowrap && d.cur.row < d.bot
    ensures ResolveWrap(d) == WrappedDown(d)
  {
  }

  function WrappedDown(d: Draw): Draw
    requires d.cur.row < |d.scr.grid|
  {
    d.(scr := d.scr.(grid := d.scr.grid[d.cur.row := d.scr.grid[d.cur.row].(wrapped := true)]),
       cur := d.cur.(row := d.cur.row + 1, col := 0, pendingWrap := false))
  }

  lemma {:induction false} SameStart(b: Draw, h: seq<Row>, g: seq<Row>, r: nat, k: nat, pen: Style, last: Option<char>)
    requires Canvas(b, h) && r < |h| && k < b.scr.cols && |g| == |h| && k < |g[r].cells|
             && g == With(h, r, k, g[r].cells[k])
    ensures Canvas(b, g) && Stage(b, g, r, k, pen, last) == Stage(b, h, r, k, pen, last)
  {
    assert PartRow(g[r].cells, k) == PartRow(h[r].cells, k);
  }

  /** One combining character joins the glyph just drawn. */
  lemma {:induction false} CombinesAt(b: Draw, h: seq<Row>, r: nat, k: nat, c: Cell, e: char, pen: Style,
      last: Option<char>)
    requires Canvas(b, h) && r < |h| && k < b.scr.cols && c == h[r].cells[k]
    requires 1 <= c.width <= 2 && k + c.width <= b.scr.cols && (c.width == 2 ==> h[r].cells[k + 1].width == 0)
    ensures DrawOk(Stage(b, h, r, k + c.width, pen, last))
    ensures Combine(Stage(b, h, r, k + c.width, pen, last), e) ==
            Stage(b, With(h, r, k, c.(extra := c.extra + [e])), r, k + c.width, pen, last)
  {
    var k2 := k + c.width;
    StageOk(b, h, r, k2, pen, last);
    CombinesPart(h, r, k, c, e, b.scr.cols);
    hide Part, PartRow, BlankRows, Canvas, Combine, DrawOk, With;
    var d := Stage(b, h, r, k2, pen, last);
    assert d.scr.grid[r] == PartRow(h[r].cells, k2);
    CombinesLeft(d, e, k);
  }

  /** The character before the cursor is the one at `k`, or the wide one whose spacer is. */
  lemma {:induction false} CombinesLeft(d: Draw, e: char, k: nat)
    requires DrawOk(d) && (d.cur.pendingWrap || d.cur.col > 0) && k < d.scr.cols
    requires var cells, at := CursorRow(d).cells, if d.cur.pendingWrap then d.cur.col else d.cur.col - 1;
             (at == k && cells[k].width > 0) || (at == k + 1 && cells[at].width == 0)
    ensures var row := CursorRow(d);
            Combine(d, e) == d.(scr := d.scr.(grid := d.scr.grid[d.cur.row :=
              row.(cells := row.cells[k := row.cells[k].(extra := row.cells[k].extra + [e])])]))
  {
  }

  lemma {:induction false} CombinesPart(h: seq<Row>, r: nat, k: nat, c: Cell, e: char, cols: nat)
    requires r < |h| && k < |h[r].cells| && c == h[r].cells[k] && 1 <= c.width && k + c.width <= |h[r].cells|
    requires c.width == 2 ==> h[r].cells[k + 1].width == 0
    ensures var k2, x := k + c.width, c.(extra := c.extra + [e]);
            var row, g, h2 := PartRow(h[r].cells, k2), Part(h, r, k2, cols), With(h, r, k, x);
            && |h2[r].cells| == |h[r].cells| && g[r] == row && row.cells[k] == c
            && (c.width == 2 ==> row.cells[k + 1].width == 0)
            && row.(cells := row.cells[k := x]) == PartRow(h2[r].cells, k2)
            && g[r := PartRow(h2[r].cells, k2)] == Part(h2, r, k2, cols)
  {
    var k2, x := k + c.width, c.(extra := c.extra + [e]);
    var h2 := With(h, r, k, x);
    assert PartRow(h[r].cells, k2).cells[k := x] == PartRow(h2[r].cells, k2).cells;
    assert h2[..r] == h[..r];
  }

  /** The glyph at row `r`, column `k` with its first `j` combining characters. */
  function Dressed(b: Draw, h: seq<Row>, r: nat, k: nat, last: Option<char>, j: nat): Draw
    requires Glyphs(b, h, r, k) && j <= |h[r].cells[k].extra|
  {
    var c := h[r].cells[k];
    Stage(b, With(h, r, k, c.(extra := c.extra[..j])), r, k + c.width, c.style, last)
  }

  ghost predicate Glyphs(b: Draw, h: seq<Row>, r: nat, k: nat) {
    && Canvas(b, h) && r < |h| && k < b.scr.cols && k + h[r].cells[k].width <= b.scr.cols
    && 1 <= h[r].cells[k].width <= 2 && (h[r].cells[k].width == 2 ==> h[r].cells[k + 1].width == 0)
  }

  lemma {:induction false} DressesMore(w: Widths, b: Draw, h: seq<Row>, r: nat, k: nat, last: Option<char>, j: nat,
      e: char)
    requires Glyphs(b, h, r, k) && j < |h[r].cells[k].extra| && e == h[r].cells[k].extra[j] && Combining(w, e)
             && e != DEL
    ensures DrawOk(Dressed(b, h, r, k, last, j)) && 0x20 <= e as int != 0x7F
    ensures Drawing.Print(w, Dressed(b, h, r, k, last, j), e) == Dressed(b, h, r, k, last, j + 1)
  {
    hide *;
    DressedJoins(b, h, r, k, last, j, e);
    CombinePrints(w, Dressed(b, h, r, k, last, j), e);
  }

  lemma {:induction false} DressedJoins(b: Draw, h: seq<Row>, r: nat, k: nat, last: Option<char>, j: nat, e: char)
    requires Glyphs(b, h, r, k) && j < |h[r].cells[k].extra| && e == h[r].cells[k].extra[j]
    ensures DrawOk(Dressed(b, h, r, k, last, j))
            && Combine(Dressed(b, h, r, k, last, j), e) == Dressed(b, h, r, k, last, j + 1)
    ensures Dressed(b, h, r, k, last, j).cur.g0 == Ascii && Dressed(b, h, r, k, last, j).cur.shift == 0
  {
    hide *;
    DressedRow(b, h, r, k, j);
    var c := h[r].cells[k];
    var cj := c.(extra := c.extra[..j]);
    var g := With(h, r, k, cj);
    DressedIs(b, h, r, k, last, j);
    DressedIs(b, h, r, k, last, j + 1);
    CombinesAt(b, g, r, k, cj, e, c.style, last);
    assert c.extra[..j] + [e] == c.extra[..j + 1];
    WithTwice(h, r, k, cj, c.(extra := c.extra[..j + 1]));
    StagePlain(b, g, r, k + c.width, c.style, last);
  }

  lemma {:induction false} DressedIs(b: Draw, h: seq<Row>, r: nat, k: nat, last: Option<char>, j: nat)
    requires Glyphs(b, h, r, k) && j <= |h[r].cells[k].extra|
    ensures var c := h[r].cells[k];
            var g := With(h, r, k, c.(extra := c.extra[..j]));
            && b.scr.cols >= 1 && k + c.width <= |g[r].cells|
            && Dressed(b, h, r, k, last, j) == Stage(b, g, r, k + c.width, c.style, last)
  {
  }

  lemma {:induction false} DressedRow(b: Draw, h: seq<Row>, r: nat, k: nat, j: nat)
    requires Glyphs(b, h, r, k) && j <= |h[r].cells[k].extra|
    ensures var c := h[r].cells[k];
            var g := With(h, r, k, c.(extra := c.extra[..j]));
            && Canvas(b, h) && Canvas(b, g) && r < |h| == |g| && k < |h[r].cells| == |g[r].cells| == b.scr.cols
            && 1 <= c.width <= 2 && k + c.width <= b.scr.cols
            && g[r].cells[k] == c.(extra := c.extra[..j]) && (c.width == 2 ==> g[r].cells[k + 1].width == 0)
  {
  }

  lemma {:induction false} StagePlain(b: Draw, h: seq<Row>, r: nat, k: nat, pen: Style, last: Option<char>)
    requires Canvas(b, h) && r < |h| && k <= b.scr.cols && b.scr.cols >= 1 && |h[r].cells| == b.scr.cols
    ensures var d := Stage(b, h, r, k, pen, last); d.cur.g0 == Ascii && d.cur.shift == 0
  {
  }

  lemma {:induction false} Undressed(b: Draw, h: seq<Row>, r: nat, k: nat, last: Option<char>)
    requires Glyphs(b, h, r, k)
    ensures var c := h[r].cells[k];
            var e := Stage(b, h, r, k + c.width, c.style, last);
            DrawOk(e) && Dressed(b, h, r, k, last, |c.extra|) == e
  {
    var c := h[r].cells[k];
    StageOk(b, h, r, k + c.width, c.style, last);
    assert c.(extra := c.extra[..|c.extra|]) == c;
    assert h[r].cells[k := c] == h[r].cells;
    assert With(h, r, k, c) == h;
  }

  lemma {:induction false} DrawsExtra(w: Widths, b: Draw, h: seq<Row>, r: nat, k: nat, c: Cell, last: Option<char>,
      j: nat)
    requires r < |h| && k < |h[r].cells| && c == h[r].cells[k] && b.scr.cols >= 1 && k + c.width <= |h[r].cells|
    requires Glyphs(b, h, r, k) && j <= |c.extra| && forall e <- c.extra :: Combining(w, e) && e != DEL
    ensures var e := Stage(b, h, r, k + c.width, c.style, last);
            DrawOk(Dressed(b, h, r, k, last, j)) && DrawOk(e)
            && Draws(w, Dressed(b, h, r, k, last, j), c.extra[j..], e)
    decreases |c.extra| - j
  {
    hide *;
    var d, e := Dressed(b, h, r, k, last, j), Stage(b, h, r, k + c.width, c.style, last);
    Undressed(b, h, r, k, last);
    if j == |c.extra| {
      assert c.extra[j..] == "";
      Nothing(w, d);
    } else {
      DressesMore(w, b, h, r, k, last, j, h[r].cells[k].extra[j]);
      DrawsExtra(w, b, h, r, k, c, last, j + 1);
      DrawsChar(w, d, c.extra[j]);
      Then(w, d, [c.extra[j]], Dressed(b, h, r, k, last, j + 1), c.extra[j + 1..], e);
      assert c.extra[j..] == [c.extra[j]] + c.extra[j + 1..];
    }
  }

  lemma {:induction false} WithTwice(h: seq<Row>, r: nat, k: nat, c: Cell, e: Cell)
    requires r < |h| && k < |h[r].cells|
    ensures With(With(h, r, k, c), r, k, e) == With(h, r, k, e)
  {
    assert h[r].cells[k := c][k := e] == h[r].cells[k := e];
  }

  lemma {:induction false} CombinePrints(w: Widths, d: Draw, e: char)
    requires DrawOk(d) && d.cur.g0 == Ascii && d.cur.shift == 0 && Combining(w, e) && e != DEL
    ensures Drawing.Print(w, d, e) == Combine(d, e)
    ensures 0x20 <= e as int != 0x7F
  {
  }

  // ---- a row ----------------------------------------------------------------

  /** The cell's character, before its combining characters. */
  lemma {:induction false} DrawsBare(w: Widths, d: Draw, b: Draw, h: seq<Row>, r: nat, k: nat)
    requires Glyphs(b, h, r, k) && RowOk(w, h[r]) && Ready(d, b, h, r, k, h[r].cells[k].style)
    ensures var c := h[r].cells[k]; 0x20 <= c.ch as int != 0x7F
                                    && Drawing.Print(w, d, c.ch) == Dressed(b, h, r, k, Some(c.ch), 0)
    ensures h[r].cells[k].extra[0..] == h[r].cells[k].extra
  {
    var c := h[r].cells[k];
    HeadFits(w, h[r], k);
    var g := With(h, r, k, Bare(c));
    assert c.(extra := c.extra[..0]) == Bare(c);
    SameStart(b, h, g, r, k, c.style, ResolveWrap(d).last);
    DressedRow(b, h, r, k, 0);
    DressedIs(b, h, r, k, Some(c.ch), 0);
    hide Canvas, Stage, Dressed, With, Drawing.Print, RowOk, Paired;
    PrintsGlyph(w, d, b, g, r, k, Bare(c));
  }

  /** Pen transition, character and combining characters of one cell `s`: what is sent of it appears. */
  lemma {:induction false} DrawsCell(w: Widths, d: Draw, b: Draw, h: seq<Row>, r: nat, k: nat, s: Cell)
    requires r < |h| && k < |h[r].cells| && Resent(s) == h[r].cells[k] && b.scr.cols >= 1 && k + s.width <= |h[r].cells|
    requires s.width > 0 && CellOk(w, s) && Glyphs(b, h, r, k) && RowOk(w, h[r]) && k < b.scr.cols
    requires Canvas(b, h) && Ready(d, b, h, r, k, d.cur.style)
    ensures var e := Stage(b, h, r, k + s.width, s.style, Some(s.ch));
            DrawOk(d) && DrawOk(e) && Draws(w, d, PenText(d.cur.style, s.style) + GlyphText(s), e)
  {
    hide *;
    var c := h[r].cells[k];
    SentCell(w, s, c, PenText(d.cur.style, s.style));
    PenReady(d, b, h, r, k, d.cur.style, c.style);
    var d1 := Pen(d, c.style);
    ReadyOk(d, b, h, r, k, d.cur.style);
    ReadyOk(d1, b, h, r, k, c.style);
    DrawsBare(w, d1, b, h, r, k);
    DrawsPen(w, d, c.style);
    DrawsChar(w, d1, c.ch);
    DrawsExtra(w, b, h, r, k, c, Some(c.ch), 0);
    var e0, e := Dressed(b, h, r, k, Some(c.ch), 0), Stage(b, h, r, k + c.width, c.style, Some(c.ch));
    DrawsSent(w, e0, s.extra, e);
    Then(w, d, PenText(d.cur.style, c.style), d1, [c.ch], e0);
    Then(w, d, PenText(d.cur.style, c.style) + [c.ch], e0, s.extra, e);
  }

  lemma {:induction false} SentCell(w: Widths, s: Cell, c: Cell, t: string)
    requires CellOk(w, s) && s.width > 0 && c == Resent(s)
    ensures c.ch == s.ch && c.style == s.style && c.width == s.width && c.extra == Sent(s.extra)
    ensures t + GlyphText(s) == t + [s.ch] + s.extra
    ensures (forall e <- c.extra :: Combining(w, e) && e != DEL) && forall x | x in s.extra :: 0x20 <= x as int
  {
  }

  lemma {:induction false} ReadyOk(d: Draw, b: Draw, h: seq<Row>, r: nat, k: nat, pen: Style)
    requires Canvas(b, h) && r < |h| && k <= b.scr.cols && Ready(d, b, h, r, k, pen)
    ensures DrawOk(d)
  {
  }

  lemma {:induction false} HeadFits(w: Widths, row: Row, k: nat)
    requires RowOk(w, row) && k < |row.cells| && row.cells[k].width > 0
    ensures var c := row.cells[k];
            && 1 <= c.width <= 2 && k + c.width <= |row.cells|
            && (c.width == 2 ==> row.cells[k + 1] == Spacer(c.style, 0))
            && (k + c.width < |row.cells| ==> row.cells[k + c.width].width > 0)
  {
    assert !Orphan(row.cells, k);
    if k + 1 < |row.cells| { assert !Orphan(row.cells, k + 1); }
    if k + 2 < |row.cells| { assert !Orphan(row.cells, k + 2); }
  }

  /** The column after the last cell drawn when cells `k..end` are printed. */
  function Reached(cells: seq<Cell>, k: nat, end: nat): (n: nat)
    requires k <= |cells|
    ensures n >= k
    decreases end - k
  {
    if k >= end || k == |cells| || cells[k].width == 0 || k + cells[k].width > |cells| then k
    else Reached(cells, k + cells[k].width, end)
  }

  lemma {:induction false} ReachedBounds(w: Widths, row: Row, k: nat, end: nat)
    requires RowOk(w, row) && k <= |row.cells| && end <= |row.cells| && (k < |row.cells| ==> row.cells[k].width > 0)
    ensures var n := Reached(row.cells, k, end);
            Max(k, end) <= n <= |row.cells| && (n < |row.cells| ==> row.cells[n].width > 0)
    decreases end - k
  {
    if k < end {
      HeadFits(w, row, k);
      ReachedBounds(w, row, k + row.cells[k].width, end);
    }
  }

  function Between(cells: seq<Cell>, k: nat, end: nat): seq<Cell>
    requires end <= |cells|
  {
    if k < end then cells[k..end] else []
  }

  /** The text of cells `k..end` splits after the first one; a spacer adds nothing. */
  lemma {:induction false} SplitsText(w: Widths, row: Row, k: nat, end: nat, pen: Style)
    requires RowOk(w, row) && k < end <= |row.cells| && row.cells[k].width > 0
    ensures var c := row.cells[k];
            var (t, p) := CellsText(Between(row.cells, k, end), pen);
            var (rest, q) := CellsText(Between(row.cells, k + c.width, end), c.style);
            t == PenText(pen, c.style) + GlyphText(c) + rest && p == q
  {
    hide PenText, GlyphText;
    HeadFits(w, row, k);
    var cells, c := row.cells, row.cells[k];
    assert cells[k..end][1..] == cells[k + 1..end];
    if c.width == 2 && k + 1 < end {
      assert cells[k + 1..end][0].width == 0;
      assert cells[k + 1..end][1..] == Between(cells, k + 2, end);
    } else {
      assert cells[k + 1..end] == Between(cells, k + c.width, end);
    }
  }

  lemma {:induction false} StageReady(b: Draw, h: seq<Row>, r: nat, k: nat, pen: Style, last: Option<char>)
    requires Canvas(b, h) && r < |h| && k < b.scr.cols
    ensures Ready(Stage(b, h, r, k, pen, last), b, h, r, k, pen)
  {
    StageOk(b, h, r, k, pen, last);
  }

  lemma {:induction false} StageAt(b: Draw, h: seq<Row>, r: nat, k: nat, pen: Style, last: Option<char>)
    requires Canvas(b, h) && r < |h| && k <= b.scr.cols
    ensures At(Stage(b, h, r, k, pen, last), b, h, r, k, pen)
    ensures Stage(b, h, r, k, pen, last).cur.style == pen
  {
  }

  lemma {:induction false} GlyphsAt(w: Widths, b: Draw, h: seq<Row>, r: nat, k: nat)
    requires Canvas(b, h) && r < |h| && k < b.scr.cols && RowOk(w, h[r])
    ensures |h[r].cells| == b.scr.cols && (h[r].cells[k].width > 0 ==> Glyphs(b, h, r, k))
  {
    if h[r].cells[k].width > 0 { HeadFits(w, h[r], k); }
  }

  /** Reaching column `end` takes the same cells after the first one as before it. */
  lemma {:induction false} ReachedNext(cells: seq<Cell>, k: nat, end: nat)
    requires k < end <= |cells| && 0 < cells[k].width && k + cells[k].width <= |cells|
    ensures Reached(cells, k, end) == Reached(cells, k + cells[k].width, end)
    ensures k + cells[k].width >= end ==> Reached(cells, k, end) == k + cells[k].width
  {
  }

  /** Cells `k..end` of a row appear in their places. */
  lemma {:induction false} DrawsCells(w: Widths, d: Draw, b: Draw, h: seq<Row>, r: nat, row: Row, k: nat, end: nat)
      returns (e: Draw)
    requires r < |h| && k <= |row.cells| && end <= |row.cells| && |row.cells| == b.scr.cols && DrawOk(d)
    requires Canvas(b, h) && RowOk(w, row) && RowOk(w, h[r]) && h[r].cells == ResentCells(row.cells)
    requires k < end ==> row.cells[k].width > 0 && Ready(d, b, h, r, k, d.cur.style)
    ensures DrawOk(e) && Draws(w, d, CellsText(Between(row.cells, k, end), d.cur.style).0, e)
    ensures e.cur.style == CellsText(Between(row.cells, k, end), d.cur.style).1
    ensures k >= end ==> e == d
    ensures k < end ==>
              Reached(row.cells, k, end) <= b.scr.cols && At(e, b, h, r, Reached(row.cells, k, end), e.cur.style)
    decreases end - k
  {
    hide *;
    var cells, pen := row.cells, d.cur.style;
    e := d;
    if k >= end {
      EmptyText(cells, k, end, pen);
      Nothing(w, d);
    } else {
      var c := cells[k];
      HeadFits(w, row, k);
      SentAt(w, row, h[r], k);
      GlyphsAt(w, b, h, r, k);
      SplitsText(w, row, k, end, pen);
      DrawsCell(w, d, b, h, r, k, c);
      var k2 := k + c.width;
      ReachedNext(cells, k, end);
      var mid := Stage(b, h, r, k2, c.style, Some(c.ch));
      if k2 < end { StageReady(b, h, r, k2, c.style, Some(c.ch)); }
      StageAt(b, h, r, k2, c.style, Some(c.ch));
      e := DrawsCells(w, mid, b, h, r, row, k2, end);
      Then(w, d, PenText(pen, c.style) + GlyphText(c), mid, CellsText(Between(cells, k2, end), c.style).0, e);
    }
  }

  lemma {:induction false} SentAt(w: Widths, row: Row, shown: Row, k: nat)
    requires RowOk(w, row) && shown.cells == ResentCells(row.cells) && k < |row.cells|
    ensures |shown.cells| == |row.cells| && CellOk(w, row.cells[k])
    ensures shown.cells[k] == Resent(row.cells[k]) && shown.cells[k].width == row.cells[k].width
  {
  }

  lemma {:induction false} EmptyText(cells: seq<Cell>, k: nat, end: nat, pen: Style)
    requires end <= |cells| && k >= end
    ensures CellsText(Between(cells, k, end), pen) == ("", pen)
  {
  }

  // ---- a grid ---------------------------------------------------------------

  ghost predicate Start(d: Draw, b: Draw, h: seq<Row>, r: nat, row: Row)
    requires Canvas(b, h) && r < |h|
  {
    Ready(d, b, h, r, 0, d.cur.style) && (d.cur.pendingWrap ==> RowEnd(row) > 0)
  }

  lemma {:induction false} StartAt(d: Draw, b: Draw, h: seq<Row>, r: nat, row: Row)
    requires Canvas(b, h) && r < |h| && Start(d, b, h, r, row)
    ensures DrawOk(d) && (RowEnd(row) == 0 ==> At(d, b, h, r, 0, d.cur.style))
  {
  }

  lemma {:induction false} DrawsRow(w: Widths, d: Draw, b: Draw, h: seq<Row>, r: nat, row: Row) returns (e: Draw)
    requires Canvas(b, h) && r < |h| && RowOk(w, row) && RowOk(w, h[r]) && h[r].cells == ResentCells(row.cells)
    requires |row.cells| == b.scr.cols && Start(d, b, h, r, row)
    ensures DrawOk(d) && DrawOk(e)
    ensures Draws(w, d, RowText(row, d.cur.style).0, e) && e.cur.style == RowText(row, d.cur.style).1
    ensures var n := Reached(row.cells, 0, RowEnd(row)); n <= b.scr.cols && At(e, b, h, r, n, e.cur.style)
  {
    hide *;
    StartAt(d, b, h, r, row);
    var end := RowEnd(row);
    RowTextIs(row, d.cur.style);
    if end > 0 { FirstShown(w, row, d, b, h, r, row); }
    e := DrawsCells(w, d, b, h, r, row, 0, end);
  }

  lemma {:induction false} FirstShown(w: Widths, shown: Row, d: Draw, b: Draw, h: seq<Row>, r: nat, row: Row)
    requires Canvas(b, h) && r < |h| && RowOk(w, shown) && |shown.cells| > 0 && Start(d, b, h, r, row)
    ensures shown.cells[0].width > 0 && Ready(d, b, h, r, 0, d.cur.style)
  {
    assert !Orphan(shown.cells, 0);
  }

  lemma {:induction false} RowTextIs(row: Row, pen: Style)
    ensures RowText(row, pen) == CellsText(Between(row.cells, 0, RowEnd(row)), pen)
    ensures RowEnd(row) == 0 ==> Reached(row.cells, 0, RowEnd(row)) == 0
  {
    assert row.cells[0..RowEnd(row)] == row.cells[..RowEnd(row)];
    if RowEnd(row) == 0 { assert row.cells[..0] == []; }
  }

  /** Cells that are not printed are the blanks of a fresh screen. */
  lemma {:induction false} RestBlank(w: Widths, row: Row, n: nat)
    requires RowOk(w, row) && n <= |row.cells| && (n < |row.cells| ==> row.cells[n].width > 0)
    requires forall i | n <= i < |row.cells| :: Skippable(row.cells[i])
    ensures PartRow(row.cells, n) == Row(row.cells, false, None)
  {
    forall i | n <= i < |row.cells|
      ensures row.cells[i] == Blank(PLAIN)
    {
      var c := row.cells[i];
      assert Skippable(c) && CellOk(w, c) && !Orphan(row.cells, i);
    }
  }

  /** A drawn row is complete: as wide as it was printed, blank after that. */
  lemma {:induction false} RowComplete(w: Widths, row: Row)
    requires RowOk(w, row) && |row.cells| > 0
    ensures var n, cells := Reached(row.cells, 0, RowEnd(row)), ResentCells(row.cells);
            n <= |row.cells| && PartRow(cells, n) == Row(cells, false, None) && (row.wrapped ==> n == |row.cells|)
  {
    hide RowOk, PartRow, Reached;
    var n, cells := Reached(row.cells, 0, RowEnd(row)), ResentCells(row.cells);
    FirstIs(w, row);
    ReachedBounds(w, row, 0, RowEnd(row));
    if row.wrapped { assert n == |row.cells|; }
    ResentOk(w, row);
    RestBlank(w, ResentRow(row), n);
  }

  lemma {:induction false} FirstIs(w: Widths, row: Row)
    requires RowOk(w, row) && |row.cells| > 0
    ensures row.cells[0].width > 0
  {
    assert !Orphan(row.cells, 0);
  }

  /** A hard line end. */
  lemma {:induction false} DrawsNewline(w: Widths, d: Draw, b: Draw, h: seq<Row>, r: nat, n: nat, pen: Style)
    requires Canvas(b, h) && r + 1 < |h| && n <= b.scr.cols && At(d, b, h, r, n, pen) && DrawOk(d)
    requires PartRow(h[r].cells, n) == h[r]
    ensures var e := Stage(b, h, r + 1, 0, pen, d.last); DrawOk(e) && Draws(w, d, "\r\n", e)
  {
    var e := Stage(b, h, r + 1, 0, pen, d.last);
    var mid := Control(d, 0x0D);
    assert Control(mid, 0x0A) == e by { NextPart(h, r, n, b.scr.cols); }
    StageOk(b, h, r + 1, 0, pen, d.last);
    hide *;
    DrawsControl(w, d, '\r');
    DrawsControl(w, mid, '\n');
    Then(w, d, "\r", mid, "\n", e);
    assert "\r" + "\n" == "\r\n";
  }

  lemma {:induction false} NextPart(h: seq<Row>, r: nat, n: nat, cols: nat)
    requires r + 1 < |h| && n <= |h[r].cells| && |h[r + 1].cells| == cols && PartRow(h[r].cells, n).cells == h[r].cells
    ensures Part(h, r, n, cols)[r := h[r]] == Part(h, r + 1, 0, cols)
  {
    assert PartRow(h[r + 1].cells, 0) == BlankRow(cols, PLAIN);
  }

  /** A full soft-wrapped row: the next glyph will mark it and start the row below. */
  lemma {:induction false} WrapReady(d: Draw, b: Draw, h: seq<Row>, r: nat)
    requires Canvas(b, h) && r + 1 < |h| && At(d, b, h, r, b.scr.cols, d.cur.style) && DrawOk(d)
    requires h[r] == Row(h[r].cells, true, None)
    ensures Ready(d, b, h, r + 1, 0, d.cur.style)
  {
    WrapDown(d);
    assert PartRow(h[r].cells, b.scr.cols) == h[r].(wrapped := false);
    NextPart(h, r, b.scr.cols, b.scr.cols);
    assert ResolveWrap(d).scr.grid == Part(h, r, b.scr.cols, b.scr.cols)[r := h[r]];
  }

  /** What drawing leaves of a list of rows. A soft-wrap flag survives only if the next row prints
      something; otherwise the flag is lost and the row below with it. DELs are lost everywhere. */
  function Redrawn(rows: seq<Row>): (r: seq<Row>)
    ensures |r| <= |rows| && (rows != [] ==>
              r != [] && r[0].cells == ResentCells(rows[0].cells) && r[0].mark == rows[0].mark)
    decreases |rows|
  {
    if rows == [] then []
    else
      var first := ResentRow(rows[0]);
      if !rows[0].wrapped then [first] + Redrawn(rows[1..])
      else if |rows| == 1 then [first.(wrapped := false)]
      else if RowEnd(rows[1]) > 0 then [first] + Redrawn(rows[1..])
      else [first.(wrapped := false)] + Redrawn(rows[2..])
  }

  /** From row `r` on, `h` is what drawing `rows` leaves, then blank rows. */
  ghost predicate Aims(h: seq<Row>, r: nat, rows: seq<Row>, cols: nat) {
    var k := |Redrawn(rows)|;
    r + k <= |h| && h[r..] == Redrawn(rows) + BlankRows(|h| - r - k, cols, PLAIN)
  }

  /** The whole of `h` is on the screen. */
  ghost predicate Finished(e: Draw, b: Draw, h: seq<Row>) {
    e == b.(scr := b.scr.(grid := h),
            cur := b.cur.(row := e.cur.row, col := e.cur.col, pendingWrap := e.cur.pendingWrap, style := e.cur.style),
            last := e.last)
  }

  ghost predicate RowsOk(w: Widths, rows: seq<Row>, cols: nat) {
    forall i | 0 <= i < |rows| :: RowOk(w, rows[i]) && |rows[i].cells| == cols
  }

  lemma {:induction false} EndsHere(e: Draw, b: Draw, h: seq<Row>, r: nat, n: nat, rows: seq<Row>)
    requires Canvas(b, h) && r < |h| && n <= b.scr.cols && At(e, b, h, r, n, e.cur.style)
    requires Aims(h, r, rows, b.scr.cols) && |Redrawn(rows)| == 1 && PartRow(h[r].cells, n) == h[r]
    ensures Finished(e, b, h)
  {
    assert h[r..][1..] == h[r + 1..];
    assert h[r + 1..] == BlankRows(|h| - r - 1, b.scr.cols, PLAIN);
    assert Part(h, r, n, b.scr.cols) == h[..r] + h[r..];
  }

  lemma {:induction false} AimsNext(h: seq<Row>, r: nat, rows: seq<Row>, rest: seq<Row>, first: Row, cols: nat)
    requires Aims(h, r, rows, cols) && Redrawn(rows) == [first] + Redrawn(rest)
    ensures r < |h| && h[r] == first && (rest != [] ==> r + 1 < |h|) && Aims(h, r + 1, rest, cols)
  {
    assert h[r..][0] == first;
    assert h[r..][1..] == h[r + 1..];
    assert (Redrawn(rows) + BlankRows(|h| - r - |Redrawn(rows)|, cols, PLAIN))[1..]
        == Redrawn(rest) + BlankRows(|h| - r - |Redrawn(rows)|, cols, PLAIN);
  }

  lemma {:induction false} RowsTextSplit(rows: seq<Row>, pen: Style)
    requires rows != []
    ensures var (first, p) := RowText(rows[0], pen);
            var eol := if !rows[0].wrapped && |rows| > 1 then "\r\n" else "";
            var (rest, q) := RowsText(rows[1..], p);
            RowsText(rows, pen) == (first + eol + rest, q)
  {
    hide RowText;
  }

  /** The text of a full row followed by an empty one. */
  lemma {:induction false} LostWrapText(rows: seq<Row>, pen: Style)
    requires |rows| >= 2 && rows[0].wrapped && RowEnd(rows[1]) == 0
    ensures var (first, p) := RowText(rows[0], pen);
            var eol := if |rows| > 2 && !rows[1].wrapped then "\r\n" else "";
            var (rest, q) := RowsText(rows[2..], p);
            RowsText(rows, pen) == (first + eol + rest, q)
  {
    var (first, p) := RowText(rows[0], pen);
    RowsTextSplit(rows, pen);
    RowsTextSplit(rows[1..], p);
    assert rows[1..][1..] == rows[2..];
    assert RowText(rows[1], p) == ("", p) by { assert rows[1].cells[..0] == []; }
    hide RowText, RowsText;
    assert first + "" + ("" + (if |rows| > 2 && !rows[1].wrapped then "\r\n" else "") + RowsText(rows[2..], p).0)
        == first + (if |rows| > 2 && !rows[1].wrapped then "\r\n" else "") + RowsText(rows[2..], p).0;
  }

  /** The soft-wrap flag of the first row is lost together with an empty row below it. */
  predicate Skips(rows: seq<Row>) {
    |rows| >= 2 && rows[0].wrapped && RowEnd(rows[1]) == 0
  }

  function Following(rows: seq<Row>): seq<Row>
    requires rows != []
  {
    if Skips(rows) then rows[2..] else rows[1..]
  }

  predicate KeepsWrap(rows: seq<Row>) {
    |rows| >= 2 && rows[0].wrapped && RowEnd(rows[1]) > 0
  }

  function Eol(rows: seq<Row>): string
    requires rows != []
  {
    if KeepsWrap(rows) || Following(rows) == [] then "" else "\r\n"
  }

  lemma {:induction false} RedrawnStep(rows: seq<Row>)
    requires rows != []
    ensures Redrawn(rows) == [ResentRow(rows[0]).(wrapped := KeepsWrap(rows))] + Redrawn(Following(rows))
  {
    var first := ResentRow(rows[0]);
    if !rows[0].wrapped { assert first == first.(wrapped := false); }
    if KeepsWrap(rows) { assert first == first.(wrapped := true); }
  }

  lemma {:induction false} TextStep(w: Widths, rows: seq<Row>, pen: Style, cols: nat)
    requires rows != [] && RowsOk(w, rows, cols) && cols > 0
    ensures var (first, p) := RowText(rows[0], pen);
            var (rest, q) := RowsText(Following(rows), p);
            RowsText(rows, pen) == (first + Eol(rows) + rest, q)
  {
    hide RowText, RowsText, RowOk;
    if Skips(rows) { LostWrapText(rows, pen); } else { RowsTextSplit(rows, pen); }
  }

  lemma {:induction false} FollowingOk(w: Widths, rows: seq<Row>, h: seq<Row>, r: nat, b: Draw)
    requires rows != [] && RowsOk(w, rows, b.scr.cols) && Canvas(b, h) && r < |h| && Aims(h, r, rows, b.scr.cols)
    ensures var next := Following(rows);
            && RowsOk(w, next, b.scr.cols) && |rows[0].cells| == b.scr.cols && RowOk(w, rows[0]) && RowOk(w, h[r])
            && h[r] == Row(ResentCells(rows[0].cells), KeepsWrap(rows), None) && rows[0].mark == None
            && (if next == [] then |Redrawn(rows)| == 1 else r + 1 < |h| && Aims(h, r + 1, next, b.scr.cols))
            && (KeepsWrap(rows) ==> next != [] && RowEnd(next[0]) > 0)
  {
    hide Redrawn, Aims;
    RedrawnStep(rows);
    AimsNext(h, r, rows, Following(rows), ResentRow(rows[0]).(wrapped := KeepsWrap(rows)), b.scr.cols);
    assert RowOk(w, rows[0]);
    ResentOk(w, rows[0]);
    FlagsOk(w, ResentRow(rows[0]), KeepsWrap(rows));
    if Following(rows) == [] { assert Redrawn([]) == [] by { RedrawnNone(); } }
  }

  lemma {:induction false} FlagsOk(w: Widths, row: Row, wrapped: bool)
    ensures RowOk(w, row.(wrapped := wrapped)) == RowOk(w, row)
  {
  }

  lemma {:induction false} RedrawnNone()
    ensures Redrawn([]) == []
  {
  }

  lemma {:induction false} StartFresh(d: Draw, b: Draw, h: seq<Row>, r: nat, row: Row, pen: Style, last: Option<char>)
    requires Canvas(b, h) && r < |h| && d == Stage(b, h, r, 0, pen, last)
    ensures Start(d, b, h, r, row) && d.cur.style == pen
  {
    StageReady(b, h, r, 0, pen, last);
  }

  lemma {:induction false} StartWrapped(d: Draw, b: Draw, h: seq<Row>, r: nat, row: Row)
    requires Canvas(b, h) && r < |h| && Ready(d, b, h, r, 0, d.cur.style) && RowEnd(row) > 0
    ensures Start(d, b, h, r, row)
  {
  }

  lemma {:induction false} EolIs(rows: seq<Row>)
    requires rows != []
    ensures |Following(rows)| < |rows|
    ensures Eol(rows) == if KeepsWrap(rows) || Following(rows) == [] then "" else "\r\n"
    ensures KeepsWrap(rows) ==> rows[0].wrapped
  {
  }

  lemma {:induction false} NoMore(pen: Style, first: string)
    ensures RowsText([], pen) == ("", pen) && first + "" == first && first + "" + "" == first
  {
  }

  /** Drawing any rows leaves exactly `Redrawn` of them. */
  lemma {:induction false} DrawsRows(w: Widths, d: Draw, b: Draw, h: seq<Row>, r: nat, rows: seq<Row>) returns (e: Draw)
    requires rows != [] && r < |h| && Canvas(b, h) && RowsOk(w, rows, b.scr.cols) && b.scr.cols > 0
    requires Aims(h, r, rows, b.scr.cols) && Start(d, b, h, r, rows[0])
    ensures DrawOk(d) && DrawOk(e) && Draws(w, d, RowsText(rows, d.cur.style).0, e)
    ensures e.cur.style == RowsText(rows, d.cur.style).1 && Finished(e, b, h)
    decreases |rows|
  {
    hide *;
    var pen, first, next := d.cur.style, RowText(rows[0], d.cur.style).0, Following(rows);
    FollowingOk(w, rows, h, r, b);
    EolIs(rows);
    TextStep(w, rows, pen, b.scr.cols);
    var mid := DrawsRow(w, d, b, h, r, rows[0]);
    NoMore(mid.cur.style, first);
    RowComplete(w, rows[0]);
    var n := Reached(rows[0].cells, 0, RowEnd(rows[0]));
    if next == [] {
      EndsHere(mid, b, h, r, n, rows);
      e := mid;
    } else if KeepsWrap(rows) {
      WrapReady(mid, b, h, r);
      StartWrapped(mid, b, h, r + 1, next[0]);
      e := DrawsRows(w, mid, b, h, r + 1, next);
      Then(w, d, first, mid, RowsText(next, mid.cur.style).0, e);
    } else {
      DrawsNewline(w, mid, b, h, r, n, mid.cur.style);
      var e2 := Stage(b, h, r + 1, 0, mid.cur.style, mid.last);
      StartFresh(e2, b, h, r + 1, next[0], mid.cur.style, mid.last);
      e := DrawsRows(w, e2, b, h, r + 1, next);
      Then(w, d, first, mid, "\r\n", e2);
      Then(w, d, first + "\r\n", e2, RowsText(next, e2.cur.style).0, e);
    }
  }

  // ---- the theorems about grids ---------------------------------------------

  /** A terminal that has not been written to: blank rows, home, default modes, full region. */
  function Fresh(rows: nat, cols: nat, maxScrollback: nat, tabs: seq<bool>): Draw
    requires rows >= 1
  {
    Draw(Scr(rows, cols, BlankRows(rows, cols, PLAIN), [], maxScrollback),
      false, HOME, DEFAULT_MODES, 0, rows - 1, tabs, None)
  }

  ghost predicate IsFresh(d: Draw) {
    d.scr.rows >= 1 && d == Fresh(d.scr.rows, d.scr.cols, d.scr.maxScrollback, d.tabs) && DrawOk(d)
  }

  /** The grid that appears when `g` is drawn on a fresh terminal. */
  function Settled(g: seq<Row>, cols: nat): (h: seq<Row>)
    ensures |h| == |g|
  {
    Redrawn(g) + BlankRows(|g| - |Redrawn(g)|, cols, PLAIN)
  }

  /** Every soft-wrapped row is followed by a row that prints something. */
  ghost predicate Flows(rows: seq<Row>) {
    forall i | 0 <= i < |rows| && rows[i].wrapped :: i + 1 < |rows| && RowEnd(rows[i + 1]) > 0
  }

  /** No cell has a DEL among its combining characters. */
  ghost predicate NoDel(rows: seq<Row>) {
    forall i, k | 0 <= i < |rows| && 0 <= k < |rows[i].cells| :: DEL !in rows[i].cells[k].extra
  }

  lemma {:induction false} ResentSame(row: Row)
    ensures ResentRow(row) == row <==> NoDel([row])
  {
    forall k | 0 <= k < |row.cells|
      ensures Resent(row.cells[k]) == row.cells[k] <==> DEL !in row.cells[k].extra
    {
      SentAll(row.cells[k].extra);
    }
    if ResentRow(row) == row {
      assert forall k | 0 <= k < |row.cells| :: ResentRow(row).cells[k] == row.cells[k];
    } else {
      assert ResentCells(row.cells) != row.cells;
      var k :| 0 <= k < |row.cells| && Resent(row.cells[k]) != row.cells[k];
      assert DEL in [row][0].cells[k].extra;
    }
  }

  lemma {:induction false} RedrawnFits(w: Widths, g: seq<Row>, cols: nat)
    requires RowsOk(w, g, cols)
    ensures RowsFit(Redrawn(g), cols)
    decreases |g|
  {
    hide RowOk;
    if g != [] {
      RedrawnStep(g);
      RedrawnFits(w, Following(g), cols);
    }
  }

  /** On every grid of paired cells: home and the printed grid leave exactly `Settled` of it, and
      nothing but cursor and last character differs besides. */
  lemma {:induction false} GridSettles(w: Widths, d: Draw, g: seq<Row>) returns (e: Draw)
    requires IsFresh(d) && d.scr.cols >= 2 && |g| == d.scr.rows && RowsOk(w, g, d.scr.cols)
    ensures DrawOk(e) && Draws(w, d, [ESC] + "[H" + RowsText(g, PLAIN).0, e)
    ensures e.scr == d.scr.(grid := Settled(g, d.scr.cols)) && e.cur.style == RowsText(g, PLAIN).1
    ensures Finished(e, d, Settled(g, d.scr.cols))
  {
    var h := Settled(g, d.scr.cols);
    RedrawnFits(w, g, d.scr.cols);
    assert Canvas(d, h);
    assert PartRow(h[0].cells, 0) == BlankRow(d.scr.cols, PLAIN);
    assert Part(h, 0, 0, d.scr.cols) == d.scr.grid;
    assert MoveTo(d, 0, 0) == d == Stage(d, h, 0, 0, PLAIN, None);
    assert h[0..] == h;
    assert Aims(h, 0, g, d.scr.cols);
    assert DrawOk(d);
    hide *;
    DrawsHome(w, d);
    StartFresh(d, d, h, 0, g[0], PLAIN, None);
    e := DrawsRows(w, d, d, h, 0, g);
    Then(w, d, [ESC] + "[H", d, RowsText(g, PLAIN).0, e);
    FinishedScr(e, d, h);
  }

  lemma {:induction false} FinishedScr(e: Draw, b: Draw, h: seq<Row>)
    requires Finished(e, b, h)
    ensures e.scr == b.scr.(grid := h)
  {
  }

  /** Drawing is faithful exactly when no soft wrap is left hanging and no cell holds a DEL. */
  lemma {:induction false} SettledExact(w: Widths, g: seq<Row>, cols: nat)
    requires RowsOk(w, g, cols)
    ensures Settled(g, cols) == g <==> Flows(g) && NoDel(g)
    decreases |g|
  {
    hide *;
    if g == [] {
      SettledNone(cols);
    } else {
      FlowsStep(g);
      NoDelStep(g);
      ResentSame(g[0]);
      SettledStep(w, g, cols);
      if g[0].wrapped == KeepsWrap(g) && ResentRow(g[0]) == g[0] { SettledExact(w, g[1..], cols); }
    }
  }

  lemma {:induction false} SettledNone(cols: nat)
    ensures Settled([], cols) == [] && Flows([]) && NoDel([])
  {
  }

  lemma {:induction false} FlowsStep(g: seq<Row>)
    requires g != []
    ensures Flows(g) <==> g[0].wrapped == KeepsWrap(g) && Flows(g[1..])
  {
    assert forall i | 0 <= i < |g| - 1 :: g[1..][i] == g[i + 1];
    assert forall i | 1 <= i < |g| :: g[i] == g[1..][i - 1];
  }

  lemma {:induction false} NoDelStep(g: seq<Row>)
    requires g != []
    ensures NoDel(g) <==> NoDel([g[0]]) && NoDel(g[1..])
  {
    assert [g[0]][0] == g[0];
    assert forall i | 0 <= i < |g| - 1 :: g[1..][i] == g[i + 1];
    assert forall i | 1 <= i < |g| :: g[i] == g[1..][i - 1];
  }

  lemma {:induction false} SettledStep(w: Widths, g: seq<Row>, cols: nat)
    requires g != [] && RowsOk(w, g, cols)
    ensures RowsOk(w, g[1..], cols)
    ensures if g[0].wrapped == KeepsWrap(g) && ResentRow(g[0]) == g[0]
            then Settled(g, cols) == g <==> Settled(g[1..], cols) == g[1..]
            else Settled(g, cols) != g
  {
    hide RowOk, Redrawn;
    RedrawnStep(g);
    var first := ResentRow(g[0]);
    if g[0].wrapped == KeepsWrap(g) && first == g[0] {
      assert Following(g) == g[1..] by { WrapKept(g); }
      assert Settled(g, cols) == [g[0]] + Settled(g[1..], cols);
      assert g == [g[0]] + g[1..];
    } else {
      assert Settled(g, cols)[0] == first.(wrapped := KeepsWrap(g)) != g[0];
    }
  }

  /** Where no soft wrap is left hanging, only the DELs are missing. */
  lemma {:induction false} SettledFlows(w: Widths, g: seq<Row>, cols: nat)
    requires RowsOk(w, g, cols) && Flows(g)
    ensures Settled(g, cols) == ResentRows(g)
    decreases |g|
  {
    hide RowOk, Redrawn, Flows;
    if g == [] {
      SettledNone(cols);
    } else {
      FlowsStep(g);
      RedrawnStep(g);
      WrapKept(g);
      SettledFlows(w, g[1..], cols);
      assert ResentRow(g[0]).(wrapped := KeepsWrap(g)) == ResentRow(g[0]);
      assert Settled(g, cols) == [ResentRow(g[0])] + Settled(g[1..], cols);
      assert ResentRows(g) == [ResentRow(g[0])] + ResentRows(g[1..]);
    }
  }

  lemma {:induction false} ResentAll(g: seq<Row>)
    ensures ResentRows(g) == g <==> NoDel(g)
  {
    hide NoDel, ResentRow;
    if g == [] {
      SettledNone(0);
    } else {
      NoDelStep(g);
      ResentSame(g[0]);
      ResentAll(g[1..]);
      assert ResentRows(g) == [ResentRow(g[0])] + ResentRows(g[1..]) && g == [g[0]] + g[1..];
    }
  }

  lemma {:induction false} WrapKept(g: seq<Row>)
    requires g != [] && g[0].wrapped == KeepsWrap(g)
    ensures Following(g) == g[1..]
  {
  }

  /** The serializer round trip in full: bytes through the parser, actions on a fresh terminal. */
  lemma {:induction false} GridRoundTrip(w: Widths, d: Draw, g: seq<Row>)
    requires IsFresh(d) && d.scr.cols >= 2 && |g| == d.scr.rows && RowsOk(w, g, d.scr.cols)
    ensures var (q, acts) := ParseText(FRESH, [ESC] + "[H" + RowsText(g, PLAIN).0);
            && Idle(q) && AllDrawing(acts)
            && PerformAll(w, d, acts).scr.scrollback == d.scr.scrollback
            && (PerformAll(w, d, acts).scr.grid == g <==> Flows(g) && NoDel(g))
  {
    SettledExact(w, g, d.scr.cols);
    var e := GridSettles(w, d, g);
    assert Idle(FRESH);
    assert DrawOk(d);
    hide PerformAll, RowsText, ParseText, DrawOk, Fresh;
    assert DrawsFrom(w, d, [ESC] + "[H" + RowsText(g, PLAIN).0, e, FRESH);
  }
}
