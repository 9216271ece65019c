// What the control sequences do, cell by cell and row by row: erasing, editing, scrolling and movement,
// on the machine as the sequence arrives.
module CsiLaws {
  import opened Utf8
  import opened Cells
  import opened VtParser
  import opened Reflow
  import opened Screens
  import opened Drawing
  import opened Machines
  import Sgr

  /** Parameter `i`, where 0 and a missing one mean `default`. */
  function Number(ps: seq<seq<nat>>, i: nat, default: nat): nat {
    if i < |ps| && ps[i] != [] && ps[i][0] != 0 then ps[i][0] else default
  }

  /** A blank in the pen's background. */
  function Wiped(m: Machine): Cell {
    Cell(' ', Style(DefaultColor, m.cur.style.bg, DefaultColor,
      false, false, false, NoLine, false, false, false, false, false),
         1, "", 0)
  }

  /** The control sequence without intermediates. */
  function Csi0(w: Widths, o: World, m: Machine, ps: seq<seq<nat>>, mark: byte, final: char): Machine
    requires MachineOk(m) && final < '\U{100}'
  {
    Dispatch(w, o, m, Csi(ps, [], mark, final as int))
  }

  /** Apart from the cursor only the active screen changes, and neither its size nor its limits. */
  ghost predicate OnScreen(m: Machine, n: Machine) {
    && n == m.(primary := n.primary, alt := n.alt, cur := n.cur)
    && (if m.altActive then n.primary == m.primary else n.alt == m.alt)
    && Active(n) == Active(m).(grid := Active(n).grid, scrollback := Active(n).scrollback)
    && |Active(n).grid| == |Active(m).grid| == Active(m).rows
    && forall r | 0 <= r < Active(m).rows :: |Active(n).grid[r].cells| == |Active(m).grid[r].cells| == Active(m).cols
  }

  /** Only the cursor's place changes, and a pending wrap is forgotten. */
  ghost predicate Moved(m: Machine, n: Machine, row: nat, col: nat) {
    n == m.(cur := m.cur.(row := row, col := col, pendingWrap := false))
  }

  lemma {:induction false} SameNumber(ps: seq<seq<nat>>, i: nat, default: nat)
    ensures ParamOr(ps, i, default) == Number(ps, i, default) && Sgr.Param(ps, i) == Number(ps, i, 0)
  {
  }

  /** A sequence of the screen acts on the drawing state alone. */
  lemma {:induction false} DrawsCsi(w: Widths, o: World, m: Machine, ps: seq<seq<nat>>, mark: byte, final: char)
    requires MachineOk(m) && final < '\U{100}'
    requires mark == 0 ==> final != 's' && final != 'u'
    requires mark == '?' as int ==> final != 'h' && final != 'l'
    ensures var e := CsiDraw(w, View(m), ps, None, mark, final as int);
            Csi0(w, o, m, ps, mark, final) == Put(m, e) && View(Put(m, e)) == e
  {
    hide CsiDraw;
  }

  lemma {:induction false} PutsScreen(m: Machine, e: Draw)
    requires MachineOk(m) && DrawOk(e) && SameSize(e, View(m))
    requires e == View(m).(scr := View(m).scr.(grid := e.scr.grid, scrollback := e.scr.scrollback), cur := e.cur)
    ensures OnScreen(m, Put(m, e)) && Active(Put(m, e)) == e.scr && Put(m, e).cur == e.cur
  {
  }

  // ---- erasing ----------------------------------------------------------------

  /** At or after the cursor, at or before it, or anywhere. */
  predicate InDisplay(mode: nat, cur: Cursor, r: nat, c: nat) {
    || (mode == 0 && (r > cur.row || (r == cur.row && c >= cur.col)))
    || (mode == 1 && (r < cur.row || (r == cur.row && c <= cur.col)))
    || mode == 2
  }

  /** Rows erased as a whole. */
  predicate WholeRow(mode: nat, cur: Cursor, r: nat) {
    (mode == 0 && r > cur.row) || (mode == 1 && r < cur.row) || mode == 2
  }

  /** One row after an erase of the cells `hit`: those not spared are blank, all others stay. */
  ghost predicate RowWiped(s: Row, t: Row, hit: nat -> bool, selective: bool, blank: Cell) {
    |t.cells| == |s.cells| && forall c | 0 <= c < |s.cells| ::
      t.cells[c] == if hit(c) && !(selective && s.cells[c].style.guarded) then blank else s.cells[c]
  }

  ghost predicate DisplayWiped(m: Machine, n: Machine, mode: nat, selective: bool)
    requires MachineOk(m)
  {
    && OnScreen(m, n) && n.cur == m.cur.(pendingWrap := false)
    && Active(n).scrollback == (if mode == 3 then [] else Active(m).scrollback)
    && forall r: nat | r < Active(m).rows :: RowOfDisplay(m, Active(m).grid[r], Active(n).grid[r], mode, selective, r)
  }

  ghost predicate RowOfDisplay(m: Machine, s: Row, t: Row, mode: nat, selective: bool, r: nat) {
    && RowWiped(s, t, c => c >= 0 && InDisplay(mode, m.cur, r, c), selective, Wiped(m))
    && t.wrapped == (s.wrapped && !WholeRow(mode, m.cur, r) && !(mode == 0 && r == m.cur.row))
    && t.mark == (if WholeRow(mode, m.cur, r) && !selective then None else s.mark)
  }

  lemma {:induction false} ErasesDisplay(m: Machine, mode: nat, selective: bool)
    requires MachineOk(m)
    ensures DisplayWiped(m, Put(m, EraseDisplay(View(m), mode, selective)), mode, selective)
  {
    hide RowOfDisplay, Erased, ErasedRows;
    var d := View(m);
    var e := EraseDisplay(d, mode, selective);
    ErasesGrid(m, mode, selective);
    PutsScreen(m, e);
    forall r: nat | r < d.scr.rows
      ensures RowOfDisplay(m, d.scr.grid[r], e.scr.grid[r], mode, selective, r)
    {
      ErasesRow(m, mode, selective, r);
    }
  }

  lemma {:induction false} ErasesGrid(m: Machine, mode: nat, selective: bool)
    requires MachineOk(m)
    ensures var d := View(m);
            var e := EraseDisplay(d, mode, selective);
            && e == d.(scr := d.scr.(grid := e.scr.grid, scrollback := e.scr.scrollback),
               cur := d.cur.(pendingWrap := false))
            && e.scr.scrollback == (if mode == 3 then [] else d.scr.scrollback)
            && |e.scr.grid| == |d.scr.grid| == d.scr.rows
  {
    hide Erased, ErasedRows;
  }

  lemma {:induction false} ErasesRow(m: Machine, mode: nat, selective: bool, r: nat)
    requires MachineOk(m) && r < Active(m).rows
    ensures |EraseDisplay(View(m), mode, selective).scr.grid| == Active(m).rows == |Active(m).grid|
    ensures RowOfDisplay(m, Active(m).grid[r], EraseDisplay(View(m), mode, selective).scr.grid[r], mode, selective, r)
  {
    var d := View(m);
    ErasesGrid(m, mode, selective);
    var s, t := d.scr.grid[r], EraseDisplay(d, mode, selective).scr.grid[r];
    assert |s.cells| == d.scr.cols;
    if WholeRow(mode, m.cur, r) {
      assert t == ErasedRow(s, BlankStyle(d), selective);
    } else if r != m.cur.row {
      assert t == s;
    } else if mode == 0 {
      assert t == s.(cells := Erased(s.cells, m.cur.col, d.scr.cols, BlankStyle(d), selective), wrapped := false);
    } else if mode == 1 {
      assert t == s.(cells := Erased(s.cells, 0, m.cur.col + 1, BlankStyle(d), selective));
    } else {
      assert t == s;
    }
  }

  /** ED and DECSED blank exactly the unprotected cells at or after the cursor, at or before it, or
      everywhere; mode 3 empties the scrollback; nothing else changes. */
  lemma {:induction false} EdWipes(w: Widths, o: World, m: Machine, ps: seq<seq<nat>>, selective: bool)
    requires MachineOk(m)
    ensures DisplayWiped(m, Csi0(w, o, m, ps, if selective then '?' as int else 0, 'J'), Number(ps, 0, 0), selective)
  {
    hide DisplayWiped, EraseDisplay, Put, View, Csi0;
    DrawsCsi(w, o, m, ps, if selective then '?' as int else 0, 'J');
    SameNumber(ps, 0, 0);
    ErasesDisplay(m, Number(ps, 0, 0), selective);
  }

  /** Rows before `row` and after it are as they were. */
  ghost predicate OnlyRow(m: Machine, n: Machine, row: nat) {
    && OnScreen(m, n) && Active(n).scrollback == Active(m).scrollback
    && forall r: nat | r < Active(m).rows && r != row :: Active(n).grid[r] == Active(m).grid[r]
  }

  /** EL and DECSEL, on the cursor's row. */
  ghost predicate LineWiped(m: Machine, n: Machine, mode: nat, selective: bool)
    requires MachineOk(m)
  {
    && OnlyRow(m, n, m.cur.row) && n.cur == m.cur.(pendingWrap := false)
    && var s, t := Active(m).grid[m.cur.row], Active(n).grid[m.cur.row];
       && RowWiped(s, t, c => (mode == 0 && c >= m.cur.col) || (mode == 1 && c <= m.cur.col) || mode == 2,
                   selective, Wiped(m))
       && t.wrapped == (s.wrapped && mode != 0 && mode != 2) && t.mark == s.mark
  }

  lemma {:induction false} ElWipes(w: Widths, o: World, m: Machine, ps: seq<seq<nat>>, selective: bool)
    requires MachineOk(m)
    ensures LineWiped(m, Csi0(w, o, m, ps, if selective then '?' as int else 0, 'K'), Number(ps, 0, 0), selective)
  {
    hide LineWiped, EraseLine, Put, View, Csi0;
    DrawsCsi(w, o, m, ps, if selective then '?' as int else 0, 'K');
    SameNumber(ps, 0, 0);
    ErasesLine(m, Number(ps, 0, 0), selective);
  }

  lemma {:induction false} ErasesLine(m: Machine, mode: nat, selective: bool)
    requires MachineOk(m)
    ensures LineWiped(m, Put(m, EraseLine(View(m), mode, selective)), mode, selective)
  {
    hide Erased;
    var d := View(m);
    var e := EraseLine(d, mode, selective);
    PutsScreen(m, e);
  }

  // ---- editing within a row ------------------------------------------------------

  /** The cursor's row becomes `t`, but for halves left without the other one, which become blanks. */
  ghost predicate RowEdited(m: Machine, n: Machine, t: seq<Cell>)
    requires MachineOk(m)
  {
    && OnlyRow(m, n, m.cur.row) && n.cur == m.cur.(pendingWrap := false) && |t| == Active(m).cols
    && var r := Active(n).grid[m.cur.row];
       && r == Active(m).grid[m.cur.row].(cells := r.cells)
       && forall c | 0 <= c < |t| :: r.cells[c] == if Orphan(t, c) then Wiped(m) else t[c]
  }

  lemma {:induction false} EditsRow(m: Machine, t: seq<Cell>)
    requires MachineOk(m) && |t| == Active(m).cols
    ensures RowEdited(m, Put(m, EditRow(View(m), t)), t)
  {
    PutsScreen(m, EditRow(View(m), t));
  }

  /** The cells of the cursor's row. */
  function Here(m: Machine): seq<Cell>
    requires MachineOk(m)
  {
    Active(m).grid[m.cur.row].cells
  }

  /** ECH: blanks from the cursor on. */
  lemma {:induction false} EchBlanks(w: Widths, o: World, m: Machine, ps: seq<seq<nat>>) returns (t: seq<Cell>)
    requires MachineOk(m)
    ensures |t| == Active(m).cols && forall c | 0 <= c < |t| ::
              t[c] == if m.cur.col <= c < m.cur.col + Number(ps, 0, 1) then Wiped(m) else Here(m)[c]
    ensures RowEdited(m, Csi0(w, o, m, ps, 0, 'X'), t)
  {
    hide RowEdited, Put, EditRow, Csi0;
    DrawsCsi(w, o, m, ps, 0, 'X');
    SameNumber(ps, 0, 1);
    t := Erased(Here(m), m.cur.col, Min(m.cur.col + Number(ps, 0, 1), Active(m).cols), BlankStyle(View(m)), false);
    EditsRow(m, t);
  }

  lemma {:induction false} InsertedAt(cells: seq<Cell>, col: nat, n: nat, style: Style, c: nat)
    requires col <= |cells| && c < |cells|
    ensures Inserted(cells, col, n, style)[c] ==
            if c < col then cells[c] else if c < col + n then Blank(style) else cells[c - n]
  {
  }

  /** ICH: blanks at the cursor, what was there moves right, and past the edge is lost. */
  lemma {:induction false} IchShifts(w: Widths, o: World, m: Machine, ps: seq<seq<nat>>) returns (t: seq<Cell>)
    requires MachineOk(m)
    ensures |t| == Active(m).cols && forall c {:trigger t[c]} | 0 <= c < |t| ::
              t[c] == if c < m.cur.col then Here(m)[c] else if c < m.cur.col + Number(ps, 0, 1) then Wiped(m)
                      else Here(m)[c - Number(ps, 0, 1)]
    ensures RowEdited(m, Csi0(w, o, m, ps, 0, '@'), t)
  {
    hide RowEdited, Put, EditRow, Inserted, Csi0;
    DrawsCsi(w, o, m, ps, 0, '@');
    SameNumber(ps, 0, 1);
    t := InsertsHere(m, Number(ps, 0, 1));
    EditsRow(m, t);
  }

  lemma {:induction false} InsertsHere(m: Machine, n: nat) returns (t: seq<Cell>)
    requires MachineOk(m)
    ensures t == Inserted(Here(m), m.cur.col, Min(n, Active(m).cols), BlankStyle(View(m))) && |t| == Active(m).cols
    ensures forall c {:trigger t[c]} | 0 <= c < |t| ::
              t[c] == if c < m.cur.col then Here(m)[c] else if c < m.cur.col + n then Wiped(m) else Here(m)[c - n]
  {
    hide Inserted;
    var cells, k := Here(m), Min(n, Active(m).cols);
    t := Inserted(cells, m.cur.col, k, BlankStyle(View(m)));
    forall c {:trigger t[c]} | 0 <= c < |t|
      ensures t[c] == if c < m.cur.col then Here(m)[c] else if c < m.cur.col + n then Wiped(m) else Here(m)[c - n]
    {
      InsertedAt(cells, m.cur.col, k, BlankStyle(View(m)), c);
    }
  }

  /** DCH: what follows moves left to the cursor, and blanks come in at the edge. */
  lemma {:induction false} DchShifts(w: Widths, o: World, m: Machine, ps: seq<seq<nat>>) returns (t: seq<Cell>)
    requires MachineOk(m)
    ensures |t| == Active(m).cols && forall c {:trigger t[c]} | 0 <= c < |t| ::
              t[c] == if c < m.cur.col then Here(m)[c]
                      else if c + Number(ps, 0, 1) < |t| then Here(m)[c + Number(ps, 0, 1)]
                      else Wiped(m)
    ensures RowEdited(m, Csi0(w, o, m, ps, 0, 'P'), t)
  {
    hide RowEdited, Put, EditRow, Csi0;
    DrawsCsi(w, o, m, ps, 0, 'P');
    SameNumber(ps, 0, 1);
    t := Deleted(Here(m), m.cur.col, Min(Number(ps, 0, 1), Active(m).cols), BlankStyle(View(m)));
    EditsRow(m, t);
  }

  // ---- whole rows ------------------------------------------------------------------

  /** A row of blanks, not wrapped and without a mark. */
  ghost predicate WipedRow(m: Machine, r: Row) {
    && |r.cells| == Active(m).cols && !r.wrapped && r.mark == None
    && forall c | 0 <= c < |r.cells| :: r.cells[c] == Wiped(m)
  }

  /** Rows `top..bot` have moved down by `k`, or up by `-k`; blank ones come in, and other rows stay. */
  ghost predicate RowsMoved(m: Machine, n: Machine, top: nat, bot: nat, k: int)
    requires MachineOk(m) && bot < Active(m).rows
  {
    OnScreen(m, n) && forall r: nat {:trigger Active(n).grid[r]} | r < Active(m).rows ::
      if !(top <= r <= bot) then Active(n).grid[r] == Active(m).grid[r]
      else if top <= r - k <= bot then Active(n).grid[r] == Active(m).grid[r - k]
      else WipedRow(m, Active(n).grid[r])
  }

  /** The lost rows go to the scrollback, oldest first, if `save`; past its limit the oldest are lost. */
  ghost predicate RowsSaved(m: Machine, n: Machine, top: nat, count: nat, save: bool)
    requires MachineOk(m) && top + count <= Active(m).rows
  {
    var s := Active(m);
    if save then
      var all := s.scrollback + s.grid[top..top + count];
      Active(n).scrollback == all[if |all| > s.maxScrollback then |all| - s.maxScrollback else 0..]
    else Active(n).scrollback == s.scrollback
  }

  lemma {:induction false} ScrollsDown(m: Machine, top: nat, bot: nat, n: nat, e: Draw)
    requires MachineOk(m) && 1 <= n && top <= bot < Active(m).rows && DrawOk(e) && SameSize(e, View(m))
    requires e == View(m).(scr := ScrollDown(View(m).scr, top, bot, n, BlankStyle(View(m))), cur := e.cur)
    ensures RowsMoved(m, Put(m, e), top, bot, n) && Active(Put(m, e)).scrollback == Active(m).scrollback
    ensures Put(m, e).cur == e.cur
  {
    hide OnScreen, Put, MovedDown, WipedRow, BlankRow, RowsMoved;
    PutsScreen(m, e);
    var g, k, blank := Active(m).grid, ScrollBy(n, bot - top + 1), BlankRow(Active(m).cols, BlankStyle(View(m)));
    Room(m, top, bot, n);
    assert e.scr.grid == MovedDown(g, top, bot, k, blank);
    forall r: nat {:trigger e.scr.grid[r]} | r < |g|
      ensures e.scr.grid[r] == if !(top <= r <= bot) then g[r] else if top <= r - n <= bot then g[r - n] else blank
    {
      DownAt(g, top, bot, k, blank, r);
    }
    RowsMove(m, Put(m, e), top, bot, n);
  }

  lemma {:induction false} RowsMove(m: Machine, n: Machine, top: nat, bot: nat, k: int)
    requires MachineOk(m) && bot < Active(m).rows && OnScreen(m, n)
    requires forall r: nat {:trigger Active(n).grid[r]} | r < Active(m).rows ::
               Active(n).grid[r] == if !(top <= r <= bot) then Active(m).grid[r]
                                    else if top <= r - k <= bot then Active(m).grid[r - k]
                                    else BlankRow(Active(m).cols, BlankStyle(View(m)))
    ensures RowsMoved(m, n, top, bot, k)
  {
    hide WipedRow, BlankRow;
    WipesRow(m);
  }

  lemma {:induction false} WipesRow(m: Machine)
    ensures WipedRow(m, BlankRow(Active(m).cols, BlankStyle(View(m))))
  {
  }

  lemma {:induction false} Room(m: Machine, top: nat, bot: nat, n: nat)
    requires MachineOk(m) && 1 <= n && top <= bot < Active(m).rows
    ensures var k := ScrollBy(n, bot - top + 1);
            top + k <= bot + 1 <= |Active(m).grid| && |Active(m).grid| == Active(m).rows
              && (k == n || (k == bot + 1 - top && n > k))
  {
  }

  lemma {:induction false} DownAt(g: seq<Row>, top: nat, bot: nat, k: nat, blank: Row, r: nat)
    requires top + k <= bot + 1 <= |g| && r < |g|
    ensures MovedDown(g, top, bot, k, blank)[r] ==
            if !(top <= r <= bot) then g[r] else if r - k >= top then g[r - k] else blank
  {
  }

  lemma {:induction false} UpAt(g: seq<Row>, top: nat, bot: nat, k: nat, blank: Row, r: nat)
    requires top + k <= bot + 1 <= |g| && r < |g|
    ensures MovedUp(g, top, bot, k, blank)[r] ==
            if !(top <= r <= bot) then g[r] else if r + k <= bot then g[r + k] else blank
  {
  }

  lemma {:induction false} ScrollsUp(m: Machine, top: nat, bot: nat, n: nat, save: bool, e: Draw)
    requires MachineOk(m) && 1 <= n && top <= bot < Active(m).rows && DrawOk(e) && SameSize(e, View(m))
    requires e == View(m).(scr := ScrollUp(View(m).scr, top, bot, n, save, BlankStyle(View(m))), cur := e.cur)
    ensures RowsMoved(m, Put(m, e), top, bot, 0 - n) && Put(m, e).cur == e.cur
    ensures RowsSaved(m, Put(m, e), top, if n < bot + 1 - top then n else bot + 1 - top, save)
  {
    hide OnScreen, Put, RowsMoved, ScrollUp;
    PutsScreen(m, e);
    UpRows(m, top, bot, n, save);
    assert e.scr == ScrollUp(Active(m), top, bot, n, save, BlankStyle(View(m)));
    RowsMove(m, Put(m, e), top, bot, 0 - n);
    SavesUp(m, top, bot, n, save);
  }

  lemma {:induction false} SavesUp(m: Machine, top: nat, bot: nat, n: nat, save: bool)
    requires MachineOk(m) && 1 <= n && top <= bot < Active(m).rows
    ensures var s, k := Active(m), if n < bot + 1 - top then n else bot + 1 - top;
            top + k <= |s.grid| && ScrollUp(s, top, bot, n, save, BlankStyle(View(m))).scrollback ==
              if save then KeepLast(s.scrollback + s.grid[top..top + k], s.maxScrollback) else s.scrollback
  {
    hide MovedUp, KeepLast;
    Room(m, top, bot, n);
  }

  lemma {:induction false} UpRows(m: Machine, top: nat, bot: nat, n: nat, save: bool)
    requires MachineOk(m) && 1 <= n && top <= bot < Active(m).rows
    ensures var g, h := Active(m).grid, ScrollUp(Active(m), top, bot, n, save, BlankStyle(View(m))).grid;
            |h| == |g| == Active(m).rows && forall r: nat {:trigger h[r]} | r < |g| ::
              h[r] == if !(top <= r <= bot) then g[r] else if top <= r + n <= bot then g[r + n]
                      else BlankRow(Active(m).cols, BlankStyle(View(m)))
  {
    hide MovedUp, BlankRow, Saved;
    Room(m, top, bot, n);
    var s := Active(m);
    var g, k, blank := s.grid, ScrollBy(n, bot - top + 1), BlankRow(s.cols, BlankStyle(View(m)));
    var h := ScrollUp(s, top, bot, n, save, BlankStyle(View(m))).grid;
    assert h == MovedUp(g, top, bot, k, blank);
    forall r: nat {:trigger h[r]} | r < |g|
      ensures h[r] == if !(top <= r <= bot) then g[r] else if top <= r + n <= bot then g[r + n] else blank
    {
      UpAt(g, top, bot, k, blank, r);
    }
  }

  /** IL: outside the region nothing; inside, blank rows at the cursor push the rest of the region down. */
  lemma {:induction false} IlMoves(w: Widths, o: World, m: Machine, ps: seq<seq<nat>>)
    requires MachineOk(m)
    ensures var n, row := Csi0(w, o, m, ps, 0, 'L'), m.cur.row;
            if row < m.top || row > m.bot then n == m
            else
              && RowsMoved(m, n, row, m.bot, Number(ps, 0, 1)) && Active(n).scrollback == Active(m).scrollback
              && n.cur == m.cur.(col := 0, pendingWrap := false)
  {
    hide RowsMoved, Put, ScrollDown, Csi0;
    DrawsCsi(w, o, m, ps, 0, 'L');
    SameNumber(ps, 0, 1);
    if m.top <= m.cur.row <= m.bot {
      ScrollsDown(m, m.cur.row, m.bot, Number(ps, 0, 1), InsertLines(View(m), Number(ps, 0, 1)));
    } else {
      PutsBack(m);
    }
  }

  lemma {:induction false} PutsBack(m: Machine)
    requires MachineOk(m)
    ensures Put(m, View(m)) == m
  {
  }

  /** DL: the rest of the region moves up to the cursor. */
  lemma {:induction false} DlMoves(w: Widths, o: World, m: Machine, ps: seq<seq<nat>>)
    requires MachineOk(m)
    ensures var n, row := Csi0(w, o, m, ps, 0, 'M'), m.cur.row;
            if row < m.top || row > m.bot then n == m
            else
              && RowsMoved(m, n, row, m.bot, 0 - Number(ps, 0, 1)) && Active(n).scrollback == Active(m).scrollback
              && n.cur == m.cur.(col := 0, pendingWrap := false)
  {
    hide RowsMoved, Put, ScrollUp, Csi0;
    DrawsCsi(w, o, m, ps, 0, 'M');
    SameNumber(ps, 0, 1);
    if m.top <= m.cur.row <= m.bot {
      ScrollsUp(m, m.cur.row, m.bot, Number(ps, 0, 1), false, DeleteLines(View(m), Number(ps, 0, 1)));
    } else {
      PutsBack(m);
    }
  }

  /** SU and SD move the region; only what leaves the top of the whole primary screen is saved. */
  lemma {:induction false} SuMoves(w: Widths, o: World, m: Machine, ps: seq<seq<nat>>)
    requires MachineOk(m)
    ensures var n, k, height := Csi0(w, o, m, ps, 0, 'S'), Number(ps, 0, 1), m.bot + 1 - m.top;
            && RowsMoved(m, n, m.top, m.bot, 0 - k) && n.cur == m.cur
            && RowsSaved(m, n, m.top, if k < height then k else height,
                         !m.altActive && m.top == 0 && m.bot == Active(m).rows - 1)
  {
    hide RowsMoved, Put, ScrollUp, RowsSaved, Csi0;
    DrawsCsi(w, o, m, ps, 0, 'S');
    SameNumber(ps, 0, 1);
    ScrollsUp(m, m.top, m.bot, Number(ps, 0, 1), !m.altActive && m.top == 0 && m.bot == Active(m).rows - 1,
              ScrollUpN(View(m), Number(ps, 0, 1)));
  }

  lemma {:induction false} SdMoves(w: Widths, o: World, m: Machine, ps: seq<seq<nat>>)
    requires MachineOk(m)
    ensures var n := Csi0(w, o, m, ps, 0, 'T');
            RowsMoved(m, n, m.top, m.bot, Number(ps, 0, 1)) && n.cur == m.cur
              && Active(n).scrollback == Active(m).scrollback
  {
    hide RowsMoved, Put, ScrollDown, Csi0;
    DrawsCsi(w, o, m, ps, 0, 'T');
    SameNumber(ps, 0, 1);
    ScrollsDown(m, m.top, m.bot, Number(ps, 0, 1), ScrollDownN(View(m), Number(ps, 0, 1)));
  }

  // ---- movement --------------------------------------------------------------------

  /** `n` further, but not past `limit`. */
  function Ahead(at: nat, n: nat, limit: nat): nat {
    if at + n <= limit then at + n else limit
  }

  function Behind(at: nat, n: nat, limit: nat): nat {
    if at >= limit + n then at - n else limit
  }

  /** Where moving up stops: at the top margin, or above it at the top of the screen. */
  function Ceiling(m: Machine): nat {
    if m.cur.row >= m.top then m.top else 0
  }

  function Floor(m: Machine): int {
    if m.cur.row <= m.bot then m.bot else Active(m).rows - 1
  }

  /** CUU and CUD stay within the margins they start in; CNL and CPL go to the first column besides. */
  lemma {:induction false} UpAndDown(w: Widths, o: World, m: Machine, ps: seq<seq<nat>>)
    requires MachineOk(m)
    ensures var k, row, col := Number(ps, 0, 1), m.cur.row, m.cur.col;
            && Floor(m) >= 0
            && Moved(m, Csi0(w, o, m, ps, 0, 'A'), Behind(row, k, Ceiling(m)), col)
            && Moved(m, Csi0(w, o, m, ps, 0, 'B'), Ahead(row, k, Floor(m)), col)
            && Moved(m, Csi0(w, o, m, ps, 0, 'E'), Ahead(row, k, Floor(m)), 0)
            && Moved(m, Csi0(w, o, m, ps, 0, 'F'), Behind(row, k, Ceiling(m)), 0)
  {
    hide Csi0;
    SameNumber(ps, 0, 1);
    DrawsCsi(w, o, m, ps, 0, 'A');
    DrawsCsi(w, o, m, ps, 0, 'B');
    DrawsCsi(w, o, m, ps, 0, 'E');
    DrawsCsi(w, o, m, ps, 0, 'F');
  }

  /** CUF and HPR, CUB, CHA and HPA: within the row. */
  lemma {:induction false} LeftAndRight(w: Widths, o: World, m: Machine, ps: seq<seq<nat>>, final: char)
    requires MachineOk(m) && final in {'C', 'a', 'D', 'G', '`'}
    ensures var k, row, col, last := Number(ps, 0, 1), m.cur.row, m.cur.col, Active(m).cols - 1;
            && last >= 0 && k >= 1
            && Moved(m, Csi0(w, o, m, ps, 0, final), row,
                     if final == 'C' || final == 'a' then Ahead(col, k, last)
                     else if final == 'D' then Behind(col, k, 0) else Ahead(0, k - 1, last))
  {
    hide Csi0;
    SameNumber(ps, 0, 1);
    DrawsCsi(w, o, m, ps, 0, final);
  }

  /** CUP and HVP: absolute, or within the margins in origin mode. */
  lemma {:induction false} CupMoves(w: Widths, o: World, m: Machine, ps: seq<seq<nat>>, final: char)
    requires MachineOk(m) && (final == 'H' || final == 'f')
    ensures var row, col := Number(ps, 0, 1) - 1, Number(ps, 1, 1) - 1;
            && row >= 0 && col >= 0 && Active(m).cols >= 1 && Active(m).rows >= 1
            && Moved(m, Csi0(w, o, m, ps, 0, final),
                     if m.modes.origin then Ahead(m.top, row, m.bot) else Ahead(0, row, Active(m).rows - 1),
                     Ahead(0, col, Active(m).cols - 1))
  {
    hide Csi0;
    SameNumber(ps, 0, 1);
    SameNumber(ps, 1, 1);
    DrawsCsi(w, o, m, ps, 0, final);
  }

  /** VPA, likewise; VPR goes down as far as the screen. */
  lemma {:induction false} VpaMoves(w: Widths, o: World, m: Machine, ps: seq<seq<nat>>)
    requires MachineOk(m)
    ensures var k := Number(ps, 0, 1);
            && k >= 1 && Active(m).rows >= 1
            && Moved(m, Csi0(w, o, m, ps, 0, 'd'),
                     if m.modes.origin then Ahead(m.top, k - 1, m.bot) else Ahead(0, k - 1, Active(m).rows - 1),
                     m.cur.col)
  {
    hide Csi0;
    SameNumber(ps, 0, 1);
    DrawsCsi(w, o, m, ps, 0, 'd');
  }

  lemma {:induction false} VprMoves(w: Widths, o: World, m: Machine, ps: seq<seq<nat>>)
    requires MachineOk(m)
    ensures Active(m).rows >= 1
    ensures Moved(m, Csi0(w, o, m, ps, 0, 'e'), Ahead(m.cur.row, Number(ps, 0, 1), Active(m).rows - 1), m.cur.col)
  {
    hide Csi0;
    SameNumber(ps, 0, 1);
    DrawsCsi(w, o, m, ps, 0, 'e');
  }

  // ---- tabs --------------------------------------------------------------------------

  /** Tab stops in the columns from `a` to before `b`. */
  function Stops(tabs: seq<bool>, a: nat, b: nat): nat
    requires a <= b <= |tabs|
    decreases b
  {
    if a == b then 0 else Stops(tabs, a, b - 1) + (if tabs[b - 1] then 1 else 0)
  }

  lemma {:induction false} StopsSplit(tabs: seq<bool>, a: nat, b: nat, c: nat)
    requires a <= b <= c <= |tabs|
    ensures Stops(tabs, a, c) == Stops(tabs, a, b) + Stops(tabs, b, c)
    decreases c
  {
    if b < c { StopsSplit(tabs, a, b, c - 1); }
  }

  lemma {:induction false} StopsOne(tabs: seq<bool>, a: nat)
    requires a < |tabs|
    ensures Stops(tabs, a, a + 1) == if tabs[a] then 1 else 0
  {
  }

  lemma {:induction false} NextIsFirst(tabs: seq<bool>, col: nat)
    requires col + 1 < |tabs|
    ensures var c := NextTab(tabs, col, |tabs|);
            && col < c < |tabs| && (tabs[c] || c == |tabs| - 1) && Stops(tabs, col + 1, c) == 0
    decreases |tabs| - col
  {
    if !tabs[col + 1] && col + 2 < |tabs| {
      var c := NextTab(tabs, col, |tabs|);
      NextIsFirst(tabs, col + 1);
      StopsOne(tabs, col + 1);
      StopsSplit(tabs, col + 1, col + 2, c);
    }
  }

  lemma {:induction false} PrevIsFirst(tabs: seq<bool>, col: nat)
    requires 0 < col < |tabs|
    ensures var c := PrevTab(tabs, col);
            && c < col && (tabs[c] || c == 0) && Stops(tabs, c + 1, col) == 0
    decreases col
  {
    if !tabs[col - 1] && col > 1 { PrevIsFirst(tabs, col - 1); }
  }

  /** CHT passes `n` stops and is on the last of them, or is in the last column for want of more. */
  ghost predicate Tabbed(tabs: seq<bool>, col: nat, n: nat, c: nat) {
    && col <= c < |tabs| && Stops(tabs, col + 1, c + 1) <= n && (n == 0 ==> c == col)
    && (c < |tabs| - 1 ==> Stops(tabs, col + 1, c + 1) == n && (n > 0 ==> tabs[c]))
  }

  ghost predicate TabbedBack(tabs: seq<bool>, col: nat, n: nat, c: nat) {
    && c <= col < |tabs| && Stops(tabs, c, col) <= n && (n == 0 ==> c == col)
    && (c > 0 ==> Stops(tabs, c, col) == n && (n > 0 ==> tabs[c]))
  }

  lemma {:induction false} TabbedOn(tabs: seq<bool>, col: nat, n: nat, next: nat, c: nat)
    requires n > 0 && col < |tabs| && next == NextTab(tabs, col, |tabs|) && Tabbed(tabs, next, n - 1, c)
    ensures Tabbed(tabs, col, n, c)
  {
    hide NextTab;
    if col + 1 < |tabs| {
      NextIsFirst(tabs, col);
      StopsOne(tabs, next);
      StopsSplit(tabs, col + 1, next, next + 1);
      StopsSplit(tabs, col + 1, next + 1, c + 1);
    } else {
      assert next == col by { NextAtEdge(tabs, col); }
    }
  }

  lemma {:induction false} NextAtEdge(tabs: seq<bool>, col: nat)
    requires col + 1 == |tabs|
    ensures NextTab(tabs, col, |tabs|) == col
  {
  }

  lemma {:induction false} TabbedBackOn(tabs: seq<bool>, col: nat, n: nat, next: nat, c: nat)
    requires n > 0 && col < |tabs| && next == PrevTab(tabs, col) && TabbedBack(tabs, next, n - 1, c)
    ensures TabbedBack(tabs, col, n, c)
  {
    if col > 0 {
      hide PrevTab;
      PrevIsFirst(tabs, col);
      StopsOne(tabs, next);
      StopsSplit(tabs, next, next + 1, col);
      StopsSplit(tabs, c, next, col);
    }
  }

  lemma {:induction false} TabsAhead(d: Draw, n: nat)
    requires DrawOk(d)
    ensures Tabbed(d.tabs, d.cur.col, n, Tabs(d, n, false).cur.col)
    ensures n > 0 ==> Tabs(d, n, false) == ToColumn(d, Tabs(d, n, false).cur.col)
    decreases n
  {
    if n > 0 {
      hide Tabbed, NextTab;
      var next := NextTab(d.tabs, d.cur.col, d.scr.cols);
      TabsAhead(ToColumn(d, next), n - 1);
      TabbedOn(d.tabs, d.cur.col, n, next, Tabs(d, n, false).cur.col);
    }
  }

  lemma {:induction false} TabsBehind(d: Draw, n: nat)
    requires DrawOk(d)
    ensures TabbedBack(d.tabs, d.cur.col, n, Tabs(d, n, true).cur.col)
    ensures n > 0 ==> Tabs(d, n, true) == ToColumn(d, Tabs(d, n, true).cur.col)
    decreases n
  {
    if n > 0 {
      hide TabbedBack, PrevTab;
      var next := PrevTab(d.tabs, d.cur.col);
      TabsBehind(ToColumn(d, next), n - 1);
      TabbedBackOn(d.tabs, d.cur.col, n, next, Tabs(d, n, true).cur.col);
    }
  }

  /** CHT and CBT. */
  lemma {:induction false} TabsMove(w: Widths, o: World, m: Machine, ps: seq<seq<nat>>) returns (c: nat, b: nat)
    requires MachineOk(m)
    ensures Tabbed(m.tabs, m.cur.col, Number(ps, 0, 1), c) && Moved(m, Csi0(w, o, m, ps, 0, 'I'), m.cur.row, c)
    ensures TabbedBack(m.tabs, m.cur.col, Number(ps, 0, 1), b) && Moved(m, Csi0(w, o, m, ps, 0, 'Z'), m.cur.row, b)
  {
    hide Csi0, Tabs, Tabbed, TabbedBack;
    SameNumber(ps, 0, 1);
    DrawsCsi(w, o, m, ps, 0, 'I');
    DrawsCsi(w, o, m, ps, 0, 'Z');
    var k := Number(ps, 0, 1);
    TabsAhead(View(m), k);
    TabsBehind(View(m), k);
    c, b := Tabs(View(m), k, false).cur.col, Tabs(View(m), k, true).cur.col;
  }

  // ---- the other sequences of the screen -------------------------------------------------

  /** TBC clears the stop at the cursor, or all. */
  lemma {:induction false} TbcClears(w: Widths, o: World, m: Machine, ps: seq<seq<nat>>, c: nat)
    requires MachineOk(m) && c < |m.tabs|
    ensures var n, mode := Csi0(w, o, m, ps, 0, 'g'), Number(ps, 0, 0);
            && n == m.(tabs := n.tabs) && |n.tabs| == |m.tabs|
            && n.tabs[c] == (m.tabs[c] && !(mode == 0 && c == m.cur.col) && mode != 3)
  {
    hide Csi0;
    SameNumber(ps, 0, 0);
    DrawsCsi(w, o, m, ps, 0, 'g');
  }

  /** DECSTBM sets margins that enclose at least two rows, and moves home; any others are ignored. */
  lemma {:induction false} StbmSets(w: Widths, o: World, m: Machine, ps: seq<seq<nat>>)
    requires MachineOk(m)
    ensures var n, rows, top := Csi0(w, o, m, ps, 0, 'r'), Active(m).rows, Number(ps, 0, 1) - 1;
            var bot := Ahead(0, Number(ps, 1, rows) - 1, rows - 1);
            && top >= 0
            && n == if top < bot then m.(top := top, bot := bot,
                                         cur := m.cur.(row := if m.modes.origin then top else 0, col := 0,
                                                       pendingWrap := false))
                    else m
  {
    hide Csi0;
    SameNumber(ps, 0, 1);
    SameNumber(ps, 1, Active(m).rows);
    DrawsCsi(w, o, m, ps, 0, 'r');
  }

  /** Some parameter names the mode. */
  predicate Named(ps: seq<seq<nat>>, mode: nat) {
    exists p :: p in ps && p != [] && p[0] == mode
  }

  /** Insert and new-line mode, set as named. */
  function ModesNamed(modes: Modes, ps: seq<seq<nat>>, on: bool): Modes {
    modes.(insert := if Named(ps, 4) then on else modes.insert, lnm := if Named(ps, 20) then on else modes.lnm)
  }

  lemma {:induction false} AnsiSets(d: Draw, ps: seq<seq<nat>>, on: bool)
    requires DrawOk(d)
    ensures AnsiModes(d, ps, on) == d.(modes := ModesNamed(d.modes, ps, on))
    decreases |ps|
  {
    if ps == [] {
      assert !Named(ps, 4) && !Named(ps, 20);
    } else {
      hide Named, ModesNamed;
      var n := Sgr.First(ps[0]);
      var modes := if n == 4 then d.modes.(insert := on) else if n == 20 then d.modes.(lnm := on) else d.modes;
      ModesStep(d.modes, ps, on, modes);
      AnsiSets(d.(modes := modes), ps[1..], on);
    }
  }

  lemma {:induction false} ModesStep(modes: Modes, ps: seq<seq<nat>>, on: bool, now: Modes)
    requires ps != [] && now == if Sgr.First(ps[0]) == 4 then modes.(insert := on)
                                else if Sgr.First(ps[0]) == 20 then modes.(lnm := on) else modes
    ensures ModesNamed(now, ps[1..], on) == ModesNamed(modes, ps, on)
  {
    hide Named;
    NamedRest(ps, 4);
    NamedRest(ps, 20);
  }

  lemma {:induction false} NamedRest(ps: seq<seq<nat>>, mode: nat)
    requires ps != []
    ensures Named(ps, mode) <==> (ps[0] != [] && ps[0][0] == mode) || Named(ps[1..], mode)
  {
    if p :| p in ps && p != [] && p[0] == mode {
      if p != ps[0] { assert p in ps[1..]; }
    }
  }

  /** SM and RM know insert mode and new-line mode. */
  lemma {:induction false} SmSets(w: Widths, o: World, m: Machine, ps: seq<seq<nat>>, on: bool)
    requires MachineOk(m)
    ensures Csi0(w, o, m, ps, 0, if on then 'h' else 'l') ==
            m.(modes := ModesNamed(m.modes, ps, on))
  {
    hide Csi0, Named, AnsiModes;
    DrawsCsi(w, o, m, ps, 0, if on then 'h' else 'l');
    AnsiSets(View(m), ps, on);
  }

  /** REP prints the last character again, as if it had been sent as often. */
  lemma {:induction false} RepPrints(w: Widths, o: World, m: Machine, ps: seq<seq<nat>>) returns (text: string)
    requires MachineOk(m)
    ensures forall i | 0 <= i < |text| :: m.last == Some(text[i])
    ensures m.last.Some? ==> var cells := Active(m).cols * Active(m).rows;
                             |text| == if Number(ps, 0, 1) < cells then Number(ps, 0, 1) else cells
    ensures Csi0(w, o, m, ps, 0, 'b') == Put(m, PrintAll(w, View(m), text))
  {
    hide Csi0, PrintN, PrintAll;
    SameNumber(ps, 0, 1);
    DrawsCsi(w, o, m, ps, 0, 'b');
    text := "";
    if m.last.Some? {
      text := PrintsAgain(w, View(m), m.last.value, Min(Number(ps, 0, 1), Active(m).cols * Active(m).rows));
    } else {
      assert PrintAll(w, View(m), "") == View(m) by { PrintsNothing(w, View(m)); }
    }
  }

  lemma {:induction false} PrintsNothing(w: Widths, d: Draw)
    requires DrawOk(d)
    ensures PrintAll(w, d, "") == d
  {
  }

  lemma {:induction false} PrintsAgain(w: Widths, d: Draw, c: char, n: nat) returns (text: string)
    requires DrawOk(d)
    ensures |text| == n && (forall i | 0 <= i < n :: text[i] == c) && PrintN(w, d, c, n) == PrintAll(w, d, text)
    decreases n
  {
    text := "";
    if n > 0 {
      hide Drawing.Print;
      var more := PrintsAgain(w, Drawing.Print(w, d, c), c, n - 1);
      text := [c] + more;
      assert text[1..] == more;
    }
  }

  /** SGR changes the pen only, never its protection; DECSCA only that. */
  lemma {:induction false} PenChanges(w: Widths, o: World, m: Machine, ps: seq<seq<nat>>)
    requires MachineOk(m)
    ensures Csi0(w, o, m, ps, 0, 'm') == m.(cur := m.cur.(style := Sgr.Apply(ps, m.cur.style)))
    ensures Sgr.Apply(ps, m.cur.style).guarded == m.cur.style.guarded
    ensures Dispatch(w, o, m, Csi(ps, [0x22], 0, 'q' as int)) ==
            m.(cur := m.cur.(style := m.cur.style.(guarded := Number(ps, 0, 0) == 1)))
  {
    hide Sgr.Apply, Csi0;
    SameNumber(ps, 0, 0);
    DrawsCsi(w, o, m, ps, 0, 'm');
    GuardKept(ps, m.cur.style);
  }

  lemma {:induction false} GuardKept(ps: seq<seq<nat>>, pen: Style)
    ensures Sgr.Apply(ps, pen).guarded == pen.guarded
  {
  }
}
