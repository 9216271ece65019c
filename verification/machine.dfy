// The rest of crates/posh-term/src/terminal.rs and csi.rs as functions on values: cursor movement,
// erasing, editing, margins, modes, the two screens with their saved cursors, reset and resize.
module Machines {
  import opened Utf8
  import opened Cells
  import opened VtParser
  import opened Reflow
  import opened Screens
  import opened ScreenProofs
  import opened Drawing
  import Sgr

  // ---- movement -------------------------------------------------------------

  function Less(a: nat, b: nat): nat {
    if a > b then a - b else 0
  }

  function ToRow(d: Draw, row: nat): (r: Draw)
    requires DrawOk(d) && row < d.scr.rows
    ensures DrawOk(r) && SameSize(r, d)
  {
    d.(cur := d.cur.(row := row, pendingWrap := false))
  }

  function CursorUp(d: Draw, n: nat): (r: Draw)
    requires DrawOk(d)
    ensures DrawOk(r) && SameSize(r, d)
  {
    ToRow(d, Max(Less(d.cur.row, n), if d.cur.row >= d.top then d.top else 0))
  }

  function CursorDown(d: Draw, n: nat): (r: Draw)
    requires DrawOk(d)
    ensures DrawOk(r) && SameSize(r, d)
  {
    ToRow(d, Min(d.cur.row + n, if d.cur.row <= d.bot then d.bot else d.scr.rows - 1))
  }

  function CursorTo(d: Draw, col: nat): (r: Draw)
    requires DrawOk(d)
    ensures DrawOk(r) && SameSize(r, d)
  {
    ToColumn(d, Min(col, d.scr.cols - 1))
  }

  /** In origin mode the cursor stays inside the region. */
  function IntoRegion(d: Draw): (r: Draw)
    requires DrawOk(d)
    ensures DrawOk(r) && SameSize(r, d)
  {
    if d.modes.origin then d.(cur := d.cur.(row := Max(d.top, Min(d.cur.row, d.bot)))) else d
  }

  /** VPA. */
  function LineTo(d: Draw, row: nat): (r: Draw)
    requires DrawOk(d)
    ensures DrawOk(r) && SameSize(r, d)
  {
    IntoRegion(ToRow(d, Min(if d.modes.origin then d.top + row else row, d.scr.rows - 1)))
  }

  function Tabs(d: Draw, n: nat, back: bool): (r: Draw)
    requires DrawOk(d)
    ensures DrawOk(r) && SameSize(r, d)
    decreases n
  {
    if n == 0 then d
    else Tabs(ToColumn(d, if back then PrevTab(d.tabs, d.cur.col) else NextTab(d.tabs, d.cur.col, d.scr.cols)),
      n - 1, back)
  }

  // ---- erasing and editing --------------------------------------------------

  /** Cells `from..to` become blanks; the selective form spares guarded cells. */
  function Erased(cells: seq<Cell>, from: nat, to: nat, style: Style, selective: bool): (r: seq<Cell>)
    ensures |r| == |cells|
    ensures forall i | 0 <= i < |cells| ::
              r[i] == if from <= i < to && !(selective && cells[i].style.guarded) then Blank(style) else cells[i]
  {
    seq(|cells|, i requires 0 <= i < |cells| =>
      if from <= i < to && !(selective && cells[i].style.guarded) then Blank(style) else cells[i])
  }

  function ErasedRow(r: Row, style: Style, selective: bool): (t: Row)
    ensures |t.cells| == |r.cells|
  {
    if selective then r.(cells := Erased(r.cells, 0, |r.cells|, style, true), wrapped := false)
    else BlankRow(|r.cells|, style)
  }

  /** Rows `from..to` erased as a whole. */
  function ErasedRows(g: seq<Row>, from: nat, to: nat, style: Style, selective: bool): (h: seq<Row>)
    ensures |h| == |g|
    ensures forall i | 0 <= i < |g| :: h[i] == if from <= i < to then ErasedRow(g[i], style, selective) else g[i]
  {
    seq(|g|, i requires 0 <= i < |g| => if from <= i < to then ErasedRow(g[i], style, selective) else g[i])
  }

  function NoPending(d: Draw): Draw {
    d.(cur := d.cur.(pendingWrap := false))
  }

  function WithGrid(d: Draw, g: seq<Row>): (r: Draw)
    requires DrawOk(d) && |g| == d.scr.rows && RowsFit(g, d.scr.cols)
    ensures DrawOk(r) && SameSize(r, d)
  {
    d.(scr := d.scr.(grid := g))
  }

  function EraseDisplay(d: Draw, mode: nat, selective: bool): (r: Draw)
    requires DrawOk(d)
    ensures DrawOk(r) && SameSize(r, d)
  {
    var style, row, col, g, here := BlankStyle(d), d.cur.row, d.cur.col, d.scr.grid, CursorRow(d);
    var d := NoPending(d);
    if mode == 0 then
      var first := here.(cells := Erased(here.cells, col, d.scr.cols, style, selective), wrapped := false);
      WithGrid(d, ErasedRows(g[row := first], row + 1, d.scr.rows, style, selective))
    else if mode == 1 then
      var last := here.(cells := Erased(here.cells, 0, col + 1, style, selective));
      WithGrid(d, ErasedRows(g, 0, row, style, selective)[row := last])
    else if mode == 2 then WithGrid(d, ErasedRows(g, 0, d.scr.rows, style, selective))
    else if mode == 3 then d.(scr := d.scr.(scrollback := []))
    else d
  }

  function EraseLine(d: Draw, mode: nat, selective: bool): (r: Draw)
    requires DrawOk(d)
    ensures DrawOk(r) && SameSize(r, d)
  {
    var style, here := BlankStyle(d), CursorRow(d);
    var d := NoPending(d);
    if mode > 2 then d
    else
      var from, to := if mode == 0 then d.cur.col else 0, if mode == 1 then d.cur.col + 1 else d.scr.cols;
      Drawing.SetRow(d, here.(cells := Erased(here.cells, from, to, style, selective),
                              wrapped := here.wrapped && mode == 1))
  }

  /** IL and DL: only inside the region, from the cursor row down. */
  function InsertLines(d: Draw, n: nat): (r: Draw)
    requires DrawOk(d)
    ensures DrawOk(r) && SameSize(r, d)
  {
    if d.cur.row < d.top || d.cur.row > d.bot then d
    else ToColumn(d.(scr := ScrollDown(d.scr, d.cur.row, d.bot, n, BlankStyle(d))), 0)
  }

  function DeleteLines(d: Draw, n: nat): (r: Draw)
    requires DrawOk(d)
    ensures DrawOk(r) && SameSize(r, d)
  {
    if d.cur.row < d.top || d.cur.row > d.bot then d
    else ToColumn(d.(scr := ScrollUp(d.scr, d.cur.row, d.bot, n, false, BlankStyle(d))), 0)
  }

  /** `n` cells at `col` removed, blanks coming in at the right edge. */
  function Deleted(cells: seq<Cell>, col: nat, n: nat, style: Style): (r: seq<Cell>)
    requires col <= |cells|
    ensures |r| == |cells|
  {
    var m := Min(n, |cells| - col);
    cells[..col] + cells[col + m..] + Blanks(m, style)
  }

  function EditRow(d: Draw, cells: seq<Cell>): (r: Draw)
    requires DrawOk(d) && |cells| == d.scr.cols
    ensures DrawOk(r) && SameSize(r, d)
  {
    NoPending(Drawing.SetRow(d, CursorRow(d).(cells := Repaired(cells, BlankStyle(d)))))
  }

  function InsertChars(d: Draw, n: nat): (r: Draw)
    requires DrawOk(d)
    ensures DrawOk(r) && SameSize(r, d)
  {
    EditRow(d, Inserted(CursorRow(d).cells, d.cur.col, Min(n, d.scr.cols), BlankStyle(d)))
  }

  function DeleteChars(d: Draw, n: nat): (r: Draw)
    requires DrawOk(d)
    ensures DrawOk(r) && SameSize(r, d)
  {
    EditRow(d, Deleted(CursorRow(d).cells, d.cur.col, Min(n, d.scr.cols), BlankStyle(d)))
  }

  function EraseChars(d: Draw, n: nat): (r: Draw)
    requires DrawOk(d)
    ensures DrawOk(r) && SameSize(r, d)
  {
    EditRow(d, Erased(CursorRow(d).cells, d.cur.col, Min(d.cur.col + n, d.scr.cols), BlankStyle(d), false))
  }

  function PrintN(w: Widths, d: Draw, c: char, n: nat): (r: Draw)
    requires DrawOk(d)
    ensures DrawOk(r) && SameSize(r, d)
    decreases n
  {
    if n == 0 then d else PrintN(w, Drawing.Print(w, d, c), c, n - 1)
  }

  /** REP: the last character again, at most a screenful of times. */
  function Repeat(w: Widths, d: Draw, n: nat): (r: Draw)
    requires DrawOk(d)
    ensures DrawOk(r) && SameSize(r, d)
  {
    if d.last.None? then d else PrintN(w, d, d.last.value, Min(n, d.scr.cols * d.scr.rows))
  }

  function PrintAll(w: Widths, d: Draw, text: string): (r: Draw)
    requires DrawOk(d)
    ensures DrawOk(r) && SameSize(r, d)
    decreases |text|
  {
    if text == "" then d else PrintAll(w, Drawing.Print(w, d, text[0]), text[1..])
  }

  /** DECALN: a screen full of E, margins and origin mode reset. */
  function Align(d: Draw): (r: Draw)
    requires DrawOk(d)
    ensures DrawOk(r) && SameSize(r, d)
  {
    var e := Cell('E', PLAIN, 1, "", 0);
    d.(top := 0, bot := d.scr.rows - 1, modes := d.modes.(origin := false),
       cur := d.cur.(row := 0, col := 0, pendingWrap := false),
       scr := d.scr.(grid := seq(d.scr.rows, i requires 0 <= i < d.scr.rows =>
                                 d.scr.grid[i].(cells := seq(d.scr.cols, j => e)))))
  }

  // ---- margins, tabs, modes -------------------------------------------------

  /** DECSTBM: an oversized bottom is clamped, an empty region ignored. */
  function SetRegion(d: Draw, ps: seq<seq<nat>>): (r: Draw)
    requires DrawOk(d)
    ensures DrawOk(r) && SameSize(r, d)
  {
    var top := ParamOr(ps, 0, 1) - 1;
    var bot := Min(ParamOr(ps, 1, d.scr.rows) - 1, d.scr.rows - 1);
    if top < bot then MoveTo(d.(top := top, bot := bot), 0, 0) else d
  }

  function ClearTabs(d: Draw, mode: nat): (r: Draw)
    requires DrawOk(d)
    ensures DrawOk(r) && SameSize(r, d)
  {
    if mode == 0 then d.(tabs := d.tabs[d.cur.col := false])
    else if mode == 3 then d.(tabs := seq(|d.tabs|, i => false))
    else d
  }

  function AnsiModes(d: Draw, ps: seq<seq<nat>>, on: bool): (r: Draw)
    requires DrawOk(d)
    ensures DrawOk(r) && SameSize(r, d)
    decreases |ps|
  {
    if ps == [] then d
    else
      var n := Sgr.First(ps[0]);
      var modes := if n == 4 then d.modes.(insert := on) else if n == 20 then d.modes.(lnm := on) else d.modes;
      AnsiModes(d.(modes := modes), ps[1..], on)
  }

  function DefaultTabs(cols: nat): (t: seq<bool>)
    ensures |t| == cols
  {
    seq(cols, i => i % 8 == 0)
  }

  predicate Is(final: byte, c: char) {
    final as int == c as int
  }

  /** CSI commands of one screen; everything else leaves the drawing state alone. */
  function CsiDraw(w: Widths, d: Draw, ps: seq<seq<nat>>, im: Option<byte>, mark: byte, final: byte): (r: Draw)
    requires DrawOk(d)
    ensures DrawOk(r) && SameSize(r, d)
  {
    var n := ParamOr(ps, 0, 1);
    if im.Some? then
      if mark == 0 && im == Some(0x22) && Is(final, 'q')
      then d.(cur := d.cur.(style := d.cur.style.(guarded := Sgr.Param(ps, 0) == 1)))
      else d
    else if mark as int == '?' as int then
      if Is(final, 'J') then EraseDisplay(d, Sgr.Param(ps, 0), true)
      else if Is(final, 'K') then EraseLine(d, Sgr.Param(ps, 0), true)
      else d
    else if mark != 0 then d
    else if Is(final, 'A') then CursorUp(d, n)
    else if Is(final, 'B') then CursorDown(d, n)
    else if Is(final, 'C') || Is(final, 'a') then CursorTo(d, d.cur.col + n)
    else if Is(final, 'D') then CursorTo(d, Less(d.cur.col, n))
    else if Is(final, 'E') then ToColumn(CursorDown(d, n), 0)
    else if Is(final, 'F') then ToColumn(CursorUp(d, n), 0)
    else if Is(final, 'G') || Is(final, '`') then CursorTo(d, n - 1)
    else if Is(final, 'H') || Is(final, 'f') then MoveTo(d, n - 1, ParamOr(ps, 1, 1) - 1)
    else if Is(final, 'I') then Tabs(d, n, false)
    else if Is(final, 'J') then EraseDisplay(d, Sgr.Param(ps, 0), false)
    else if Is(final, 'K') then EraseLine(d, Sgr.Param(ps, 0), false)
    else if Is(final, 'L') then InsertLines(d, n)
    else if Is(final, 'M') then DeleteLines(d, n)
    else if Is(final, 'P') then DeleteChars(d, n)
    else if Is(final, 'S') then ScrollUpN(d, n)
    else if Is(final, 'T') then ScrollDownN(d, n)
    else if Is(final, 'X') then EraseChars(d, n)
    else if Is(final, 'Z') then Tabs(d, n, true)
    else if Is(final, '@') then InsertChars(d, n)
    else if Is(final, 'b') then Repeat(w, d, n)
    else if Is(final, 'd') then LineTo(d, n - 1)
    else if Is(final, 'e') then ToRow(d, Min(d.cur.row + n, d.scr.rows - 1))
    else if Is(final, 'g') then ClearTabs(d, Sgr.Param(ps, 0))
    else if Is(final, 'h') then AnsiModes(d, ps, true)
    else if Is(final, 'l') then AnsiModes(d, ps, false)
    else if Is(final, 'm') then d.(cur := d.cur.(style := Sgr.Apply(ps, d.cur.style)))
    else if Is(final, 'r') then SetRegion(d, ps)
    else d
  }

  // ---- the whole machine ----------------------------------------------------

  datatype SavedCursor = SavedCursor(cursor: Cursor, origin: bool)

  /** `strings` counts the OSC and APC strings handled so far. */
  datatype Machine = Machine(
    primary: Scr, alt: Scr, altActive: bool, cur: Cursor, savedPrimary: SavedCursor, savedAlt: SavedCursor,
    modes: Modes, top: nat, bot: nat, tabs: seq<bool>, last: Option<char>, strings: nat)

  /** What an OSC string does to the screen: hyperlinks, prompt marks and sized text. Titles, colors
      and clipboards do not touch it. */
  datatype Effect = NoEffect | SetLink(id: nat) | SetMark(mark: nat) | PutText(text: string, width: nat)

  /** Hyperlink tables and the image store are outside the model: what the `n`th string does is any
      function of it. An image may advance the cursor by columns and rows. */
  datatype World = World(osc: (nat, seq<byte>) -> Effect, apc: (nat, seq<byte>) -> Option<(nat, nat)>)

  const NOTHING_SAVED := SavedCursor(HOME, false)

  function Active(m: Machine): Scr {
    if m.altActive then m.alt else m.primary
  }

  function View(m: Machine): Draw {
    Draw(Active(m), m.altActive, m.cur, m.modes, m.top, m.bot, m.tabs, m.last)
  }

  /** The state every byte stream and every resize preserves. */
  ghost predicate MachineOk(m: Machine) {
    && ScrOk(m.primary) && ScrOk(m.alt)
    && m.primary.rows == m.alt.rows && m.primary.cols == m.alt.cols
    && m.cur.row < m.primary.rows && m.cur.col < m.primary.cols
    && m.top <= m.bot < m.primary.rows && |m.tabs| == m.primary.cols
  }

  predicate SameLimits(m: Machine, n: Machine) {
    m.primary.maxScrollback == n.primary.maxScrollback && m.alt.maxScrollback == n.alt.maxScrollback
  }

  /** Puts a drawing state of the active screen back. */
  function Put(m: Machine, d: Draw): (r: Machine)
    requires MachineOk(m) && DrawOk(d) && SameSize(d, View(m))
    ensures MachineOk(r) && SameLimits(r, m)
  {
    m.(primary := if m.altActive then m.primary else d.scr, alt := if m.altActive then d.scr else m.alt,
       cur := d.cur, modes := d.modes, top := d.top, bot := d.bot, tabs := d.tabs, last := d.last)
  }

  function Fresh(rows: nat, cols: nat, maxScrollback: nat): (m: Machine)
    requires rows <= 0xFFFF && cols <= 0xFFFF
    ensures MachineOk(m) && m.primary.maxScrollback == maxScrollback
  {
    var rows, cols := Max(rows, 1), Max(cols, 1);
    Machine(Scr(rows, cols, BlankRows(rows, cols, PLAIN), [], maxScrollback),
            Scr(rows, cols, BlankRows(rows, cols, PLAIN), [], 0),
            false, HOME, NOTHING_SAVED, NOTHING_SAVED, DEFAULT_MODES, 0, rows - 1, DefaultTabs(cols), None, 0)
  }

  function SaveCursor(m: Machine): (r: Machine)
    requires MachineOk(m)
    ensures MachineOk(r) && SameLimits(r, m)
  {
    var s := SavedCursor(m.cur, m.modes.origin);
    if m.altActive then m.(savedAlt := s) else m.(savedPrimary := s)
  }

  function RestoreCursor(m: Machine): (r: Machine)
    requires MachineOk(m)
    ensures MachineOk(r) && SameLimits(r, m)
  {
    var s := if m.altActive then m.savedAlt else m.savedPrimary;
    var row := Min(s.cursor.row, m.primary.rows - 1);
    m.(modes := m.modes.(origin := s.origin),
       cur := s.cursor.(row := if s.origin then Max(m.top, Min(row, m.bot)) else row,
                        col := Min(s.cursor.col, m.primary.cols - 1)))
  }

  function ClearedGrid(s: Scr, style: Style): (r: Scr)
    requires ScrOk(s)
    ensures ScrOk(r)
  {
    s.(grid := BlankRows(s.rows, s.cols, style))
  }

  function FullReset(m: Machine): (r: Machine)
    requires MachineOk(m)
    ensures MachineOk(r) && SameLimits(r, m)
  {
    m.(altActive := false, primary := ClearedGrid(m.primary, PLAIN), alt := ClearedGrid(m.alt, PLAIN), cur := HOME,
       savedPrimary := NOTHING_SAVED, savedAlt := NOTHING_SAVED, modes := DEFAULT_MODES,
       top := 0, bot := m.primary.rows - 1, tabs := DefaultTabs(m.primary.cols), last := None)
  }

  /** DECSTR leaves cursor position, screen and the other modes alone. */
  function SoftReset(m: Machine): (r: Machine)
    requires MachineOk(m)
    ensures MachineOk(r) && SameLimits(r, m)
  {
    m.(modes := m.modes.(origin := false, insert := false, autowrap := false), top := 0, bot := m.primary.rows - 1,
       cur := HOME.(row := m.cur.row, col := m.cur.col),
       savedAlt := if m.altActive then NOTHING_SAVED else m.savedAlt,
       savedPrimary := if m.altActive then m.savedPrimary else NOTHING_SAVED)
  }

  ghost predicate Fits(s: Scr, t: Scr, rows: nat, cols: nat) {
    ScrOk(t) && t.rows == rows && t.cols == cols && t.maxScrollback == s.maxScrollback
  }

  lemma {:induction false} ResizeKeeps(m: Machine, rows: nat, cols: nat)
    requires MachineOk(m) && 1 <= rows <= 0xFFFF && 1 <= cols <= 0xFFFF
    ensures var here := Spot(m.cur.row, m.cur.col);
            var (p, pc) := Resize(m.primary, rows, cols, if m.altActive then Spot(0, 0) else here, true);
            var (a, ac) := Resize(m.alt, rows, cols, if m.altActive then here else Spot(0, 0), false);
            Fits(m.primary, p, rows, cols) && Fits(m.alt, a, rows, cols)
  {
    hide Resize;
    var here := Spot(m.cur.row, m.cur.col);
    ResizeOk(m.primary, rows, cols, if m.altActive then Spot(0, 0) else here, true);
    ResizeOk(m.alt, rows, cols, if m.altActive then here else Spot(0, 0), false);
  }

  /** The alternate screen never reflows; its cursor does not move the primary's rows. */
  function Resized(m: Machine, rows: nat, cols: nat): (r: Machine)
    requires MachineOk(m) && rows <= 0xFFFF && cols <= 0xFFFF
    ensures MachineOk(r) && SameLimits(r, m) && r.primary.rows == Max(rows, 1) && r.primary.cols == Max(cols, 1)
    ensures m.altActive == r.altActive
  {
    var rows, cols := Max(rows, 1), Max(cols, 1);
    if rows == m.primary.rows && cols == m.primary.cols then m
    else
      var here := Spot(m.cur.row, m.cur.col);
      ResizeKeeps(m, rows, cols);
      var (p, pc) := Resize(m.primary, rows, cols, if m.altActive then Spot(0, 0) else here, true);
      var (a, ac) := Resize(m.alt, rows, cols, if m.altActive then here else Spot(0, 0), false);
      var at := if m.altActive then ac else pc;
      m.(primary := p, alt := a, top := 0, bot := rows - 1,
         cur := m.cur.(row := Min(at.row, rows - 1), col := Min(at.col, cols - 1), pendingWrap := false),
         tabs := m.tabs[..Min(|m.tabs|, cols)] + DefaultTabs(cols)[Min(|m.tabs|, cols)..])
  }

  /** Full margins, home, and a cleared screen unless mode 95 keeps it. */
  function Homed(m: Machine): (r: Machine)
    requires MachineOk(m)
    ensures MachineOk(r) && SameLimits(r, m)
  {
    var d := View(m);
    var d := d.(top := 0, bot := d.scr.rows - 1, cur := d.cur.(row := 0, col := 0, pendingWrap := false));
    Put(m, if m.modes.keepOnColumns then d else d.(scr := ClearedGrid(d.scr, BlankStyle(d))))
  }

  /** DECSET and DECRST 3, honoured only after mode 40. */
  function SetColumns(m: Machine, on: bool): (r: Machine)
    requires MachineOk(m)
    ensures MachineOk(r) && SameLimits(r, m)
  {
    if !m.modes.allowColumns then m
    else Homed(Resized(m.(modes := m.modes.(columns132 := on)), m.primary.rows, if on then 132 else 80))
  }

  function SetAltScreen(m: Machine, mode: nat, on: bool): (r: Machine)
    requires MachineOk(m)
    ensures MachineOk(r) && SameLimits(r, m)
  {
    var style := BlankStyle(View(m));
    var m :=
      if on && !m.altActive then
        var s := (if mode == 1049 then SaveCursor(m) else m).(altActive := true);
        if mode == 1049 then s.(alt := ClearedGrid(s.alt, style)) else s
      else if !on && m.altActive then
        var s := (if mode == 1047 then m.(alt := ClearedGrid(m.alt, style)) else m).(altActive := false);
        if mode == 1049 then RestoreCursor(s) else s
      else m;
    m.(cur := m.cur.(pendingWrap := false, row := Min(m.cur.row, m.primary.rows - 1)))
  }

  function SetDecMode(m: Machine, n: nat, on: bool): (r: Machine)
    requires MachineOk(m)
    ensures MachineOk(r) && SameLimits(r, m)
  {
    if n == 3 then SetColumns(m, on)
    else if n == 6 then Put(m, MoveTo(View(m).(modes := m.modes.(origin := on)), 0, 0))
    else if n == 7 then m.(modes := m.modes.(autowrap := on), cur := m.cur.(pendingWrap := m.cur.pendingWrap && on))
    else if n == 40 then m.(modes := m.modes.(allowColumns := on))
    else if n == 95 then m.(modes := m.modes.(keepOnColumns := on))
    else if n == 47 || n == 1047 || n == 1049 then SetAltScreen(m, n, on)
    else if n == 1048 then if on then SaveCursor(m) else RestoreCursor(m)
    else m
  }

  function SetDecModes(m: Machine, ps: seq<seq<nat>>, on: bool): (r: Machine)
    requires MachineOk(m)
    ensures MachineOk(r) && SameLimits(r, m)
    decreases |ps|
  {
    if ps == [] then m else SetDecModes(SetDecMode(m, Sgr.First(ps[0]), on), ps[1..], on)
  }

  function FirstByte(s: seq<byte>): Option<byte> {
    if s == [] then None else Some(s[0])
  }

  function CsiStep(w: Widths, m: Machine, ps: seq<seq<nat>>, im: Option<byte>, mark: byte, final: byte): (r: Machine)
    requires MachineOk(m)
    ensures MachineOk(r) && SameLimits(r, m)
  {
    var dec := im.None? && mark as int == '?' as int;
    var plain := im.None? && mark == 0;
    if dec && (Is(final, 'h') || Is(final, 'l')) then SetDecModes(m, ps, Is(final, 'h'))
    else if plain && Is(final, 's') then SaveCursor(m)
    else if plain && Is(final, 'u') then RestoreCursor(m)
    else if mark == 0 && im == Some(0x21) && Is(final, 'p') then SoftReset(m)
    else Put(m, CsiDraw(w, View(m), ps, im, mark, final))
  }

  function CharsetFor(f: byte): Charset {
    if Is(f, '0') then DecSpecial else if Is(f, 'A') then Uk else Ascii
  }

  function EscStep(m: Machine, im: Option<byte>, f: byte): (r: Machine)
    requires MachineOk(m)
    ensures MachineOk(r) && SameLimits(r, m)
  {
    var d := View(m);
    if im == None then
      if Is(f, '7') then SaveCursor(m)
      else if Is(f, '8') then RestoreCursor(m)
      else if Is(f, 'D') then Put(m, Index(d))
      else if Is(f, 'E') then Put(m, Index(d.(cur := d.cur.(col := 0))))
      else if Is(f, 'H') then m.(tabs := m.tabs[m.cur.col := true])
      else if Is(f, 'M') then Put(m, ReverseIndex(d))
      else if Is(f, 'c') then FullReset(m)
      else m
    else if im == Some(0x23) && Is(f, '8') then Put(m, Align(d))
    else if im == Some(0x28) then m.(cur := m.cur.(g0 := CharsetFor(f)))
    else if im == Some(0x29) then m.(cur := m.cur.(g1 := CharsetFor(f)))
    else m
  }

  function OscStep(w: Widths, m: Machine, e: Effect): (r: Machine)
    requires MachineOk(m)
    ensures MachineOk(r) && SameLimits(r, m)
  {
    var d := View(m);
    match e
    case NoEffect => m
    case SetLink(id) => m.(cur := m.cur.(link := id))
    case SetMark(mark) => Put(m, Drawing.SetRow(d, CursorRow(d).(mark := Some(mark))))
    case PutText(text, width) =>
      var p := PrintAll(w, d, text);
      Put(m, if width > 0 then CursorTo(p, d.cur.col + width) else p)
  }

  function ApcStep(m: Machine, advance: Option<(nat, nat)>): (r: Machine)
    requires MachineOk(m)
    ensures MachineOk(r) && SameLimits(r, m)
  {
    if advance.None? then m
    else m.(cur := m.cur.(row := Min(m.cur.row + Less(advance.value.1, 1), m.primary.rows - 1),
                          col := Min(m.cur.col + advance.value.0, m.primary.cols - 1), pendingWrap := false))
  }

  /** One parser action. DCS strings only cause responses. */
  function Dispatch(w: Widths, o: World, m: Machine, a: Action): (r: Machine)
    requires MachineOk(m)
    ensures MachineOk(r) && SameLimits(r, m)
  {
    match a
    case Print(c) => Put(m, Drawing.Print(w, View(m), c))
    case Execute(b) => Put(m, Control(View(m), b))
    case Csi(ps, ims, mark, final) => CsiStep(w, m, ps, FirstByte(ims), mark, final)
    case Esc(ims, final) => EscStep(m, FirstByte(ims), final)
    case Osc(data, _) => OscStep(w, m.(strings := m.strings + 1), o.osc(m.strings, data))
    case Apc(data) => ApcStep(m.(strings := m.strings + 1), o.apc(m.strings, data))
    case Dcs(_, _, _, _) => m
  }

  function DispatchAll(w: Widths, o: World, m: Machine, acts: seq<Action>): (r: Machine)
    requires MachineOk(m)
    ensures MachineOk(r) && SameLimits(r, m)
    decreases |acts|
  {
    if acts == [] then m else DispatchAll(w, o, Dispatch(w, o, m, acts[0]), acts[1..])
  }
}
