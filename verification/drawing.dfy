// The drawing part of crates/posh-term/src/terminal.rs as functions on values: printing with
// autowrap, insert mode and wide characters, controls, cursor addressing and SGR. Class `Terminal`
// is proved to compute these functions in place.
module Drawing {
  import opened Utf8
  import opened Cells
  import opened VtParser
  import opened Reflow
  import opened Screens
  import Sgr

  datatype Charset = Ascii | DecSpecial | Uk

  datatype Cursor = Cursor(row: nat, col: nat, pendingWrap: bool, style: Style, link: nat,
                           g0: Charset, g1: Charset, shift: nat)

  const HOME := Cursor(0, 0, false, PLAIN, 0, Ascii, Ascii, 0)

  /** The modes that steer drawing and addressing. */
  datatype Modes = Modes(origin: bool, autowrap: bool, insert: bool, lnm: bool,
                         allowColumns: bool, columns132: bool, keepOnColumns: bool)

  const DEFAULT_MODES := Modes(false, true, false, false, false, false, false)

  /** The active screen and everything that decides where and how it is drawn. */
  datatype Draw = Draw(scr: Scr, alt: bool, cur: Cursor, modes: Modes, top: nat, bot: nat,
                       tabs: seq<bool>, last: Option<char>)

  ghost predicate DrawOk(d: Draw) {
    && ScrOk(d.scr) && d.cur.row < d.scr.rows && d.cur.col < d.scr.cols
    && d.top <= d.bot < d.scr.rows && |d.tabs| == d.scr.cols
  }

  /** Drawing never changes the size of the screen, its scrollback limit, or which screen it is. */
  predicate SameSize(d: Draw, e: Draw) {
    d.scr.rows == e.scr.rows && d.scr.cols == e.scr.cols && d.scr.maxScrollback == e.scr.maxScrollback && d.alt == e.alt
  }

  function BlankStyle(d: Draw): Style {
    PLAIN.(bg := d.cur.style.bg)
  }

  // ---- moving down and up ---------------------------------------------------

  function ScrollUpN(d: Draw, n: nat): (r: Draw)
    requires DrawOk(d)
    ensures DrawOk(r) && SameSize(r, d)
  {
    var save := !d.alt && d.top == 0 && d.bot == d.scr.rows - 1;
    d.(scr := ScrollUp(d.scr, d.top, d.bot, n, save, BlankStyle(d)))
  }

  function ScrollDownN(d: Draw, n: nat): (r: Draw)
    requires DrawOk(d)
    ensures DrawOk(r) && SameSize(r, d)
  {
    d.(scr := ScrollDown(d.scr, d.top, d.bot, n, BlankStyle(d)))
  }

  /** IND. On the bottom margin the region scrolls instead. */
  function Index(d: Draw): (r: Draw)
    requires DrawOk(d)
    ensures DrawOk(r) && SameSize(r, d)
  {
    var d := d.(cur := d.cur.(pendingWrap := false));
    if d.cur.row == d.bot then ScrollUpN(d, 1)
    else if d.cur.row + 1 < d.scr.rows then d.(cur := d.cur.(row := d.cur.row + 1))
    else d
  }

  /** RI. On the top margin the region scrolls instead. */
  function ReverseIndex(d: Draw): (r: Draw)
    requires DrawOk(d)
    ensures DrawOk(r) && SameSize(r, d)
  {
    var d := d.(cur := d.cur.(pendingWrap := false));
    if d.cur.row == d.top then ScrollDownN(d, 1)
    else if d.cur.row > 0 then d.(cur := d.cur.(row := d.cur.row - 1))
    else d
  }

  function ToColumn(d: Draw, col: nat): Draw {
    d.(cur := d.cur.(col := col, pendingWrap := false))
  }

  function NextTab(tabs: seq<bool>, col: nat, cols: nat): (c: nat)
    requires |tabs| == cols && col < cols
    ensures col <= c < cols
    decreases cols - col
  {
    if col + 1 >= cols then col
    else if tabs[col + 1] then col + 1
    else NextTab(tabs, col + 1, cols)
  }

  function PrevTab(tabs: seq<bool>, col: nat): (c: nat)
    requires col <= |tabs|
    ensures c <= col
  {
    if col == 0 then 0 else if tabs[col - 1] then col - 1 else PrevTab(tabs, col - 1)
  }

  // ---- controls -------------------------------------------------------------

  function Control(d: Draw, b: byte): (r: Draw)
    requires DrawOk(d)
    ensures DrawOk(r) && SameSize(r, d)
  {
    if b == 0x08 then ToColumn(d, if d.cur.col > 0 then d.cur.col - 1 else 0)
    else if b == 0x09 then ToColumn(d, NextTab(d.tabs, d.cur.col, d.scr.cols))
    else if 0x0A <= b <= 0x0C then
      var d := Index(d);
      if d.modes.lnm then d.(cur := d.cur.(col := 0)) else d
    else if b == 0x0D then ToColumn(d, 0)
    else if b == 0x0E then d.(cur := d.cur.(shift := 1))
    else if b == 0x0F then d.(cur := d.cur.(shift := 0))
    else if b == 0x84 then Index(d)
    else if b == 0x85 then Index(d.(cur := d.cur.(col := 0)))
    else if b == 0x88 then d.(tabs := d.tabs[d.cur.col := true])
    else if b == 0x8D then ReverseIndex(d)
    else d
  }

  // ---- rows -----------------------------------------------------------------

  /** `repair_wide_halves`: every orphaned half becomes a blank. */
  function Repaired(cells: seq<Cell>, style: Style): (r: seq<Cell>)
    ensures |r| == |cells|
    ensures forall i | 0 <= i < |cells| :: r[i] == if Orphan(cells, i) then Blank(style) else cells[i]
  {
    seq(|cells|, i requires 0 <= i < |cells| => if Orphan(cells, i) then Blank(style) else cells[i])
  }

  /** `clean_wide`: halves that a write at `col..col + w` would cut off become blanks. */
  function CleanFrom(cells: seq<Cell>, col: nat, w: nat, style: Style): (r: seq<Cell>)
    ensures |r| == |cells|
    decreases w
  {
    if w == 0 || col >= |cells| then cells
    else
      var next := if cells[col].width == 2 && col + 1 < |cells| then cells[col + 1 := Blank(style)] else cells;
      CleanFrom(next, col + 1, w - 1, style)
  }

  function Cleaned(cells: seq<Cell>, col: nat, w: nat, style: Style): (r: seq<Cell>)
    requires col < |cells|
    ensures |r| == |cells|
  {
    var first := if cells[col].width == 0 && col > 0 then cells[col - 1 := Blank(style)] else cells;
    CleanFrom(first, col, w, style)
  }

  /** Inserting `n` blanks at `col`; what leaves the right edge is lost. */
  function Inserted(cells: seq<Cell>, col: nat, n: nat, style: Style): (r: seq<Cell>)
    requires col <= |cells|
    ensures |r| == |cells|
  {
    (cells[..col] + Blanks(n, style) + cells[col..])[..|cells|]
  }

  /** A character written at `col`, with its spacer if it is wide. */
  function Written(cells: seq<Cell>, col: nat, c: char, w: Columns, style: Style, link: nat,
      erase: Style): (r: seq<Cell>)
    requires col < |cells|
    ensures |r| == |cells|
  {
    var t := Cleaned(cells, col, w, erase)[col := Cell(c, style, w, "", link)];
    if w == 2 then t[Min(col + 1, |cells| - 1) := Spacer(style, link)] else t
  }

  // ---- printing -------------------------------------------------------------

  function CursorRow(d: Draw): Row
    requires DrawOk(d)
  {
    d.scr.grid[d.cur.row]
  }

  function SetRow(d: Draw, r: Row): (t: Draw)
    requires DrawOk(d) && |r.cells| == d.scr.cols
    ensures DrawOk(t) && SameSize(t, d)
  {
    d.(scr := d.scr.(grid := d.scr.grid[d.cur.row := r]))
  }

  /** Soft wrap: mark the row and continue at the start of the next one. */
  function WrapLine(d: Draw): (r: Draw)
    requires DrawOk(d)
    ensures DrawOk(r) && SameSize(r, d)
  {
    var d := SetRow(d, CursorRow(d).(wrapped := true));
    Index(d.(cur := d.cur.(col := 0)))
  }

  /** A pending wrap is carried out before the next character. */
  function ResolveWrap(d: Draw): (r: Draw)
    requires DrawOk(d)
    ensures DrawOk(r) && SameSize(r, d)
  {
    if !d.cur.pendingWrap then d
    else
      var d := d.(cur := d.cur.(pendingWrap := false));
      if d.modes.autowrap then WrapLine(d) else d
  }

  /** A wide character in the last column moves to the next row, or backs up without autowrap. */
  function MakeRoom(d: Draw, w: nat): (r: Draw)
    requires DrawOk(d)
    ensures DrawOk(r) && SameSize(r, d)
  {
    if w == 2 && d.cur.col + 1 >= d.scr.cols then
      if d.modes.autowrap then
        var row := CursorRow(d);
        WrapLine(SetRow(d, row.(cells := row.cells[d.cur.col := Blank(BlankStyle(d))])))
      else if d.scr.cols >= 2 then d.(cur := d.cur.(col := d.scr.cols - 2))
      else d
    else d
  }

  function Advance(d: Draw, w: nat): (r: Draw)
    requires DrawOk(d)
    ensures DrawOk(r) && SameSize(r, d)
  {
    if d.cur.col + w >= d.scr.cols then
      d.(cur := d.cur.(col := d.scr.cols - 1, pendingWrap := d.cur.pendingWrap || d.modes.autowrap))
    else d.(cur := d.cur.(col := d.cur.col + w))
  }

  function PutGlyph(d: Draw, c: char, w: Columns): (r: Draw)
    requires DrawOk(d)
    ensures DrawOk(r) && SameSize(r, d)
  {
    var row := CursorRow(d);
    var col := d.cur.col;
    var cells := if d.modes.insert then Repaired(Inserted(row.cells, col, w, BlankStyle(d)), BlankStyle(d))
      else row.cells;
    Advance(SetRow(d, row.(cells := Written(cells, col, c, w, d.cur.style, d.cur.link, BlankStyle(d)))), w)
  }

  /** A character of width 1 or 2. */
  function PrintGlyph(d: Draw, c: char, w: Columns): (r: Draw)
    requires DrawOk(d)
    ensures DrawOk(r) && SameSize(r, d)
  {
    var d := ResolveWrap(d.(last := Some(c)));
    var e := MakeRoom(d, w);
    if w == 2 && d.cur.col + 1 >= d.scr.cols && !d.modes.autowrap && d.scr.cols < 2 then d else PutGlyph(e, c, w)
  }

  /** A zero-width character joins the cell before the cursor. */
  function Combine(d: Draw, c: char): (r: Draw)
    requires DrawOk(d)
    ensures DrawOk(r) && SameSize(r, d)
  {
    if !d.cur.pendingWrap && d.cur.col == 0 then d
    else
      var row := CursorRow(d);
      var col := if d.cur.pendingWrap then d.cur.col else d.cur.col - 1;
      var col := if row.cells[col].width == 0 && col > 0 then col - 1 else col;
      var cell := row.cells[col];
      SetRow(d, row.(cells := row.cells[col := cell.(extra := cell.extra + [c])]))
  }

  function DecGraphic(c: char): char {
    match c
    case '`' => '\U{25C6}'
    case 'a' => '\U{2592}'
    case 'b' => '\U{2409}'
    case 'c' => '\U{240C}'
    case 'd' => '\U{240D}'
    case 'e' => '\U{240A}'
    case 'f' => '\U{B0}'
    case 'g' => '\U{B1}'
    case 'h' => '\U{2424}'
    case 'i' => '\U{240B}'
    case 'j' => '\U{2518}'
    case 'k' => '\U{2510}'
    case 'l' => '\U{250C}'
    case 'm' => '\U{2514}'
    case 'n' => '\U{253C}'
    case 'o' => '\U{23BA}'
    case 'p' => '\U{23BB}'
    case 'q' => '\U{2500}'
    case 'r' => '\U{23BC}'
    case 's' => '\U{23BD}'
    case 't' => '\U{251C}'
    case 'u' => '\U{2524}'
    case 'v' => '\U{2534}'
    case 'w' => '\U{252C}'
    case 'x' => '\U{2502}'
    case 'y' => '\U{2264}'
    case 'z' => '\U{2265}'
    case '{' => '\U{3C0}'
    case '|' => '\U{2260}'
    case '}' => '\U{A3}'
    case '~' => '\U{B7}'
    case '_' => ' '
    case _ => c
  }

  function MapCharset(cur: Cursor, c: char): char {
    match (if cur.shift == 1 then cur.g1 else cur.g0)
    case Ascii => c
    case Uk => if c == '#' then '\U{A3}' else c
    case DecSpecial => DecGraphic(c)
  }

  function Print(w: Widths, d: Draw, c: char): (r: Draw)
    requires DrawOk(d)
    ensures DrawOk(r) && SameSize(r, d)
  {
    if 0x80 <= c as int < 0xA0 then Control(d, c as int)
    else
      var c := MapCharset(d.cur, c);
      if w.Of(c) == 0 then Combine(d, c) else PrintGlyph(d, c, w.Of(c))
  }

  // ---- addressing and pen ---------------------------------------------------

  /** CUP: absolute, or relative to the region in origin mode. */
  function MoveTo(d: Draw, row: nat, col: nat): (r: Draw)
    requires DrawOk(d)
    ensures DrawOk(r) && SameSize(r, d)
  {
    var row := if d.modes.origin then Clamp(d.top + row, d.bot) else Clamp(row, d.scr.rows - 1);
    d.(cur := d.cur.(row := row, col := Clamp(col, d.scr.cols - 1), pendingWrap := false))
  }

  /** Parameter `i`, with 0 and absence read as `default`. */
  function ParamOr(ps: seq<seq<nat>>, i: nat, default: nat): nat {
    if Sgr.Param(ps, i) == 0 then default else Sgr.Param(ps, i)
  }

  predicate IsCup(a: Action) {
    a.Csi? && a.mark == 0 && a.intermediates == [] && (a.final == 0x48 || a.final == 0x66)
  }

  predicate IsSgr(a: Action) {
    a.Csi? && a.mark == 0 && a.intermediates == [] && a.final == 0x6D
  }

  predicate IsGuard(a: Action) {
    a.Csi? && a.mark == 0 && a.intermediates != [] && a.intermediates[0] == 0x22 && a.final == 0x71
  }

  /** The actions a serialized screen consists of. */
  predicate IsDrawing(a: Action) {
    a.Print? || a.Execute? || IsCup(a) || IsSgr(a) || IsGuard(a)
  }

  function Perform(w: Widths, d: Draw, a: Action): (r: Draw)
    requires DrawOk(d) && IsDrawing(a)
    ensures DrawOk(r) && SameSize(r, d)
  {
    if a.Print? then Print(w, d, a.c)
    else if a.Execute? then Control(d, a.b)
    else if IsCup(a) then MoveTo(d, ParamOr(a.params, 0, 1) - 1, ParamOr(a.params, 1, 1) - 1)
    else if IsSgr(a) then d.(cur := d.cur.(style := Sgr.Apply(a.params, d.cur.style)))
    else d.(cur := d.cur.(style := d.cur.style.(guarded := Sgr.Param(a.params, 0) == 1)))
  }

  function PerformAll(w: Widths, d: Draw, acts: seq<Action>): (r: Draw)
    requires DrawOk(d) && forall a <- acts :: IsDrawing(a)
    ensures DrawOk(r) && SameSize(r, d)
    decreases |acts|
  {
    if acts == [] then d else PerformAll(w, Perform(w, d, acts[0]), acts[1..])
  }
}
