// What printing, controls, escape sequences and modes do, on the machine as they arrive; and what the
// two screens and their saved cursors promise each other.
module TerminalLaws {
  import opened Utf8
  import opened Cells
  import opened VtParser
  import opened Reflow
  import opened Screens
  import opened Drawing
  import opened Machines
  import opened CsiLaws
  import Sgr

  // ---- lines ------------------------------------------------------------------

  /** The machine with another active screen. */
  function WithActive(m: Machine, s: Scr): Machine {
    if m.altActive then m.(alt := s) else m.(primary := s)
  }

  /** One line down: at the bottom margin the region scrolls instead, and only what leaves the top of the
      whole primary screen is saved. */
  ghost predicate LineFed(m: Machine, n: Machine)
    requires MachineOk(m)
  {
    if m.cur.row == m.bot then
      && RowsMoved(m, n, m.top, m.bot, -1) && n.cur == m.cur.(pendingWrap := false)
      && RowsSaved(m, n, m.top, 1, !m.altActive && m.top == 0 && m.bot == Active(m).rows - 1)
    else n == m.(cur := m.cur.(pendingWrap := false,
      row := if m.cur.row + 1 < Active(m).rows then m.cur.row + 1 else m.cur.row))
  }

  /** One line up: at the top margin the region scrolls instead. */
  ghost predicate LineBack(m: Machine, n: Machine)
    requires MachineOk(m)
  {
    if m.cur.row == m.top then
      && RowsMoved(m, n, m.top, m.bot, 1) && n.cur == m.cur.(pendingWrap := false)
      && Active(n).scrollback == Active(m).scrollback
    else n == m.(cur := m.cur.(pendingWrap := false, row := if m.cur.row > 0 then m.cur.row - 1 else 0))
  }

  lemma {:induction false} IndexFeeds(m: Machine)
    requires MachineOk(m)
    ensures LineFed(m, Put(m, Index(View(m))))
  {
    if m.cur.row == m.bot {
      hide RowsMoved, RowsSaved, Put, ScrollUp;
      ScrollsUp(m, m.top, m.bot, 1, !m.altActive && m.top == 0 && m.bot == Active(m).rows - 1, Index(View(m)));
    }
  }

  lemma {:induction false} ReverseFeeds(m: Machine)
    requires MachineOk(m)
    ensures LineBack(m, Put(m, ReverseIndex(View(m))))
  {
    if m.cur.row == m.top {
      hide RowsMoved, Put, ScrollDown;
      ScrollsDown(m, m.top, m.bot, 1, ReverseIndex(View(m)));
    }
  }

  lemma {:induction false} PutTwice(m: Machine, e: Draw, f: Draw)
    requires MachineOk(m) && DrawOk(e) && SameSize(e, View(m)) && DrawOk(f) && SameSize(f, e)
    ensures Put(Put(m, e), f) == Put(m, f) && View(Put(m, e)) == e && MachineOk(Put(m, e))
  {
  }

  // ---- printing ---------------------------------------------------------------

  /** The cursor's row marked as soft-wrapped, the cursor at its start. */
  function Flagged(m: Machine): (r: Machine)
    requires MachineOk(m)
    ensures MachineOk(r)
  {
    var s := Active(m);
    WithActive(m, s.(grid := s.grid[m.cur.row := s.grid[m.cur.row].(wrapped := true)])).
      (cur := m.cur.(col := 0, pendingWrap := false))
  }

  /** A pending wrap is carried out with autowrap, and forgotten without. */
  ghost predicate WrapDone(m: Machine, n: Machine)
    requires MachineOk(m)
  {
    if !m.cur.pendingWrap then n == m
    else if m.modes.autowrap then LineFed(Flagged(m), n)
    else n == m.(cur := m.cur.(pendingWrap := false))
  }

  lemma {:induction false} ResolvesWrap(m: Machine)
    requires MachineOk(m)
    ensures WrapDone(m, Put(m, ResolveWrap(View(m))))
  {
    hide LineFed, Index;
    var d := View(m);
    if d.cur.pendingWrap && d.modes.autowrap {
      var f := Drawing.SetRow(d.(cur := d.cur.(pendingWrap := false)), CursorRow(d).(wrapped := true));
      f := f.(cur := f.cur.(col := 0));
      PutTwice(m, f, Index(f));
      assert Put(m, f) == Flagged(m);
      IndexFeeds(Flagged(m));
    } else {
      PutsBack(m);
    }
  }

  /** The last cell of the cursor's row blanked. */
  function EdgeBlanked(m: Machine): (r: Machine)
    requires MachineOk(m)
    ensures MachineOk(r)
  {
    var s := Active(m);
    var row := s.grid[m.cur.row];
    WithActive(m, s.(grid := s.grid[m.cur.row := row.(cells := row.cells[m.cur.col := Wiped(m)])]))
  }

  /** A wide character in the last column goes to the next line, leaving a blank, or backs up. */
  ghost predicate RoomMade(m: Machine, n: Machine, w: nat)
    requires MachineOk(m)
  {
    if w != 2 || m.cur.col + 1 < Active(m).cols then n == m
    else if m.modes.autowrap then LineFed(Flagged(EdgeBlanked(m)), n)
    else n == m.(cur := m.cur.(col := if Active(m).cols >= 2 then Active(m).cols - 2 else m.cur.col))
  }

  lemma {:induction false} MakesRoom(m: Machine, w: nat)
    requires MachineOk(m) && !m.cur.pendingWrap
    ensures RoomMade(m, Put(m, MakeRoom(View(m), w)), w)
  {
    hide LineFed, Index;
    var d := View(m);
    if w == 2 && d.cur.col + 1 >= d.scr.cols && d.modes.autowrap {
      var row := CursorRow(d);
      var f := Drawing.SetRow(d, row.(cells := row.cells[d.cur.col := Blank(BlankStyle(d))]));
      f := Drawing.SetRow(f, CursorRow(f).(wrapped := true));
      f := f.(cur := f.cur.(col := 0));
      PutTwice(m, f, Index(f));
      assert Put(m, f) == Flagged(EdgeBlanked(m));
      IndexFeeds(Flagged(EdgeBlanked(m)));
    } else {
      PutsBack(m);
    }
  }

  /** Halves next to a write of `w` columns that it would cut off. */
  predicate CutOff(cells: seq<Cell>, col: nat, w: nat, i: nat)
    requires col + w <= |cells| && 1 <= w <= 2
  {
    || (i + 1 == col && cells[col].width == 0)
    || (i == col + w && cells[col + w - 1].width == 2 && (w == 2 ==> cells[col].width != 2))
  }

  /** A character in its place: it and its spacer, and around it only blanked halves. */
  ghost predicate GlyphAt(m: Machine, base: seq<Cell>, c: char, w: Columns, cells: seq<Cell>)
    requires 1 <= w <= 2 && m.cur.col + w <= |base|
  {
    |cells| == |base| && forall i: nat | i < |base| ::
      cells[i] == if i == m.cur.col then Cell(c, m.cur.style, w, "", m.cur.link)
                  else if w == 2 && i == m.cur.col + 1 then Cell('\0', m.cur.style, 0, "", m.cur.link)
                  else if CutOff(base, m.cur.col, w, i) then Wiped(m)
                  else base[i]
  }

  lemma {:induction false} WritesGlyph(m: Machine, base: seq<Cell>, c: char, w: Columns)
    requires 1 <= w <= 2 && m.cur.col + w <= |base|
    ensures GlyphAt(m, base, c, w, Written(base, m.cur.col, c, w, m.cur.style, m.cur.link, BlankStyle(View(m))))
  {
    var col, style := m.cur.col, BlankStyle(View(m));
    var first := if base[col].width == 0 && col > 0 then base[col - 1 := Blank(style)] else base;
    var next := if first[col].width == 2 && col + 1 < |base| then first[col + 1 := Blank(style)] else first;
    assert CleanFrom(first, col, w, style) == CleanFrom(next, col + 1, w - 1, style);
    if w == 2 {
      var third := if next[col + 1].width == 2 && col + 2 < |base| then next[col + 2 := Blank(style)] else next;
      assert CleanFrom(next, col + 1, 1, style) == CleanFrom(third, col + 2, 0, style);
    }
  }

  /** The row with `w` blanks at the cursor, the rest moved right. */
  ghost predicate ShiftedRow(m: Machine, w: nat, t: seq<Cell>)
    requires MachineOk(m)
  {
    |t| == |Here(m)| && forall i: nat {:trigger t[i]} | i < |t| ::
      t[i] == if i < m.cur.col then Here(m)[i] else if i < m.cur.col + w then Wiped(m) else Here(m)[i - w]
  }

  /** What the character is written over: the row, or in insert mode the row with what is at the cursor
      moved right, halves left alone blanked. */
  ghost predicate BaseOf(m: Machine, w: nat, base: seq<Cell>)
    requires MachineOk(m)
  {
    if !m.modes.insert then base == Here(m)
    else exists t: seq<Cell> :: ShiftedRow(m, w, t) && |base| == |t|
                                && forall i: nat | i < |t| :: base[i] == if Orphan(t, i) then Wiped(m) else t[i]
  }

  /** The character is in its place, and the cursor after it, or in the last column with a wrap pending. */
  ghost predicate GlyphPut(m: Machine, n: Machine, c: char, w: Columns)
    requires MachineOk(m) && 1 <= w <= 2
  {
    && OnlyRow(m, n, m.cur.row)
    && (exists base :: (BaseOf(m, w, base) && m.cur.col + w <= |base|
                        && GlyphAt(m, base, c, w, Active(n).grid[m.cur.row].cells)))
    && Active(n).grid[m.cur.row] == Active(m).grid[m.cur.row].(cells := Active(n).grid[m.cur.row].cells)
    && n.cur == if m.cur.col + w < Active(m).cols then m.cur.(col := m.cur.col + w)
                else m.cur.(col := Active(m).cols - 1, pendingWrap := m.cur.pendingWrap || m.modes.autowrap)
  }

  lemma {:induction false} InsertsBase(m: Machine, w: nat) returns (base: seq<Cell>)
    requires MachineOk(m)
    ensures BaseOf(m, w, base) && |base| == Active(m).cols
    ensures base ==
            if m.modes.insert then Repaired(Inserted(Here(m), m.cur.col, w, BlankStyle(View(m))), BlankStyle(View(m)))
            else Here(m)
  {
    hide Inserted;
    base := Here(m);
    if m.modes.insert {
      var t := Inserted(Here(m), m.cur.col, w, BlankStyle(View(m)));
      forall i: nat {:trigger t[i]} | i < |t|
        ensures t[i] == if i < m.cur.col then Here(m)[i] else if i < m.cur.col + w then Wiped(m) else Here(m)[i - w]
      {
        InsertedAt(Here(m), m.cur.col, w, BlankStyle(View(m)), i);
      }
      assert ShiftedRow(m, w, t);
      base := Repaired(t, BlankStyle(View(m)));
    }
  }

  lemma {:induction false} PutsGlyph(m: Machine, c: char, w: Columns)
    requires MachineOk(m) && 1 <= w <= 2 && m.cur.col + w <= Active(m).cols
    ensures GlyphPut(m, Put(m, PutGlyph(View(m), c, w)), c, w)
  {
    hide GlyphAt, BaseOf, Written, Inserted, Repaired;
    var d, e := View(m), PutGlyph(View(m), c, w);
    var base := InsertsBase(m, w);
    WritesGlyph(m, base, c, w);
    PutsScreen(m, e);
  }

  const LINE_CHARS := "_`abcdefghijklmnopqrstuvwxyz{|}~"
  const LINE_GLYPHS := " \U{25C6}\U{2592}\U{2409}\U{240C}\U{240D}\U{240A}\U{B0}\U{B1}\U{2424}\U{240B}\U{2518}\U{2510}"
    + "\U{250C}\U{2514}\U{253C}\U{23BA}\U{23BB}\U{2500}\U{23BC}\U{23BD}\U{251C}\U{2524}\U{2534}\U{252C}\U{2502}\U{2264}"
    + "\U{2265}\U{3C0}\U{2260}\U{A3}\U{B7}"

  /** The charset in use draws lines, has the pound sign, or changes nothing. */
  lemma {:induction false} CharsetMaps(cur: Cursor, c: char, i: nat)
    ensures |LINE_CHARS| == |LINE_GLYPHS| == 32
    ensures var chars := if cur.shift == 1 then cur.g1 else cur.g0;
            && (chars == Ascii ==> MapCharset(cur, c) == c)
            && (chars == Uk ==> MapCharset(cur, c) == if c == '#' then '\U{A3}' else c)
            && (chars == DecSpecial && i < 32 ==> MapCharset(cur, LINE_CHARS[i]) == LINE_GLYPHS[i])
            && (chars == DecSpecial && c !in LINE_CHARS ==> MapCharset(cur, c) == c)
  {
    if i < 32 { LineGlyph(i); }
    if c !in LINE_CHARS { NoLineGlyph(c); }
  }

  lemma {:induction false} LineGlyph(i: nat)
    requires i < 32
    ensures |LINE_CHARS| == |LINE_GLYPHS| == 32 && DecGraphic(LINE_CHARS[i]) == LINE_GLYPHS[i]
  {
  }

  lemma {:induction false} NoLineGlyph(c: char)
    requires c !in LINE_CHARS
    ensures DecGraphic(c) == c
  {
    assert forall i | 0 <= i < 32 :: LINE_CHARS[i] != c;
    assert LINE_CHARS[0] != c && LINE_CHARS[1] != c && LINE_CHARS[2] != c && LINE_CHARS[3] != c
           && LINE_CHARS[4] != c && LINE_CHARS[5] != c && LINE_CHARS[6] != c && LINE_CHARS[7] != c
           && LINE_CHARS[8] != c && LINE_CHARS[9] != c && LINE_CHARS[10] != c && LINE_CHARS[11] != c
           && LINE_CHARS[12] != c && LINE_CHARS[13] != c && LINE_CHARS[14] != c && LINE_CHARS[15] != c
           && LINE_CHARS[16] != c && LINE_CHARS[17] != c && LINE_CHARS[18] != c && LINE_CHARS[19] != c
           && LINE_CHARS[20] != c && LINE_CHARS[21] != c && LINE_CHARS[22] != c && LINE_CHARS[23] != c
           && LINE_CHARS[24] != c && LINE_CHARS[25] != c && LINE_CHARS[26] != c && LINE_CHARS[27] != c
           && LINE_CHARS[28] != c && LINE_CHARS[29] != c && LINE_CHARS[30] != c && LINE_CHARS[31] != c;
  }

  /** A character of width 1 or 2: a pending wrap first, then room for it, then the character, which
      becomes the last one printed. One too wide for the screen is dropped after the wrap. */
  lemma {:induction false} PrintsGlyph(w: Widths, o: World, m: Machine, c: char) returns (m1: Machine, m2: Machine)
    requires MachineOk(m) && !(0x80 <= c as int < 0xA0) && w.Of(MapCharset(m.cur, c)) > 0
    ensures var shown, k := MapCharset(m.cur, c), w.Of(MapCharset(m.cur, c));
            && MachineOk(m1) && WrapDone(m.(last := Some(shown)), m1)
            && if k == 2 && m1.cur.col + 1 >= Active(m).cols && !m.modes.autowrap && Active(m).cols < 2
               then Dispatch(w, o, m, Action.Print(c)) == m1
               else
                 && MachineOk(m2) && RoomMade(m1, m2, k)
                 && (k == 1 || Active(m).cols >= 2 ==> GlyphPut(m2, Dispatch(w, o, m, Action.Print(c)), shown, k))
  {
    hide WrapDone, RoomMade, GlyphPut, ResolveWrap, MakeRoom, PutGlyph, MapCharset;
    var d := View(m);
    var shown, k := MapCharset(m.cur, c), w.Of(MapCharset(m.cur, c));
    var m0 := m.(last := Some(shown));
    var d1 := ResolveWrap(View(m0));
    ResolvesWrap(m0);
    m1 := Put(m0, d1);
    m2 := m1;
    PutTwice(m0, d1, d1);
    NoWrapLeft(View(m0));
    assert Put(m, d1) == Put(m0, d1);
    if !(k == 2 && d1.cur.col + 1 >= d1.scr.cols && !d1.modes.autowrap && d1.scr.cols < 2) {
      var d2 := MakeRoom(d1, k);
      MakesRoom(m1, k);
      m2 := Put(m1, d2);
      PutTwice(m1, d2, PutGlyph(d2, shown, k));
      PutTwice(m0, d1, d2);
      PutTwice(m0, d1, PutGlyph(d2, shown, k));
      if k == 1 || d1.scr.cols >= 2 {
        RoomFor(d1, k);
        PutsGlyph(m2, shown, k);
      }
    }
  }

  lemma {:induction false} NoWrapLeft(d: Draw)
    requires DrawOk(d)
    ensures var e := ResolveWrap(d); !e.cur.pendingWrap && e.modes == d.modes
  {
    hide Index;
    if d.cur.pendingWrap && d.modes.autowrap {
      var f := Drawing.SetRow(d.(cur := d.cur.(pendingWrap := false)), CursorRow(d).(wrapped := true));
      IndexPlain(f.(cur := f.cur.(col := 0)));
    }
  }

  lemma {:induction false} IndexPlain(d: Draw)
    requires DrawOk(d)
    ensures !Index(d).cur.pendingWrap && Index(d).modes == d.modes && Index(d).cur.col == d.cur.col
  {
    hide ScrollUp;
  }

  lemma {:induction false} RoomFor(d: Draw, w: nat)
    requires DrawOk(d) && 1 <= w <= 2 && (w == 1 || d.scr.cols >= 2)
    ensures MakeRoom(d, w).cur.col + w <= d.scr.cols
  {
    hide Index;
    if w == 2 && d.cur.col + 1 >= d.scr.cols && d.modes.autowrap {
      var row := CursorRow(d);
      var f := Drawing.SetRow(d, row.(cells := row.cells[d.cur.col := Blank(BlankStyle(d))]));
      f := Drawing.SetRow(f, CursorRow(f).(wrapped := true));
      IndexPlain(f.(cur := f.cur.(col := 0)));
    }
  }

  /** A character of no width joins the cell before the cursor, or the one a wrap is pending after; from a
      spacer it goes to its head. */
  lemma {:induction false} Joins(w: Widths, o: World, m: Machine, c: char, j: nat)
    requires MachineOk(m) && !(0x80 <= c as int < 0xA0) && w.Of(MapCharset(m.cur, c)) == 0
    ensures var n := Dispatch(w, o, m, Action.Print(c));
            if !m.cur.pendingWrap && m.cur.col == 0 then n == m
            else
              var at := if m.cur.pendingWrap then m.cur.col else m.cur.col - 1;
              var head := if Here(m)[at].width == 0 && at > 0 then at - 1 else at;
              && OnlyRow(m, n, m.cur.row) && n.cur == m.cur
              && Active(n).grid[m.cur.row] == Active(m).grid[m.cur.row].(cells := Active(n).grid[m.cur.row].cells)
              && (j < Active(m).cols ==>
                    Active(n).grid[m.cur.row].cells[j] ==
                    if j == head then Here(m)[j].(extra := Here(m)[j].extra + [MapCharset(m.cur, c)]) else Here(m)[j])
  {
    hide MapCharset;
    PutsBack(m);
    if m.cur.pendingWrap || m.cur.col > 0 { PutsScreen(m, Combine(View(m), MapCharset(m.cur, c))); }
  }

  // ---- controls -------------------------------------------------------------------

  /** BS, HT, CR, SO, SI and HTS; every other control but the line feeds changes nothing. */
  lemma {:induction false} ControlsDo(w: Widths, o: World, m: Machine, b: byte) returns (c: nat)
    requires MachineOk(m)
    ensures var n, row, col := Dispatch(w, o, m, Execute(b)), m.cur.row, m.cur.col;
            && (b == 0x08 ==> Moved(m, n, row, if col > 0 then col - 1 else 0))
            && (b == 0x09 ==> Tabbed(m.tabs, col, 1, c) && Moved(m, n, row, c))
            && (b == 0x0D ==> Moved(m, n, row, 0))
            && (b == 0x0E ==> n == m.(cur := m.cur.(shift := 1)))
            && (b == 0x0F ==> n == m.(cur := m.cur.(shift := 0)))
            && (b == 0x88 ==> n == m.(tabs := m.tabs[col := true]))
            && (b !in {0x08, 0x09, 0x0A, 0x0B, 0x0C, 0x0D, 0x0E, 0x0F, 0x84, 0x85, 0x88, 0x8D} ==> n == m)
  {
    hide Tabbed, NextTab, Index, ReverseIndex;
    PutsBack(m);
    c := NextTab(m.tabs, m.cur.col, Active(m).cols);
    OneTab(View(m));
  }

  lemma {:induction false} OneTab(d: Draw)
    requires DrawOk(d)
    ensures Tabbed(d.tabs, d.cur.col, 1, NextTab(d.tabs, d.cur.col, d.scr.cols))
  {
    var next := NextTab(d.tabs, d.cur.col, d.scr.cols);
    TabbedOn(d.tabs, d.cur.col, 1, next, next);
  }

  /** The cursor in the first column. */
  function AtStart(m: Machine): (r: Machine)
    requires MachineOk(m)
    ensures MachineOk(r)
  {
    m.(cur := m.cur.(col := 0))
  }

  /** LF, VT and FF go a line down, in new-line mode to its start; IND, NEL and RI. */
  lemma {:induction false} FeedsDo(w: Widths, o: World, m: Machine, b: byte) returns (n: Machine)
    requires MachineOk(m) && b in {0x0A, 0x0B, 0x0C, 0x84, 0x85, 0x8D}
    ensures b in {0x0A, 0x0B, 0x0C} ==>
              LineFed(m, n) && Dispatch(w, o, m, Execute(b)) == if m.modes.lnm then n.(cur := n.cur.(col := 0)) else n
    ensures b == 0x84 ==> LineFed(m, n) && Dispatch(w, o, m, Execute(b)) == n
    ensures b == 0x85 ==> LineFed(AtStart(m), n) && Dispatch(w, o, m, Execute(b)) == n
    ensures b == 0x8D ==> LineBack(m, n) && Dispatch(w, o, m, Execute(b)) == n
  {
    hide LineFed, LineBack, Index, ReverseIndex;
    var d := View(m);
    if b == 0x8D {
      n := Put(m, ReverseIndex(d));
      ReverseFeeds(m);
    } else if b == 0x85 {
      var f := d.(cur := d.cur.(col := 0));
      n := Put(m, Index(f));
      PutTwice(m, f, Index(f));
      IndexFeeds(AtStart(m));
    } else {
      n := Put(m, Index(d));
      IndexFeeds(m);
      IndexPlain(d);
    }
  }

  // ---- escape sequences -------------------------------------------------------------

  /** Saving keeps cursor and origin mode, for the screen in use. */
  function Saved1(m: Machine): SavedCursor {
    SavedCursor(m.cur, m.modes.origin)
  }

  ghost predicate SavesCursor(m: Machine, n: Machine) {
    n == if m.altActive then m.(savedAlt := Saved1(m)) else m.(savedPrimary := Saved1(m))
  }

  /** Restoring gives them back, on a smaller screen as near as it goes, in origin mode within the margins. */
  ghost predicate RestoresCursor(m: Machine, n: Machine) {
    var s, rows, cols := if m.altActive then m.savedAlt else m.savedPrimary, Active(m).rows, Active(m).cols;
    && n == m.(cur := n.cur, modes := m.modes.(origin := s.origin))
    && n.cur == s.cursor.(row := n.cur.row, col := n.cur.col)
    && n.cur.col == (if s.cursor.col < cols then s.cursor.col else cols - 1)
    && var row := if s.cursor.row < rows then s.cursor.row else rows - 1;
       n.cur.row == (if !s.origin || m.top <= row <= m.bot then row else if row < m.top then m.top else m.bot)
  }

  lemma {:induction false} EscapesDo(w: Widths, o: World, m: Machine, final: byte, n: Machine)
    requires MachineOk(m) && n == Dispatch(w, o, m, Esc([], final))
    ensures final == '7' as int ==> SavesCursor(m, n)
    ensures final == '8' as int ==> RestoresCursor(m, n)
    ensures final == 'D' as int ==> LineFed(m, n)
    ensures final == 'E' as int ==> LineFed(AtStart(m), n)
    ensures final == 'M' as int ==> LineBack(m, n)
    ensures final == 'H' as int ==> n == m.(tabs := m.tabs[m.cur.col := true])
  {
    hide LineFed, LineBack, Index, ReverseIndex;
    if final == 'D' as int {
      IndexFeeds(m);
    } else if final == 'M' as int {
      ReverseFeeds(m);
    } else if final == 'E' as int {
      var d := View(m);
      var f := d.(cur := d.cur.(col := 0));
      PutTwice(m, f, Index(f));
      IndexFeeds(AtStart(m));
    }
  }

  /** SCOSC and SCORC, DECSET and DECRST 1048 do the same. */
  lemma {:induction false} SavesAlike(w: Widths, o: World, m: Machine)
    requires MachineOk(m)
    ensures SavesCursor(m, Csi0(w, o, m, [], 0, 's')) && RestoresCursor(m, Csi0(w, o, m, [], 0, 'u'))
    ensures SavesCursor(m, SetDecMode(m, 1048, true)) && RestoresCursor(m, SetDecMode(m, 1048, false))
  {
  }

  /** What was saved comes back: nothing done in between to the saved cursor, the size or the margins, the
      cursor is the old one, in origin mode exactly if it lay within the margins. */
  lemma {:induction false} SaveRestore(m: Machine, s: Machine, t: Machine, n: Machine)
    requires MachineOk(m) && SavesCursor(m, s) && RestoresCursor(t, n)
    requires t.altActive == s.altActive && t.savedPrimary == s.savedPrimary && t.savedAlt == s.savedAlt
    requires Active(t).rows == Active(m).rows && Active(t).cols == Active(m).cols
    ensures n.modes.origin == m.modes.origin
    ensures n.cur == m.cur <==> !m.modes.origin || t.top <= m.cur.row <= t.bot
  {
  }

  /** Designating a charset for G0 or G1; DECALN fills the screen with E. */
  lemma {:induction false} Designates(w: Widths, o: World, m: Machine, final: byte)
    requires MachineOk(m)
    ensures var chars := if final == '0' as int then DecSpecial else if final == 'A' as int then Uk else Ascii;
            && Dispatch(w, o, m, Esc([0x28], final)) == m.(cur := m.cur.(g0 := chars))
            && Dispatch(w, o, m, Esc([0x29], final)) == m.(cur := m.cur.(g1 := chars))
  {
  }

  lemma {:induction false} AlignFills(w: Widths, o: World, m: Machine, r: nat, c: nat)
    requires MachineOk(m) && r < Active(m).rows && c < Active(m).cols
    ensures var n := Dispatch(w, o, m, Esc([0x23], '8' as int));
            && MachineOk(n) && Active(n).rows == Active(m).rows && Active(n).cols == Active(m).cols
            && Active(n).grid[r].cells[c] == Cell('E', PLAIN, 1, "", 0)
            && Active(n).grid[r].wrapped == Active(m).grid[r].wrapped
            && Active(n).grid[r].mark == Active(m).grid[r].mark
            && Active(n).scrollback == Active(m).scrollback
            && n == WithActive(m, Active(n)).(top := 0, bot := Active(m).rows - 1, modes := m.modes.(origin := false),
                                              cur := m.cur.(row := 0, col := 0, pendingWrap := false))
  {
  }

  // ---- resets -----------------------------------------------------------------------

  /** RIS: as new, but for the scrollback and the strings counted. */
  lemma {:induction false} RisResets(w: Widths, o: World, m: Machine)
    requires MachineOk(m)
    ensures var n := Dispatch(w, o, m, Esc([], 'c' as int));
            var f := Fresh(m.primary.rows, m.primary.cols, m.primary.maxScrollback);
            n == f.(strings := m.strings, primary := f.primary.(scrollback := m.primary.scrollback),
                    alt := f.alt.(scrollback := m.alt.scrollback, maxScrollback := m.alt.maxScrollback))
  {
  }

  /** DECSTR: margins, origin, insert and autowrap off, a plain pen, default charsets and nothing saved for
      the screen in use; the cursor stays, and so does what is on the screens. */
  lemma {:induction false} DecstrResets(w: Widths, o: World, m: Machine)
    requires MachineOk(m)
    ensures var n := Dispatch(w, o, m, Csi([], [0x21], 0, 'p' as int));
            && n.primary == m.primary && n.alt == m.alt && n.altActive == m.altActive && n.tabs == m.tabs
            && n.top == 0 && n.bot == m.primary.rows - 1
            && n.modes == m.modes.(origin := false, insert := false, autowrap := false)
            && n.cur == Cursor(m.cur.row, m.cur.col, false, PLAIN, 0, Ascii, Ascii, 0)
            && (if m.altActive then n.savedAlt == NOTHING_SAVED && n.savedPrimary == m.savedPrimary
                else n.savedPrimary == NOTHING_SAVED && n.savedAlt == m.savedAlt)
  {
  }

  // ---- modes ------------------------------------------------------------------------

  /** One mode after the other. */
  lemma {:induction false} ModesInTurn(w: Widths, o: World, m: Machine, p: seq<nat>, ps: seq<seq<nat>>, on: bool)
    requires MachineOk(m) && p != []
    ensures var final := if on then 'h' else 'l';
            Csi0(w, o, m, [p] + ps, '?' as int, final) == Csi0(w, o, SetDecMode(m, p[0], on), ps, '?' as int, final)
    ensures Csi0(w, o, m, [], '?' as int, if on then 'h' else 'l') == m
  {
    hide SetDecMode;
    assert ([p] + ps)[1..] == ps;
  }

  /** DECOM homes; DECAWM forgets a pending wrap when turned off. */
  lemma {:induction false} ModesSet(m: Machine, on: bool)
    requires MachineOk(m)
    ensures SetDecMode(m, 6, on) ==
            m.(modes := m.modes.(origin := on),
              cur := m.cur.(row := if on then m.top else 0, col := 0, pendingWrap := false))
    ensures SetDecMode(m, 7, on) ==
            m.(modes := m.modes.(autowrap := on), cur := m.cur.(pendingWrap := on && m.cur.pendingWrap))
    ensures SetDecMode(m, 40, on) == m.(modes := m.modes.(allowColumns := on))
    ensures SetDecMode(m, 95, on) == m.(modes := m.modes.(keepOnColumns := on))
  {
  }

  /** Homed, with full margins, and cleared unless mode 95 is on. */
  ghost predicate Emptied(r: Machine, n: Machine) {
    && Active(r).rows >= 1 && n == WithActive(r, Active(n)).(top := 0, bot := Active(r).rows - 1,
                                      cur := r.cur.(row := 0, col := 0, pendingWrap := false))
    && Active(n) == Active(r).(grid := Active(n).grid) && |Active(n).grid| == |Active(r).grid|
    && (if r.modes.keepOnColumns then Active(n) == Active(r)
        else forall i | 0 <= i < |Active(n).grid| :: WipedRow(r, Active(n).grid[i]))
  }

  lemma {:induction false} HomesEmpty(r: Machine)
    requires MachineOk(r)
    ensures Emptied(r, Homed(r))
  {
  }

  /** DECCOLM, where allowed: resized to 132 or 80 columns, then emptied. */
  lemma {:induction false} ColumnsSet(m: Machine, on: bool)
    requires MachineOk(m)
    ensures !m.modes.allowColumns ==> SetDecMode(m, 3, on) == m
    ensures m.modes.allowColumns ==>
              Emptied(Resized(m.(modes := m.modes.(columns132 := on)), m.primary.rows, if on then 132 else 80),
                SetDecMode(m, 3, on))
  {
    hide Resized, Emptied, Homed;
    if m.modes.allowColumns {
      HomesEmpty(Resized(m.(modes := m.modes.(columns132 := on)), m.primary.rows, if on then 132 else 80));
    }
  }

  // ---- two screens --------------------------------------------------------------------

  /** Entering the alternate screen: with 1049 the cursor is saved and the screen cleared. */
  lemma {:induction false} AltEnters(m: Machine, mode: nat)
    requires MachineOk(m) && !m.altActive && mode in {47, 1047, 1049}
    ensures var n := SetDecMode(m, mode, true);
            && n == m.(altActive := true, cur := m.cur.(pendingWrap := false),
               alt := n.alt, savedPrimary := n.savedPrimary)
            && n.savedPrimary == (if mode == 1049 then Saved1(m) else m.savedPrimary)
            && n.alt == m.alt.(grid := n.alt.grid) && (mode != 1049 ==> n.alt == m.alt)
            && (mode == 1049 ==> forall i | 0 <= i < m.alt.rows :: i < |n.alt.grid| && WipedRow(m, n.alt.grid[i]))
    ensures var n := SetDecMode(m, mode, false); n == m.(cur := m.cur.(pendingWrap := false))
  {
  }

  /** Leaving it: with 1047 it is cleared first, with 1049 the cursor comes back. */
  lemma {:induction false} AltLeaves(m: Machine, mode: nat)
    requires MachineOk(m) && m.altActive && mode in {47, 1047, 1049}
    ensures var n := SetDecMode(m, mode, false);
            && !n.altActive && n.primary == m.primary && n.savedPrimary == m.savedPrimary && n.savedAlt == m.savedAlt
            && n.alt == m.alt.(grid := n.alt.grid) && (mode != 1047 ==> n.alt == m.alt)
            && (mode == 1047 ==> forall i | 0 <= i < m.alt.rows :: i < |n.alt.grid| && WipedRow(m, n.alt.grid[i]))
            && (if mode == 1049 then
                  exists r :: RestoresCursor(m.(altActive := false), r) && n == r.(cur := r.cur.(pendingWrap := false))
                else n.cur == m.cur.(pendingWrap := false) && n.modes == m.modes)
    ensures var n := SetDecMode(m, mode, true); n == m.(cur := m.cur.(pendingWrap := false))
  {
    if mode == 1049 { assert RestoresCursor(m.(altActive := false), RestoreCursor(m.(altActive := false))); }
  }

  /** Actions that neither switch the screen nor reset or resize it. */
  predicate Stays(a: Action) {
    && !(a.Esc? && a.final == 'c' as int)
    && (a.Csi? && a.mark == '?' as int ==> forall p | p in a.params && p != [] :: p[0] !in {3, 47, 1047, 1049})
  }

  /** The screen not in use, and what is saved for it. */
  ghost predicate OtherKept(m: Machine, n: Machine) {
    && n.altActive == m.altActive
    && (if m.altActive then n.primary == m.primary && n.savedPrimary == m.savedPrimary
        else n.alt == m.alt && n.savedAlt == m.savedAlt)
  }

  lemma {:induction false} ModesKeep(m: Machine, ps: seq<seq<nat>>, on: bool)
    requires MachineOk(m) && forall p | p in ps && p != [] :: p[0] !in {3, 47, 1047, 1049}
    ensures OtherKept(m, SetDecModes(m, ps, on))
    decreases |ps|
  {
    if ps != [] {
      var n := SetDecMode(m, Sgr.First(ps[0]), on);
      ModeKeeps(m, ps[0], on);
      hide SetDecMode;
      assert ps[0] in ps && forall p | p in ps[1..] :: p in ps;
      ModesKeep(n, ps[1..], on);
    }
  }

  lemma {:induction false} ModeKeeps(m: Machine, p: seq<nat>, on: bool)
    requires MachineOk(m) && (p != [] ==> p[0] !in {3, 47, 1047, 1049})
    ensures OtherKept(m, SetDecMode(m, Sgr.First(p), on))
  {
    hide MoveTo;
  }

  lemma {:induction false} PutKeeps(m: Machine, e: Draw)
    requires MachineOk(m) && DrawOk(e) && SameSize(e, View(m))
    ensures OtherKept(m, Put(m, e))
  {
  }

  /** Nothing but a switch or a reset touches the screen not in use. */
  lemma {:induction false} OtherUntouched(w: Widths, o: World, m: Machine, a: Action)
    requires MachineOk(m) && Stays(a)
    ensures OtherKept(m, Dispatch(w, o, m, a))
  {
    hide Put, CsiDraw, Drawing.Print, Control, OtherKept, SetDecModes, PrintAll, Index,
      ReverseIndex, Align, Machines.OscStep, Machines.ApcStep, Machines.EscStep, Machines.CsiStep;
    match a
    case Print(c) => PutKeeps(m, Drawing.Print(w, View(m), c));
    case Execute(b) => PutKeeps(m, Control(View(m), b));
    case Csi(ps, ims, mark, final) => CsiKeeps(w, m, ps, FirstByte(ims), mark, final);
    case Esc(ims, final) => EscKeeps(m, FirstByte(ims), final);
    case Osc(data, _) => OscKeeps(w, m, o.osc(m.strings, data));
    case Apc(data) => ApcKeeps(m, o.apc(m.strings, data));
    case Dcs(_, _, _, _) => NothingDone(m);
  }

  lemma {:induction false} NothingDone(m: Machine)
    ensures OtherKept(m, m)
  {
  }

  lemma {:induction false} CsiKeeps(w: Widths, m: Machine, ps: seq<seq<nat>>, im: Option<byte>, mark: byte, final: byte)
    requires MachineOk(m)
    requires mark == '?' as int ==> forall p | p in ps && p != [] :: p[0] !in {3, 47, 1047, 1049}
    ensures OtherKept(m, Machines.CsiStep(w, m, ps, im, mark, final))
  {
    hide CsiDraw, SetDecModes;
    PutKeeps(m, CsiDraw(w, View(m), ps, im, mark, final));
    if mark == '?' as int { ModesKeep(m, ps, Is(final, 'h')); }
  }

  lemma {:induction false} EscKeeps(m: Machine, im: Option<byte>, final: byte)
    requires MachineOk(m) && final != 'c' as int
    ensures OtherKept(m, Machines.EscStep(m, im, final))
  {
    hide Index, ReverseIndex, Align;
    var d := View(m);
    PutKeeps(m, Index(d));
    PutKeeps(m, Index(d.(cur := d.cur.(col := 0))));
    PutKeeps(m, ReverseIndex(d));
    PutKeeps(m, Align(d));
  }

  lemma {:induction false} OscKeeps(w: Widths, m: Machine, e: Effect)
    requires MachineOk(m)
    ensures OtherKept(m, Machines.OscStep(w, m.(strings := m.strings + 1), e))
  {
    hide PrintAll, CursorTo;
  }

  lemma {:induction false} ApcKeeps(m: Machine, advance: Option<(nat, nat)>)
    requires MachineOk(m)
    ensures OtherKept(m, Machines.ApcStep(m.(strings := m.strings + 1), advance))
  {
  }

  lemma {:induction false} OthersUntouched(w: Widths, o: World, m: Machine, acts: seq<Action>)
    requires MachineOk(m) && forall a | a in acts :: Stays(a)
    ensures OtherKept(m, DispatchAll(w, o, m, acts))
    decreases |acts|
  {
    hide Dispatch;
    if acts != [] {
      OtherUntouched(w, o, m, acts[0]);
      OthersUntouched(w, o, Dispatch(w, o, m, acts[0]), acts[1..]);
    }
  }

  /** A program that runs on the alternate screen leaves no trace on the primary one: entered and left by
      1049, whatever it does there but switch, reset or resize, gives the primary screen, its scrollback and
      the cursor back, and only a pending wrap is forgotten; in origin mode the cursor must lie within the
      margins the program leaves. */
  lemma {:induction false} AppLeavesNoTrace(w: Widths, o: World, m: Machine, acts: seq<Action>)
    requires MachineOk(m) && !m.altActive && forall a | a in acts :: Stays(a)
    ensures var t := DispatchAll(w, o, SetDecMode(m, 1049, true), acts);
            var n := SetDecMode(t, 1049, false);
            && !n.altActive && n.primary == m.primary && n.modes.origin == m.modes.origin
            && (n.cur == m.cur.(pendingWrap := false) <==> !m.modes.origin || t.top <= m.cur.row <= t.bot)
  {
    hide DispatchAll, SetDecMode;
    var a := SetDecMode(m, 1049, true);
    AltEnters(m, 1049);
    OthersUntouched(w, o, a, acts);
    var t := DispatchAll(w, o, a, acts);
    AltLeaves(t, 1049);
    var n := SetDecMode(t, 1049, false);
    var r :| RestoresCursor(t.(altActive := false), r) && n == r.(cur := r.cur.(pendingWrap := false));
    SaveRestore(m, m.(savedPrimary := Saved1(m)),
      t.(altActive := false, savedAlt := m.savedAlt), r.(savedAlt := m.savedAlt));
  }

  // ---- resizing -------------------------------------------------------------------------

  /** A resize rewraps the primary screen and cuts or pads the alternate one; margins become full, tab
      stops within the old width stay and others stand at every eighth column. */
  lemma {:induction false} ResizeDoes(m: Machine, rows: nat, cols: nat, c: nat)
    requires MachineOk(m) && 1 <= rows <= 0xFFFF && 1 <= cols <= 0xFFFF
             && (rows != m.primary.rows || cols != m.primary.cols)
    ensures var n, here := Resized(m, rows, cols), Spot(m.cur.row, m.cur.col);
            var (p, pc) := Resize(m.primary, rows, cols, if m.altActive then Spot(0, 0) else here, true);
            var (a, ac) := Resize(m.alt, rows, cols, if m.altActive then here else Spot(0, 0), false);
            var at := if m.altActive then ac else pc;
            && n == m.(primary := p, alt := a, top := 0, bot := rows - 1, tabs := n.tabs, cur := n.cur)
            && n.cur == m.cur.(row := if at.row < rows then at.row else rows - 1,
                               col := if at.col < cols then at.col else cols - 1, pendingWrap := false)
            && |n.tabs| == cols && (c < cols ==> n.tabs[c] == if c < |m.tabs| then m.tabs[c] else c % 8 == 0)
    ensures Resized(m, m.primary.rows, m.primary.cols) == m
  {
    hide Resize;
  }
}
