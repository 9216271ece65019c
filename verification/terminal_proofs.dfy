// Whole runs of the terminal: what no byte stream and no resize can break, which edits keep wide
// characters whole, and the serializer round trip through the complete machine.
module TerminalProofs {
  import opened Utf8
  import opened Cells
  import opened VtParser
  import opened VtParserProofs
  import opened Reflow
  import opened Screens
  import opened Drawing
  import opened Machines
  import opened Terminals
  import opened Dump
  import opened DumpProofs
  import opened DumpCursor
  import Sgr

  // ---- runs -----------------------------------------------------------------

  datatype Event = Feed(bytes: seq<byte>) | Resize(rows: nat, cols: nat)

  datatype Session = Session(parser: Fields, machine: Machine)

  ghost predicate EventOk(e: Event) {
    e.Resize? ==> e.rows <= 0xFFFF && e.cols <= 0xFFFF
  }

  function React(w: Widths, o: World, s: Session, e: Event): (r: Session)
    requires MachineOk(s.machine) && EventOk(e)
    ensures MachineOk(r.machine)
  {
    match e
    case Feed(bytes) =>
      var (q, acts) := ParseAll(s.parser, bytes);
      Session(q, DispatchAll(w, o, s.machine, acts))
    case Resize(rows, cols) => s.(machine := Resized(s.machine, rows, cols))
  }

  function Run(w: Widths, o: World, s: Session, events: seq<Event>): (r: Session)
    requires MachineOk(s.machine) && forall e <- events :: EventOk(e)
    ensures MachineOk(r.machine)
    decreases |events|
  {
    if events == [] then s else Run(w, o, React(w, o, s, events[0]), events[1..])
  }

  /** What holds of a terminal at all times, spelled out. */
  ghost predicate Healthy(m: Machine, maxScrollback: nat) {
    && m.primary.rows == m.alt.rows && m.primary.cols == m.alt.cols && m.primary.rows >= 1 && m.primary.cols >= 1
    && |m.primary.grid| == |m.alt.grid| == m.primary.rows
    && (forall i | 0 <= i < |m.primary.grid| :: |m.primary.grid[i].cells| == m.primary.cols)
    && (forall i | 0 <= i < |m.alt.grid| :: |m.alt.grid[i].cells| == m.primary.cols)
    && (forall i | 0 <= i < |m.primary.scrollback| :: |m.primary.scrollback[i].cells| == m.primary.cols)
    && |m.primary.scrollback| <= maxScrollback && m.alt.scrollback == []
    && m.cur.row < m.primary.rows && m.cur.col < m.primary.cols
    && m.top <= m.bot < m.primary.rows && |m.tabs| == m.primary.cols
  }

  lemma {:induction false} RunKeeps(w: Widths, o: World, s: Session, events: seq<Event>)
    requires MachineOk(s.machine) && Bounded(s.parser) && forall e <- events :: EventOk(e)
    ensures var r := Run(w, o, s, events);
            MachineOk(r.machine) && Bounded(r.parser) && SameLimits(r.machine, s.machine)
    decreases |events|
  {
    hide DispatchAll, ParseAll, MachineOk, Bounded, Resized;
    if events != [] {
      var e := events[0];
      if e.Feed? {
        ParseBounded(s.parser, e.bytes);
      }
      RunKeeps(w, o, React(w, o, s, e), events[1..]);
    }
  }

  /** Any bytes, in any portions, interleaved with any resizes, from a new terminal of any size. */
  lemma {:induction false} AlwaysHealthy(w: Widths, o: World, rows: nat, cols: nat, maxScrollback: nat,
      events: seq<Event>)
    requires rows <= 0xFFFF && cols <= 0xFFFF && forall e <- events :: EventOk(e)
    ensures Healthy(Run(w, o, Session(FRESH, Machines.Fresh(rows, cols, maxScrollback)), events).machine, maxScrollback)
  {
    hide Run;
    RunKeeps(w, o, Session(FRESH, Machines.Fresh(rows, cols, maxScrollback)), events);
  }

  /** Where the stream is cut into `process` calls does not matter. */
  lemma {:induction false} FeedSplits(w: Widths, o: World, s: Session, a: seq<byte>, b: seq<byte>)
    requires MachineOk(s.machine)
    ensures React(w, o, s, Feed(a + b)) == React(w, o, React(w, o, s, Feed(a)), Feed(b))
  {
    hide ParseAll, DispatchAll, MachineOk;
    ParseAppend(s.parser, a, b);
    DispatchSplit(w, o, s.machine, ParseAll(s.parser, a).1, ParseAll(ParseAll(s.parser, a).0, b).1);
  }

  // ---- wide characters ------------------------------------------------------

  /** One repair pass makes any row well-formed. */
  lemma {:induction false} RepairPairs(cells: seq<Cell>, style: Style)
    ensures Paired(Repaired(cells, style))
  {
    var r := Repaired(cells, style);
    forall i | 0 <= i < |r|
      ensures !Orphan(r, i)
    {
      if i + 1 < |r| { assert r[i + 1] == if Orphan(cells, i + 1) then Blank(style) else cells[i + 1]; }
      if i > 0 { assert r[i - 1] == if Orphan(cells, i - 1) then Blank(style) else cells[i - 1]; }
    }
  }

  /** A pass changes nothing exactly on rows that are well-formed; so a second pass never does. */
  lemma {:induction false} RepairSettles(cells: seq<Cell>, style: Style)
    ensures Repaired(cells, style) == cells <==> Paired(cells)
    ensures Repaired(Repaired(cells, style), style) == Repaired(cells, style)
  {
    RepairPairs(cells, style);
    if Paired(cells) { assert Repaired(cells, style) == cells; }
    var r := Repaired(cells, style);
    assert Repaired(r, style) == r;
  }

  /** Cleaning before a write blanks exactly the halves it would cut off. */
  lemma {:induction false} CleanedAt(cells: seq<Cell>, col: nat, w: nat, style: Style)
    requires col < |cells| && 1 <= w <= 2 && col + w <= |cells| && Paired(cells)
    ensures var t := Cleaned(cells, col, w, style);
            forall i | 0 <= i < |cells| && !(col <= i < col + w) ::
              t[i] == if (i + 1 == col && cells[col].width == 0) || (i == col + w && cells[i].width == 0)
                then Blank(style) else cells[i]
  {
    var first := if cells[col].width == 0 && col > 0 then cells[col - 1 := Blank(style)] else cells;
    var next := if first[col].width == 2 && col + 1 < |cells| then first[col + 1 := Blank(style)] else first;
    assert CleanFrom(first, col, w, style) == CleanFrom(next, col + 1, w - 1, style);
    assert !Orphan(cells, col);
    if col + 1 < |cells| { assert !Orphan(cells, col + 1); }
    if col + 2 < |cells| { assert !Orphan(cells, col + 2); }
    if w == 2 {
      var third := if next[col + 1].width == 2 && col + 2 < |cells| then next[col + 2 := Blank(style)] else next;
      assert CleanFrom(next, col + 1, 1, style) == CleanFrom(third, col + 2, 0, style);
    }
  }

  /** Writing a character that fits keeps a row well-formed, whatever it overwrites. */
  lemma {:induction false} WritePairs(cells: seq<Cell>, col: nat, c: char, w: Columns, style: Style, link: nat,
      erase: Style)
    requires col < |cells| && 1 <= w <= 2 && col + w <= |cells| && Paired(cells)
    ensures Paired(Written(cells, col, c, w, style, link, erase))
  {
    CleanedAt(cells, col, w, erase);
    var r := Written(cells, col, c, w, style, link, erase);
    assert r[col] == Cell(c, style, w, "", link) && (w == 2 ==> r[col + 1] == Spacer(style, link));
    assert forall i | 0 <= i < |cells| && !(col <= i < col + w) ::
      r[i] == if (i + 1 == col && cells[col].width == 0) || (i == col + w && cells[i].width == 0) then Blank(erase)
        else cells[i];
    hide Cleaned, Written;
    forall i | 0 <= i < |r|
      ensures !Orphan(r, i)
    {
      assert !Orphan(cells, i);
      assert !Orphan(cells, col);
      if i + 1 < |r| && !(col <= i + 1 < col + w) {
        assert r[i + 1].width == cells[i + 1].width || r[i + 1] == Blank(erase);
      }
      if i > 0 && !(col <= i - 1 < col + w) { assert r[i - 1].width == cells[i - 1].width || r[i - 1] == Blank(erase); }
    }
  }

  /** Whether erasing `from..to` blanks this cell. */
  predicate Hit(cells: seq<Cell>, i: nat, from: nat, to: nat, selective: bool)
    requires i < |cells|
  {
    from <= i < to && !(selective && cells[i].style.guarded)
  }

  /** EL, ED and ECH before repair: erasing a range, guarded cells spared or not, breaks a pair exactly
      when it blanks one half of it; without sparing, exactly when an end of the range cuts it. */
  lemma {:induction false} ErasePairs(cells: seq<Cell>, from: nat, to: nat, style: Style, selective: bool)
    requires from < to <= |cells| && Paired(cells)
    ensures Paired(Erased(cells, from, to, style, selective)) <==>
            forall i | 0 < i < |cells| && cells[i].width == 0 ::
              Hit(cells, i - 1, from, to, selective) == Hit(cells, i, from, to, selective)
    ensures Paired(Erased(cells, from, to, style, false)) <==>
            cells[from].width != 0 && (to < |cells| ==> cells[to].width != 0)
  {
    EraseSpares(cells, from, to, style, selective);
    EraseCuts(cells, from, to, style);
  }

  lemma {:induction false} EraseSpares(cells: seq<Cell>, from: nat, to: nat, style: Style, selective: bool)
    requires from < to <= |cells| && Paired(cells)
    ensures Paired(Erased(cells, from, to, style, selective)) <==>
            forall i | 0 < i < |cells| && cells[i].width == 0 ::
              Hit(cells, i - 1, from, to, selective) == Hit(cells, i, from, to, selective)
  {
    var r := Erased(cells, from, to, style, selective);
    assert forall i | 0 <= i < |r| :: r[i] == if Hit(cells, i, from, to, selective) then Blank(style) else cells[i];
    forall i | 0 < i < |cells| && cells[i].width == 0
      && Hit(cells, i - 1, from, to, selective) != Hit(cells, i, from, to, selective)
      ensures Orphan(r, i - 1) || Orphan(r, i)
    {
      assert !Orphan(cells, i);
    }
    forall i | 0 <= i < |r| && Orphan(r, i)
      ensures exists k | 0 < k < |cells| && cells[k].width == 0 ::
              Hit(cells, k - 1, from, to, selective) != Hit(cells, k, from, to, selective)
    {
      assert !Orphan(cells, i);
      var k := if r[i].width == 2 then i + 1 else i;
      assert cells[k].width == 0 && Hit(cells, k - 1, from, to, selective) != Hit(cells, k, from, to, selective);
    }
  }

  lemma {:induction false} EraseCuts(cells: seq<Cell>, from: nat, to: nat, style: Style)
    requires from < to <= |cells| && Paired(cells)
    ensures Paired(Erased(cells, from, to, style, false)) <==>
            cells[from].width != 0 && (to < |cells| ==> cells[to].width != 0)
  {
    var r := Erased(cells, from, to, style, false);
    assert !Orphan(cells, from);
    if cells[from].width == 0 { assert Orphan(r, from - 1); }
    if to < |cells| && cells[to].width == 0 { assert Orphan(r, to); }
    if cells[from].width != 0 && (to < |cells| ==> cells[to].width != 0) {
      forall i | 0 <= i < |r|
        ensures !Orphan(r, i)
      {
        assert !Orphan(cells, i);
      }
    }
  }

  /** A wide character that does not fit blanks the last cell: a head before it loses its spacer. */
  lemma {:induction false} EdgePairs(cells: seq<Cell>, style: Style)
    requires cells != [] && Paired(cells)
    ensures Paired(cells[|cells| - 1 := Blank(style)]) <==> cells[|cells| - 1].width != 0
  {
    var n := |cells|;
    EraseCuts(cells, n - 1, n, style);
    assert Erased(cells, n - 1, n, style, false) == cells[n - 1 := Blank(style)];
  }

  ghost predicate GridPaired(g: seq<Row>) {
    forall i | 0 <= i < |g| :: Paired(g[i].cells)
  }

  lemma {:induction false} IndexPairs(d: Draw)
    requires DrawOk(d) && GridPaired(d.scr.grid)
    ensures GridPaired(Index(d).scr.grid)
  {
    assert Paired(BlankRow(d.scr.cols, BlankStyle(d)).cells);
    hide Paired;
  }

  lemma {:induction false} WrapPairs(d: Draw)
    requires DrawOk(d) && GridPaired(d.scr.grid)
    ensures GridPaired(Drawing.WrapLine(d).scr.grid)
  {
    hide Paired;
    var e := Drawing.SetRow(d, CursorRow(d).(wrapped := true));
    IndexPairs(e.(cur := e.cur.(col := 0)));
  }

  lemma {:induction false} PutPairs(d: Draw, c: char, w: Columns)
    requires DrawOk(d) && GridPaired(d.scr.grid) && 1 <= w <= 2 && d.cur.col + w <= d.scr.cols
    ensures GridPaired(PutGlyph(d, c, w).scr.grid)
  {
    hide Paired, Written, Inserted, Repaired;
    var cells, erase := CursorRow(d).cells, BlankStyle(d);
    RepairPairs(Inserted(cells, d.cur.col, w, erase), erase);
    WritePairs(GlyphBase(d, w), d.cur.col, c, w, d.cur.style, d.cur.link, erase);
  }

  function GlyphBase(d: Draw, w: nat): (r: seq<Cell>)
    requires DrawOk(d)
  {
    var cells, erase := CursorRow(d).cells, BlankStyle(d);
    if d.modes.insert then Repaired(Inserted(cells, d.cur.col, w, erase), erase) else cells
  }

  /** Autowrap of a wide character over a spacer at the edge leaves half of the other one behind. */
  predicate TearsEdge(d: Draw, w: nat)
    requires DrawOk(d)
  {
    w == 2 && d.cur.col + 1 >= d.scr.cols && d.modes.autowrap && CursorRow(d).cells[d.cur.col].width == 0
  }

  /** Whether that row is still there, and still torn, after the character has been written: it may
      leave a region of one row, and on the last row below the region the character comes down on it. */
  predicate TornStays(d: Draw)
    requires DrawOk(d)
  {
    if d.cur.row == d.bot then d.top < d.bot else d.cur.row + 1 < d.scr.rows || (d.scr.cols >= 4 && !d.modes.insert)
  }

  /** On at least two columns, printing keeps every row well-formed exactly when no torn row stays. */
  lemma {:induction false} PrintPairs(d: Draw, c: char, w: Columns)
    requires DrawOk(d) && d.scr.cols >= 2 && GridPaired(d.scr.grid) && 1 <= w <= 2
    ensures var e := ResolveWrap(d);
            GridPaired(PrintGlyph(d, c, w).scr.grid) <==> !(TearsEdge(e, w) && TornStays(e))
  {
    hide GridPaired, PutGlyph, MakeRoom;
    ResolvePairs(d, c);
    var e := ResolveWrap(d.(last := Some(c)));
    if TearsEdge(e, w) {
      PrintTears(e, c);
    } else {
      RoomPairs(e, w);
      PutPairs(MakeRoom(e, w), c, w);
    }
  }

  lemma {:induction false} ResolvePairs(d: Draw, c: char)
    requires DrawOk(d) && GridPaired(d.scr.grid)
    ensures var e := ResolveWrap(d.(last := Some(c))); GridPaired(e.scr.grid) && e == ResolveWrap(d).(last := Some(c))
  {
    hide GridPaired, Drawing.WrapLine;
    var d1 := d.(last := Some(c));
    WrapPairs(d1.(cur := d1.cur.(pendingWrap := false)));
    ResolveLast(d, Some(c));
  }

  lemma {:induction false} RoomPairs(e: Draw, w: Columns)
    requires DrawOk(e) && e.scr.cols >= 2 && GridPaired(e.scr.grid) && 1 <= w <= 2 && !TearsEdge(e, w)
    ensures GridPaired(MakeRoom(e, w).scr.grid) && MakeRoom(e, w).cur.col + w <= e.scr.cols
  {
    hide Paired, Drawing.WrapLine;
    if w == 2 && e.cur.col + 1 >= e.scr.cols && e.modes.autowrap {
      EdgePairs(CursorRow(e).cells, BlankStyle(e));
      var cells := CursorRow(e).cells[e.cur.col := Blank(BlankStyle(e))];
      WrapPairs(Drawing.SetRow(e, CursorRow(e).(cells := cells)));
      WrapColumn(Drawing.SetRow(e, CursorRow(e).(cells := cells)));
    }
  }

  /** The row with its last cell blanked, where the soft wrap puts it and the cursor. */
  lemma {:induction false} Wraps(e: Draw, torn: Row)
    requires DrawOk(e) && e.scr.cols >= 2 && TearsEdge(e, 2)
    requires torn == CursorRow(e).(cells := CursorRow(e).cells[e.cur.col := Blank(BlankStyle(e))], wrapped := true)
    ensures var f, g := MakeRoom(e, 2), e.scr.grid[e.cur.row := torn];
            && f.cur.col == 0 && BlankStyle(f) == BlankStyle(e) && f.modes == e.modes
            && if e.cur.row == e.bot then
                 f.cur.row == e.bot && f.scr.grid == MovedUp(g, e.top, e.bot, 1, BlankRow(e.scr.cols, BlankStyle(e)))
               else f.scr.grid == g && f.cur.row == if e.cur.row + 1 < e.scr.rows then e.cur.row + 1 else e.cur.row
  {
    hide MovedUp, Saved;
    var cells := CursorRow(e).cells[e.cur.col := Blank(BlankStyle(e))];
    assert e.scr.grid[e.cur.row := CursorRow(e).(cells := cells)][e.cur.row := torn] == e.scr.grid[e.cur.row := torn];
  }

  lemma {:induction false} PutsAt(d: Draw, c: char, w: Columns)
    requires DrawOk(d)
    ensures var g, h := d.scr.grid, PutGlyph(d, c, w).scr.grid;
            && |h| == |g| && (forall i | 0 <= i < |g| && i != d.cur.row :: h[i] == g[i])
            && h[d.cur.row].cells == Written(GlyphBase(d, w), d.cur.col, c, w, d.cur.style, d.cur.link, BlankStyle(d))
  {
    hide Written, Inserted, Repaired;
  }

  /** A row whose last pair has lost its spacer, and a wide character written at its start. */
  lemma {:induction false} TornWritten(cells: seq<Cell>, style: Style, c: char, pen: Style, link: nat, erase: Style)
    requires |cells| >= 2 && Paired(cells) && cells[|cells| - 1].width == 0
    ensures var torn := cells[|cells| - 1 := Blank(style)];
            !Paired(torn) && (Paired(Written(torn, 0, c, 2, pen, link, erase)) <==> |cells| <= 3)
  {
    var n := |cells|;
    var torn := cells[n - 1 := Blank(style)];
    assert !Orphan(cells, n - 1) && !Orphan(cells, 0);
    assert Orphan(torn, n - 2);
    var next := if torn[0].width == 2 then torn[1 := Blank(erase)] else torn;
    assert CleanFrom(torn, 0, 2, erase) == CleanFrom(next, 1, 1, erase);
    var third := if next[1].width == 2 && 2 < n then next[2 := Blank(erase)] else next;
    assert CleanFrom(next, 1, 1, erase) == CleanFrom(third, 2, 0, erase) == third;
    var r := Written(torn, 0, c, 2, pen, link, erase);
    assert r == third[0 := Cell(c, pen, 2, "", link)][1 := Spacer(pen, link)];
    if n >= 4 {
      assert !Orphan(cells, 1);
      assert Orphan(r, n - 2);
    }
  }

  lemma {:induction false} PrintTears(e: Draw, c: char)
    requires DrawOk(e) && e.scr.cols >= 2 && GridPaired(e.scr.grid) && TearsEdge(e, 2)
    ensures GridPaired(PutGlyph(MakeRoom(e, 2), c, 2).scr.grid) <==> !TornStays(e)
  {
    var cells, style := CursorRow(e).cells, BlankStyle(e);
    var torn := CursorRow(e).(cells := cells[e.cur.col := Blank(style)], wrapped := true);
    Wraps(e, torn);
    var f := MakeRoom(e, 2);
    PutsAt(f, c, 2);
    TornWritten(cells, style, c, f.cur.style, f.cur.link, style);
    hide Paired, MakeRoom, PutGlyph, Written, Inserted, Repaired, MovedUp, BlankRow, GridPaired, DrawOk, GlyphBase;
    var g, h := f.scr.grid, PutGlyph(f, c, 2).scr.grid;
    if e.cur.row == e.bot {
      if e.top < e.bot {
        UpHolds(e.scr.grid[e.cur.row := torn], e.top, e.bot, BlankRow(e.scr.cols, style));
        HoldsTorn(h, e.bot - 1, torn.cells);
      } else {
        ScrolledPairs(e, torn);
        PutPairs(f, c, 2);
      }
    } else if e.cur.row + 1 < e.scr.rows {
      HoldsTorn(h, e.cur.row, torn.cells);
    } else {
      BaseOf(f, torn);
      OnlyRow(e.scr.grid, h, e.cur.row);
    }
  }

  lemma {:induction false} UpHolds(g: seq<Row>, top: nat, bot: nat, blank: Row)
    requires top < bot < |g|
    ensures MovedUp(g, top, bot, 1, blank)[bot - 1] == g[bot]
  {
  }

  lemma {:induction false} HoldsTorn(h: seq<Row>, i: nat, cells: seq<Cell>)
    requires i < |h| && h[i].cells == cells && !Paired(cells)
    ensures !GridPaired(h)
  {
    hide Paired;
  }

  lemma {:induction false} OnlyRow(g: seq<Row>, h: seq<Row>, row: nat)
    requires GridPaired(g) && |h| == |g| && row < |h| && forall i | 0 <= i < |h| && i != row :: h[i] == g[i]
    ensures GridPaired(h) <==> Paired(h[row].cells)
  {
    hide Paired;
  }

  /** What is written over on the cursor's own row: in insert mode a repaired one. */
  lemma {:induction false} BaseOf(f: Draw, torn: Row)
    requires DrawOk(f) && CursorRow(f) == torn && f.cur.col == 0 && f.scr.cols >= 2
    ensures if f.modes.insert then Paired(GlyphBase(f, 2)) else GlyphBase(f, 2) == torn.cells
    ensures f.modes.insert ==> forall c, pen, link, erase :: Paired(Written(GlyphBase(f, 2), 0, c, 2, pen, link, erase))
  {
    hide Paired, Written, Inserted, Repaired;
    if f.modes.insert {
      RepairPairs(Inserted(torn.cells, 0, 2, BlankStyle(f)), BlankStyle(f));
      forall c, pen, link, erase
        ensures Paired(Written(GlyphBase(f, 2), 0, c, 2, pen, link, erase))
      {
        WritePairs(GlyphBase(f, 2), 0, c, 2, pen, link, erase);
      }
    }
  }

  /** A region of one row scrolls the torn row out. */
  lemma {:induction false} ScrolledPairs(e: Draw, torn: Row)
    requires DrawOk(e) && GridPaired(e.scr.grid) && e.cur.row == e.bot == e.top && |torn.cells| == e.scr.cols
    ensures GridPaired(MovedUp(e.scr.grid[e.cur.row := torn], e.top, e.bot, 1, BlankRow(e.scr.cols, BlankStyle(e))))
  {
    var blank := BlankRow(e.scr.cols, BlankStyle(e));
    assert Paired(blank.cells);
    hide Paired;
    var g := e.scr.grid[e.cur.row := torn];
    assert MovedUp(g, e.top, e.bot, 1, blank) == e.scr.grid[e.bot := blank];
  }

  lemma {:induction false} WrapColumn(d: Draw)
    requires DrawOk(d)
    ensures Drawing.WrapLine(d).cur.col == 0
  {
    hide ScrollUp;
  }

  // ---- the round trip through the machine -----------------------------------

  /** The actions of a serialized screen do on the machine what they do on its active screen. */
  lemma {:induction false} DispatchDraws(w: Widths, o: World, m: Machine, a: Action)
    requires MachineOk(m) && IsDrawing(a)
    ensures Dispatch(w, o, m, a) == Put(m, Perform(w, View(m), a))
  {
    hide Drawing.Print, Control, MoveTo, CursorUp, CursorDown, CursorTo, Tabs, EraseDisplay, EraseLine, InsertLines,
         DeleteLines, DeleteChars, InsertChars, EraseChars, ScrollUpN, ScrollDownN, Repeat, LineTo, ClearTabs,
         AnsiModes, SetRegion, Sgr.Apply, SetDecModes, SaveCursor, RestoreCursor, SoftReset, ToRow;
  }

  lemma {:induction false} DispatchAllDraws(w: Widths, o: World, m: Machine, acts: seq<Action>)
    requires MachineOk(m) && AllDrawing(acts)
    ensures DispatchAll(w, o, m, acts) == Put(m, PerformAll(w, View(m), acts))
    decreases |acts|
  {
    hide Dispatch, Perform, Put, ScrOk;
    if acts == [] {
      Puts(m, View(m), View(m));
    } else {
      var d := Perform(w, View(m), acts[0]);
      DispatchDraws(w, o, m, acts[0]);
      Puts(m, d, PerformAll(w, d, acts[1..]));
      DispatchAllDraws(w, o, Put(m, d), acts[1..]);
    }
  }

  /** Feeding a terminal's flat dump to a new terminal of the same size shows the same grid and
      cursor exactly when every soft-wrapped row is followed by a row that prints something, no cell
      holds a DEL, and a pending wrap stands in the last column. */
  lemma {:induction false} DumpRestores(w: Widths, o: World, m: Machine, maxScrollback: nat)
    requires MachineOk(m) && Dumpable(w, View(m))
    ensures var f := Session(FRESH, Machines.Fresh(m.primary.rows, m.primary.cols, maxScrollback));
            var r := React(w, o, f, Feed(EncodeAll(FlatText(View(m))))).machine;
            r.primary.grid == Active(m).grid && r.cur == m.cur
            <==>
              && Flows(Active(m).grid) && NoDel(Active(m).grid)
              && (m.cur.pendingWrap ==> m.cur.col == m.primary.cols - 1)
  {
    var f := Machines.Fresh(m.primary.rows, m.primary.cols, maxScrollback);
    assert IsFresh(View(f));
    FlatRoundTrip(w, View(f), View(m));
    var acts := ParseText(FRESH, FlatText(View(m))).1;
    DispatchAllDraws(w, o, f, acts);
    hide FlatText, PerformAll, ParseAll, DispatchAll, Flows;
  }
}
