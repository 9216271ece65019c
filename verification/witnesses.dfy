// Concrete inputs, reached from a new terminal by bytes and resizes, on which the terminal differs
// from what one may expect of it.
module Witnesses {
  import opened Utf8
  import opened Cells
  import opened VtParser
  import opened VtParserProofs
  import opened Reflow
  import opened ReflowPath
  import ParserLaws
  import opened Screens
  import opened Drawing
  import opened Machines
  import opened DumpProofs
  import opened DumpCursor
  import opened TerminalProofs

  // ---- feeding text to a terminal -------------------------------------------

  function New(rows: nat, cols: nat): Session
    requires rows <= 0xFFFF && cols <= 0xFFFF
  {
    Session(FRESH, Machines.Fresh(rows, cols, 100))
  }

  /** Feeding what draws `e` on the active screen puts `e` there and leaves the parser idle. */
  lemma {:induction false} Feeds(w: Widths, o: World, s: Session, text: string, e: Draw) returns (r: Session)
    requires MachineOk(s.machine) && Idle(s.parser) && Draws(w, View(s.machine), text, e)
    ensures DrawOk(e) && SameSize(e, View(s.machine)) && Idle(r.parser)
    ensures r == React(w, o, s, Feed(EncodeAll(text))) && r.machine == Put(s.machine, e)
    ensures MachineOk(r.machine) && View(r.machine) == e
    ensures r.machine.primary.rows == s.machine.primary.rows && r.machine.primary.cols == s.machine.primary.cols
  {
    assert DrawOk(View(s.machine));
    hide MachineOk, PerformAll, DispatchAll, ParseAll, Put;
    assert DrawsFrom(w, View(s.machine), text, e, s.parser);
    DispatchAllDraws(w, o, s.machine, ParseText(s.parser, text).1);
    r := React(w, o, s, Feed(EncodeAll(text)));
    PutsBack(s.machine, e);
  }

  lemma {:induction false} PutsBack(m: Machine, e: Draw)
    requires MachineOk(m) && DrawOk(e) && SameSize(e, View(m))
    ensures View(Put(m, e)) == e && Put(m, e).primary.rows == m.primary.rows && Put(m, e).primary.cols == m.primary.cols
  {
  }

  // ---- small screens --------------------------------------------------------

  function Letter(c: char, w: Columns): Cell {
    Cell(c, PLAIN, w, "", 0)
  }

  /** The state of a new terminal with these rows, the cursor there, and nothing else changed. */
  function Typed(f: Draw, g: seq<Row>, row: nat, col: nat, pending: bool, last: Option<char>): Draw {
    f.(scr := f.scr.(grid := g), cur := HOME.(row := row, col := col, pendingWrap := pending), last := last)
  }

  ghost predicate Page(f: Draw, g: seq<Row>, row: nat, col: nat) {
    IsFresh(f) && |g| == f.scr.rows && RowsFit(g, f.scr.cols) && row < f.scr.rows && col < f.scr.cols
  }

  function Narrowly(g: seq<Row>, row: nat, col: nat, c: char): seq<Row>
    requires row < |g| && col < |g[row].cells|
  {
    g[row := g[row].(cells := g[row].cells[col := Letter(c, 1)])]
  }

  lemma {:induction false} WritesNarrow(cells: seq<Cell>, col: nat, c: char)
    requires col < |cells| && cells[col].width == 1
    ensures Written(cells, col, c, 1, PLAIN, 0, PLAIN) == cells[col := Letter(c, 1)]
  {
    assert CleanFrom(cells, col + 1, 0, PLAIN) == cells;
  }

  lemma {:induction false} WritesWide(cells: seq<Cell>, col: nat, c: char)
    requires col + 1 < |cells| && cells[col].width == 1 && cells[col + 1].width == 1
    ensures Written(cells, col, c, 2, PLAIN, 0, PLAIN) == cells[col := Letter(c, 2)][col + 1 := Spacer(PLAIN, 0)]
  {
    assert CleanFrom(cells, col + 2, 0, PLAIN) == cells;
    assert CleanFrom(cells, col + 1, 1, PLAIN) == cells;
  }

  /** A narrow character over a narrow cell. */
  lemma {:induction false} TypesNarrow(w: Widths, f: Draw, g: seq<Row>, row: nat, col: nat, last: Option<char>, c: char)
    requires Page(f, g, row, col) && w.Of(c) == 1 && 0x20 <= c as int < 0x7F && g[row].cells[col].width == 1
    ensures var d, n := Typed(f, g, row, col, false, last), f.scr.cols;
            && DrawOk(d)
            && Drawing.Print(w, d, c) ==
               Typed(f, Narrowly(g, row, col, c), row, if col + 1 < n then col + 1 else col, col + 1 >= n, Some(c))
  {
    WritesNarrow(g[row].cells, col, c);
    hide Written, Inserted, Repaired;
  }

  /** A wide character over narrow cells, with room for it. */
  lemma {:induction false} TypesWide(w: Widths, f: Draw, g: seq<Row>, row: nat, col: nat, last: Option<char>, c: char)
    requires Page(f, g, row, col) && w.Of(c) == 2 && col + 1 < f.scr.cols
    requires g[row].cells[col].width == 1 && g[row].cells[col + 1].width == 1
    ensures var d, n, cells := Typed(f, g, row, col, false, last), f.scr.cols, g[row].cells;
            var h := g[row := g[row].(cells := cells[col := Letter(c, 2)][col + 1 := Spacer(PLAIN, 0)])];
            DrawOk(d) && Drawing.Print(w, d, c) ==
              Typed(f, h, row, if col + 2 < n then col + 2 else n - 1, col + 2 >= n, Some(c))
  {
    WritesWide(g[row].cells, col, c);
    hide Written, Inserted, Repaired;
  }

  /** A pending wrap is carried out first. */
  lemma {:induction false} TypesWrapped(w: Widths, f: Draw, g: seq<Row>, row: nat, last: Option<char>, c: char)
    requires Page(f, g, row, 0) && row + 1 < f.scr.rows && w.Of(c) > 0 && 0x20 <= c as int < 0x7F
    ensures var d, h := Typed(f, g, row, f.scr.cols - 1, true, last), g[row := g[row].(wrapped := true)];
            DrawOk(d) && DrawOk(Typed(f, h, row + 1, 0, false, last))
            && Drawing.Print(w, d, c) == Drawing.Print(w, Typed(f, h, row + 1, 0, false, last), c)
  {
    hide Written, Inserted, Repaired, MakeRoom, PutGlyph;
  }

  lemma {:induction false} Moves(w: Widths, f: Draw, g: seq<Row>, row: nat, col: nat, pending: bool, last: Option<char>,
      to: nat, at: nat)
    requires Page(f, g, row, col) && to < f.scr.rows && at < f.scr.cols
    ensures var d := Typed(f, g, row, col, pending, last);
            && DrawOk(d) && DrawOk(Typed(f, g, to, at, false, last))
            && Draws(w, d, Dump.CupText(to, at), Typed(f, g, to, at, false, last))
  {
    DrawsCup(w, Typed(f, g, row, col, pending, last), to, at);
  }

  // ---- a soft wrap lost in a dump -------------------------------------------

  function Blank2(n: nat): seq<Row> {
    BlankRows(n, 2, PLAIN)
  }

  function Two(a: char, b: char, wrapped: bool): Row {
    Row([Letter(a, 1), Letter(b, 1)], wrapped, None)
  }

  /** Two letters at the start of row `row` of a two-column screen that is blank from there on. */
  lemma {:induction false} TypesPair(w: Widths, f: Draw, g: seq<Row>, row: nat, last: Option<char>, a: char, b: char)
    requires f.scr.cols == 2 && Page(f, g, row, 0) && |g[row].cells| == 2
             && g[row].cells[0].width == g[row].cells[1].width == 1
    requires w.Of(a) == w.Of(b) == 1 && 0x20 <= a as int < 0x7F && 0x20 <= b as int < 0x7F
    ensures var h := g[row := g[row].(cells := [Letter(a, 1), Letter(b, 1)])];
            DrawOk(Typed(f, g, row, 0, false, last)) && DrawOk(Typed(f, h, row, 1, true, Some(b)))
            && Draws(w, Typed(f, g, row, 0, false, last), [a, b], Typed(f, h, row, 1, true, Some(b)))
  {
    var d := Typed(f, g, row, 0, false, last);
    TypesNarrow(w, f, g, row, 0, last, a);
    var g1 := Narrowly(g, row, 0, a);
    TypesNarrow(w, f, g1, row, 1, Some(a), b);
    DrawsChar(w, d, a);
    DrawsChar(w, Drawing.Print(w, d, a), b);
    Then(w, d, [a], Drawing.Print(w, d, a), [b], Drawing.Print(w, Drawing.Print(w, d, a), b));
    assert Narrowly(g1, row, 1, b)[row].cells == [Letter(a, 1), Letter(b, 1)];
    assert Narrowly(g1, row, 1, b) == g[row := g[row].(cells := [Letter(a, 1), Letter(b, 1)])];
    assert [a] + [b] == [a, b];
  }

  /** "ab " from the start of a blank row: the blank that wrapped is all the next row holds. */
  lemma {:induction false} TypesOver(w: Widths, f: Draw, g: seq<Row>, row: nat, last: Option<char>)
    requires f.scr.cols == 2 && Page(f, g, row, 0) && row + 1 < f.scr.rows
    requires g[row] == BlankRow(2, PLAIN) && g[row + 1] == BlankRow(2, PLAIN)
    ensures var h := g[row := Two('a', 'b', true)];
            DrawOk(Typed(f, g, row, 0, false, last)) && DrawOk(Typed(f, h, row + 1, 1, false, Some(' ')))
            && Draws(w, Typed(f, g, row, 0, false, last), "ab ", Typed(f, h, row + 1, 1, false, Some(' ')))
  {
    var g1, h := g[row := Two('a', 'b', false)], g[row := Two('a', 'b', true)];
    TypesPair(w, f, g, row, last, 'a', 'b');
    assert g[row].(cells := [Letter('a', 1), Letter('b', 1)]) == Two('a', 'b', false);
    var e := Typed(f, g1, row, 1, true, Some('b'));
    TypesWrapped(w, f, g1, row, Some('b'), ' ');
    assert g1[row := g1[row].(wrapped := true)] == h;
    TypesNarrow(w, f, h, row + 1, 0, Some('b'), ' ');
    assert BlankRow(2, PLAIN).cells[0 := Letter(' ', 1)] == BlankRow(2, PLAIN).cells;
    assert Narrowly(h, row + 1, 0, ' ') == h;
    DrawsChar(w, e, ' ');
    Then(w, Typed(f, g, row, 0, false, last), ['a', 'b'], e, [' '], Typed(f, h, row + 1, 1, false, Some(' ')));
    assert ['a', 'b'] + [' '] == "ab ";
  }

  function Overrun(): Draw {
    Typed(View(New(2, 2).machine), [Two('a', 'b', true), BlankRow(2, PLAIN)], 1, 1, false, Some(' '))
  }

  lemma {:induction false} StartsBlank(rows: nat, cols: nat)
    requires 1 <= rows <= 0xFFFF && 1 <= cols <= 0xFFFF
    ensures var m := New(rows, cols).machine;
            && MachineOk(m) && Idle(New(rows, cols).parser) && IsFresh(View(m)) && m.primary.rows == rows
            && m.primary.cols == cols
            && View(m).scr.rows == rows && View(m).scr.cols == cols && Page(View(m), BlankRows(rows, cols, PLAIN), 0, 0)
            && View(m) == Typed(View(m), BlankRows(rows, cols, PLAIN), 0, 0, false, None)
  {
  }

  lemma {:induction false} Overruns(w: Widths, o: World) returns (r: Session)
    ensures r == React(w, o, New(2, 2), Feed(EncodeAll("ab "))) && MachineOk(r.machine) && Idle(r.parser)
    ensures DrawOk(Overrun()) && View(r.machine) == Overrun() && r.machine.primary.rows == r.machine.primary.cols == 2
  {
    hide *;
    StartsBlank(2, 2);
    OverrunDraws(w);
    r := Feeds(w, o, New(2, 2), "ab ", Overrun());
  }

  lemma {:induction false} OverrunDraws(w: Widths)
    ensures MachineOk(New(2, 2).machine) && DrawOk(View(New(2, 2).machine))
            && Draws(w, View(New(2, 2).machine), "ab ", Overrun())
  {
    hide Draws, Machines.Fresh, New, View, MachineOk, DrawOk, Page, Typed, IsFresh;
    var f := View(New(2, 2).machine);
    StartsBlank(2, 2);
    TypesOver(w, f, Blank2(2), 0, None);
    assert Blank2(2)[0 := Two('a', 'b', true)] == [Two('a', 'b', true), BlankRow(2, PLAIN)];
    assert f == Typed(f, Blank2(2), 0, 0, false, None);
  }

  lemma {:induction false} OverrunDumps(w: Widths)
    ensures DrawOk(Overrun()) && Dumpable(w, Overrun()) && !Flows(Overrun().scr.grid)
  {
    SmallRows(w);
    NotFlowing(Overrun().scr.grid);
  }

  /** On two rows of two columns "ab " leaves a soft wrap that nothing follows. Dumped and read back, it
      is gone. */
  lemma {:induction false} WrapLost(w: Widths, o: World)
    ensures var m := React(w, o, New(2, 2), Feed(EncodeAll("ab "))).machine;
            && Dumpable(w, View(m)) && !Flows(Active(m).grid)
            && var r := React(w, o, New(2, 2), Feed(EncodeAll(Dump.FlatText(View(m))))).machine;
               !(r.primary.grid == Active(m).grid && r.cur == m.cur)
  {
    hide Dumpable, Flows, Overrun, EncodeAll, React, Dump.FlatText, DrawOk;
    var r := Overruns(w, o);
    OverrunDumps(w);
    DumpRestores(w, o, r.machine, 100);
  }

  lemma {:induction false} SmallRows(w: Widths)
    ensures RowOk(w, Two('a', 'b', true)) && RowOk(w, BlankRow(2, PLAIN))
  {
  }

  lemma {:induction false} NotFlowing(g: seq<Row>)
    requires |g| == 2 && g[0].wrapped && g[1] == BlankRow(2, PLAIN)
    ensures !Flows(g)
  {
    BlankShows(2);
  }

  // ---- a DEL lost in a dump -------------------------------------------------

  const OSC_DATA := "66;;a\U{7F}"

  lemma {:induction false} AllPlain(data: seq<byte>)
    requires forall b | b in data :: b >= 0x20
    ensures ParserLaws.Plain(data) == data
  {
    if data != [] {
      assert data[0] in data && forall b | b in data[1..] :: b in data;
      AllPlain(data[1..]);
    }
  }

  function Deleted(): Draw {
    Typed(View(New(1, 2).machine),
      [Row([Letter('a', 1).(extra := [DEL]), Blank(PLAIN)], false, None)], 0, 1, false, Some('a'))
  }

  function LetterA(): seq<Row> {
    [Row([Letter('a', 1), Blank(PLAIN)], false, None)]
  }

  lemma {:induction false} TypesA(w: Widths, f: Draw)
    requires Page(f, Blank2(1), 0, 0) && f.scr.cols == 2 && f == Typed(f, Blank2(1), 0, 0, false, None)
    ensures Page(f, LetterA(), 0, 1) && DrawOk(f)
    ensures Drawing.Print(w, f, 'a') == Typed(f, LetterA(), 0, 1, false, Some('a'))
  {
    TypesNarrow(w, f, Blank2(1), 0, 0, None, 'a');
    hide Drawing.Print, Typed, DrawOk;
    assert Blank2(1)[0].cells[0 := Letter('a', 1)] == [Letter('a', 1), Blank(PLAIN)];
    assert Narrowly(Blank2(1), 0, 0, 'a') == LetterA();
  }

  lemma {:induction false} PrintsDel(w: Widths)
    ensures var f := View(New(1, 2).machine); DrawOk(f) && PrintAll(w, f, ['a', DEL]) == Deleted()
  {
    hide *;
    var f := View(New(1, 2).machine);
    StartsBlank(1, 2);
    DeletedIs();
    TypesA(w, f);
    JoinsDel(w, f, LetterA());
    PrintsBoth(w, f, Typed(f, LetterA(), 0, 1, false, Some('a')));
  }

  lemma {:induction false} DeletedIs()
    ensures Deleted() ==
      Typed(View(New(1, 2).machine),
        [Row([Letter('a', 1).(extra := [DEL]), Blank(PLAIN)], false, None)], 0, 1, false, Some('a'))
    ensures LetterA() == [Row([Letter('a', 1), Blank(PLAIN)], false, None)]
    ensures Blank2(1) == BlankRows(1, 2, PLAIN)
  {
  }

  lemma {:induction false} PrintsBoth(w: Widths, f: Draw, d: Draw)
    requires DrawOk(f) && DrawOk(d) && d == Drawing.Print(w, f, 'a')
    ensures PrintAll(w, f, ['a', DEL]) == Drawing.Print(w, d, DEL)
  {
    hide Drawing.Print;
    assert ['a', DEL][1..] == [DEL] && [DEL][1..] == [];
    assert PrintAll(w, d, [DEL]) == Drawing.Print(w, d, DEL);
  }

  lemma {:induction false} JoinsDel(w: Widths, f: Draw, g: seq<Row>)
    requires Page(f, g, 0, 1) && f.scr.cols == 2 && g == [Row([Letter('a', 1), Blank(PLAIN)], false, None)]
    ensures var d := Typed(f, g, 0, 1, false, Some('a'));
            && DrawOk(d)
            && Drawing.Print(w, d, DEL) ==
               Typed(f, [Row([Letter('a', 1).(extra := [DEL]), Blank(PLAIN)], false, None)], 0, 1, false, Some('a'))
  {
    assert g[0].cells[0].extra + [DEL] == [DEL];
    var c := Letter('a', 1).(extra := [DEL]);
    assert g[0].cells[0 := c] == [c, Blank(PLAIN)];
    assert g[0 := g[0].(cells := [c, Blank(PLAIN)])] == [Row([c, Blank(PLAIN)], false, None)];
  }

  lemma {:induction false} DeletedDumps(w: Widths)
    ensures DrawOk(Deleted()) && Dumpable(w, Deleted()) && !NoDel(Deleted().scr.grid)
  {
    assert DEL in Deleted().scr.grid[0].cells[0].extra;
  }

  /** A DEL that OSC 66 put beside a letter does not come back from a dump. */
  lemma {:induction false} DelLost(w: Widths, o: World)
    requires o.osc(0, EncodeAll(OSC_DATA)) == PutText(['a', DEL], 0)
    ensures var m := React(w, o, New(1, 2), Feed([0x1B, 0x5D] + EncodeAll(OSC_DATA) + [0x07])).machine;
            && Dumpable(w, View(m)) && !NoDel(Active(m).grid)
            && var r := React(w, o, New(1, 2), Feed(EncodeAll(Dump.FlatText(View(m))))).machine;
               !(r.primary.grid == Active(m).grid && r.cur == m.cur)
  {
    hide Dumpable, NoDel, Flows, Deleted, EncodeAll, React, Dump.FlatText, DrawOk, ParseAll, PrintAll;
    StartsBlank(1, 2);
    OscBytes();
    AllPlain(EncodeAll(OSC_DATA));
    ParserLaws.ParsesOsc(New(1, 2).parser, EncodeAll(OSC_DATA), 0x07);
    PrintsDel(w);
    var m := OscPrints(w, o);
    DeletedDumps(w);
    DumpRestores(w, o, m, 100);
  }

  lemma {:induction false} OscBytes()
    ensures var data := EncodeAll(OSC_DATA); |data| < MAX_OSC && forall b | b in data :: b >= 0x20
  {
    assert EncodeAll(OSC_DATA) == [0x36, 0x36, 0x3B, 0x3B, 0x61, 0x7F];
  }

  lemma {:induction false} OscPrints(w: Widths, o: World) returns (m: Machine)
    requires o.osc(0, EncodeAll(OSC_DATA)) == PutText(['a', DEL], 0) && MachineOk(New(1, 2).machine)
    requires ParseAll(New(1, 2).parser, [0x1B, 0x5D] + EncodeAll(OSC_DATA) + [0x07]).1 ==
             [Osc(EncodeAll(OSC_DATA), true)]
    requires DrawOk(View(New(1, 2).machine)) && PrintAll(w, View(New(1, 2).machine), ['a', DEL]) == Deleted()
    ensures m == React(w, o, New(1, 2), Feed([0x1B, 0x5D] + EncodeAll(OSC_DATA) + [0x07])).machine
    ensures MachineOk(m) && View(m) == Deleted() && m.primary.rows == 1 && m.primary.cols == 2
  {
    hide ParseAll, DispatchAll, PrintAll, EncodeAll, Deleted;
    DispatchOne(w, o, New(1, 2).machine, Osc(EncodeAll(OSC_DATA), true));
    m := Dispatch(w, o, New(1, 2).machine, Osc(EncodeAll(OSC_DATA), true));
  }

  // ---- a pending wrap away from the edge ------------------------------------

  lemma {:induction false} ParsesEsc(p: Fields, c: char)
    requires Idle(p) && (c == '7' || c == '8')
    ensures Idle(ParseText(p, [ESC, c]).0) && ParseText(p, [ESC, c]).1 == [Esc([], c as int)]
  {
    TextAscii(p, ESC);
    TextAscii(p.(state := Escape), c);
    TextAppend(p, [ESC], [c]);
    assert [ESC] + [c] == [ESC, c];
    assert [] + [Esc([], c as int)] == [Esc([], c as int)];
  }

  lemma {:induction false} DispatchOne(w: Widths, o: World, m: Machine, a: Action)
    requires MachineOk(m)
    ensures DispatchAll(w, o, m, [a]) == Dispatch(w, o, m, a)
  {
    hide Dispatch;
    assert [a][1..] == [];
  }

  /** DECSC or DECRC sent to an idle parser. */
  lemma {:induction false} SavesOrRestores(w: Widths, o: World, s: Session, c: char)
    requires MachineOk(s.machine) && Idle(s.parser) && (c == '7' || c == '8')
    ensures var r := React(w, o, s, Feed(EncodeAll([ESC, c])));
            Idle(r.parser) && r.machine == if c == '7' then SaveCursor(s.machine) else RestoreCursor(s.machine)
  {
    hide MachineOk, DispatchAll, SaveCursor, RestoreCursor, ParseAll;
    ParsesEsc(s.parser, c);
    DispatchOne(w, o, s.machine, Esc([], c as int));
  }

  /** DECSC, one column more, DECRC. */
  function Detour(m: Machine): (es: seq<TerminalProofs.Event>)
    requires MachineOk(m) && m.primary.cols < 0xFFFF
    ensures |es| == 3 && forall e <- es :: EventOk(e)
  {
    [Feed(EncodeAll([ESC, '7'])), Resize(m.primary.rows, m.primary.cols + 1), Feed(EncodeAll([ESC, '8']))]
  }

  lemma {:induction false} DetourIs(m: Machine)
    requires MachineOk(m) && m.primary.cols < 0xFFFF
    ensures var es := Detour(m);
            && es[0] == Feed(EncodeAll([ESC, '7'])) && es[2] == Feed(EncodeAll([ESC, '8']))
            && es[1] == Resize(m.primary.rows, m.primary.cols + 1) && forall e <- es :: EventOk(e)
  {
  }

  /** A saved pending wrap outlives a resize that moves the edge away from it. */
  lemma {:induction false} PendingStrays(w: Widths, o: World, s: Session)
    requires MachineOk(s.machine) && Idle(s.parser) && s.machine.primary.cols < 0xFFFF
    requires s.machine.cur.pendingWrap && s.machine.cur.col == s.machine.primary.cols - 1
    ensures var r := Run(w, o, s, Detour(s.machine));
            MachineOk(r.machine) && r.machine.cur.pendingWrap && r.machine.cur.col < r.machine.primary.cols - 1
  {
    hide *;
    var m, es := s.machine, Detour(s.machine);
    DetourIs(m);
    var s1 := React(w, o, s, es[0]);
    SavesOrRestores(w, o, s, '7');
    ResizesTo(w, o, s1, es[1]);
    var s2 := React(w, o, s1, es[1]);
    Restores(m, s2.machine);
    SavesOrRestores(w, o, s2, '8');
    ThreeSteps(w, o, s, es, s1, s2, React(w, o, s2, es[2]));
  }

  lemma {:induction false} ResizesTo(w: Widths, o: World, s: Session, e: TerminalProofs.Event)
    requires MachineOk(s.machine) && EventOk(e) && e.Resize?
    ensures e.rows <= 0xFFFF && e.cols <= 0xFFFF
            && React(w, o, s, e) == s.(machine := Resized(s.machine, e.rows, e.cols))
  {
  }

  lemma {:induction false} Restores(m: Machine, q: Machine)
    requires MachineOk(m) && m.cur.pendingWrap && m.cur.col == m.primary.cols - 1 && m.primary.cols < 0xFFFF
    requires q == Resized(SaveCursor(m), m.primary.rows, m.primary.cols + 1)
    ensures var r := RestoreCursor(q); r.cur.pendingWrap && r.cur.col < r.primary.cols - 1 && MachineOk(r)
  {
    hide Screens.Resize, ScrOk;
  }

  lemma {:induction false} ThreeSteps(w: Widths, o: World, s: Session, es: seq<TerminalProofs.Event>, s1: Session,
      s2: Session, s3: Session)
    requires MachineOk(s.machine) && |es| == 3 && forall e <- es :: EventOk(e)
    requires s1 == React(w, o, s, es[0]) && s2 == React(w, o, s1, es[1]) && s3 == React(w, o, s2, es[2])
    ensures Run(w, o, s, es) == s3
  {
    hide React, MachineOk;
    var rest := es[1..][1..];
    assert es[1..][0] == es[1] && rest[0] == es[2] && rest[1..] == [];
    assert Run(w, o, s2, rest) == s3;
    assert Run(w, o, s1, es[1..]) == s3;
  }

  /** "ab" on one row of two columns, and the detour: a pending wrap before the last column, which no
      printed cursor brings back. */
  lemma {:induction false} PendingLost(w: Widths, o: World)
    ensures var s := React(w, o, New(1, 2), Feed(EncodeAll("ab")));
            s.machine.primary.cols == 2 &&
            var r := Run(w, o, s, Detour(s.machine)).machine;
            MachineOk(r) && r.cur.pendingWrap && r.cur.col < r.primary.cols - 1 && !Addressable(View(r))
  {
    hide *;
    StartsBlank(1, 2);
    PairDraws(w);
    var s := Feeds(w, o, New(1, 2), "ab", Pair());
    PairPends(s.machine);
    PendingStrays(w, o, s);
    NotAddressable(Run(w, o, s, Detour(s.machine)).machine);
  }

  lemma {:induction false} NotAddressable(m: Machine)
    requires MachineOk(m) && m.cur.pendingWrap && m.cur.col < m.primary.cols - 1
    ensures !Addressable(View(m))
  {
  }

  function Pair(): Draw {
    Typed(View(New(1, 2).machine), [Two('a', 'b', false)], 0, 1, true, Some('b'))
  }

  lemma {:induction false} PairDraws(w: Widths)
    ensures MachineOk(New(1, 2).machine) && DrawOk(View(New(1, 2).machine))
            && Draws(w, View(New(1, 2).machine), "ab", Pair())
  {
    hide Draws, Machines.Fresh, New, View, MachineOk, DrawOk, Page, Typed, IsFresh;
    var f := View(New(1, 2).machine);
    StartsBlank(1, 2);
    TypesPair(w, f, Blank2(1), 0, None, 'a', 'b');
    assert Blank2(1)[0 := Two('a', 'b', false)] == [Two('a', 'b', false)];
    assert "ab" == ['a', 'b'];
  }

  lemma {:induction false} PairPends(m: Machine)
    requires View(m) == Pair() && m.primary.cols == 2
    ensures m.cur.pendingWrap && m.cur.col == 1
  {
  }

  // ---- halves of wide characters --------------------------------------------

  function Half(c: char, n: nat): Row {
    Row([Letter(c, 2)] + Blanks(n, PLAIN), false, None)
  }

  function Whole(c: char, n: nat): Row {
    Row([Letter(c, 2), Spacer(PLAIN, 0)] + Blanks(n, PLAIN), false, None)
  }

  lemma {:induction false} HalfOrphan(c: char, n: nat, g: seq<Row>)
    requires g != [] && g[0] == Half(c, n)
    ensures !GridPaired(g)
  {
    assert Orphan(g[0].cells, 0);
  }

  function WideAt(rows: nat, n: nat, c: char, row: nat, col: nat, pending: bool): Draw
    requires 1 <= rows <= 0xFFFF && n < 0xFFF0
  {
    Typed(View(New(rows, n + 2).machine), [Whole(c, n)] + BlankRows(rows - 1, n + 2, PLAIN), row, col, pending, Some(c))
  }

  /** A wide character at home, then the cursor on its second half. */
  lemma {:induction false} WideDraws(w: Widths, rows: nat, n: nat, c: char)
    requires 1 <= rows <= 0xFFFF && n < 0xFFF0 && w.Of(c) == 2
    ensures MachineOk(New(rows, n + 2).machine) && DrawOk(View(New(rows, n + 2).machine))
            && DrawOk(WideAt(rows, n, c, 0, 1, false))
    ensures Draws(w, View(New(rows, n + 2).machine), [c] + Dump.CupText(0, 1), WideAt(rows, n, c, 0, 1, false))
  {
    hide Draws, Machines.Fresh, New, View, MachineOk, DrawOk, IsFresh, Dump.CupText;
    var f, g := View(New(rows, n + 2).machine), BlankRows(rows, n + 2, PLAIN);
    StartsBlank(rows, n + 2);
    TypesWide(w, f, g, 0, 0, None, c);
    var h := [Whole(c, n)] + BlankRows(rows - 1, n + 2, PLAIN);
    assert g[0].cells[0 := Letter(c, 2)][1 := Spacer(PLAIN, 0)] == Whole(c, n).cells;
    assert g[0 := g[0].(cells := Whole(c, n).cells)] == h;
    DrawsChar(w, Typed(f, g, 0, 0, false, None), c);
    Moves(w, f, h, 0, if n > 0 then 2 else 1, n == 0, Some(c), 0, 1);
    Then(w, f, [c], Drawing.Print(w, f, c), Dump.CupText(0, 1), WideAt(rows, n, c, 0, 1, false));
  }

  lemma {:induction false} WideStands(w: Widths, o: World, rows: nat, n: nat, c: char) returns (r: Session)
    requires 1 <= rows <= 0xFFFF && n < 0xFFF0 && w.Of(c) == 2
    ensures r == React(w, o, New(rows, n + 2), Feed(EncodeAll([c] + Dump.CupText(0, 1))))
    ensures MachineOk(r.machine) && Idle(r.parser) && View(r.machine) == WideAt(rows, n, c, 0, 1, false)
    ensures DrawOk(WideAt(rows, n, c, 0, 1, false))
  {
    hide *;
    StartsBlank(rows, n + 2);
    WideDraws(w, rows, n, c);
    r := Feeds(w, o, New(rows, n + 2), [c] + Dump.CupText(0, 1), WideAt(rows, n, c, 0, 1, false));
  }

  /** EL from the second half on: the first half stays behind. */
  lemma {:induction false} EraseTears(w: Widths, o: World, c: char)
    requires w.Of(c) == 2
    ensures var s := React(w, o, New(1, 3), Feed(EncodeAll([c] + Dump.CupText(0, 1))));
            var r := React(w, o, s, Feed(EncodeAll(RenderCsi([], "", 'K'))));
            GridPaired(s.machine.primary.grid) && !GridPaired(r.machine.primary.grid)
  {
    hide *;
    var s := WideStands(w, o, 1, 1, c);
    ErasesLine(w, o, s);
    ErasesHalf(s.machine, c);
  }

  lemma {:induction false} ErasesLine(w: Widths, o: World, s: Session)
    requires MachineOk(s.machine) && Idle(s.parser)
    ensures React(w, o, s, Feed(EncodeAll(RenderCsi([], "", 'K')))).machine ==
            Put(s.machine, EraseLine(View(s.machine), 0, false))
  {
    hide MachineOk, DispatchAll, ParseAll, RenderCsi, EraseLine;
    ParsesCsi(s.parser, [], "", 'K');
    assert EncodeAll("") == [];
    DispatchOne(w, o, s.machine, Csi([], [], 0, 'K' as int));
  }

  lemma {:induction false} ErasesHalf(m: Machine, c: char)
    requires MachineOk(m) && View(m) == WideAt(1, 1, c, 0, 1, false)
    ensures GridPaired(m.primary.grid) && !GridPaired(Put(m, EraseLine(View(m), 0, false)).primary.grid)
  {
    var d := View(m);
    var e := EraseLine(d, 0, false);
    assert d.scr.grid == [Whole(c, 1)] && !d.alt;
    assert Paired(Whole(c, 1).cells);
    assert Erased(Whole(c, 1).cells, 1, 3, PLAIN, false) == Half(c, 2).cells;
    assert e.scr.grid[0] == Half(c, 2);
    HalfOrphan(c, 2, e.scr.grid);
  }

  /** The character printed again there does not fit, and takes the second half away with it. */
  lemma {:induction false} PrintTearsOnce(w: Widths, o: World, c: char)
    requires w.Of(c) == 2
    ensures var s := React(w, o, New(2, 2), Feed(EncodeAll([c] + Dump.CupText(0, 1))));
            var r := React(w, o, s, Feed(EncodeAll([c])));
            GridPaired(s.machine.primary.grid) && !GridPaired(r.machine.primary.grid)
  {
    hide *;
    var s := WideStands(w, o, 2, 0, c);
    WidePrintable(w, c);
    DrawsChar(w, View(s.machine), c);
    var r := Feeds(w, o, s, [c], Drawing.Print(w, View(s.machine), c));
    PrintsHalf(w, s.machine, r.machine, c);
  }

  lemma {:induction false} WidePrintable(w: Widths, c: char)
    requires w.Of(c) == 2
    ensures 0x300 <= c as int
  {
  }

  lemma {:induction false} PrintsHalf(w: Widths, m: Machine, q: Machine, c: char)
    requires MachineOk(m) && MachineOk(q) && View(m) == WideAt(2, 0, c, 0, 1, false) && w.Of(c) == 2
    requires View(q) == Drawing.Print(w, View(m), c)
    ensures GridPaired(m.primary.grid) && !GridPaired(q.primary.grid)
  {
    var d := View(m);
    assert d.scr.grid == [Whole(c, 0), BlankRow(2, PLAIN)] && !d.alt;
    assert Paired(Whole(c, 0).cells) && Paired(BlankRow(2, PLAIN).cells);
    PrintPairs(d, c, 2);
    assert ResolveWrap(d) == d && TearsEdge(d, 2) && TornStays(d);
    hide PrintGlyph;
    assert Drawing.Print(w, d, c) == PrintGlyph(d, c, 2);
  }

  // ---- the cursor's own row -------------------------------------------------

  lemma {:induction false} TypesNewline(w: Widths, f: Draw, g: seq<Row>, row: nat, last: Option<char>)
    requires Page(f, g, row, 0) && row + 1 < f.scr.rows
    ensures var d := Typed(f, g, row, 0, false, last);
            DrawOk(d) && DrawOk(Typed(f, g, row + 1, 0, false, last))
              && Draws(w, d, "\n", Typed(f, g, row + 1, 0, false, last))
  {
    DrawsControl(w, Typed(f, g, row, 0, false, last), '\n');
  }

  function Lower(): Draw {
    Typed(View(New(2, 2).machine), [BlankRow(2, PLAIN), Two('a', 'b', false)], 0, 0, false, Some('b'))
  }

  lemma {:induction false} LowerDraws(w: Widths)
    ensures MachineOk(New(2, 2).machine) && DrawOk(View(New(2, 2).machine)) && DrawOk(Lower())
    ensures Draws(w, View(New(2, 2).machine), "\nab" + Dump.CupText(0, 0), Lower())
  {
    hide Draws, Machines.Fresh, New, View, MachineOk, DrawOk, IsFresh, Dump.CupText, Typed;
    var f, g := View(New(2, 2).machine), Blank2(2);
    StartsBlank(2, 2);
    TypesNewline(w, f, g, 0, None);
    TypesPair(w, f, g, 1, None, 'a', 'b');
    var h := g[1 := Two('a', 'b', false)];
    assert g[1].(cells := Two('a', 'b', false).cells) == Two('a', 'b', false);
    assert h == [BlankRow(2, PLAIN), Two('a', 'b', false)];
    Then(w, f, "\n", Typed(f, g, 1, 0, false, None), ['a', 'b'], Typed(f, h, 1, 1, true, Some('b')));
    Moves(w, f, h, 1, 1, true, Some('b'), 0, 0);
    assert "\n" + ['a', 'b'] == "\nab";
    Then(w, f, "\nab", Typed(f, h, 1, 1, true, Some('b')), Dump.CupText(0, 0), Lower());
  }

  /** Text in the second of two rows and the cursor in the first: a resize to one row scrolls the cursor's
      row away and leaves the cursor on the text. */
  lemma {:induction false} RowTaken(w: Widths, o: World)
    ensures var s := React(w, o, New(2, 2), Feed(EncodeAll("\nab" + Dump.CupText(0, 0))));
            var r := React(w, o, s, Resize(1, 2));
            && s.machine.cur.row == r.machine.cur.row == 0
            && s.machine.primary.grid[0] == BlankRow(2, PLAIN) && r.machine.primary.grid[0] == Two('a', 'b', false)
  {
    hide *;
    StartsBlank(2, 2);
    LowerDraws(w);
    var s := Feeds(w, o, New(2, 2), "\nab" + Dump.CupText(0, 0), Lower());
    ShrinksLower(w, o, s);
  }

  lemma {:induction false} ShrinksLower(w: Widths, o: World, s: Session)
    requires MachineOk(s.machine) && View(s.machine) == Lower()
    ensures var r := React(w, o, s, Resize(1, 2));
            && s.machine.cur.row == r.machine.cur.row == 0
            && |s.machine.primary.grid| == 2 && |r.machine.primary.grid| == 1
            && s.machine.primary.grid[0] == BlankRow(2, PLAIN) && r.machine.primary.grid[0] == Two('a', 'b', false)
  {
    var m := s.machine;
    var p, at := m.primary, Spot(0, 0);
    assert p == Active(m) && p.grid == [BlankRow(2, PLAIN), Two('a', 'b', false)] && p.cols == 2;
    assert !RowBlank(p.grid[1]);
    assert p.grid[1..] == [Two('a', 'b', false)];
    var t := p.(grid := p.grid[1..], scrollback := KeepLast(p.scrollback + [p.grid[0]], p.maxScrollback));
    assert Shorten(p, at, 1, true) == Shorten(t, at, 1, true) == (t, at);
    assert t.scrollback[..|t.scrollback|] == t.scrollback && t.scrollback[|t.scrollback|..] + t.grid == t.grid;
    assert Lengthen(t, at, 1, true) == (t, at);
    assert Screens.Resize(p, 1, 2, at, true) == (t.(rows := 1), at);
    hide Screens.Resize;
    ResizeKeeps(m, 1, 2);
  }

  // ---- a logical line lost in a reflow ----------------------------------------

  function Faded(): seq<Row> {
    [BlankRow(2, PLAIN), BlankRow(2, PLAIN).(wrapped := true), BlankRow(2, PLAIN)]
  }

  function FadedDraw(): Draw {
    Typed(View(New(3, 2).machine), Faded(), 0, 0, false, Some(' '))
  }

  const FADE := "\nab " + Dump.CupText(1, 0) + "  " + Dump.CupText(0, 0)

  lemma {:induction false} FadedDraws(w: Widths)
    ensures MachineOk(New(3, 2).machine) && DrawOk(View(New(3, 2).machine)) && DrawOk(FadedDraw())
    ensures Draws(w, View(New(3, 2).machine), FADE, FadedDraw())
  {
    hide Draws, Machines.Fresh, New, View, MachineOk, DrawOk, IsFresh, Dump.CupText, Typed;
    var f, g := View(New(3, 2).machine), Blank2(3);
    StartsBlank(3, 2);
    TypesNewline(w, f, g, 0, None);
    TypesOver(w, f, g, 1, None);
    var h := g[1 := Two('a', 'b', true)];
    Then(w, f, "\n", Typed(f, g, 1, 0, false, None), "ab ", Typed(f, h, 2, 1, false, Some(' ')));
    assert "\n" + "ab " == "\nab ";
    Moves(w, f, h, 2, 1, false, Some(' '), 1, 0);
    Then(w, f, "\nab ", Typed(f, h, 2, 1, false, Some(' ')), Dump.CupText(1, 0), Typed(f, h, 1, 0, false, Some(' ')));
    TypesPair(w, f, h, 1, Some(' '), ' ', ' ');
    assert h[1].(cells := [Letter(' ', 1), Letter(' ', 1)]) == BlankRow(2, PLAIN).(wrapped := true);
    assert h[1 := BlankRow(2, PLAIN).(wrapped := true)] == Faded();
    assert [' ', ' '] == "  ";
    Then(w, f, "\nab " + Dump.CupText(1, 0), Typed(f, h, 1, 0, false, Some(' ')),
      "  ", Typed(f, Faded(), 1, 1, true, Some(' ')));
    Moves(w, f, Faded(), 1, 1, true, Some(' '), 0, 0);
    Then(w, f, "\nab " + Dump.CupText(1, 0) + "  ",
      Typed(f, Faded(), 1, 1, true, Some(' ')), Dump.CupText(0, 0), FadedDraw());
  }

  /** Text that wrapped, overwritten with blanks, and the cursor above it: the blank row keeps its soft
      wrap and counts as a line, until a change of width drops it. */
  lemma {:induction false} LineLost(w: Widths, o: World)
    ensures var s := React(w, o, New(3, 2), Feed(EncodeAll(FADE))).machine.primary;
            var (t, to) := ReflowWidth(s, 3, Spot(0, 0));
            |Extract(s, Spot(0, 0))| == 2 && Extract(t, to) == Extract(s, Spot(0, 0))[..1]
  {
    hide *;
    StartsBlank(3, 2);
    FadedDraws(w);
    var r := Feeds(w, o, New(3, 2), FADE, FadedDraw());
    var s := r.machine.primary;
    FadedScreen(r.machine);
    FadedLines(s);
    FadedFits(s);
    NarrowFits(s, 3, Spot(0, 0));
    LinesKept(s, 3, Spot(0, 0));
    FadedShown();
  }

  lemma {:induction false} FadedScreen(m: Machine)
    requires MachineOk(m) && View(m) == FadedDraw()
    ensures var s := m.primary;
            s.rows == 3 && s.cols == 2 && s.grid == Faded() && s.scrollback == [] && ScrOk(s) && NarrowRows(AllRows(s))
  {
  }

  function FadedLine(): Line {
    Line(Blanks(1, PLAIN), None, Some(0))
  }

  lemma {:induction false} FadedLines(s: Scr)
    requires s.grid == Faded() && s.scrollback == []
    ensures Extract(s, Spot(0, 0)) == [FadedLine(), Line([], None, None)]
  {
    var top, at := Faded()[..2], Spot(0, 0);
    assert AllRows(s) == Faded();
    FadedTop();
    FadedEnds();
    FadedFirst();
    FadedSecond();
    hide LineAt, DropTail, LineEnd;
    assert LinesFrom(top, 2, at) == [];
    assert LinesFrom(top, 1, at) == [Line([], None, None)];
  }

  lemma {:induction false} FadedTop()
    ensures DropTail(Faded(), 1) == Faded()[..2]
  {
    BlankShows(2);
    assert DropTail(Faded()[..2], 1) == Faded()[..2];
  }

  lemma {:induction false} FadedEnds()
    ensures LineEnd(Faded()[..2], 0) == 1 && LineEnd(Faded()[..2], 1) == 2
  {
  }

  lemma {:induction false} OneRowLine(r: Row)
    ensures Join([r]) == r.cells && FirstMark([r]) == r.mark && Join([]) == []
  {
    assert [r][..0] == [];
    assert Join([r]) == [] + r.cells;
  }

  lemma {:induction false} BlankLine(row: Row, cursor: Option<nat>)
    requires row.cells == Blanks(2, PLAIN) && (cursor.None? || cursor == Some(0))
    ensures var cells := Join([row]);
            cells[..Keep(cells, cursor)] == (if cursor.Some? then Blanks(1, PLAIN) else [])
              && FirstMark([row]) == row.mark && Join([]) == []
  {
    OneRowLine(row);
    BlankShows(2);
    assert Blanks(2, PLAIN)[..1] == Blanks(1, PLAIN) && Blanks(2, PLAIN)[..0] == [];
  }

  lemma {:induction false} FadedFirst()
    ensures LineAt(Faded()[..2], 0, Spot(0, 0)) == FadedLine()
  {
    var top := Faded()[..2];
    FadedEnds();
    BlankLine(top[0], Some(0));
    hide Join, Keep, FirstMark, LineEnd;
    assert top[0..1] == [top[0]] && top[0..0] == [];
  }

  lemma {:induction false} FadedSecond()
    ensures LineAt(Faded()[..2], 1, Spot(0, 0)) == Line([], None, None)
  {
    var top := Faded()[..2];
    FadedEnds();
    BlankLine(top[1], None);
    hide Join, Keep, FirstMark, LineEnd;
    assert top[1..2] == [top[1]];
  }

  lemma {:induction false} FadedShown()
    ensures ShownLines([FadedLine(), Line([], None, None)]) == [FadedLine()]
  {
    var lines := [FadedLine(), Line([], None, None)];
    assert lines[..1] == [FadedLine()];
  }

  lemma {:induction false} FadedFits(s: Scr)
    requires s.rows == 3 && ScrOk(s) && Extract(s, Spot(0, 0)) == [FadedLine(), Line([], None, None)]
    ensures Holds(s, Extract(s, Spot(0, 0)), 3)
  {
    var lines := Extract(s, Spot(0, 0));
    var l := Layout(0, [], [], None);
    assert lines[..1] == [FadedLine()] && [FadedLine()][..0] == [];
    assert LayOne(l, FadedLine(), 3, 0).done == [];
    assert |LayFrom(l, FadedLine(), 3, 0).done| == 1;
    assert |LayLine(FadedLine(), 3, 0, None).0| == 1;
    assert |LayLines([FadedLine()], 3).0| == 1;
    EmptyLaid(Line([], None, None), 3, 1, LayLines([FadedLine()], 3).1);
  }

  // ---- padding that stays ------------------------------------------------------

  function Edge(c: char): Row {
    Row([Letter('a', 1), Letter(c, 2), Spacer(PLAIN, 0)], false, None)
  }

  function EdgeDraw(c: char, row: nat, col: nat, pending: bool): Draw {
    Typed(View(New(2, 3).machine), [Edge(c), BlankRow(3, PLAIN)], row, col, pending, Some(c))
  }

  lemma {:induction false} EdgeTypes(w: Widths, f: Draw, c: char)
    requires w.Of(c) == 2 && Page(f, BlankRows(2, 3, PLAIN), 0, 0) && f.scr.cols == 3
    requires f == Typed(f, BlankRows(2, 3, PLAIN), 0, 0, false, None)
    ensures var d := Drawing.Print(w, f, 'a');
            && DrawOk(f) && DrawOk(d) && Page(f, [Edge(c), BlankRow(3, PLAIN)], 0, 2)
            && Drawing.Print(w, d, c) == Typed(f, [Edge(c), BlankRow(3, PLAIN)], 0, 2, true, Some(c))
  {
    var g := BlankRows(2, 3, PLAIN);
    TypesNarrow(w, f, g, 0, 0, None, 'a');
    var h := Narrowly(g, 0, 0, 'a');
    TypesWide(w, f, h, 0, 1, Some('a'), c);
    hide Drawing.Print, Typed, DrawOk;
    assert h[0].cells[1 := Letter(c, 2)][2 := Spacer(PLAIN, 0)] == Edge(c).cells;
    assert h[0 := h[0].(cells := Edge(c).cells)] == [Edge(c), BlankRow(3, PLAIN)];
  }

  lemma {:induction false} EdgeDraws(w: Widths, c: char)
    requires w.Of(c) == 2
    ensures MachineOk(New(2, 3).machine) && DrawOk(View(New(2, 3).machine)) && DrawOk(EdgeDraw(c, 0, 0, false))
    ensures Draws(w, View(New(2, 3).machine), ['a', c] + Dump.CupText(0, 0), EdgeDraw(c, 0, 0, false))
  {
    hide *;
    var f := View(New(2, 3).machine);
    StartsBlank(2, 3);
    EdgeTypes(w, f, c);
    EdgeIs(c);
    WidePrintable(w, c);
    DrawsChar(w, f, 'a');
    DrawsChar(w, Drawing.Print(w, f, 'a'), c);
    Then(w, f, ['a'], Drawing.Print(w, f, 'a'), [c], EdgeDraw(c, 0, 2, true));
    Moves(w, f, [Edge(c), BlankRow(3, PLAIN)], 0, 2, true, Some(c), 0, 0);
    assert ['a'] + [c] == ['a', c];
    Then(w, f, ['a', c], EdgeDraw(c, 0, 2, true), Dump.CupText(0, 0), EdgeDraw(c, 0, 0, false));
  }

  lemma {:induction false} EdgeIs(c: char)
    ensures var f, g := View(New(2, 3).machine), [Edge(c), BlankRow(3, PLAIN)];
            EdgeDraw(c, 0, 2, true) == Typed(f, g, 0, 2, true, Some(c))
              && EdgeDraw(c, 0, 0, false) == Typed(f, g, 0, 0, false, Some(c))
  {
  }

  /** One letter and one wide character on three columns: two columns part them with a blank, which is
      still there when three columns return. */
  lemma {:induction false} WayMatters(w: Widths, o: World, c: char)
    requires w.Of(c) == 2
    ensures var s := React(w, o, New(2, 3), Feed(EncodeAll(['a', c] + Dump.CupText(0, 0)))).machine.primary;
            var (t, to) := ReflowWidth(s, 2, Spot(0, 0));
            [Row([Letter('a', 1), Blank(PLAIN), Blank(PLAIN)], true, None)] <= ReflowWidth(t, 3, to).0.grid
            && [Edge(c)] <= ReflowWidth(s, 3, Spot(0, 0)).0.grid
  {
    hide *;
    StartsBlank(2, 3);
    EdgeDraws(w, c);
    var r := Feeds(w, o, New(2, 3), ['a', c] + Dump.CupText(0, 0), EdgeDraw(c, 0, 0, false));
    EdgeScreen(r.machine, c);
    WidePrintable(w, c);
    BothWays(r.machine.primary, c);
  }

  lemma {:induction false} BothWays(s: Scr, c: char)
    requires s.rows == 2 && s.grid == [Edge(c), BlankRow(3, PLAIN)] && s.scrollback == [] && 0x300 <= c as int
    ensures var (t, to) := ReflowWidth(s, 2, Spot(0, 0));
            [Row([Letter('a', 1), Blank(PLAIN), Blank(PLAIN)], true, None)] <= ReflowWidth(t, 3, to).0.grid
            && [Edge(c)] <= ReflowWidth(s, 3, Spot(0, 0)).0.grid
  {
    hide *;
    EdgeLines(s, c);
    EdgeApart(s, c);
    var (t, to) := ReflowWidth(s, 2, Spot(0, 0));
    PartedLines(t, c);
    EdgeLaid(c);
    PartedLaid(c);
    FirstRow(s, 3, Spot(0, 0), EdgeLine(c));
    FirstRow(t, 3, to, PartedLine(c));
  }

  lemma {:induction false} EdgeScreen(m: Machine, c: char)
    requires MachineOk(m) && View(m) == EdgeDraw(c, 0, 0, false)
    ensures var s := m.primary;
            s.rows == 2 && s.cols == 3 && s.grid == [Edge(c), BlankRow(3, PLAIN)] && s.scrollback == []
  {
  }

  function EdgeLine(c: char): Line {
    Line([Letter('a', 1), Letter(c, 2)], None, Some(0))
  }

  function PartedLine(c: char): Line {
    Line([Letter('a', 1), Blank(PLAIN), Letter(c, 2)], None, Some(0))
  }

  lemma {:induction false} EdgeShown(c: char)
    requires 0x300 <= c as int
    ensures var cells := Edge(c).cells; LastShown(cells) == 2 && cells[..2] == EdgeLine(c).cells
  {
    var cells := Edge(c).cells;
    assert LastShown(cells) == LastShown(cells[..2]);
  }

  lemma {:induction false} RowKept(row: Row)
    requires !row.wrapped
    ensures DropTail([row, BlankRow(3, PLAIN)], 1) == [row]
  {
    var rows := [row, BlankRow(3, PLAIN)];
    BlankShows(3);
    assert rows[..1] == [row] && DropTail([row], 1) == [row];
  }

  lemma {:induction false} RowLine(row: Row)
    requires LastShown(row.cells) > 0
    ensures LineAt([row], 0, Spot(0, 0)) == Line(row.cells[..LastShown(row.cells)], row.mark, Some(0))
  {
    OneRowLine(row);
    hide Join, LastShown, FirstMark;
    assert LineEnd([row], 0) == 1;
    assert [row][0..1] == [row] && [row][0..0] == [];
  }

  /** A line of one row, the cursor at its start. */
  lemma {:induction false} RowAlone(s: Scr, row: Row)
    requires s.grid == [row, BlankRow(3, PLAIN)] && s.scrollback == [] && !row.wrapped && LastShown(row.cells) > 0
    ensures Extract(s, Spot(0, 0)) == [Line(row.cells[..LastShown(row.cells)], row.mark, Some(0))]
  {
    RowKept(row);
    RowLine(row);
    hide LineAt, LastShown, DropTail, BlankRow;
    assert AllRows(s) == [row, BlankRow(3, PLAIN)];
    assert LinesFrom([row], 1, Spot(0, 0)) == [];
  }

  lemma {:induction false} EdgeLines(s: Scr, c: char)
    requires s.grid == [Edge(c), BlankRow(3, PLAIN)] && s.scrollback == [] && 0x300 <= c as int
    ensures Extract(s, Spot(0, 0)) == [EdgeLine(c)]
  {
    EdgeShown(c);
    RowAlone(s, Edge(c));
  }

  lemma {:induction false} EdgeLaid(c: char)
    ensures LayLines([EdgeLine(c)], 3) == ([Edge(c)], Some(Spot(0, 0)))
  {
    var l, line := Layout(0, [], [], None), EdgeLine(c);
    var m := LayOne(l, line, 3, 0);
    assert m == Layout(1, [Letter('a', 1)], [], Some(Spot(0, 0)));
    var n := LayOne(m, line, 3, 0);
    assert n == Layout(2, Edge(c).cells, [], Some(Spot(0, 0)));
    assert n.cur[..3] == n.cur && [] + [Padded(n.cur, 3, false)] == [Edge(c)];
    assert LayFrom(l, line, 3, 0) == LayFrom(m, line, 3, 0) == LayFrom(n, line, 3, 0);
    LastLaid(n, line, 3);
  }

  lemma {:induction false} OneLaid(line: Line, width: nat)
    requires 1 <= width
    ensures LayLines([line], width) == LayLine(line, width, 0, None)
  {
    assert [line][..0] == [];
    var (rows, spot) := LayLine(line, width, 0, None);
    assert [] + rows == rows;
  }

  /** The last step closes the row; without a mark, the rows are the line. */
  lemma {:induction false} LastLaid(l: Layout, line: Line, width: nat)
    requires 1 <= width && l.j == |line.cells| && line.mark == None && l.spot.Some?
    requires LayFrom(Layout(0, [], [], None), line, width, 0) == LayFrom(l, line, width, 0)
    requires forall i | 0 <= i < |l.done| :: l.done[i].mark == None
    ensures LayLines([line], width) == (l.done + [Padded(l.cur, width, false)], l.spot)
  {
    var rows := l.done + [Padded(l.cur, width, false)];
    assert rows[0 := rows[0].(mark := None)] == rows;
    OneLaid(line, width);
  }

  function Parted(c: char): seq<Row> {
    [Row([Letter('a', 1), Blank(PLAIN)], true, None), Row([Letter(c, 2), Spacer(PLAIN, 0)], false, None)]
  }

  /** On two columns the wide character moves to the next row. */
  lemma {:induction false} EdgeParts(c: char)
    ensures LayLines([EdgeLine(c)], 2) == (Parted(c), Some(Spot(0, 0)))
  {
    var l, line := Layout(0, [], [], None), EdgeLine(c);
    var m := LayOne(l, line, 2, 0);
    assert m == Layout(1, [Letter('a', 1)], [], Some(Spot(0, 0)));
    assert Padded(m.cur, 2, true) == Parted(c)[0];
    var n := LayOne(m, line, 2, 0);
    assert n == Layout(2, Parted(c)[1].cells, [Parted(c)[0]], Some(Spot(0, 0)));
    assert n.cur[..2] == n.cur && [Parted(c)[0]] + [Padded(n.cur, 2, false)] == Parted(c);
    assert LayFrom(l, line, 2, 0) == LayFrom(m, line, 2, 0) == LayFrom(n, line, 2, 0);
    LastLaid(n, line, 2);
  }

  lemma {:induction false} EdgeApart(s: Scr, c: char)
    requires s.rows == 2 && Extract(s, Spot(0, 0)) == [EdgeLine(c)]
    ensures var (t, to) := ReflowWidth(s, 2, Spot(0, 0));
            to == Spot(0, 0) && t.rows == 2 && t.grid == Parted(c) && t.scrollback == []
  {
    EdgeParts(c);
    hide LayLines, Extract;
  }

  lemma {:induction false} PartedJoined(c: char)
    requires 0x300 <= c as int
    ensures var rows, cells := Parted(c), PartedLine(c).cells;
            && Join(rows) == cells + [Spacer(PLAIN, 0)] && LastShown(Join(rows)) == 3 && FirstMark(rows) == None
            && !RowBlank(rows[1]) && LineEnd(rows, 0) == 2
  {
    var rows, cells := Parted(c), PartedLine(c).cells;
    assert rows[..1] == [rows[0]];
    OneRowLine(rows[0]);
    assert LastShown(rows[1].cells) == LastShown(rows[1].cells[..1]) == 1;
    assert (cells + [Spacer(PLAIN, 0)])[..3] == cells;
    assert LastShown(cells + [Spacer(PLAIN, 0)]) == LastShown(cells) == 3;
    assert LineEnd(rows, 1) == 2;
  }

  lemma {:induction false} PartedLines(t: Scr, c: char)
    requires t.grid == Parted(c) && t.scrollback == [] && 0x300 <= c as int
    ensures Extract(t, Spot(0, 0)) == [PartedLine(c)]
  {
    var rows, cells := Parted(c), PartedLine(c).cells;
    assert AllRows(t) == rows;
    PartedJoined(c);
    OneRowLine(rows[0]);
    hide Join, LastShown, FirstMark, LineEnd;
    assert rows[0..2] == rows && rows[0..0] == [];
    assert (cells + [Spacer(PLAIN, 0)])[..3] == cells;
    assert LineAt(rows, 0, Spot(0, 0)) == PartedLine(c);
    assert LinesFrom(rows, 2, Spot(0, 0)) == [];
  }

  lemma {:induction false} PartedLaid(c: char)
    ensures var (text, spot) := LayLines([PartedLine(c)], 3);
            spot == Some(Spot(0, 0)) && text != []
              && text[..1] == [Row([Letter('a', 1), Blank(PLAIN), Blank(PLAIN)], true, None)]
  {
    var l, line := Layout(0, [], [], None), PartedLine(c);
    var m := LayOne(l, line, 3, 0);
    assert m == Layout(1, [Letter('a', 1)], [], Some(Spot(0, 0)));
    var n := LayOne(m, line, 3, 0);
    assert n == Layout(2, [Letter('a', 1), Blank(PLAIN)], [], Some(Spot(0, 0)));
    assert Padded(n.cur, 3, true).cells == [Letter('a', 1), Blank(PLAIN), Blank(PLAIN)];
    var z := LayOne(n, line, 3, 0);
    assert z == Layout(3, [Letter(c, 2), Spacer(PLAIN, 0)], [Padded(n.cur, 3, true)], Some(Spot(0, 0)));
    assert LayFrom(l, line, 3, 0) == LayFrom(m, line, 3, 0) == LayFrom(n, line, 3, 0) == LayFrom(z, line, 3, 0);
    LastLaid(z, line, 3);
  }

  /** With the cursor on the first row, that row stays the first of the grid. */
  lemma {:induction false} FirstRow(s: Scr, width: nat, at: Spot, line: Line)
    requires 1 <= width && s.rows == 2 && Extract(s, at) == [line]
    requires var (text, spot) := LayLines([line], width); spot == Some(Spot(0, 0)) && text != []
    ensures var t := ReflowWidth(s, width, at).0;
            t.grid != [] && t.grid[..1] == LayLines([line], width).0[..1]
  {
    hide LayLines, Extract;
  }
}
