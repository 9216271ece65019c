// crates/posh-term/src/terminal.rs and csi.rs as the class they are: a parser, two screens, and the
// fields every control sequence updates in place. Each method is proved to compute the function of
// module Machines (or Drawing) with its name.
module Terminals {
  import opened Utf8
  import opened Cells
  import opened VtParser
  import opened Reflow
  import opened Screens
  import opened Drawing
  import opened Machines
  import Sgr

  class Terminal {
    const widths: Widths
    const world: World
    const parser: Parser
    const primary: Screen
    const alt: Screen
    var altActive: bool
    var cur: Cursor
    var savedPrimary: SavedCursor
    var savedAlt: SavedCursor
    var modes: Modes
    var top: nat
    var bot: nat
    var tabs: seq<bool>
    var last: Option<char>
    var strings: nat

    function M(): Machine
      reads this, primary, alt
    {
      Machine(primary.View(), alt.View(), altActive, cur, savedPrimary, savedAlt, modes, top, bot, tabs, last, strings)
    }

    ghost predicate Valid()
      reads this, primary, alt
    {
      primary != alt && MachineOk(M())
    }

    function D(): Draw
      reads this, primary, alt
    {
      View(M())
    }

    function Scr(): (s: Screen)
      reads this
      ensures s == primary || s == alt
    {
      if altActive then alt else primary
    }

    constructor (widths: Widths, world: World, rows: nat, cols: nat, scrollback: nat)
      requires rows <= 0xFFFF && cols <= 0xFFFF
      ensures Valid() && M() == Machines.Fresh(rows, cols, scrollback) && parser.View() == FRESH
      ensures fresh(parser) && fresh(primary) && fresh(alt) && this.widths == widths && this.world == world
    {
      var rows, cols := Max(rows, 1), Max(cols, 1);
      this.widths, this.world := widths, world;
      parser := new Parser();
      primary := new Screen(rows, cols, scrollback);
      alt := new Screen(rows, cols, 0);
      altActive, cur, savedPrimary, savedAlt := false, HOME, NOTHING_SAVED, NOTHING_SAVED;
      modes, top, bot, tabs, last, strings := DEFAULT_MODES, 0, rows - 1, DefaultTabs(cols), None, 0;
    }

    // ---- the active screen --------------------------------------------------

    method StoreRow(row: nat, r: Row)
      requires Valid() && row < primary.rows && |r.cells| == primary.cols
      modifies primary, alt
      ensures Valid() && M() == Put(old(M()), old(D()).(scr := PutRow(old(D()).scr, row, r)))
    {
      Scr().SetRow(row, r);
    }

    method ScrollUpBy(n: nat)
      requires Valid()
      modifies primary, alt
      ensures Valid() && M() == Put(old(M()), ScrollUpN(old(D()), n))
    {
      var save := !altActive && top == 0 && bot == primary.rows - 1;
      Scr().Scroll(top, bot, n, save, BlankStyle(D()));
    }

    method ScrollDownBy(n: nat)
      requires Valid()
      modifies primary, alt
      ensures Valid() && M() == Put(old(M()), ScrollDownN(old(D()), n))
    {
      Scr().ScrollBack(top, bot, n, BlankStyle(D()));
    }

    method IndexDown()
      requires Valid()
      modifies this, primary, alt
      ensures Valid() && M() == Put(old(M()), Index(old(D())))
    {
      hide ScrollUp;
      cur := cur.(pendingWrap := false);
      if cur.row == bot {
        ScrollUpBy(1);
      } else if cur.row + 1 < primary.rows {
        cur := cur.(row := cur.row + 1);
      }
    }

    method IndexUp()
      requires Valid()
      modifies this, primary, alt
      ensures Valid() && M() == Put(old(M()), ReverseIndex(old(D())))
    {
      hide ScrollDown;
      cur := cur.(pendingWrap := false);
      if cur.row == top {
        ScrollDownBy(1);
      } else if cur.row > 0 {
        cur := cur.(row := cur.row - 1);
      }
    }

    method LineFeed()
      requires Valid()
      modifies this, primary, alt
      ensures Valid() && M() == Put(old(M()), Control(old(D()), 0x0A))
    {
      hide Index;
      IndexDown();
      if modes.lnm { cur := cur.(col := 0); }
    }

    method TabForward()
      requires Valid()
      modifies this
      ensures Valid() && M() == Put(old(M()), Tabs(old(D()), 1, false))
      ensures M() == Put(old(M()), Control(old(D()), 0x09))
    {
      var col: nat, cols: nat := cur.col, primary.cols;
      var found := false;
      while !found && col + 1 < cols
        invariant cur.col <= col < cols && View(M()) == old(D())
        invariant if found then col == NextTab(tabs, cur.col, cols)
                  else NextTab(tabs, col, cols) == NextTab(tabs, cur.col, cols)
        decreases cols - col, !found
      {
        col := col + 1;
        if tabs[col] { found := true; }
      }
      cur := cur.(col := col, pendingWrap := false);
      assert Tabs(D(), 0, false) == D();
    }

    method TabBack()
      requires Valid()
      modifies this
      ensures Valid() && M() == Put(old(M()), Tabs(old(D()), 1, true))
    {
      var col: nat := cur.col;
      var found := false;
      while !found && col > 0
        invariant col <= cur.col && View(M()) == old(D())
        invariant if found then col == PrevTab(tabs, cur.col) else PrevTab(tabs, col) == PrevTab(tabs, cur.col)
        decreases col, !found
      {
        col := col - 1;
        if tabs[col] { found := true; }
      }
      cur := cur.(col := col, pendingWrap := false);
      assert Tabs(D(), 0, true) == D();
    }

    method Execute(b: byte)
      requires Valid()
      modifies this, primary, alt
      ensures Valid() && M() == Put(old(M()), Control(old(D()), b))
    {
      hide Index, ReverseIndex, NextTab, Tabs;
      if b == 0x08 {
        cur := cur.(col := if cur.col > 0 then cur.col - 1 else cur.col, pendingWrap := false);
      } else if b == 0x09 {
        TabForward();
      } else if 0x0A <= b <= 0x0C {
        LineFeed();
      } else if b == 0x0D {
        cur := cur.(col := 0, pendingWrap := false);
      } else if b == 0x0E {
        cur := cur.(shift := 1);
      } else if b == 0x0F {
        cur := cur.(shift := 0);
      } else if b == 0x84 {
        IndexDown();
      } else if b == 0x85 {
        cur := cur.(col := 0);
        IndexDown();
      } else if b == 0x88 {
        tabs := tabs[cur.col := true];
      } else if b == 0x8D {
        IndexUp();
      }
    }

    // ---- printing -----------------------------------------------------------

    function Here(): (r: Row)
      requires Valid()
      reads this, primary, alt
    {
      CursorRow(D())
    }

    /** Replaces the cells of the cursor row. */
    method StoreCells(cells: seq<Cell>)
      requires Valid() && |cells| == primary.cols
      modifies primary, alt
      ensures Valid() && M() == Put(old(M()), RowSet(old(D()), cells))
    {
      Scr().SetRow(cur.row, Here().(cells := cells));
    }

    method StoreCell(col: nat, c: Cell)
      requires Valid() && col < primary.cols
      modifies primary, alt
      ensures Valid() && M() == Put(old(M()), RowSet(old(D()), old(Here()).cells[col := c]))
    {
      Scr().SetCell(cur.row, col, c);
    }

    /** One pass from left to right, in place. */
    method RepairWide()
      requires Valid()
      modifies primary, alt
      ensures Valid() && M() == Put(old(M()), RowSet(old(D()), Repaired(old(Here()).cells, BlankStyle(old(D())))))
    {
      ghost var m, d, cells := M(), D(), Here().cells;
      var style := BlankStyle(D());
      Rows(m, d, cells, cells);
      RepairedEnds(cells, style);
      for c := 0 to primary.cols
        invariant Valid() && M() == Put(m, RowSet(d, RepairedTo(cells, c, style)))
      {
        RepairStep(cells, c, style);
        Rows(m, d, RepairedTo(cells, c, style), RepairedTo(cells, c + 1, style));
        if Orphan(Here().cells, c) { StoreCell(c, Blank(style)); }
      }
    }

    method CleanWide(col: nat, w: nat)
      requires Valid() && col < primary.cols
      modifies primary, alt
      ensures Valid() && M() ==
              Put(old(M()), RowSet(old(D()), Cleaned(old(Here()).cells, col, w, BlankStyle(old(D())))))
    {
      hide RowSet, Put, BlankStyle, Cleaned, Cleaning;
      ghost var m, d, goal := M(), D(), Cleaned(Here().cells, col, w, BlankStyle(D()));
      CleanFirst(col, w, m, d, goal);
      var i := 0;
      while i < w && col + i < primary.cols
        invariant 0 <= i <= w && Valid() && Cleaning(m, d, col + i, w - i, goal)
      {
        CleanNext(col + i, m, d, w - i, goal);
        i := i + 1;
      }
      CleanLast(m, d, col + i, w - i, goal);
    }

    method CleanFirst(col: nat, ghost w: nat, ghost m: Machine, ghost d: Draw, ghost goal: seq<Cell>)
      requires Valid() && col < primary.cols && m == M() && d == D()
               && goal == Cleaned(Here().cells, col, w, BlankStyle(d))
      modifies primary, alt
      ensures Valid() && primary.cols == old(primary.cols) && Cleaning(m, d, col, w, goal)
    {
      hide RowSet, Put, BlankStyle, CleanFrom, Cleaned;
      Rows(m, d, Here().cells, Here().cells);
      CleanBegin(Here().cells, col, w, BlankStyle(d));
      CleanHead(col, m, d);
    }

    lemma {:induction false} CleanLast(m: Machine, d: Draw, c: nat, n: nat, goal: seq<Cell>)
      requires Valid() && MachineOk(m) && d == View(m) && Cleaning(m, d, c, n, goal) && (n == 0 || c >= primary.cols)
      ensures |goal| == d.scr.cols && M() == Put(m, RowSet(d, goal))
    {
      hide RowSet, Put, BlankStyle, CleanFrom;
      CleanStep(Here().cells, c, n, BlankStyle(d));
    }

    /** On the way to `goal`: what lies before `c` is clean. */
    ghost predicate Cleaning(m: Machine, d: Draw, c: nat, n: nat, goal: seq<Cell>)
      requires Valid() && MachineOk(m) && d == View(m)
      reads this, primary, alt
    {
      && |Here().cells| == d.scr.cols == primary.cols && M() == Put(m, RowSet(d, Here().cells))
      && BlankStyle(D()) == BlankStyle(d) && CleanFrom(Here().cells, c, n, BlankStyle(d)) == goal
    }

    method CleanNext(c: nat, ghost m: Machine, ghost d: Draw, ghost n: nat, ghost goal: seq<Cell>)
      requires Valid() && c < primary.cols && n > 0 && MachineOk(m) && d == View(m) && Cleaning(m, d, c, n, goal)
      modifies primary, alt
      ensures Valid() && primary.cols == old(primary.cols) && Cleaning(m, d, c + 1, n - 1, goal)
    {
      hide RowSet, Put, BlankStyle, CleanFrom;
      CleanStep(Here().cells, c, n, BlankStyle(d));
      CleanSpacer(c, m, d);
    }

    /** The head of a spacer at `c` becomes a blank. */
    method CleanHead(c: nat, ghost m: Machine, ghost d: Draw)
      requires Valid() && c < primary.cols && MachineOk(m) && d == View(m)
      requires |Here().cells| == d.scr.cols && M() == Put(m, RowSet(d, Here().cells))
               && BlankStyle(D()) == BlankStyle(d)
      modifies primary, alt
      ensures Valid() && |Here().cells| == d.scr.cols && M() == Put(m, RowSet(d, Here().cells))
              && BlankStyle(D()) == BlankStyle(d)
      ensures var cells := old(Here()).cells;
              Here().cells == if cells[c].width == 0 && c > 0 then cells[c - 1 := Blank(BlankStyle(d))] else cells
    {
      hide RowSet, Put, BlankStyle;
      if Here().cells[c].width == 0 && c > 0 {
        ghost var next := Here().cells[c - 1 := Blank(BlankStyle(D()))];
        Rows(m, d, Here().cells, next);
        Rows(m, d, next, next);
        StoreCell(c - 1, Blank(BlankStyle(D())));
      }
    }

    /** The spacer of a head at `c` becomes a blank. */
    method CleanSpacer(c: nat, ghost m: Machine, ghost d: Draw)
      requires Valid() && c < primary.cols && MachineOk(m) && d == View(m)
      requires |Here().cells| == d.scr.cols && M() == Put(m, RowSet(d, Here().cells))
               && BlankStyle(D()) == BlankStyle(d)
      modifies primary, alt
      ensures Valid() && |Here().cells| == d.scr.cols && M() == Put(m, RowSet(d, Here().cells))
              && BlankStyle(D()) == BlankStyle(d)
      ensures var cells := old(Here()).cells;
              Here().cells == if cells[c].width == 2 && c + 1 < |cells| then cells[c + 1 := Blank(BlankStyle(d))]
                else cells
    {
      hide RowSet, Put, BlankStyle;
      if Here().cells[c].width == 2 && c + 1 < primary.cols {
        ghost var next := Here().cells[c + 1 := Blank(BlankStyle(D()))];
        Rows(m, d, Here().cells, next);
        Rows(m, d, next, next);
        StoreCell(c + 1, Blank(BlankStyle(D())));
      }
    }

    /** Pops the last cell and inserts a blank at `col`, `n` times. */
    method InsertBlanks(col: nat, n: nat)
      requires Valid() && col < primary.cols
      modifies primary, alt
      ensures Valid() && M() ==
              Put(old(M()), RowSet(old(D()), Inserted(old(Here()).cells, col, n, BlankStyle(old(D())))))
    {
      ghost var m, d, cells := M(), D(), Here().cells;
      var style := BlankStyle(D());
      Rows(m, d, cells, cells);
      InsertNone(cells, col, style);
      for i := 0 to n
        invariant Valid() && M() == Put(m, RowSet(d, Inserted(cells, col, i, style)))
      {
        Rows(m, d, Inserted(cells, col, i, style), Inserted(cells, col, i + 1, style));
        InsertMore(cells, col, i, style);
        var r := Here().cells;
        var popped := r[..|r| - 1];
        StoreCells(popped[..col] + [Blank(style)] + popped[col..]);
      }
    }

    method SoftWrap()
      requires Valid()
      modifies this, primary, alt
      ensures Valid() && M() == Put(old(M()), Drawing.WrapLine(old(D())))
    {
      hide Index;
      ghost var m, d := M(), D();
      StoreRow(cur.row, Here().(wrapped := true));
      cur := cur.(col := 0);
      IndexDown();
    }

    method WrapIfPending()
      requires Valid()
      modifies this, primary, alt
      ensures Valid() && M() == Put(old(M()), ResolveWrap(old(D())))
    {
      hide Drawing.WrapLine;
      if cur.pendingWrap {
        cur := cur.(pendingWrap := false);
        if modes.autowrap { SoftWrap(); }
      }
    }

    /** A wide character in the last column; `fits` is false only on a one-column screen. */
    method RoomFor(w: nat) returns (fits: bool)
      requires Valid()
      modifies this, primary, alt
      ensures Valid() && M() == Put(old(M()), MakeRoom(old(D()), w))
      ensures fits <==>
                !(w == 2 && old(cur).col + 1 >= old(primary.cols) && !old(modes).autowrap && old(primary.cols) < 2)
    {
      hide Drawing.WrapLine;
      fits := true;
      if w == 2 && cur.col + 1 >= primary.cols {
        if modes.autowrap {
          ghost var m, d := M(), D();
          ghost var cells := Here().cells[cur.col := Blank(BlankStyle(D()))];
          Rows(m, d, cells, cells);
          StoreCell(cur.col, Blank(BlankStyle(D())));
          Puts(m, RowSet(d, cells), Drawing.WrapLine(RowSet(d, cells)));
          SoftWrap();
        } else if primary.cols >= 2 {
          cur := cur.(col := primary.cols - 2);
        } else {
          fits := false;
        }
      }
    }

    /** In the middle of an edit: `m` with `cells` in the cursor row of `d`. */
    ghost predicate Editing(m: Machine, d: Draw, cells: seq<Cell>)
      reads this, primary, alt
    {
      && Valid() && MachineOk(m) && d == View(m) && |cells| == d.scr.cols && M() == Put(m, RowSet(d, cells))
      && Here().cells == cells && BlankStyle(D()) == BlankStyle(d)
      && cur == d.cur && modes == d.modes && primary.cols == d.scr.cols
    }

    method EditRoom(w: nat, ghost m: Machine, ghost d: Draw, ghost cells: seq<Cell>)
      requires Editing(m, d, cells)
      modifies primary, alt
      ensures Editing(m, d, Repaired(Inserted(cells, d.cur.col, w, BlankStyle(d)), BlankStyle(d)))
    {
      hide Inserted, Repaired, RowSet, Put, BlankStyle;
      ghost var shifted := Inserted(cells, cur.col, w, BlankStyle(d));
      ghost var whole := Repaired(shifted, BlankStyle(d));
      Rows(m, d, cells, shifted);
      Rows(m, d, shifted, whole);
      Rows(m, d, whole, whole);
      InsertBlanks(cur.col, w);
      RepairWide();
    }

    method EditClean(w: nat, ghost m: Machine, ghost d: Draw, ghost cells: seq<Cell>)
      requires Editing(m, d, cells)
      modifies primary, alt
      ensures Editing(m, d, Cleaned(cells, d.cur.col, w, BlankStyle(d)))
    {
      hide Cleaned, RowSet, Put, BlankStyle;
      ghost var clean := Cleaned(cells, cur.col, w, BlankStyle(d));
      Rows(m, d, cells, clean);
      Rows(m, d, clean, clean);
      CleanWide(cur.col, w);
    }

    method EditCell(col: nat, c: Cell, ghost m: Machine, ghost d: Draw, ghost cells: seq<Cell>)
      requires Editing(m, d, cells) && col < primary.cols
      modifies primary, alt
      ensures Editing(m, d, cells[col := c])
    {
      hide RowSet, Put, BlankStyle;
      Rows(m, d, cells, cells[col := c]);
      Rows(m, d, cells[col := c], cells[col := c]);
      StoreCell(col, c);
    }

    method EditBase(w: nat, ghost m: Machine, ghost d: Draw, ghost cells: seq<Cell>)
      requires Editing(m, d, cells)
      modifies primary, alt
      ensures Editing(m, d, if d.modes.insert then Repaired(Inserted(cells, d.cur.col, w, BlankStyle(d)), BlankStyle(d))
                else cells)
    {
      if modes.insert { EditRoom(w, m, d, cells); }
    }

    method EditGlyph(c: char, w: Columns, ghost m: Machine, ghost d: Draw, ghost cells: seq<Cell>)
      requires Editing(m, d, cells) && 1 <= w
      modifies primary, alt
      ensures Editing(m, d, Written(cells, d.cur.col, c, w, d.cur.style, d.cur.link, BlankStyle(d)))
    {
      hide *;
      EditingMeans(m, d, cells);
      var col, style, link := cur.col, cur.style, cur.link;
      EditClean(w, m, d, cells);
      ghost var row := Cleaned(cells, col, w, BlankStyle(d));
      EditingMeans(m, d, row);
      EditCell(col, Cell(c, style, w, "", link), m, d, row);
      row := row[col := Cell(c, style, w, "", link)];
      EditingMeans(m, d, row);
      if w == 2 { EditCell(Min(col + 1, primary.cols - 1), Spacer(style, link), m, d, row); }
      WrittenIs(cells, col, c, w, style, link, BlankStyle(d));
    }

    lemma {:induction false} EditingMeans(m: Machine, d: Draw, cells: seq<Cell>)
      requires Editing(m, d, cells)
      ensures cur == d.cur && cur.col < primary.cols == |cells| == d.scr.cols && DrawOk(d)
      ensures Min(cur.col + 1, primary.cols - 1) < primary.cols
    {
    }

    /** Inserting, cleaning and writing on the cursor row. */
    method WriteCells(c: char, w: Columns)
      requires Valid() && 1 <= w <= 2
      modifies primary, alt
      ensures Valid() && M() == Put(old(M()), RowSet(old(D()), GlyphRow(old(D()), c, w)))
    {
      hide Inserted, Repaired, Written, RowSet, Put, BlankStyle, MachineOk, DrawOk, SameSize, View;
      ghost var m, d, row := M(), D(), Here().cells;
      StartEdit(m, d);
      EditBase(w, m, d, row);
      row := if d.modes.insert then Repaired(Inserted(row, d.cur.col, w, BlankStyle(d)), BlankStyle(d)) else row;
      EditGlyph(c, w, m, d, row);
    }

    lemma {:induction false} StartEdit(m: Machine, d: Draw)
      requires Valid() && M() == m && d == D()
      ensures Editing(m, d, Here().cells) && cur.col < primary.cols
    {
      Rows(m, d, Here().cells, Here().cells);
    }

    method WriteGlyph(c: char, w: Columns)
      requires Valid() && 1 <= w <= 2
      modifies this, primary, alt
      ensures Valid() && M() == Put(old(M()), PutGlyph(old(D()), c, w))
    {
      hide Inserted, Repaired, Cleaned, Written;
      ghost var m, d := M(), D();
      ghost var row := GlyphRow(d, c, w);
      Rows(m, d, row, row);
      WriteCells(c, w);
      if cur.col + w >= primary.cols {
        cur := cur.(col := primary.cols - 1);
        if modes.autowrap { cur := cur.(pendingWrap := true); }
      } else {
        cur := cur.(col := cur.col + w);
      }
    }

    method CombineChar(c: char)
      requires Valid()
      modifies primary, alt
      ensures Valid() && M() == Put(old(M()), Combine(old(D()), c))
    {
      ghost var m, d := M(), D();
      StartEdit(m, d);
      Puts(m, d, d);
      var col: nat;
      if cur.pendingWrap { col := cur.col; } else if cur.col > 0 { col := cur.col - 1; } else { return; }
      if Here().cells[col].width == 0 && col > 0 { col := col - 1; }
      var cell := Here().cells[col];
      StoreCell(col, cell.(extra := cell.extra + [c]));
    }

    method PrintGlyphNow(c: char, w: Columns)
      requires Valid() && 1 <= w <= 2
      modifies this, primary, alt
      ensures Valid() && M() == Put(old(M()), PrintGlyph(old(D()), c, w))
    {
      hide ResolveWrap, MakeRoom, PutGlyph, MachineOk, DrawOk;
      ghost var m, d0 := M(), D().(last := Some(c));
      LastOk(m, D(), c);
      last := Some(c);
      ghost var d := ResolveWrap(d0);
      Puts(m, d0, d);
      WrapIfPending();
      ghost var e := MakeRoom(d, w);
      Puts(m, d, e);
      var fits := RoomFor(w);
      if !fits { NoRoom(d, w); return; }
      Puts(m, e, PutGlyph(e, c, w));
      WriteGlyph(c, w);
    }

    /** A decoded character: C1 controls are executed, everything else is drawn. */
    method PrintChar(c: char)
      requires Valid()
      modifies this, primary, alt
      ensures Valid() && M() == Put(old(M()), Drawing.Print(widths, old(D()), c))
    {
      hide Control, Combine, PrintGlyph;
      if 0x80 <= c as int < 0xA0 { Execute(c as int); return; }
      var mapped := MapCharset(cur, c);
      if widths.Of(mapped) == 0 { CombineChar(mapped); } else { PrintGlyphNow(mapped, widths.Of(mapped)); }
    }

    // ---- erasing ------------------------------------------------------------

    method StoreCellAt(row: nat, col: nat, c: Cell)
      requires Valid() && row < primary.rows && col < primary.cols
      modifies primary, alt
      ensures Valid() && M() == Put(old(M()), CellSet(old(D()), row, old(D()).scr.grid[row].cells[col := c]))
    {
      Scr().SetCell(row, col, c);
    }

    /** Cell by cell; the selective form skips guarded cells. */
    method EraseCells(row: nat, from: nat, to: nat, style: Style, selective: bool)
      requires Valid() && row < primary.rows && from <= to <= primary.cols
      modifies primary, alt
      ensures Valid() && M() ==
              Put(old(M()), CellSet(old(D()), row, Erased(old(D()).scr.grid[row].cells, from, to, style, selective)))
    {
      hide CellSet, Put, Erased;
      ghost var m, d, cells := M(), D(), D().scr.grid[row].cells;
      ErasedNone(cells, from, style, selective);
      CellsAt(m, d, row, cells, cells);
      for c := from to to
        invariant Valid() && M() == Put(m, CellSet(d, row, Erased(cells, from, c, style, selective)))
      {
        EraseOne(row, c, style, selective, from, m, d, cells);
      }
    }

    method EraseOne(row: nat, c: nat, style: Style, selective: bool, ghost from: nat, ghost m: Machine, ghost d: Draw,
        ghost cells: seq<Cell>)
      requires Valid() && MachineOk(m) && d == View(m) && row < d.scr.rows && cells == d.scr.grid[row].cells
               && from <= c < d.scr.cols
      requires M() == Put(m, CellSet(d, row, Erased(cells, from, c, style, selective)))
      modifies primary, alt
      ensures Valid() && M() == Put(m, CellSet(d, row, Erased(cells, from, c + 1, style, selective)))
    {
      hide CellSet, Put, Erased;
      ghost var now, next := Erased(cells, from, c, style, selective), Erased(cells, from, c + 1, style, selective);
      ErasedMore(cells, from, c, style, selective);
      CellsAt(m, d, row, now, next);
      var cell := D().scr.grid[row].cells[c];
      if !(selective && cell.style.guarded) { StoreCellAt(row, c, Blank(style)); }
    }

    method EraseRow(row: nat, style: Style, selective: bool)
      requires Valid() && row < primary.rows
      modifies primary, alt
      ensures Valid() && M() ==
              Put(old(M()), LineSet(old(D()), row, ErasedRow(old(D()).scr.grid[row], style, selective)))
    {
      hide Erased;
      if selective {
        ghost var d := D();
        EraseCells(row, 0, primary.cols, style, true);
        var r := Scr().grid[row];
        Scr().SetRow(row, r.(wrapped := false));
        Lines(d, row, r, r.(wrapped := false));
      } else {
        Scr().SetRow(row, BlankRow(primary.cols, style));
      }
    }

    method EraseRows(from: nat, to: nat, style: Style, selective: bool)
      requires Valid() && from <= to <= primary.rows
      modifies primary, alt
      ensures Valid() && M() ==
              Put(old(M()), WithGrid(old(D()), ErasedRows(old(D()).scr.grid, from, to, style, selective)))
    {
      hide ErasedRow;
      ghost var m, d := M(), D();
      ErasedRowsNone(d, from, style, selective);
      for r := from to to
        invariant Valid() && M() == Put(m, WithGrid(d, ErasedRows(d.scr.grid, from, r, style, selective)))
      {
        ErasedRowsMore(d, from, r, style, selective);
        EraseRow(r, style, selective);
      }
    }

    /** From the cursor to the end of its row, soft wrap included. */
    method EraseToEnd(style: Style, selective: bool)
      requires Valid()
      modifies primary, alt
      ensures Valid() && M() == Put(old(M()), LineSet(old(D()), cur.row, old(Here()).(
                cells := Erased(old(Here()).cells, cur.col, old(primary.cols), style, selective), wrapped := false)))
    {
      hide Erased;
      ghost var d, r0 := D(), Here();
      EraseCells(cur.row, cur.col, primary.cols, style, selective);
      ghost var r := Here();
      Lines(d, cur.row, r, r.(wrapped := false));
      StoreRow(cur.row, Here().(wrapped := false));
    }

    /** From the cursor down. */
    method EraseBelow(selective: bool)
      requires Valid()
      modifies this, primary, alt
      ensures Valid() && M() == Put(old(M()), EraseDisplay(old(D()), 0, selective))
    {
      hide Erased, ErasedRow, ErasedRows;
      var style := BlankStyle(D());
      cur := cur.(pendingWrap := false);
      EraseToEnd(style, selective);
      EraseRows(cur.row + 1, primary.rows, style, selective);
    }

    method EraseAbove(selective: bool)
      requires Valid()
      modifies this, primary, alt
      ensures Valid() && M() == Put(old(M()), EraseDisplay(old(D()), 1, selective))
    {
      hide Erased, ErasedRow;
      var style, row, col := BlankStyle(D()), cur.row, cur.col;
      cur := cur.(pendingWrap := false);
      ghost var m, d := M(), D();
      EraseRows(0, row, style, selective);
      assert D().scr.grid[row] == d.scr.grid[row];
      EraseCells(row, 0, col + 1, style, selective);
    }

    method EraseInDisplay(mode: nat, selective: bool)
      requires Valid()
      modifies this, primary, alt
      ensures Valid() && M() == Put(old(M()), EraseDisplay(old(D()), mode, selective))
    {
      hide Erased, ErasedRow, ErasedRows;
      if mode == 0 {
        EraseBelow(selective);
      } else if mode == 1 {
        EraseAbove(selective);
      } else if mode == 2 {
        var style := BlankStyle(D());
        cur := cur.(pendingWrap := false);
        EraseRows(0, primary.rows, style, selective);
      } else {
        cur := cur.(pendingWrap := false);
        if mode == 3 { Scr().ClearScrollback(); }
      }
    }

    method EraseInLine(mode: nat, selective: bool)
      requires Valid()
      modifies this, primary, alt
      ensures Valid() && M() == Put(old(M()), EraseLine(old(D()), mode, selective))
    {
      hide Erased, CellSet, Put, EraseLine, PutRow, BlankStyle;
      ghost var m, d := M(), D();
      var style := BlankStyle(D());
      var from: nat, to: nat;
      LineUntouched(m, d, mode, selective);
      cur := cur.(pendingWrap := false);
      if mode == 0 { from, to := cur.col, primary.cols; }
      else if mode == 1 { from, to := 0, cur.col + 1; }
      else if mode == 2 { from, to := 0, primary.cols; }
      else { return; }
      LineErased(m, d, mode, from, to, selective);
      EraseCells(cur.row, from, to, style, selective);
      if mode == 0 || mode == 2 { StoreRow(cur.row, Here().(wrapped := false)); }
    }

    // ---- editing ------------------------------------------------------------

    method LinesIn(n: nat)
      requires Valid()
      modifies this, primary, alt
      ensures Valid() && M() == Put(old(M()), InsertLines(old(D()), n))
    {
      if cur.row < top || cur.row > bot { return; }
      Scr().ScrollBack(cur.row, bot, n, BlankStyle(D()));
      cur := cur.(col := 0, pendingWrap := false);
    }

    method LinesOut(n: nat)
      requires Valid()
      modifies this, primary, alt
      ensures Valid() && M() == Put(old(M()), DeleteLines(old(D()), n))
    {
      if cur.row < top || cur.row > bot { return; }
      Scr().Scroll(cur.row, bot, n, false, BlankStyle(D()));
      cur := cur.(col := 0, pendingWrap := false);
    }

    method RepairEdit(ghost m: Machine, ghost d: Draw, ghost cells: seq<Cell>)
      requires Editing(m, d, cells)
      modifies this, primary, alt
      ensures Valid() && M() == Put(m, EditRow(d, cells))
    {
      hide Repaired;
      ghost var whole := Repaired(cells, BlankStyle(d));
      Rows(m, d, cells, whole);
      RepairWide();
      cur := cur.(pendingWrap := false);
    }

    method CharsIn(n: nat)
      requires Valid()
      modifies this, primary, alt
      ensures Valid() && M() == Put(old(M()), InsertChars(old(D()), n))
    {
      hide Inserted, Repaired;
      ghost var m, d := M(), D();
      ghost var cells := Inserted(Here().cells, cur.col, Min(n, primary.cols), BlankStyle(d));
      Rows(m, d, cells, cells);
      InsertBlanks(cur.col, Min(n, primary.cols));
      RepairEdit(m, d, cells);
    }

    method CharsOut(n: nat)
      requires Valid()
      modifies this, primary, alt
      ensures Valid() && M() == Put(old(M()), DeleteChars(old(D()), n))
    {
      hide Deleted, EditRow;
      ghost var m, d, cells := M(), D(), Here().cells;
      var style, col := BlankStyle(D()), cur.col;
      StartEdit(m, d);
      DeletedNone(cells, col, style);
      for i := 0 to Min(n, primary.cols)
        invariant Editing(m, d, Deleted(cells, col, i, style))
      {
        DeletedMore(cells, col, i, style);
        Rows(m, d, Deleted(cells, col, i, style), Deleted(cells, col, i + 1, style));
        Rows(m, d, Deleted(cells, col, i + 1, style), Deleted(cells, col, i + 1, style));
        var r := Here().cells;
        StoreCells(r[..col] + r[col + 1..] + [Blank(style)]);
      }
      RepairEdit(m, d, Deleted(cells, col, Min(n, primary.cols), style));
    }

    method CharsErased(n: nat)
      requires Valid()
      modifies this, primary, alt
      ensures Valid() && M() == Put(old(M()), EraseChars(old(D()), n))
    {
      hide Erased, EditRow;
      ghost var m, d := M(), D();
      var style, to := BlankStyle(D()), Min(cur.col + n, primary.cols);
      ghost var cells := Erased(Here().cells, cur.col, to, style, false);
      Rows(m, d, cells, cells);
      if cur.col <= to { EraseCells(cur.row, cur.col, to, style, false); }
      RepairEdit(m, d, cells);
    }

    method RepeatLast(n: nat)
      requires Valid()
      modifies this, primary, alt
      ensures Valid() && M() == Put(old(M()), Repeat(widths, old(D()), n))
    {
      hide Drawing.Print;
      ghost var m, d := M(), D();
      Puts(m, d, d);
      if last.Some? {
        var c, cap := last.value, Min(n, primary.cols * primary.rows);
        for i := 0 to cap
          invariant Valid() && SameSize(D(), d) && d == View(m) && M() == Put(m, D())
          invariant PrintN(widths, D(), c, cap - i) == PrintN(widths, d, c, cap)
        {
          Puts(m, D(), Drawing.Print(widths, D(), c));
          PrintChar(c);
        }
      }
    }

    method TabN(n: nat, back: bool)
      requires Valid()
      modifies this
      ensures Valid() && M() == Put(old(M()), Tabs(old(D()), n, back))
    {
      hide NextTab, PrevTab;
      ghost var m, d := M(), D();
      Puts(m, d, d);
      for i := 0 to n
        invariant Valid() && SameSize(D(), d) && d == View(m) && M() == Put(m, D())
        invariant Tabs(D(), n - i, back) == Tabs(d, n, back)
      {
        Puts(m, D(), Tabs(D(), 1, back));
        if back { TabBack(); } else { TabForward(); }
      }
    }

    /** A screen full of E, cell by cell. */
    method AlignScreen()
      requires Valid()
      modifies this, primary, alt
      ensures Valid() && M() == Put(old(M()), Align(old(D())))
    {
      top, bot := 0, primary.rows - 1;
      modes := modes.(origin := false);
      cur := cur.(row := 0, col := 0, pendingWrap := false);
      AlignedAll(old(M()), M());
      AlignRows();
    }

    method AlignRows()
      requires Valid()
      modifies primary, alt
      ensures Valid() && M() == Put(old(M()), WithGrid(old(D()), AlignedTo(old(D()), old(D()).scr.rows)))
    {
      hide Align, AlignedTo, WithGrid, Put, CellSet;
      ghost var m, d := M(), D();
      AlignedNone(d);
      Puts(m, d, d);
      for r := 0 to primary.rows
        invariant Valid() && primary.rows == d.scr.rows && primary.cols == d.scr.cols
        invariant M() == Put(m, WithGrid(d, AlignedTo(d, r)))
      {
        ghost var e, f := WithGrid(d, AlignedTo(d, r)), WithGrid(d, AlignedTo(d, r + 1));
        var c := Cell('E', PLAIN, 1, "", 0);
        ghost var cells := seq(primary.cols, j => c);
        AlignedMore(d, r);
        assert cells == seq(d.scr.cols, j => Cell('E', PLAIN, 1, "", 0));
        Puts(m, e, f);
        Puts(m, f, f);
        assert D() == e && CellSet(e, r, cells) == f;
        FillRowWith(r, c);
        assert D() == f;
      }
    }

    method FillRowWith(row: nat, e: Cell)
      requires Valid() && row < primary.rows
      modifies primary, alt
      ensures Valid() && M() == Put(old(M()), CellSet(old(D()), row, seq(old(primary.cols), j => e)))
    {
      hide CellSet, Put;
      ghost var m, d, cells := M(), D(), D().scr.grid[row].cells;
      CellsAt(m, d, row, cells, cells);
      assert Filled(cells, 0, e) == cells;
      for c := 0 to primary.cols
        invariant Valid() && |cells| == primary.cols == d.scr.cols
                  && M() == Put(m, CellSet(d, row, Filled(cells, c, e)))
      {
        CellsAt(m, d, row, Filled(cells, c, e), Filled(cells, c + 1, e));
        assert Filled(cells, c, e)[c := e] == Filled(cells, c + 1, e);
        StoreCellAt(row, c, e);
      }
      assert Filled(cells, |cells|, e) == seq(|cells|, j => e);
    }

    // ---- movement, margins, tabs --------------------------------------------

    method GoTo(row: nat, col: nat)
      requires Valid()
      modifies this
      ensures Valid() && M() == Put(old(M()), MoveTo(old(D()), row, col))
    {
      var r := if modes.origin then Min(top + row, bot) else Min(row, primary.rows - 1);
      cur := cur.(row := r, col := Min(col, primary.cols - 1), pendingWrap := false);
    }

    method Up(n: nat)
      requires Valid()
      modifies this
      ensures Valid() && M() == Put(old(M()), CursorUp(old(D()), n))
    {
      var limit := if cur.row >= top then top else 0;
      cur := cur.(row := Max(Less(cur.row, n), limit), pendingWrap := false);
    }

    method Down(n: nat)
      requires Valid()
      modifies this
      ensures Valid() && M() == Put(old(M()), CursorDown(old(D()), n))
    {
      var limit := if cur.row <= bot then bot else primary.rows - 1;
      cur := cur.(row := Min(cur.row + n, limit), pendingWrap := false);
    }

    method Column(col: nat)
      requires Valid()
      modifies this
      ensures Valid() && M() == Put(old(M()), CursorTo(old(D()), col))
    {
      cur := cur.(col := Min(col, primary.cols - 1), pendingWrap := false);
    }

    method ClampToRegion()
      requires Valid()
      modifies this
      ensures Valid() && M() == Put(old(M()), IntoRegion(old(D())))
    {
      if modes.origin { cur := cur.(row := Max(top, Min(cur.row, bot))); }
    }

    method GoToLine(row: nat)
      requires Valid()
      modifies this
      ensures Valid() && M() == Put(old(M()), LineTo(old(D()), row))
    {
      var r := if modes.origin then top + row else row;
      cur := cur.(row := Min(r, primary.rows - 1), pendingWrap := false);
      ClampToRegion();
    }

    method Margins(ps: seq<seq<nat>>)
      requires Valid()
      modifies this
      ensures Valid() && M() == Put(old(M()), SetRegion(old(D()), ps))
    {
      var t := ParamOr(ps, 0, 1) - 1;
      var b := Min(ParamOr(ps, 1, primary.rows) - 1, primary.rows - 1);
      if t < b {
        top, bot := t, b;
        GoTo(0, 0);
      }
    }

    method ForgetTabs(mode: nat)
      requires Valid()
      modifies this
      ensures Valid() && M() == Put(old(M()), ClearTabs(old(D()), mode))
    {
      if mode == 0 {
        tabs := tabs[cur.col := false];
      } else if mode == 3 {
        tabs := seq(|tabs|, i => false);
      }
    }

    method SetAnsiModes(ps: seq<seq<nat>>, on: bool)
      requires Valid()
      modifies this
      ensures Valid() && M() == Put(old(M()), AnsiModes(old(D()), ps, on))
    {
      ghost var m, d := M(), D();
      Puts(m, d, d);
      for i := 0 to |ps|
        invariant Valid() && SameSize(D(), d) && d == View(m) && M() == Put(m, D())
        invariant AnsiModes(D(), ps[i..], on) == AnsiModes(d, ps, on)
      {
        assert ps[i..][1..] == ps[i + 1..];
        var n := Sgr.First(ps[i]);
        if n == 4 { modes := modes.(insert := on); } else if n == 20 { modes := modes.(lnm := on); }
      }
    }

    // ---- CSI ----------------------------------------------------------------

    /** CUU to CPL, HPR and VPR. */
    predicate Relative(final: byte) {
      final as int in {'A' as int, 'B' as int, 'C' as int, 'D' as int, 'E' as int, 'F' as int, 'a' as int, 'e' as int}
    }

    /** CHA, CUP, VPA and the tabs. */
    predicate Absolute(final: byte) {
      final as int in {'G' as int, '`' as int, 'H' as int, 'f' as int, 'I' as int, 'Z' as int, 'd' as int}
    }

    /** ED to ICH: what erases, shifts or scrolls. */
    predicate Edits(final: byte) {
      final as int in {'J' as int, 'K' as int, 'L' as int, 'M' as int,
        'P' as int, 'S' as int, 'T' as int, 'X' as int, '@' as int}
    }

    method CsiRelative(ps: seq<seq<nat>>, final: byte)
      requires Valid() && Relative(final)
      modifies this, primary, alt
      ensures Valid() && M() == Put(old(M()), CsiDraw(widths, old(D()), ps, None, 0, final))
    {
      hide CursorTo, CursorUp, CursorDown;
      ghost var m, d := M(), D();
      Puts(m, d, d);
      var n := ParamOr(ps, 0, 1);
      if Is(final, 'A') { Up(n); }
      else if Is(final, 'B') { Down(n); }
      else if Is(final, 'C') || Is(final, 'a') { Column(cur.col + n); }
      else if Is(final, 'D') { Column(Less(cur.col, n)); }
      else if Is(final, 'E') {
        Puts(m, CursorDown(d, n), ToColumn(CursorDown(d, n), 0));
        Down(n);
        cur := cur.(col := 0, pendingWrap := false);
      }
      else if Is(final, 'F') {
        Puts(m, CursorUp(d, n), ToColumn(CursorUp(d, n), 0));
        Up(n);
        cur := cur.(col := 0, pendingWrap := false);
      }
      else { cur := cur.(row := Min(cur.row + n, primary.rows - 1), pendingWrap := false); }
    }

    method CsiAbsolute(ps: seq<seq<nat>>, final: byte)
      requires Valid() && Absolute(final)
      modifies this, primary, alt
      ensures Valid() && M() == Put(old(M()), CsiDraw(widths, old(D()), ps, None, 0, final))
    {
      hide CursorTo, MoveTo, Tabs, LineTo, Put;
      var n := ParamOr(ps, 0, 1);
      if Is(final, 'G') || Is(final, '`') { Column(n - 1); }
      else if Is(final, 'H') || Is(final, 'f') { GoTo(n - 1, ParamOr(ps, 1, 1) - 1); }
      else if Is(final, 'I') { TabN(n, false); }
      else if Is(final, 'Z') { TabN(n, true); }
      else { GoToLine(n - 1); }
    }

    method CsiEdit(ps: seq<seq<nat>>, final: byte)
      requires Valid() && Edits(final)
      modifies this, primary, alt
      ensures Valid() && M() == Put(old(M()), CsiDraw(widths, old(D()), ps, None, 0, final))
    {
      hide EraseDisplay, EraseLine, InsertLines, DeleteLines,
        DeleteChars, InsertChars, EraseChars, ScrollUpN, ScrollDownN, Put;
      var n := ParamOr(ps, 0, 1);
      if Is(final, 'J') { EraseInDisplay(Sgr.Param(ps, 0), false); }
      else if Is(final, 'K') { EraseInLine(Sgr.Param(ps, 0), false); }
      else if Is(final, 'L') { LinesIn(n); }
      else if Is(final, 'M') { LinesOut(n); }
      else if Is(final, 'P') { CharsOut(n); }
      else if Is(final, 'S') { ScrollUpBy(n); }
      else if Is(final, 'T') { ScrollDownBy(n); }
      else if Is(final, 'X') { CharsErased(n); }
      else { CharsIn(n); }
    }

    method CsiOther(ps: seq<seq<nat>>, final: byte)
      requires Valid() && !Relative(final) && !Absolute(final) && !Edits(final)
      modifies this, primary, alt
      ensures Valid() && M() == Put(old(M()), CsiDraw(widths, old(D()), ps, None, 0, final))
    {
      hide Repeat, ClearTabs, AnsiModes, SetRegion, Put;
      ghost var m, d := M(), D();
      Puts(m, d, d);
      if Is(final, 'b') { RepeatLast(ParamOr(ps, 0, 1)); }
      else if Is(final, 'g') { ForgetTabs(Sgr.Param(ps, 0)); }
      else if Is(final, 'h') { SetAnsiModes(ps, true); }
      else if Is(final, 'l') { SetAnsiModes(ps, false); }
      else if Is(final, 'm') { SetStyle(ps); }
      else if Is(final, 'r') { Margins(ps); }
    }

    /** SGR: the guard is no SGR attribute and survives. */
    method SetStyle(ps: seq<seq<nat>>)
      requires Valid()
      modifies this
      ensures Valid() && M() == Put(old(M()), old(D()).(cur := old(cur).(style := Sgr.Apply(ps, old(cur).style))))
    {
      var guarded := cur.style.guarded;
      if ps == [] {
        cur := cur.(style := PLAIN.(guarded := guarded));
        return;
      }
      var style := ReadStyle(ps, cur.style);
      hide Sgr.SgrAll;
      cur := cur.(style := style.(guarded := guarded));
    }

    // ---- the two screens ----------------------------------------------------

    method Save()
      requires Valid()
      modifies this
      ensures Valid() && M() == SaveCursor(old(M()))
    {
      var s := SavedCursor(cur, modes.origin);
      if altActive { savedAlt := s; } else { savedPrimary := s; }
    }

    method Restore()
      requires Valid()
      modifies this
      ensures Valid() && M() == RestoreCursor(old(M()))
    {
      var s := if altActive then savedAlt else savedPrimary;
      cur := s.cursor;
      modes := modes.(origin := s.origin);
      cur := cur.(row := Min(cur.row, primary.rows - 1), col := Min(cur.col, primary.cols - 1));
      ClampToRegion();
    }

    method Reset()
      requires Valid()
      modifies this, primary, alt
      ensures Valid() && M() == FullReset(old(M()))
    {
      hide ClearedGrid;
      ClearBoth();
      ResetFields();
    }

    method ResetFields()
      requires Valid()
      modifies this
      ensures Valid()
      ensures M() == old(M()).(
                altActive := false, cur := HOME, savedPrimary := NOTHING_SAVED, savedAlt := NOTHING_SAVED,
                modes := DEFAULT_MODES, top := 0, bot := old(M()).primary.rows - 1,
                tabs := DefaultTabs(old(M()).primary.cols), last := None)
    {
      hide DefaultTabs, ScrOk;
      altActive := false;
      cur, savedPrimary, savedAlt, modes := HOME, NOTHING_SAVED, NOTHING_SAVED, DEFAULT_MODES;
      top, bot, tabs, last := 0, primary.rows - 1, DefaultTabs(primary.cols), None;
    }

    method ClearBoth()
      requires Valid()
      modifies primary, alt
      ensures Valid() && M() ==
              old(M()).(primary := ClearedGrid(old(M()).primary, PLAIN), alt := ClearedGrid(old(M()).alt, PLAIN))
      ensures primary.rows == old(primary.rows) && primary.cols == old(primary.cols)
    {
      hide BlankRows;
      primary.ClearGrid(PLAIN);
      alt.ClearGrid(PLAIN);
    }

    method ResetSoftly()
      requires Valid()
      modifies this
      ensures Valid() && M() == SoftReset(old(M()))
    {
      modes := modes.(origin := false, insert := false, autowrap := false);
      top, bot := 0, primary.rows - 1;
      cur := cur.(style := PLAIN, link := 0, pendingWrap := false, g0 := Ascii, g1 := Ascii, shift := 0);
      if altActive { savedAlt := NOTHING_SAVED; } else { savedPrimary := NOTHING_SAVED; }
    }

    method Resize(rows: nat, cols: nat)
      requires Valid() && rows <= 0xFFFF && cols <= 0xFFFF
      modifies this, primary, alt
      ensures Valid() && M() == Resized(old(M()), rows, cols)
    {
      hide Screens.Resize;
      var r, c := Max(rows, 1), Max(cols, 1);
      if r == primary.rows && c == primary.cols { return; }
      ResizeKeeps(M(), r, c);
      var here := Spot(cur.row, cur.col);
      var primaryCur := primary.ResizeTo(r, c, if altActive then Spot(0, 0) else here, true);
      var altCur := alt.ResizeTo(r, c, if altActive then here else Spot(0, 0), false);
      var at := if altActive then altCur else primaryCur;
      cur := cur.(row := Min(at.row, r - 1), col := Min(at.col, c - 1), pendingWrap := false);
      top, bot := 0, r - 1;
      tabs := KeepTabs(tabs, c);
    }

    method HomeCleared()
      requires Valid()
      modifies this, primary, alt
      ensures Valid() && M() == Homed(old(M()))
    {
      top, bot := 0, primary.rows - 1;
      if !modes.keepOnColumns { Scr().ClearGrid(BlankStyle(D())); }
      cur := cur.(row := 0, col := 0, pendingWrap := false);
    }

    method Columns(on: bool)
      requires Valid()
      modifies this, primary, alt
      ensures Valid() && M() == SetColumns(old(M()), on)
    {
      hide Resized, Homed;
      if !modes.allowColumns { return; }
      modes := modes.(columns132 := on);
      Resize(primary.rows, if on then 132 else 80);
      HomeCleared();
    }

    method SwitchScreen(mode: nat, on: bool)
      requires Valid()
      modifies this, primary, alt
      ensures Valid() && M() == SetAltScreen(old(M()), mode, on)
    {
      hide RestoreCursor, SaveCursor;
      var style := BlankStyle(D());
      if on && !altActive {
        SavedKeeps(M());
        if mode == 1049 { Save(); }
        altActive := true;
        if mode == 1049 { alt.ClearGrid(style); }
      } else if !on && altActive {
        if mode == 1047 { alt.ClearGrid(style); }
        altActive := false;
        if mode == 1049 { Restore(); }
      }
      cur := cur.(pendingWrap := false);
      cur := cur.(row := Min(cur.row, primary.rows - 1));
    }

    method DecMode(n: nat, on: bool)
      requires Valid()
      modifies this, primary, alt
      ensures Valid() && M() == SetDecMode(old(M()), n, on)
    {
      hide SetColumns, SetAltScreen, RestoreCursor, SaveCursor, MoveTo;
      if n == 3 { Columns(on); }
      else if n == 6 { modes := modes.(origin := on); GoTo(0, 0); }
      else if n == 7 {
        modes := modes.(autowrap := on);
        if !on { cur := cur.(pendingWrap := false); }
      }
      else if n == 40 { modes := modes.(allowColumns := on); }
      else if n == 95 { modes := modes.(keepOnColumns := on); }
      else if n == 47 || n == 1047 || n == 1049 { SwitchScreen(n, on); }
      else if n == 1048 { if on { Save(); } else { Restore(); } }
    }

    method DecModes(ps: seq<seq<nat>>, on: bool)
      requires Valid()
      modifies this, primary, alt
      ensures Valid() && M() == SetDecModes(old(M()), ps, on)
    {
      hide SetDecMode;
      for i := 0 to |ps|
        invariant Valid() && SetDecModes(M(), ps[i..], on) == SetDecModes(old(M()), ps, on)
      {
        assert ps[i..][1..] == ps[i + 1..];
        DecMode(Sgr.First(ps[i]), on);
      }
    }

    // ---- dispatch -----------------------------------------------------------

    method DispatchCsi(ps: seq<seq<nat>>, ims: seq<byte>, mark: byte, final: byte)
      requires Valid()
      modifies this, primary, alt
      ensures Valid() && M() == CsiStep(widths, old(M()), ps, FirstByte(ims), mark, final)
    {
      hide Relative, Absolute, Edits;
      ghost var m, d := M(), D();
      Puts(m, d, d);
      var im := FirstByte(ims);
      if im == None && mark as int == '?' as int {
        if Is(final, 'h') { DecModes(ps, true); }
        else if Is(final, 'l') { DecModes(ps, false); }
        else if Is(final, 'J') { EraseInDisplay(Sgr.Param(ps, 0), true); }
        else if Is(final, 'K') { EraseInLine(Sgr.Param(ps, 0), true); }
      } else if im == None && mark == 0 {
        if Is(final, 's') { Save(); }
        else if Is(final, 'u') { Restore(); }
        else if Relative(final) { CsiRelative(ps, final); }
        else if Absolute(final) { CsiAbsolute(ps, final); }
        else if Edits(final) { CsiEdit(ps, final); }
        else { CsiOther(ps, final); }
      } else if im == Some(0x21) && mark == 0 && Is(final, 'p') {
        ResetSoftly();
      } else if im == Some(0x22) && mark == 0 && Is(final, 'q') {
        cur := cur.(style := cur.style.(guarded := Sgr.Param(ps, 0) == 1));
      }
    }

    method DispatchEsc(ims: seq<byte>, f: byte)
      requires Valid()
      modifies this, primary, alt
      ensures Valid() && M() == EscStep(old(M()), FirstByte(ims), f)
    {
      hide Index, ReverseIndex, Align, SaveCursor, RestoreCursor, FullReset;
      ghost var m, d := M(), D();
      var im := FirstByte(ims);
      if im == None {
        if Is(f, '7') { Save(); }
        else if Is(f, '8') { Restore(); }
        else if Is(f, 'D') { IndexDown(); }
        else if Is(f, 'E') { cur := cur.(col := 0); IndexDown(); }
        else if Is(f, 'H') { tabs := tabs[cur.col := true]; }
        else if Is(f, 'M') { IndexUp(); }
        else if Is(f, 'c') { Reset(); }
      }
      else if im == Some(0x23) && Is(f, '8') { AlignScreen(); }
      else if im == Some(0x28) { cur := cur.(g0 := CharsetFor(f)); }
      else if im == Some(0x29) { cur := cur.(g1 := CharsetFor(f)); }
    }

    method PrintText(text: string)
      requires Valid()
      modifies this, primary, alt
      ensures Valid() && M() == Put(old(M()), PrintAll(widths, old(D()), text))
    {
      hide Drawing.Print;
      ghost var m, d := M(), D();
      Puts(m, d, d);
      for i := 0 to |text|
        invariant Valid() && SameSize(D(), d) && d == View(m) && M() == Put(m, D())
        invariant PrintAll(widths, D(), text[i..]) == PrintAll(widths, d, text)
      {
        assert text[i..][1..] == text[i + 1..];
        Puts(m, D(), Drawing.Print(widths, D(), text[i]));
        PrintChar(text[i]);
      }
    }

    method DispatchOsc(data: seq<byte>)
      requires Valid()
      modifies this, primary, alt
      ensures Valid() && M() ==
              Machines.OscStep(widths, old(M()).(strings := old(strings) + 1), world.osc(old(strings), data))
    {
      hide PrintAll;
      var e := world.osc(strings, data);
      strings := strings + 1;
      ghost var m, d := M(), D();
      match e
      case NoEffect =>
      case SetLink(id) => cur := cur.(link := id);
      case SetMark(mark) => StoreRow(cur.row, Here().(mark := Some(mark)));
      case PutText(text, width) =>
        var start := cur.col;
        ghost var p := PrintAll(widths, d, text);
        Puts(m, p, CursorTo(p, start + width));
        PrintText(text);
        if width > 0 { Column(start + width); }
    }

    method DispatchApc(data: seq<byte>)
      requires Valid()
      modifies this
      ensures Valid() && M() == Machines.ApcStep(old(M()).(strings := old(strings) + 1), world.apc(old(strings), data))
    {
      var advance := world.apc(strings, data);
      strings := strings + 1;
      if advance.Some? {
        cur := cur.(row := Min(cur.row + Less(advance.value.1, 1), primary.rows - 1),
                    col := Min(cur.col + advance.value.0, primary.cols - 1), pendingWrap := false);
      }
    }

    method Perform(a: Action)
      requires Valid()
      modifies this, primary, alt
      ensures Valid() && M() == Dispatch(widths, world, old(M()), a)
    {
      hide CsiStep, EscStep, Machines.OscStep, Machines.ApcStep, Control, Drawing.Print, Put;
      match a
      case Print(c) => PrintChar(c);
      case Execute(b) => Execute(b);
      case Csi(ps, ims, mark, final) => DispatchCsi(ps, ims, mark, final);
      case Esc(ims, final) => DispatchEsc(ims, final);
      case Osc(data, _) => DispatchOsc(data);
      case Apc(data) => DispatchApc(data);
      case Dcs(_, _, _, _) =>
    }

    /** Every byte goes through the parser, and its actions are carried out before the next byte. */
    method Process(bytes: seq<byte>)
      requires Valid()
      modifies this, primary, alt, parser
      ensures Valid() && parser.View() == ParseAll(old(parser.View()), bytes).0
      ensures M() == DispatchAll(widths, world, old(M()), ParseAll(old(parser.View()), bytes).1)
    {
      hide Dispatch, VtParser.Advance;
      ghost var p0, m0 := parser.View(), M();
      for i := 0 to |bytes|
        invariant Valid()
        invariant ParseAll(parser.View(), bytes[i..]).0 == ParseAll(p0, bytes).0
        invariant DispatchAll(widths, world, M(), ParseAll(parser.View(), bytes[i..]).1)
               == DispatchAll(widths, world, m0, ParseAll(p0, bytes).1)
      {
        assert bytes[i..][1..] == bytes[i + 1..];
        ghost var m, rest := M(), ParseAll(VtParser.Advance(parser.View(), bytes[i]).0, bytes[i + 1..]).1;
        var actions := parser.AdvanceByte(bytes[i]);
        ghost var q := parser.View();
        DispatchSplit(widths, world, m, actions, rest);
        for k := 0 to |actions|
          invariant Valid() && DispatchAll(widths, world, M(), actions[k..]) == DispatchAll(widths, world, m, actions)
          invariant parser.View() == q
        {
          assert actions[k..][1..] == actions[k + 1..];
          Perform(actions[k]);
        }
      }
    }
  }

  // ---- algebra of partial updates -------------------------------------------

  function RowSet(d: Draw, cells: seq<Cell>): (r: Draw)
    requires DrawOk(d) && |cells| == d.scr.cols
    ensures DrawOk(r) && SameSize(r, d)
  {
    Drawing.SetRow(d, CursorRow(d).(cells := cells))
  }

  /** Writing the cursor row twice is writing it once; writing it back changes nothing. */
  lemma {:induction false} Rows(m: Machine, d: Draw, a: seq<Cell>, b: seq<Cell>)
    requires MachineOk(m) && d == View(m) && |a| == |b| == d.scr.cols
    ensures var e := RowSet(d, a);
            && View(Put(m, e)) == e && CursorRow(e).cells == a && BlankStyle(e) == BlankStyle(d)
            && RowSet(e, b) == RowSet(d, b) && Put(Put(m, e), RowSet(d, b)) == Put(m, RowSet(d, b))
    ensures RowSet(d, CursorRow(d).cells) == d && Put(m, d) == m
  {
    assert d.scr.grid[d.cur.row := CursorRow(d)] == d.scr.grid;
  }

  lemma {:induction false} Puts(m: Machine, d: Draw, e: Draw)
    requires MachineOk(m) && DrawOk(d) && DrawOk(e) && SameSize(d, View(m)) && SameSize(e, d)
    ensures View(Put(m, d)) == d && Put(Put(m, d), e) == Put(m, e) && Put(m, View(m)) == m
  {
  }

  lemma {:induction false} LastOk(m: Machine, d: Draw, c: char)
    requires MachineOk(m) && d == View(m)
    ensures var e := d.(last := Some(c)); DrawOk(e) && SameSize(e, d) && MachineOk(m.(last := Some(c)))
    ensures m.(last := Some(c)) == Put(m, d.(last := Some(c)))
  {
  }

  lemma {:induction false} NoRoom(d: Draw, w: nat)
    requires DrawOk(d) && w == 2 && d.cur.col + 1 >= d.scr.cols && !d.modes.autowrap && d.scr.cols < 2
    ensures MakeRoom(d, w) == d
  {
  }

  /** The cursor row with a glyph written into it. */
  function GlyphRow(d: Draw, c: char, w: Columns): (r: seq<Cell>)
    requires DrawOk(d)
    ensures |r| == d.scr.cols
  {
    var cells, erase := CursorRow(d).cells, BlankStyle(d);
    var base := if d.modes.insert then Repaired(Inserted(cells, d.cur.col, w, erase), erase) else cells;
    Written(base, d.cur.col, c, w, d.cur.style, d.cur.link, erase)
  }

  lemma {:induction false} WrittenIs(cells: seq<Cell>, col: nat, c: char, w: Columns, style: Style, link: nat,
      erase: Style)
    requires col < |cells|
    ensures var t := Cleaned(cells, col, w, erase)[col := Cell(c, style, w, "", link)];
            && Min(col + 1, |cells| - 1) < |t|
            && Written(cells, col, c, w, style, link, erase) == if w == 2
               then t[Min(col + 1, |cells| - 1) := Spacer(style, link)] else t
  {
  }

  /** The row after cells `0..c` have been visited. */
  function RepairedTo(cells: seq<Cell>, c: nat, style: Style): (r: seq<Cell>)
    requires c <= |cells|
    ensures |r| == |cells|
  {
    Repaired(cells, style)[..c] + cells[c..]
  }

  lemma {:induction false} RepairedEnds(cells: seq<Cell>, style: Style)
    ensures RepairedTo(cells, 0, style) == cells && RepairedTo(cells, |cells|, style) == Repaired(cells, style)
  {
  }

  /** Blanking a half on the left never changes the verdict about the next cell. */
  lemma {:induction false} RepairStep(cells: seq<Cell>, c: nat, style: Style)
    requires c < |cells|
    ensures var t := RepairedTo(cells, c, style);
            && Orphan(t, c) == Orphan(cells, c)
            && RepairedTo(cells, c + 1, style) == if Orphan(cells, c) then t[c := Blank(style)] else t
  {
    var r := Repaired(cells, style);
    assert r[..c + 1] == r[..c] + [r[c]];
  }

  lemma {:induction false} InsertNone(cells: seq<Cell>, col: nat, style: Style)
    requires col < |cells|
    ensures Inserted(cells, col, 0, style) == cells
  {
    assert Blanks(0, style) == [];
  }

  lemma {:induction false} InsertMore(cells: seq<Cell>, col: nat, i: nat, style: Style)
    requires col < |cells|
    ensures var r := Inserted(cells, col, i, style);
            var p := r[..|r| - 1];
            p[..col] + [Blank(style)] + p[col..] == Inserted(cells, col, i + 1, style)
  {
    assert Blanks(i + 1, style) == [Blank(style)] + Blanks(i, style);
    var whole := cells[..col] + Blanks(i, style) + cells[col..];
    assert Inserted(cells, col, i, style)[..|cells| - 1] == whole[..|cells| - 1];
    assert cells[..col] + Blanks(i + 1, style) + cells[col..] == whole[..col] + [Blank(style)] + whole[col..];
  }

  // ---- the same for any row -------------------------------------------------

  function LineSet(d: Draw, row: nat, r: Row): (e: Draw)
    requires DrawOk(d) && row < d.scr.rows && |r.cells| == d.scr.cols
    ensures DrawOk(e) && SameSize(e, d)
  {
    WithGrid(d, d.scr.grid[row := r])
  }

  function CellSet(d: Draw, row: nat, cells: seq<Cell>): (e: Draw)
    requires DrawOk(d) && row < d.scr.rows && |cells| == d.scr.cols
    ensures DrawOk(e) && SameSize(e, d)
  {
    LineSet(d, row, d.scr.grid[row].(cells := cells))
  }

  lemma {:induction false} Lines(d: Draw, row: nat, a: Row, b: Row)
    requires DrawOk(d) && row < d.scr.rows && |a.cells| == |b.cells| == d.scr.cols
    ensures LineSet(LineSet(d, row, a), row, b) == LineSet(d, row, b)
  {
  }

  lemma {:induction false} CellsAt(m: Machine, d: Draw, row: nat, a: seq<Cell>, b: seq<Cell>)
    requires MachineOk(m) && d == View(m) && row < d.scr.rows && |a| == |b| == d.scr.cols
    ensures var e := CellSet(d, row, a);
            && View(Put(m, e)) == e && e.scr.grid[row].cells == a
            && CellSet(e, row, b) == CellSet(d, row, b)
            && Put(Put(m, e), CellSet(d, row, b)) == Put(m, CellSet(d, row, b))
    ensures CellSet(d, row, d.scr.grid[row].cells) == d && Put(m, d) == m
  {
    assert d.scr.grid[row := d.scr.grid[row]] == d.scr.grid;
  }

  /** EL with an unknown mode only drops a pending wrap. */
  lemma {:induction false} LineUntouched(m: Machine, d: Draw, mode: nat, selective: bool)
    requires MachineOk(m) && d == View(m)
    ensures var e := NoPending(d);
            && m.(cur := m.cur.(pendingWrap := false)) == Put(m, e) && View(Put(m, e)) == e
            && BlankStyle(e) == BlankStyle(d)
            && (mode > 2 ==> EraseLine(d, mode, selective) == e)
  {
  }

  lemma {:induction false} LineErased(m: Machine, d: Draw, mode: nat, from: nat, to: nat, selective: bool)
    requires MachineOk(m) && d == View(m) && mode <= 2
    requires from == (if mode == 0 then d.cur.col else 0) && to == if mode == 1 then d.cur.col + 1 else d.scr.cols
    ensures var e, row := NoPending(d), d.cur.row;
            var f := CellSet(e, row, Erased(d.scr.grid[row].cells, from, to, BlankStyle(d), selective));
            && e.scr == d.scr && Put(Put(m, e), f) == Put(m, f) && View(Put(m, f)) == f
            && if mode == 1 then EraseLine(d, mode, selective) == f
               else
                 var r := f.scr.grid[row].(wrapped := false);
                 var g := f.(scr := PutRow(f.scr, row, r));
                 |r.cells| == d.scr.cols && DrawOk(g) && SameSize(g, d) && g == EraseLine(d, mode, selective)
                   && Put(Put(m, f), g) == Put(m, g)
  {
    hide Erased;
    var e, row := NoPending(d), d.cur.row;
    var cells := Erased(d.scr.grid[row].cells, from, to, BlankStyle(d), selective);
    var f := CellSet(e, row, cells);
    assert d.scr.grid[row := d.scr.grid[row].(cells := cells)][row :=
      d.scr.grid[row].(cells := cells, wrapped := false)]
        == d.scr.grid[row := d.scr.grid[row].(cells := cells, wrapped := false)];
    Puts(m, e, f);
    Puts(m, f, f);
    if mode != 1 { Puts(m, f, EraseLine(d, mode, selective)); }
  }

  lemma {:induction false} CleanBegin(cells: seq<Cell>, col: nat, w: nat, style: Style)
    requires col < |cells|
    ensures Cleaned(cells, col, w, style) ==
            CleanFrom(if cells[col].width == 0 && col > 0 then cells[col - 1 := Blank(style)] else cells, col, w, style)
  {
  }

  lemma {:induction false} CleanStep(cells: seq<Cell>, col: nat, w: nat, style: Style)
    ensures if w == 0 || col >= |cells| then CleanFrom(cells, col, w, style) == cells
            else CleanFrom(cells, col, w, style) ==
                 CleanFrom(if cells[col].width == 2 && col + 1 < |cells| then cells[col + 1 := Blank(style)] else cells,
                   col + 1, w - 1, style)
  {
  }

  lemma {:induction false} ErasedNone(cells: seq<Cell>, from: nat, style: Style, selective: bool)
    ensures Erased(cells, from, from, style, selective) == cells
  {
  }

  lemma {:induction false} ErasedMore(cells: seq<Cell>, from: nat, c: nat, style: Style, selective: bool)
    requires from <= c < |cells|
    ensures var t := Erased(cells, from, c, style, selective);
            && t[c] == cells[c]
            && Erased(cells, from, c + 1, style, selective) == if selective && cells[c].style.guarded then t
               else t[c := Blank(style)]
  {
  }

  lemma {:induction false} ErasedRowsNone(d: Draw, from: nat, style: Style, selective: bool)
    requires DrawOk(d)
    ensures WithGrid(d, ErasedRows(d.scr.grid, from, from, style, selective)) == d
  {
    assert ErasedRows(d.scr.grid, from, from, style, selective) == d.scr.grid;
  }

  lemma {:induction false} ErasedRowsMore(d: Draw, from: nat, r: nat, style: Style, selective: bool)
    requires DrawOk(d) && from <= r < d.scr.rows
    ensures var e := WithGrid(d, ErasedRows(d.scr.grid, from, r, style, selective));
            && e.scr.grid[r] == d.scr.grid[r]
            && LineSet(e, r, ErasedRow(d.scr.grid[r], style, selective)) ==
               WithGrid(d, ErasedRows(d.scr.grid, from, r + 1, style, selective))
  {
    var g, h := ErasedRows(d.scr.grid, from, r, style, selective),
      ErasedRows(d.scr.grid, from, r + 1, style, selective);
    assert g[r := ErasedRow(d.scr.grid[r], style, selective)] == h;
  }

  lemma {:induction false} DeletedNone(cells: seq<Cell>, col: nat, style: Style)
    requires col < |cells|
    ensures Deleted(cells, col, 0, style) == cells
  {
  }

  lemma {:induction false} DeletedMore(cells: seq<Cell>, col: nat, i: nat, style: Style)
    requires col < |cells|
    ensures var r := Deleted(cells, col, i, style);
            r[..col] + r[col + 1..] + [Blank(style)] == Deleted(cells, col, i + 1, style)
  {
  }

  function Filled(cells: seq<Cell>, c: nat, e: Cell): (r: seq<Cell>)
    requires c <= |cells|
    ensures |r| == |cells|
  {
    seq(c, j => e) + cells[c..]
  }

  /** The grid with its first `r` rows filled with E. */
  function AlignedTo(d: Draw, r: nat): (g: seq<Row>)
    requires DrawOk(d) && r <= d.scr.rows
    ensures |g| == d.scr.rows && RowsFit(g, d.scr.cols)
  {
    Align(d).scr.grid[..r] + d.scr.grid[r..]
  }

  lemma {:induction false} AlignedNone(d: Draw)
    requires DrawOk(d)
    ensures WithGrid(d, AlignedTo(d, 0)) == d && AlignedTo(d, d.scr.rows) == Align(d).scr.grid
  {
    assert AlignedTo(d, 0) == d.scr.grid;
  }

  /** The parameters one after the other; a color takes those that belong to it. */
  method ReadStyle(ps: seq<seq<nat>>, pen: Style) returns (style: Style)
    ensures style == Sgr.SgrAll(ps, pen)
  {
    style := pen;
    var i := 0;
    assert ps[0..] == ps;
    while i < |ps|
      invariant 0 <= i && Sgr.SgrAll(if i <= |ps| then ps[i..] else [], style) == Sgr.SgrAll(ps, pen)
    {
      if Sgr.IsExtended(Sgr.First(ps[i])) {
        var (c, used) := Sgr.ExtendedColor(ps[i..]);
        assert Sgr.Drop(ps[i..], 1 + used) == if i + 1 + used <= |ps| then ps[i + 1 + used..] else [];
        style := Sgr.SetColor(style, Sgr.First(ps[i]), c);
        i := i + 1 + used;
      } else {
        assert ps[i..][1..] == ps[i + 1..];
        style := Sgr.SgrOne(ps[i], style);
        i := i + 1;
      }
    }
  }

  /** Stops in columns that remain are kept. */
  method KeepTabs(was: seq<bool>, cols: nat) returns (tabs: seq<bool>)
    ensures tabs == was[..Min(|was|, cols)] + DefaultTabs(cols)[Min(|was|, cols)..]
  {
    tabs := DefaultTabs(cols);
    for i := 0 to Min(|was|, cols)
      invariant tabs == was[..i] + DefaultTabs(cols)[i..]
    {
      tabs := tabs[i := was[i]];
    }
  }

  /** Margins, origin mode and cursor first, the cells after. */
  lemma {:induction false} AlignedAll(was: Machine, m: Machine)
    requires MachineOk(was) && MachineOk(m)
    requires m == was.(top := 0, bot := was.primary.rows - 1, modes := was.modes.(origin := false),
                       cur := was.cur.(row := 0, col := 0, pendingWrap := false))
    ensures Put(m, WithGrid(View(m), AlignedTo(View(m), View(m).scr.rows))) == Put(was, Align(View(was)))
  {
    AlignedNone(View(m));
  }

  lemma {:induction false} AlignedMore(d: Draw, r: nat)
    requires DrawOk(d) && r < d.scr.rows
    ensures CellSet(WithGrid(d, AlignedTo(d, r)), r, seq(d.scr.cols, j => Cell('E', PLAIN, 1, "", 0)))
         == WithGrid(d, AlignedTo(d, r + 1))
  {
    var g, full := AlignedTo(d, r), Align(d).scr.grid;
    assert g[r] == d.scr.grid[r];
    assert g[r := full[r]] == AlignedTo(d, r + 1);
  }

  lemma {:induction false} SavedKeeps(m: Machine)
    requires MachineOk(m)
    ensures var s := SaveCursor(m); s.altActive == m.altActive && s.alt == m.alt && s.primary == m.primary
  {
  }

  lemma {:induction false} DispatchSplit(w: Widths, o: World, m: Machine, s: seq<Action>, t: seq<Action>)
    requires MachineOk(m)
    ensures DispatchAll(w, o, m, s + t) == DispatchAll(w, o, DispatchAll(w, o, m, s), t)
    decreases |s|
  {
    hide Dispatch;
    if s == [] {
      assert s + t == t;
    } else {
      assert (s + t)[1..] == s[1..] + t;
      DispatchSplit(w, o, Dispatch(w, o, m, s[0]), s[1..], t);
    }
  }
}
