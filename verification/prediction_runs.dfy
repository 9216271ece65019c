// Whole runs of the prediction engine, and what its predictions do to the screen.
module PredictionRuns {
  import opened Utf8
  import opened Cells
  import opened Predictions
  import opened PredictionProofs

  // ---- predicting keeps the invariant ---------------------------------------

  lemma {:induction false} InitKeeps<P>(e: Engine<P>, w: Wall, fb: Frame)
    requires Kept(e, w) && Fits(e, fb)
    ensures Kept(InitCursor(e, fb), w) && Onward(e, InitCursor(e, fb))
  {
    hide RowsShape, CursorsShape, RowsIn, MovesIn;
    if e.cursors == [] {
      NewMove(e, w, fb.row, fb.col, NEVER);
      FrameCursorFits(e, fb);
      MoveAdded(e, w, FrameCursor(e, fb));
      assert [] + [FrameCursor(e, fb)] == [FrameCursor(e, fb)];
    } else {
      var m := Last(e);
      LastOnScreen(e);
      NewMove(e, w, m.row, m.col, NEVER);
      MoveAdded(e, w, CursorGuess(e.sent + 1, m.row, m.col, true, e.epoch, NEVER));
    }
  }

  lemma {:induction false} FrameCursorFits<P>(e: Engine<P>, fb: Frame)
    requires FrameOk(fb)
    ensures CursorShape(FrameCursor(e, fb), fb.height, fb.width)
  {
  }

  lemma {:induction false} LastIn<P>(e: Engine<P>, w: Wall)
    requires Kept(e, w) && e.cursors != []
    ensures MoveIn(Last(e), e.epoch, e.sent, w) && CursorShape(Last(e), e.lastHeight, e.lastWidth)
  {
    assert Last(e) in e.cursors;
  }

  lemma {:induction false} MovedKeeps<P>(e: Engine<P>, w: Wall, fb: Frame, m: CursorGuess)
    requires Kept(e, w) && Fits(e, fb) && e.cursors != []
    requires CursorShape(m, fb.height, fb.width) && MoveIn(m, e.epoch, e.sent, w)
    ensures Kept(Moved(e, fb, m), w) && Onward(e, Moved(e, fb, m))
  {
    hide RowsShape, RowsIn;
  }

  lemma {:induction false} FittedKeeps<P>(e: Engine<P>, w: Wall, fb: Frame, r: nat, cells: seq<CellGuess>)
    requires Kept(e, w) && Fits(e, fb) && r < |e.overlays| && CellsIn(cells, e.epoch, e.sent, w)
    requires |cells| == fb.width && forall i | 0 <= i < fb.width :: cells[i].col == i
    ensures Kept(Fitted(e, fb, r, cells), w) && Onward(e, Fitted(e, fb, r, cells))
  {
    hide RowsShape, CursorsShape, CellsIn, MovesIn;
  }

  lemma {:induction false} WithRowKeeps<P>(e: Engine<P>, w: Wall, fb: Frame)
    requires Kept(e, w) && Fits(e, fb) && e.cursors != []
    ensures Kept(WithRow(e, fb), w) && Onward(e, WithRow(e, fb))
    ensures WithRow(e, fb).overwrite == e.overwrite
  {
    hide RowsShape, CursorsShape, MovesIn;
    forall i | 0 <= i < fb.width
      ensures CellIn(FreshCell(i, e.epoch), e.epoch, e.sent, w)
    {
    }
  }

  lemma {:induction false} RenewedIn<P>(e: Engine<P>, w: Wall, now: nat, c: CellGuess)
    requires w.cells <= e.epoch
    ensures CellIn(Renewed(e, now, c), e.epoch, e.sent, w)
  {
  }

  lemma {:induction false} RowCells<P>(e: Engine<P>, w: Wall, r: nat)
    requires Kept(e, w) && r < |e.overlays|
    ensures CellsIn(e.overlays[r].cells, e.epoch, e.sent, w) && w.cells <= e.epoch
  {
  }

  lemma {:induction false} EraseIn<P>(e: Engine<P>, w: Wall, fb: Frame, now: nat, row: nat, cells: seq<CellGuess>,
      i: nat)
    requires FrameOk(fb) && row < fb.height && |cells| == fb.width && i <= fb.width
    requires w.cells <= e.epoch && CellsIn(cells, e.epoch, e.sent, w)
    ensures CellsIn(EraseFrom(e, fb, now, row, cells, i), e.epoch, e.sent, w)
    decreases fb.width - i
  {
    hide FrameOk, Retired;
    if i < fb.width {
      RenewedIn(e, w, now, cells[i]);
      EraseIn(e, w, fb, now, row, cells[i := ErasedCell(e, fb, now, row, cells, i)], i + 1);
    }
  }

  lemma {:induction false} ShiftIn<P>(e: Engine<P>, w: Wall, fb: Frame, now: nat, row: nat, cells: seq<CellGuess>,
      stop: nat, i: nat)
    requires FrameOk(fb) && row < fb.height && |cells| == fb.width && i < fb.width
    requires w.cells <= e.epoch && CellsIn(cells, e.epoch, e.sent, w)
    ensures CellsIn(ShiftDown(e, fb, now, row, cells, stop, i), e.epoch, e.sent, w)
    decreases i
  {
    hide FrameOk, Retired;
    if i > stop {
      RenewedIn(e, w, now, cells[i]);
      ShiftIn(e, w, fb, now, row, cells[i := ShiftedCell(e, fb, now, row, cells, i)], stop, i - 1);
    }
  }

  lemma {:induction false} PlacedIn<P>(e: Engine<P>, w: Wall, fb: Frame, now: nat, row: nat, cells: seq<CellGuess>,
      col: nat, ch: char)
    requires FrameOk(fb) && row < fb.height && |cells| == fb.width && col < fb.width
    requires w.cells <= e.epoch && CellsIn(cells, e.epoch, e.sent, w)
    ensures CellsIn(cells[col := PlacedCell(e, fb, now, row, cells, col, ch)], e.epoch, e.sent, w)
  {
    RenewedIn(e, w, now, cells[col]);
    hide FrameOk, Retired;
  }

  lemma {:induction false} OverwrittenIn<P>(e: Engine<P>, w: Wall, fb: Frame, now: nat, cells: seq<CellGuess>, i: nat)
    requires FrameOk(fb) && i < |cells| && w.cells <= e.epoch && CellsIn(cells, e.epoch, e.sent, w)
    ensures CellsIn(cells[i := OverwrittenCell(e, fb, now, cells[i])], e.epoch, e.sent, w)
  {
    RenewedIn(e, w, now, cells[i]);
    hide FrameOk, Retired;
  }

  lemma {:induction false} TentativeFits<P>(e: Engine<P>, fb: Frame)
    requires Fits(e, fb)
    ensures Fits(Tentative(e), fb)
  {
  }

  lemma {:induction false} BackspaceKeeps<P>(e: Engine<P>, w: Wall, fb: Frame, now: nat)
    requires Kept(e, w) && Fits(e, fb) && e.cursors != []
    ensures Kept(Backspace(e, fb, now), w) && Onward(e, Backspace(e, fb, now))
  {
    hide Shape, FrameOk, Kept, WithRow, Moved, Fitted, EraseFrom, OverwrittenCell, CellsIn;
    WithRowKeeps(e, w, fb);
    var e1 := WithRow(e, fb);
    var m := Last(e1);
    LastIn(e1, w);
    if m.col > 0 {
      var m' := m.(col := m.col - 1, expiration := e1.sent + 1, time := now);
      MovedKeeps(e1, w, fb, m');
      var e2 := Moved(e1, fb, m');
      var r := RowIndex(e2.overlays, m.row);
      RowOfShape(e2, r);
      RowCells(e2, w, r);
      var cells := e2.overlays[r].cells;
      if e2.overwrite {
        OverwrittenIn(e2, w, fb, now, cells, m.col - 1);
        FittedKeeps(e2, w, fb, r, cells[m.col - 1 := OverwrittenCell(e2, fb, now, cells[m.col - 1])]);
      } else {
        EraseIn(e2, w, fb, now, m.row, cells, m.col - 1);
        FittedKeeps(e2, w, fb, r, EraseFrom(e2, fb, now, m.row, cells, m.col - 1));
      }
    }
  }

  lemma {:induction false} BlankedIn<P>(e: Engine<P>, w: Wall, now: nat, cs: seq<CellGuess>)
    requires w.cells <= e.epoch
    ensures CellsIn(BlankedCells(e, now, cs), e.epoch, e.sent, w)
  {
  }

  lemma {:induction false} NewlineKeeps<P>(e: Engine<P>, w: Wall, fb: Frame, now: nat)
    requires Kept(e, w) && Fits(e, fb)
    ensures Kept(Newline(e, fb, now), w) && Onward(e, Newline(e, fb, now))
  {
    hide Shape, FrameOk, Kept, InitCursor, WithRow, Moved, Fitted, BlankedCells, CellsIn;
    InitKeeps(e, w, fb);
    var e1 := InitCursor(e, fb);
    var m := Last(e1);
    LastIn(e1, w);
    MovedKeeps(e1, w, fb, m.(col := 0));
    var e2 := Moved(e1, fb, m.(col := 0));
    if m.row == fb.height - 1 {
      WithRowKeeps(e2, w, fb);
      var e3 := WithRow(e2, fb);
      var r := RowIndex(e3.overlays, m.row);
      RowOfShape(e3, r);
      RowCells(e3, w, r);
      BlankedIn(e3, w, now, e3.overlays[r].cells);
      FittedKeeps(e3, w, fb, r, BlankedCells(e3, now, e3.overlays[r].cells));
    } else {
      MovedKeeps(e2, w, fb, m.(col := 0, row := m.row + 1));
    }
  }

  lemma {:induction false} InsertCellsKeeps<P>(e: Engine<P>, w: Wall, ch: char, fb: Frame, now: nat)
    requires Kept(e, w) && Fits(e, fb) && e.cursors != []
    ensures Kept(InsertCells(e, ch, fb, now), w) && Onward(e, InsertCells(e, ch, fb, now))
  {
    hide Shape, FrameOk, Kept, WithRow, Fitted, ShiftDown, PlacedCell, CellsIn, RowIndex;
    var m := Last(e);
    LastIn(e, w);
    WithRowKeeps(e, w, fb);
    var e1 := WithRow(e, fb);
    TentativeKeeps(e1, w);
    TentativeFits(e1, fb);
    var e2 := if m.col + 1 >= fb.width then Tentative(e1) else e1;
    var r := RowIndex(e2.overlays, m.row);
    RowOfShape(e2, r);
    RowCells(e2, w, r);
    var rightmost := if e2.overwrite then m.col else fb.width - 1;
    ShiftIn(e2, w, fb, now, m.row, e2.overlays[r].cells, m.col, rightmost);
    var cells := ShiftDown(e2, fb, now, m.row, e2.overlays[r].cells, m.col, rightmost);
    PlacedIn(e2, w, fb, now, m.row, cells, m.col, ch);
    FittedKeeps(e2, w, fb, r, cells[m.col := PlacedCell(e2, fb, now, m.row, cells, m.col, ch)]);
  }

  lemma {:induction false} InsertKeeps<P>(e: Engine<P>, w: Wall, ch: char, fb: Frame, now: nat)
    requires Kept(e, w) && Fits(e, fb) && e.cursors != []
    ensures Kept(Insert(e, ch, fb, now), w) && Onward(e, Insert(e, ch, fb, now))
  {
    hide Shape, FrameOk, Kept, InsertCells, Moved, Newline;
    InsertCellsKeeps(e, w, ch, fb, now);
    var e1 := InsertCells(e, ch, fb, now);
    LastIn(e1, w);
    var m := Last(e1).(expiration := e1.sent + 1, time := now);
    if m.col < fb.width - 1 {
      MovedKeeps(e1, w, fb, m.(col := m.col + 1));
    } else {
      MovedKeeps(e1, w, fb, m);
      TentativeKeeps(Moved(e1, fb, m), w);
      TentativeFits(Moved(e1, fb, m), fb);
      NewlineKeeps(Tentative(Moved(e1, fb, m)), w, fb, now);
    }
  }

  lemma {:induction false} ArrowKeeps<P>(e: Engine<P>, w: Wall, right: bool, fb: Frame, now: nat)
    requires Kept(e, w) && Fits(e, fb)
    ensures Kept(Arrow(e, right, fb, now), w) && Onward(e, Arrow(e, right, fb, now))
  {
    hide Shape, FrameOk, Kept, InitCursor, Moved;
    InitKeeps(e, w, fb);
    var e1 := InitCursor(e, fb);
    LastIn(e1, w);
    var m := Last(e1);
    if right && m.col < fb.width - 1 {
      MovedKeeps(e1, w, fb, m.(col := m.col + 1, expiration := e1.sent + 1, time := now));
    } else if !right && m.col > 0 {
      MovedKeeps(e1, w, fb, m.(col := m.col - 1, expiration := e1.sent + 1, time := now));
    }
  }

  lemma {:induction false} ReactKeeps<P>(k: Keys<P>, e: Engine<P>, w: Wall, a: Act, fb: Frame, now: nat)
    requires Kept(e, w) && Fits(e, fb)
    ensures Kept(React(k, e, a, fb, now), w) && Onward(e, React(k, e, a, fb, now))
  {
    hide Shape, FrameOk, Kept, InitCursor, Backspace, Insert, Newline, Arrow, Tentative;
    TentativeKeeps(e, w);
    match a
    case Print(ch) =>
      InitKeeps(e, w, fb);
      var e1 := InitCursor(e, fb);
      if ch as int == 0x7F {
        BackspaceKeeps(e1, w, fb, now);
      } else if (ch as int) < 0x20 || k.width(ch) != 1 {
        TentativeKeeps(e1, w);
      } else {
        InsertKeeps(e1, w, ch, fb, now);
      }
    case Execute(ch) => if ch as int == 0x0D { TentativeFits(e, fb); NewlineKeeps(Tentative(e), w, fb, now); }
    case EscDispatch =>
    case CsiDispatch(ch) =>
      ArrowKeeps(e, w, true, fb, now);
      ArrowKeeps(e, w, false, fb, now);
    case Quiet =>
  }

  lemma {:induction false} ReactAllKeeps<P>(k: Keys<P>, e: Engine<P>, w: Wall, acts: seq<Act>, fb: Frame, now: nat)
    requires Kept(e, w) && Fits(e, fb)
    ensures Kept(ReactAll(k, e, acts, fb, now), w) && Onward(e, ReactAll(k, e, acts, fb, now))
    decreases |acts|
  {
    hide Shape, FrameOk, Kept, React;
    if acts != [] {
      ReactKeeps(k, e, w, acts[0], fb, now);
      ReactAllKeeps(k, React(k, e, acts[0], fb, now), w, acts[1..], fb, now);
    }
  }

  lemma {:induction false} ByteKeeps<P>(k: Keys<P>, e: Engine<P>, w: Wall, b: byte, fb: Frame, now: nat)
    requires Kept(e, w) && FrameOk(fb)
    ensures Shape(e) && Kept(UserByte(k, e, b, fb, now), w) && Onward(e, UserByte(k, e, b, fb, now))
  {
    hide Shape, FrameOk, Kept, Cull, ReactAll, AllPending, Justified;
    KeptShape(e, w);
    if !e.pref.Never? {
      NotExperimental(e, w);
      CullDoes(e, w, fb, now);
      var c := Cull(e, fb, now);
      var t := Translated(c.lastByte, b);
      var q := c.(lastByte := t, parser := k.input(c.parser, t).0);
      Reparsed(c, w, fb, t, k.input(c.parser, t).0);
      ByteIs(k, e, b, fb, now);
      ReactAllKeeps(k, q, w, k.input(c.parser, t).1, fb, now);
    }
  }

  lemma {:induction false} ByteIs<P>(k: Keys<P>, e: Engine<P>, b: byte, fb: Frame, now: nat)
    requires FrameOk(fb) && Shape(e) && !e.pref.Never? && !e.pref.Experimental?
    ensures var c := Cull(e, fb, now);
      var t := Translated(c.lastByte, b);
      var q := c.(lastByte := t, parser := k.input(c.parser, t).0);
      Fits(q, fb) && UserByte(k, e, b, fb, now) == ReactAll(k, q, k.input(c.parser, t).1, fb, now)
  {
    hide FrameOk, RowsShape, CursorsShape, ReactAll, Cull;
  }

  lemma {:induction false} Reparsed<P>(e: Engine<P>, w: Wall, fb: Frame, b: byte, p: P)
    requires Kept(e, w) && Fits(e, fb)
    ensures Kept(e.(lastByte := b, parser := p), w) && Fits(e.(lastByte := b, parser := p), fb)
  {
    hide RowsShape, CursorsShape, RowsIn, MovesIn;
  }

  // ---- runs -----------------------------------------------------------------

  datatype Step =
    | Typed(b: byte, fb: Frame, now: nat) | Display(fb: Frame, now: nat) | Clear
    | Sent(x: nat) | Acked(x: nat) | LateAcked(x: nat) | Interval(x: nat) | Prefer(p: Preference) | Overwrite(on: bool)

  /** Frame numbers sent only grow; Experimental is not among the preferences. */
  ghost predicate StepOk<P>(e: Engine<P>, s: Step) {
    match s
    case Typed(_, fb, _) => FrameOk(fb)
    case Display(fb, _) => FrameOk(fb)
    case Sent(x) => x >= e.sent
    case Prefer(p) => !p.Experimental?
    case _ => true
  }

  function After<P>(k: Keys<P>, e: Engine<P>, s: Step): (r: Engine<P>)
    requires Shape(e) && StepOk(e, s)
    ensures Shape(r)
  {
    match s
    case Typed(b, fb, now) => UserByte(k, e, b, fb, now)
    case Display(fb, now) => Cull(e, fb, now)
    case Clear => Reset(e)
    case Sent(x) => e.(sent := x)
    case Acked(x) => e.(acked := x)
    case LateAcked(x) => e.(lateAcked := x)
    case Interval(x) => e.(interval := x)
    case Prefer(p) => e.(pref := p)
    case Overwrite(on) => e.(overwrite := on)
  }

  ghost predicate RunOk<P>(k: Keys<P>, e: Engine<P>, steps: seq<Step>)
    requires Shape(e)
    decreases |steps|
  {
    steps == [] || (StepOk(e, steps[0]) && RunOk(k, After(k, e, steps[0]), steps[1..]))
  }

  function Run<P>(k: Keys<P>, e: Engine<P>, steps: seq<Step>): (r: Engine<P>)
    requires Shape(e) && RunOk(k, e, steps)
    ensures Shape(r)
    decreases |steps|
  {
    if steps == [] then e else Run(k, After(k, e, steps[0]), steps[1..])
  }

  lemma {:induction false} AfterKeeps<P>(k: Keys<P>, e: Engine<P>, w: Wall, s: Step)
    requires Kept(e, w) && StepOk(e, s)
    ensures Shape(e)
    ensures var r := After(k, e, s); Kept(r, w) && r.epoch >= e.epoch && r.confirmed >= e.confirmed && r.sent >= e.sent
  {
    hide RowsShape, CursorsShape, FrameOk, UserByte, Cull, Reset, RowsIn, MovesIn, AllPending, Justified;
    match s
    case Typed(b, fb, now) => ByteKeeps(k, e, w, b, fb, now);
    case Display(fb, now) => CullDoes(e, w, fb, now);
    case Clear => ResetKeeps(e, w);
    case Sent(x) => Later(e.overlays, e.cursors, e.epoch, e.sent, e.epoch, x, w);
    case _ =>
  }

  /** Over every run the epochs only grow, the confirmed one never passes the predicting one, live
      predictions lie in epochs begun, and the wall stands. */
  lemma {:induction false} RunKeepsEpochs<P>(k: Keys<P>, e: Engine<P>, w: Wall, steps: seq<Step>)
    requires Kept(e, w) && Shape(e) && RunOk(k, e, steps)
    ensures var r := Run(k, e, steps); Kept(r, w) && r.epoch >= e.epoch && r.confirmed >= e.confirmed
    decreases |steps|
  {
    hide Kept, Shape, After, StepOk;
    if steps != [] {
      AfterKeeps(k, e, w, steps[0]);
      RunKeepsEpochs(k, After(k, e, steps[0]), w, steps[1..]);
    }
  }

  /** A new engine, any run. */
  lemma {:induction false} FreshRun<P>(k: Keys<P>, p: P, steps: seq<Step>)
    requires RunOk(k, Fresh(p), steps)
    ensures var r := Run(k, Fresh(p), steps); Kept(r, OPEN) && r.confirmed <= r.epoch
  {
    assert Kept(Fresh(p), OPEN);
    hide Shape, RunOk, Run;
    RunKeepsEpochs(k, Fresh(p), OPEN, steps);
  }

  // ---- what confirms an epoch -----------------------------------------------

  /** A server frame is compared at this step, and it proves a prediction of that epoch. */
  ghost predicate Proves<P>(e: Engine<P>, s: Step, epoch: nat) {
    (s.Typed? || s.Display?) && exists r, k | 0 <= r < |e.overlays| && 0 <= k < |e.overlays[r].cells| ::
      e.overlays[r].cells[k].epoch == epoch && Proven(s.fb, e.overlays[r].num, e.lateAcked, e.overlays[r].cells[k])
  }

  /** Somewhere on the way a prediction of that epoch, alive at that point, is judged correct. */
  ghost predicate ProvenDuring<P>(k: Keys<P>, e: Engine<P>, steps: seq<Step>, epoch: nat)
    requires Shape(e) && RunOk(k, e, steps)
    decreases |steps|
  {
    steps != [] && (Proves(e, steps[0], epoch) || ProvenDuring(k, After(k, e, steps[0]), steps[1..], epoch))
  }

  lemma {:induction false} StepConfirms<P>(k: Keys<P>, e: Engine<P>, w: Wall, s: Step)
    requires Kept(e, w) && Shape(e) && StepOk(e, s)
    ensures var r := After(k, e, s); r.confirmed == e.confirmed || Proves(e, s, r.confirmed)
  {
    hide Kept, Shape, FrameOk, Cull, Proven, ReactAll;
    if s.Typed? || s.Display? {
      NotExperimental(e, w);
      CullDoes(e, w, s.fb, s.now);
      if s.Typed? && !e.pref.Never? { ByteIs(k, e, s.b, s.fb, s.now); }
    }
  }

  /** Over a run the confirmed epoch goes up only to that of a prediction proven on the way. */
  lemma {:induction false} RunConfirms<P>(k: Keys<P>, e: Engine<P>, w: Wall, steps: seq<Step>)
    requires Kept(e, w) && Shape(e) && RunOk(k, e, steps)
    ensures var r := Run(k, e, steps); r.confirmed == e.confirmed || ProvenDuring(k, e, steps, r.confirmed)
    decreases |steps|
  {
    hide Kept, Shape, After, StepOk, Proves;
    if steps != [] {
      AfterKeeps(k, e, w, steps[0]);
      StepConfirms(k, e, w, steps[0]);
      RunConfirms(k, After(k, e, steps[0]), w, steps[1..]);
    }
  }

  /** What the display may show of the predictions: the live ones in confirmed epochs. */
  ghost predicate OnlyOlder<P>(e: Engine<P>, before: nat) {
    && (forall r, k | 0 <= r < |e.overlays| && 0 <= k < |e.overlays[r].cells| ::
         e.overlays[r].cells[k].active && e.overlays[r].cells[k].epoch <= e.confirmed ==>
           e.overlays[r].cells[k].epoch < before)
    && (forall m | m in e.cursors :: m.epoch <= e.confirmed ==> m.epoch < before)
  }

  lemma {:induction false} WallHides<P>(e: Engine<P>, w: Wall)
    requires Kept(e, w) && e.confirmed < w.cells
    ensures OnlyOlder(e, w.before)
  {
    forall r, k | 0 <= r < |e.overlays| && 0 <= k < |e.overlays[r].cells|
      ensures e.overlays[r].cells[k].active && e.overlays[r].cells[k].epoch <= e.confirmed ==>
              e.overlays[r].cells[k].epoch < w.before
    {
      CellOf(e.overlays, e.epoch, e.sent, w, r, k);
    }
    forall m | m in e.cursors
      ensures m.epoch <= e.confirmed ==> m.epoch < w.before
    {
      assert MoveIn(m, e.epoch, e.sent, w);
    }
  }

  /** After a reset nothing is shown, however the run goes on, until the confirmed epoch reaches the one
      the reset began, and a prediction of that epoch, made since, has been judged correct. */
  lemma {:induction false} ResetHides<P>(k: Keys<P>, e: Engine<P>, w: Wall, steps: seq<Step>)
    requires Kept(e, w) && RunOk(k, Reset(e), steps)
    ensures var r := Run(k, Reset(e), steps);
            OnlyOlder(r, 0) || (r.confirmed > e.epoch && ProvenDuring(k, Reset(e), steps, r.confirmed))
  {
    hide Kept, Shape, RunOk, Run, OnlyOlder, EpochsOk, ProvenDuring;
    KeptEpochs(e, w);
    ResetKeeps(e, w);
    var wall := Wall(0, e.epoch + 1, e.epoch + 1);
    RunKeepsEpochs(k, Reset(e), wall, steps);
    var r := Run(k, Reset(e), steps);
    RunConfirms(k, Reset(e), wall, steps);
    if r.confirmed < e.epoch + 1 { WallHides(r, wall); }
    KeptBounds(e, w);
  }

  lemma {:induction false} KeptBounds<P>(e: Engine<P>, w: Wall)
    requires Kept(e, w)
    ensures e.confirmed <= e.epoch && Reset(e).confirmed == e.confirmed
  {
  }

  lemma {:induction false} KeptEpochs<P>(e: Engine<P>, w: Wall)
    requires Kept(e, w)
    ensures EpochsOk(e, w)
  {
  }

  /** The same after an epoch is killed: of what is shown, all is older than the epoch killed, until a
      prediction of an epoch begun by the kill has been judged correct. */
  lemma {:induction false} KillHides<P>(k: Keys<P>, e: Engine<P>, w: Wall, from: nat, fb: Frame, steps: seq<Step>)
    requires Kept(e, w) && Fits(e, fb) && e.confirmed < from <= e.epoch && RunOk(k, KillEpoch(e, from, fb), steps)
    ensures var q := KillEpoch(e, from, fb);
            var r := Run(k, q, steps);
            OnlyOlder(r, from) || (r.confirmed > e.epoch && ProvenDuring(k, q, steps, r.confirmed))
  {
    hide Kept, Shape, FrameOk, RunOk, Run, OnlyOlder, ProvenDuring;
    assert KillEpoch(e, from, fb).confirmed == e.confirmed;
    hide KillEpoch;
    KillKeeps(e, w, from, fb);
    var wall := Wall(from, e.epoch, e.epoch + 1);
    RunKeepsEpochs(k, KillEpoch(e, from, fb), wall, steps);
    var r := Run(k, KillEpoch(e, from, fb), steps);
    RunConfirms(k, KillEpoch(e, from, fb), wall, steps);
    if r.confirmed < e.epoch + 1 { WallHides(r, wall); }
  }

  // ---- the screen -----------------------------------------------------------

  /** The prediction shown at a place. */
  function Cover(rs: seq<RowGuess>, confirmed: nat, y: nat, x: nat): Option<CellGuess> {
    var i := RowIndex(rs, y);
    if i < |rs| && x < |rs[i].cells| && rs[i].cells[x].active && rs[i].cells[x].epoch <= confirmed
    then Some(rs[i].cells[x])
    else None
  }

  function Overlaid(g: Glyph, c: Option<CellGuess>, flag: bool, lastColumn: bool): Glyph {
    if c.Some? then Painted(g, c.value, flag, lastColumn) else g
  }

  lemma {:induction false} RowAt(fb: Frame, confirmed: nat, row: nat, flag: bool, cs: seq<CellGuess>, k: nat, y: nat,
      x: nat)
    requires FrameOk(fb) && row < fb.height && y < fb.height && x < fb.width
    requires k + |cs| <= fb.width && forall i | 0 <= i < |cs| :: cs[i].col == k + i
    ensures var r := ApplyRow(fb, confirmed, row, flag, cs);
      && r == fb.(rows := r.rows)
      && |r.rows[y]| == fb.width
      && r.rows[y][x] == if y == row && k <= x < k + |cs| && cs[x - k].active && cs[x - k].epoch <= confirmed
                         then Painted(fb.rows[y][x], cs[x - k], flag, x == fb.width - 1) else fb.rows[y][x]
    decreases |cs|
  {
    hide Painted;
    if cs != [] {
      RowAt(ApplyCell(fb, confirmed, row, flag, cs[0]), confirmed, row, flag, cs[1..], k + 1, y, x);
    }
  }

  lemma {:induction false} RowsAt(fb: Frame, confirmed: nat, flag: bool, rs: seq<RowGuess>, y: nat, x: nat)
    requires FrameOk(fb) && RowsShape(rs, fb.height, fb.width) && (forall r | r in rs :: 0 <= r.num) && y < fb.height
             && x < fb.width
    ensures var r := ApplyRows(fb, confirmed, flag, rs);
      && r == fb.(rows := r.rows) && |r.rows[y]| == fb.width
      && r.rows[y][x] == Overlaid(fb.rows[y][x], Cover(rs, confirmed, y, x), flag, x == fb.width - 1)
    decreases |rs|
  {
    hide Painted, ApplyRow;
    if rs == [] {
    } else {
      assert RowShape(rs[0], fb.height, fb.width);
      RowAt(fb, confirmed, rs[0].num, flag, rs[0].cells, 0, y, x);
      RowsAt(ApplyRow(fb, confirmed, rs[0].num, flag, rs[0].cells), confirmed, flag, rs[1..], y, x);
      if rs[0].num == y {
        assert forall i | 0 <= i < |rs[1..]| :: rs[1..][i] == rs[i + 1];
        assert RowIndex(rs[1..], y) == |rs[1..]|;
      }
    }
  }

  /** The cursor prediction shown: the last one in a confirmed epoch. */
  function ShownCursor(ms: seq<CursorGuess>, confirmed: nat): (r: Option<CursorGuess>)
    ensures r.Some? ==> r.value in ms && r.value.active && r.value.epoch <= confirmed
  {
    if ms == [] then None
    else if ms[|ms| - 1].active && ms[|ms| - 1].epoch <= confirmed then Some(ms[|ms| - 1])
    else ShownCursor(ms[..|ms| - 1], confirmed)
  }

  function CursorPut(fb: Frame, m: Option<CursorGuess>): Frame {
    if m.Some? then fb.(row := m.value.row, col := m.value.col,
      willWrap := false, combRow := m.value.row, combCol := m.value.col)
    else fb
  }

  lemma {:induction false} CursorsSnoc(fb: Frame, confirmed: nat, ms: seq<CursorGuess>, m: CursorGuess)
    requires FrameOk(fb) && (forall q | q in ms + [m] :: q.row < fb.height && q.col < fb.width)
    ensures (forall q | q in ms :: q.row < fb.height && q.col < fb.width) && m.row < fb.height && m.col < fb.width
    ensures ApplyCursors(fb, confirmed, ms + [m]) == ApplyCursor(ApplyCursors(fb, confirmed, ms), confirmed, m)
    decreases |ms|
  {
    hide FrameOk, ApplyCursor;
    assert m in ms + [m];
    if ms == [] {
      assert ms + [m] == [m];
      assert [m][1..] == [];
    } else {
      assert (ms + [m])[1..] == ms[1..] + [m];
      assert ms[0] in ms + [m];
      CursorsSnoc(ApplyCursor(fb, confirmed, ms[0]), confirmed, ms[1..], m);
    }
  }

  lemma {:induction false} CursorAt(fb: Frame, confirmed: nat, ms: seq<CursorGuess>)
    requires FrameOk(fb) && forall q | q in ms :: q.row < fb.height && q.col < fb.width
    ensures ApplyCursors(fb, confirmed, ms) == CursorPut(fb, ShownCursor(ms, confirmed))
    decreases |ms|
  {
    if ms != [] {
      var n := |ms| - 1;
      assert ms == ms[..n] + [ms[n]];
      CursorsSnoc(fb, confirmed, ms[..n], ms[n]);
      CursorAt(fb, confirmed, ms[..n]);
    }
  }

  /** The frame displayed, place by place. */
  lemma {:induction false} ApplyAt<P>(e: Engine<P>, fb: Frame, y: nat, x: nat)
    requires Fits(e, fb) && !fb.originMode && Shown(e) && y < fb.height && x < fb.width
    ensures var r := Apply(e, fb);
      && r.rows[y][x] == Overlaid(fb.rows[y][x], Cover(e.overlays, e.confirmed, y, x), e.flagging, x == fb.width - 1)
      && r == CursorPut(fb, ShownCursor(e.cursors, e.confirmed)).(rows := r.rows)
  {
    hide CursorsShape, RowsShape, FrameOk, ApplyRows, ApplyCursors, Overlaid, Cover, ShownCursor, CursorPut;
    OnScreen(e);
    var moved := ApplyCursors(fb, e.confirmed, e.cursors);
    CursorAt(fb, e.confirmed, e.cursors);
    RowsAt(moved, e.confirmed, e.flagging, e.overlays, y, x);
  }

  lemma {:induction false} OnScreen<P>(e: Engine<P>)
    requires Shape(e)
    ensures forall m | m in e.cursors :: m.row < e.lastHeight && m.col < e.lastWidth
    ensures forall r | r in e.overlays :: 0 <= r.num
  {
    forall m | m in e.cursors
      ensures m.row < e.lastHeight && m.col < e.lastWidth
    {
      assert CursorShape(m, e.lastHeight, e.lastWidth);
    }
    forall r | r in e.overlays
      ensures 0 <= r.num
    {
      assert RowShape(r, e.lastHeight, e.lastWidth);
    }
  }

  /** Cull, then apply: the displayed frame differs from the server's only where a prediction that is
      newer than the echo ack and in a confirmed epoch says so, and shows exactly what it predicts. */
  lemma {:induction false} OnlyPredictionsDiffer<P>(e: Engine<P>, w: Wall, fb: Frame, now: nat, y: nat, x: nat)
    requires Kept(e, w) && FrameOk(fb) && !fb.originMode && y < fb.height && x < fb.width
    ensures Shape(e) && (!e.pref.Never? ==> Fits(Cull(e, fb, now), fb))
    ensures var c := Cull(e, fb, now);
      var r := Apply(c, fb);
      var cell, cursor := Cover(c.overlays, c.confirmed, y, x), ShownCursor(c.cursors, c.confirmed);
      if Shown(c) then
        && r.rows[y][x] == Overlaid(fb.rows[y][x], cell, c.flagging, x == fb.width - 1)
        && (cell.Some? ==> cell.value.active && cell.value.epoch <= c.confirmed && cell.value.expiration > e.lateAcked)
        && r == CursorPut(fb, cursor).(rows := r.rows)
        && (cursor.Some? ==> cursor.value.epoch <= c.confirmed && cursor.value.expiration > e.lateAcked)
      else r == fb
  {
    hide Shape, FrameOk, Kept, Cull, Apply, Justified, Overlaid, Cover, ShownCursor, CursorPut;
    KeptShape(e, w);
    CullDoes(e, w, fb, now);
    var c := Cull(e, fb, now);
    if Shown(c) {
      ApplyAt(c, fb, y, x);
      CoverPending(c, fb, y, x);
      CursorPendingShown(c, fb);
    } else {
      ApplyNone(c, fb);
    }
  }

  lemma {:induction false} ApplyNone<P>(e: Engine<P>, fb: Frame)
    requires FrameOk(fb) && !Shown(e)
    ensures Apply(e, fb) == fb
  {
  }

  lemma {:induction false} CoverPending<P>(e: Engine<P>, fb: Frame, y: nat, x: nat)
    requires AllPending(e, fb)
    ensures var c := Cover(e.overlays, e.confirmed, y, x);
      c.Some? ==> c.value.active && c.value.epoch <= e.confirmed && c.value.expiration > e.lateAcked
  {
  }

  lemma {:induction false} CursorPendingShown<P>(e: Engine<P>, fb: Frame)
    requires AllPending(e, fb)
    ensures var m := ShownCursor(e.cursors, e.confirmed);
      m.Some? ==> m.value.epoch <= e.confirmed && m.value.expiration > e.lateAcked
  {
  }

  /** Once the echo ack exceeds the last frame sent, the display is the server's frame. */
  lemma {:induction false} EchoCaughtUp<P>(e: Engine<P>, w: Wall, fb: Frame, now: nat)
    requires Kept(e, w) && FrameOk(fb) && !fb.originMode && e.lateAcked > e.sent
    ensures Shape(e) && (!e.pref.Never? ==> Fits(Cull(e, fb, now), fb)) && Apply(Cull(e, fb, now), fb) == fb
  {
    hide Shape, FrameOk, Cull, Apply, Justified, Overlaid, Cover, ShownCursor, CursorPut, RowsIn, MovesIn;
    KeptShape(e, w);
    CullDoes(e, w, fb, now);
    var c := Cull(e, fb, now);
    if Shown(c) {
      var r := Apply(c, fb);
      Corner(fb);
      ApplyAt(c, fb, 0, 0);
      NoCursor(c, w, fb);
      Sizes(fb);
      Sizes(r);
      forall y: nat, x: nat | y < fb.height && x < fb.width
        ensures r.rows[y][x] == fb.rows[y][x]
      {
        ApplyAt(c, fb, y, x);
        NoCover(c, w, fb, y, x);
      }
      FrameCells(fb, Apply(c, fb));
    } else {
      ApplyNone(c, fb);
    }
  }

  lemma {:induction false} NoCover<P>(e: Engine<P>, w: Wall, fb: Frame, y: nat, x: nat)
    requires FrameOk(fb) && y < fb.height && x < fb.width
    requires AllPending(e, fb) && Kept(e, w) && e.lateAcked > e.sent
    ensures Overlaid(fb.rows[y][x], Cover(e.overlays, e.confirmed, y, x), e.flagging, x == fb.width - 1) ==
            fb.rows[y][x]
  {
    CoverPending(e, fb, y, x);
    var i := RowIndex(e.overlays, y);
    if i < |e.overlays| && x < |e.overlays[i].cells| { CellOf(e.overlays, e.epoch, e.sent, w, i, x); }
  }

  lemma {:induction false} NoCursor<P>(e: Engine<P>, w: Wall, fb: Frame)
    requires AllPending(e, fb) && Kept(e, w) && e.lateAcked > e.sent
    ensures CursorPut(fb, ShownCursor(e.cursors, e.confirmed)) == fb
  {
    MovesPast(e, w);
    CursorPendingShown(e, fb);
  }

  lemma {:induction false} MovesPast<P>(e: Engine<P>, w: Wall)
    requires Kept(e, w)
    ensures forall m | m in e.cursors :: m.expiration <= e.sent + 1
  {
    forall m | m in e.cursors
      ensures m.expiration <= e.sent + 1
    {
      assert MoveIn(m, e.epoch, e.sent, w);
    }
  }

  lemma {:induction false} Corner(fb: Frame)
    requires FrameOk(fb)
    ensures fb.height > 0 && fb.width > 0
  {
  }

  lemma {:induction false} Sizes(fb: Frame)
    requires FrameOk(fb)
    ensures |fb.rows| == fb.height && forall y | 0 <= y < fb.height :: |fb.rows[y]| == fb.width
  {
  }

  lemma {:induction false} FrameCells(fb: Frame, r: Frame)
    requires FrameOk(fb) && FrameOk(r) && r.height == fb.height && r.width == fb.width && r == fb.(rows := r.rows)
    requires forall y: nat, x: nat | y < fb.height && x < fb.width :: r.rows[y][x] == fb.rows[y][x]
    ensures r == fb
  {
    forall y | 0 <= y < fb.height
      ensures r.rows[y] == fb.rows[y]
    {
    }
    assert r.rows == fb.rows;
  }
}
