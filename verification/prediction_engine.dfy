// The prediction engine with its fields updated in place; every method is its function in `Predictions`.
module PredictionEngines {
  import opened Utf8
  import opened Predictions

  class PredictionEngine<P> {
    const keys: Keys<P>
    var lastByte: byte
    var parser: P
    var overlays: seq<RowGuess>
    var cursors: seq<CursorGuess>
    var sent: nat
    var acked: nat
    var lateAcked: nat
    var epoch: nat
    var confirmed: nat
    var flagging: bool
    var srtt: bool
    var glitch: nat
    var quick: nat
    var interval: nat
    var lastHeight: nat
    var lastWidth: nat
    var pref: Preference
    var overwrite: bool

    function View(): Engine<P>
      reads this
    {
      Engine(lastByte, parser, overlays, cursors, sent, acked, lateAcked, epoch, confirmed,
             flagging, srtt, glitch, quick, interval, lastHeight, lastWidth, pref, overwrite)
    }

    constructor (keys: Keys<P>, parser: P)
      ensures this.keys == keys && View() == Fresh(parser)
    {
      this.keys, lastByte, this.parser, overlays, cursors := keys, 0, parser, [], [];
      sent, acked, lateAcked, epoch, confirmed := 0, 0, 0, 1, 0;
      flagging, srtt, glitch, quick, interval := false, false, 0, 0, 250;
      lastHeight, lastWidth, pref, overwrite := 0, 0, Adaptive, false;
    }

    method SetDisplayPreference(p: Preference)
      modifies `pref
      ensures View() == old(View()).(pref := p)
    {
      pref := p;
    }

    method SetPredictOverwrite(on: bool)
      modifies `overwrite
      ensures View() == old(View()).(overwrite := on)
    {
      overwrite := on;
    }

    method SetLocalFrameSent(x: nat)
      modifies `sent
      ensures View() == old(View()).(sent := x)
    {
      sent := x;
    }

    method SetLocalFrameAcked(x: nat)
      modifies `acked
      ensures View() == old(View()).(acked := x)
    {
      acked := x;
    }

    method SetLocalFrameLateAcked(x: nat)
      modifies `lateAcked
      ensures View() == old(View()).(lateAcked := x)
    {
      lateAcked := x;
    }

    method SetSendInterval(x: nat)
      modifies `interval
      ensures View() == old(View()).(interval := x)
    {
      interval := x;
    }

    method BecomeTentative()
      modifies `epoch
      ensures View() == Tentative(old(View()))
    {
      if pref != Experimental { epoch := epoch + 1; }
    }

    method ResetAll()
      modifies this
      ensures View() == Reset(old(View()))
    {
      cursors := [];
      overlays := [];
      BecomeTentative();
    }

    method InitializeCursor(fb: Frame)
      requires Fits(View(), fb)
      modifies `cursors
      ensures View() == InitCursor(old(View()), fb)
    {
      if cursors == [] {
        cursors := [CursorGuess(sent + 1, fb.row, fb.col, true, epoch, NEVER)];
      } else {
        var m := cursors[|cursors| - 1];
        if m.epoch != epoch {
          cursors := cursors + [CursorGuess(sent + 1, m.row, m.col, true, epoch, NEVER)];
        }
      }
    }

    method KillFrom(e: nat, fb: Frame)
      requires Fits(View(), fb)
      modifies this
      ensures View() == KillEpoch(old(View()), e, fb)
    {
      hide Shape, FrameOk;
      var kept := KeepCursors(cursors, e);
      cursors := kept + [CursorGuess(sent + 1, fb.row, fb.col, true, epoch, NEVER)];
      overlays := KillRows(overlays, e);
      BecomeTentative();
    }

    predicate IsActive()
      reads this
    {
      cursors != [] || exists r | r in overlays :: exists c | c in r.cells :: c.active
    }

    method TriggerLevels()
      modifies this
      ensures View() == Triggers(old(View()))
    {
      if interval > SRTT_TRIGGER_HIGH {
        srtt := true;
      } else if srtt && interval <= SRTT_TRIGGER_LOW && !IsActive() {
        srtt := false;
      }
      if interval > FLAG_TRIGGER_HIGH {
        flagging := true;
      } else if interval <= FLAG_TRIGGER_LOW {
        flagging := false;
      }
      if glitch > GLITCH_REPAIR_COUNT { flagging := true; }
    }

    method PutCell(i: nat, j: nat, c: CellGuess)
      requires i < |overlays| && j < |overlays[i].cells|
      modifies `overlays
      ensures View() == old(View()).(overlays :=
                old(overlays)[i := old(overlays)[i].(cells := old(overlays)[i].cells[j := c])])
    {
      overlays := overlays[i := overlays[i].(cells := overlays[i].cells[j := c])];
    }

    method ClearCell(fb: Frame, i: nat, j: nat)
      requires Fits(View(), fb) && i < |overlays| && j < |overlays[i].cells|
      modifies this
      ensures |old(overlays)[i].cells| == fb.width && forall k | 0 <= k < fb.width :: old(overlays)[i].cells[k].col == k
      ensures var cells := old(overlays)[i].cells;
              View() == Fitted(old(View()), fb, i, cells[j := ClearedCell(cells[j])])
    {
      hide CursorsShape, FrameOk;
      RowOfShape(View(), i);
      PutCell(i, j, ClearedCell(overlays[i].cells[j]));
    }

    method Confirm(c: CellGuess, now: nat)
      modifies this
      ensures View() == Confirmed(old(View()), c, now)
    {
      if c.epoch > confirmed { confirmed := c.epoch; }
      if Sub(now, c.time) < GLITCH_THRESHOLD && glitch > 0 && Sub(now, GLITCH_REPAIR_MININTERVAL) >= quick {
        glitch, quick := glitch - 1, now;
      }
    }

    method Believe(fb: Frame, now: nat, i: nat, j: nat)
      requires Fits(View(), fb) && i < |overlays| && j < |overlays[i].cells|
      requires overlays[i].num >= 0 && CellValidity(fb, overlays[i].num, lateAcked, overlays[i].cells[j]).Correct?
      modifies this
      ensures Judge(old(View()), fb, now, i, j) == Culled(View(), false)
    {
      hide RowsShape, CursorsShape, FrameOk, CellValidity, Judge, Confirmed, Recolored;
      JudgeCorrect(View(), fb, now, i, j);
      ghost var v := View();
      RowOfShape(View(), i);
      var c := overlays[i].cells[j];
      FrameCell(fb, overlays[i].num, c.col);
      Confirm(c, now);
      var painted := RecolorCells(overlays[i].cells, j, fb.rows[overlays[i].num][c.col].rend);
      overlays := overlays[i := overlays[i].(cells := painted[j := ClearedCell(painted[j])])];
    }

    /** The switch of `cull`; `over` when it returns. */
    method JudgeCell(fb: Frame, now: nat, i: nat, j: nat) returns (over: bool)
      requires Fits(View(), fb) && i < |overlays| && j < |overlays[i].cells|
      modifies this
      ensures Judge(old(View()), fb, now, i, j) == Culled(View(), over)
    {
      hide RowsShape, CursorsShape, FrameOk, CellValidity, KillEpoch, Fitted;
      RowOfShape(View(), i);
      var c := overlays[i].cells[j];
      var validity := CellValidity(fb, overlays[i].num, lateAcked, c);
      match validity {
        case IncorrectOrExpired =>
          if pref.Experimental? {
            ClearCell(fb, i, j);
          } else if c.epoch > confirmed {
            KillFrom(c.epoch, fb);
          } else {
            ResetAll();
            return true;
          }
        case Correct => Believe(fb, now, i, j);
        case CorrectNoCredit => ClearCell(fb, i, j);
        case Pending =>
          if Sub(now, c.time) >= GLITCH_FLAG_THRESHOLD {
            glitch := GLITCH_REPAIR_COUNT * 2;
          } else if Sub(now, c.time) >= GLITCH_THRESHOLD && glitch < GLITCH_REPAIR_COUNT {
            glitch := GLITCH_REPAIR_COUNT;
          }
        case Inactive =>
      }
      return false;
    }

    method CullGuesses(fb: Frame, now: nat)
      requires FrameOk(fb) && Shape(View())
      modifies this
      ensures View() == Cull(old(View()), fb, now)
    {
      hide RowsShape, CursorsShape, FrameOk, CullRow, CullCursors;
      if pref.Never? { return; }
      if lastHeight != fb.height || lastWidth != fb.width {
        lastHeight, lastWidth := fb.height, fb.width;
        ResetAll();
      }
      TriggerLevels();
      ghost var v := View();
      var i := 0;
      while i < |overlays|
        invariant i <= |overlays| && Fits(View(), fb)
        invariant CullRows(View(), fb, now, i) == CullRows(v, fb, now, 0)
        decreases |overlays| - i
      {
        var over := CullOverlay(fb, now, i);
        if over { return; }
        i := i + 1;
      }
      CullMoves(fb);
    }

    method CullOverlay(fb: Frame, now: nat, i: nat) returns (over: bool)
      requires Fits(View(), fb) && i < |overlays|
      modifies this
      ensures Culled(View(), over) == CullRow(old(View()), fb, now, i, 0)
      ensures !over ==> Fits(View(), fb) && |overlays| == |old(overlays)|
    {
      hide RowsShape, CursorsShape, FrameOk, Judge;
      ghost var u := View();
      var j := 0;
      while j < fb.width
        invariant j <= fb.width && i < |overlays| == |u.overlays| && Fits(View(), fb)
        invariant CullRow(View(), fb, now, i, j) == CullRow(u, fb, now, i, 0)
        decreases fb.width - j
      {
        RowOfShape(View(), i);
        over := JudgeCell(fb, now, i, j);
        if over { return; }
        j := j + 1;
      }
      over := false;
    }

    method CullMoves(fb: Frame)
      requires Shape(View())
      modifies this
      ensures View() == CullCursors(old(View()), fb)
    {
      hide RowsShape, CursorsShape, CursorValidity;
      if cursors != [] && CursorValidity(fb, lateAcked, cursors[|cursors| - 1]).IncorrectOrExpired? {
        if pref.Experimental? {
          cursors := [];
        } else {
          ResetAll();
          return;
        }
      }
      var kept := FilterPending(fb, lateAcked, cursors);
      cursors := kept;
    }

    method Display(fb: Frame) returns (out: Frame)
      requires FrameOk(fb) && (Shown(View()) ==> Fits(View(), fb) && !fb.originMode)
      ensures out == Apply(View(), fb)
    {
      hide RowsShape, CursorsShape, FrameOk, ApplyCell, ApplyCursor;
      if pref.Never? || !(srtt || glitch > 0 || pref.Always? || pref.Experimental?) { return fb; }
      out := fb;
      CursorsOnScreen(View());
      var i := 0;
      while i < |cursors|
        invariant i <= |cursors| && FrameOk(out) && out.height == fb.height && out.width == fb.width
        invariant ApplyCursors(out, confirmed, cursors[i..]) == ApplyCursors(fb, confirmed, cursors)
      {
        assert cursors[i..][1..] == cursors[i + 1..];
        out := ApplyCursor(out, confirmed, cursors[i]);
        i := i + 1;
      }
      ghost var moved := out;
      i := 0;
      RowsOnScreen(View());
      while i < |overlays|
        invariant i <= |overlays| && FrameOk(out) && out.height == fb.height && out.width == fb.width
        invariant ApplyRows(out, confirmed, flagging, overlays[i..]) == ApplyRows(moved, confirmed, flagging, overlays)
      {
        assert overlays[i..][1..] == overlays[i + 1..];
        ghost var was := out;
        var j := 0;
        var num, cells := overlays[i].num, overlays[i].cells;
        while j < |cells|
          invariant j <= |cells| && FrameOk(out) && out.height == fb.height && out.width == fb.width
          invariant ApplyRow(out, confirmed, num, flagging, cells[j..]) ==
                    ApplyRow(was, confirmed, num, flagging, cells)
        {
          assert cells[j..][1..] == cells[j + 1..];
          out := ApplyCell(out, confirmed, num, flagging, cells[j]);
          j := j + 1;
        }
        i := i + 1;
      }
    }

    method GetOrMakeRow(fb: Frame) returns (r: nat)
      requires Fits(View(), fb) && cursors != []
      modifies `overlays
      ensures View() == WithRow(old(View()), fb) && r == RowIndex(overlays, Last(View()).row)
    {
      hide Shape, FrameOk;
      var num := cursors[|cursors| - 1].row;
      r := 0;
      while r < |overlays|
        invariant r <= |overlays| && View() == old(View())
                  && RowIndex(overlays, num) == r + RowIndex(overlays[r..], num)
      {
        if overlays[r].num == num { return; }
        assert overlays[r..][1..] == overlays[r + 1..];
        r := r + 1;
      }
      var cells: seq<CellGuess> := [];
      var i := 0;
      while i < fb.width
        invariant i <= fb.width && |cells| == i && View() == old(View())
        invariant forall k | 0 <= k < i :: cells[k] == FreshCell(k, epoch)
      {
        cells := cells + [FreshCell(i, epoch)];
        i := i + 1;
      }
      assert cells == FreshRow(num, fb.width, epoch).cells;
      overlays := overlays + [RowGuess(num, cells)];
      Appended(overlays, num);
    }

    method MoveLast(m: CursorGuess)
      requires cursors != []
      modifies `cursors
      ensures View() == old(View()).(cursors := old(cursors)[|old(cursors)| - 1 := m])
    {
      cursors := cursors[|cursors| - 1 := m];
    }

    method NewlineCarriageReturn(fb: Frame, now: nat)
      requires Fits(View(), fb)
      modifies this
      ensures View() == Newline(old(View()), fb, now)
    {
      hide RowsShape, CursorsShape, FrameOk, InitCursor, WithRow, RowIndex;
      InitializeCursor(fb);
      var m := cursors[|cursors| - 1];
      LastOnScreen(View());
      MoveLast(m.(col := 0));
      if m.row == fb.height - 1 {
        StillFits(View(), fb, m.(col := 0), old(View()));
        var r := GetOrMakeRow(fb);
        var cells := BlankCells(overlays[r].cells, epoch, sent + 1, now);
        BlankedIs(View(), now, overlays[r].cells, cells);
        overlays := overlays[r := overlays[r].(cells := cells)];
      } else {
        MoveLast(m.(col := 0, row := m.row + 1));
      }
    }

    method EraseBackwards(fb: Frame, now: nat)
      requires Fits(View(), fb) && cursors != []
      modifies this
      ensures View() == Backspace(old(View()), fb, now)
    {
      hide RowsShape, CursorsShape, FrameOk, WithRow, RowIndex, EraseFrom, OverwrittenCell;
      var r := GetOrMakeRow(fb);
      var m := cursors[|cursors| - 1];
      LastOnScreen(View());
      if m.col > 0 {
        RowOfShape(View(), r);
        MoveLast(m.(col := m.col - 1, expiration := sent + 1, time := now));
        FrameCell(fb, m.row, m.col);
        if overwrite {
          PutCell(r, m.col - 1, OverwrittenCell(View(), fb, now, overlays[r].cells[m.col - 1]));
        } else {
          var cells := CellsErased(fb, now, m.row, overlays[r].cells, m.col - 1);
          overlays := overlays[r := overlays[r].(cells := cells)];
        }
      }
    }

    method CellsErased(fb: Frame, now: nat, row: nat, was: seq<CellGuess>, from: nat) returns (cells: seq<CellGuess>)
      requires FrameOk(fb) && row < fb.height && |was| == fb.width && from <= fb.width
      ensures cells == EraseFrom(View(), fb, now, row, was, from)
    {
      hide FrameOk, ErasedCell;
      cells := was;
      var i := from;
      while i < fb.width
        invariant from <= i <= fb.width && |cells| == fb.width
        invariant EraseFrom(View(), fb, now, row, cells, i) == EraseFrom(View(), fb, now, row, was, from)
      {
        cells := cells[i := ErasedCell(View(), fb, now, row, cells, i)];
        i := i + 1;
      }
    }

    method InsertRow(ch: char, fb: Frame, now: nat)
      requires Fits(View(), fb) && cursors != []
      modifies this
      ensures View() == InsertCells(old(View()), ch, fb, now)
    {
      hide RowsShape, CursorsShape, FrameOk, WithRow, RowIndex, ShiftedCell, PlacedCell;
      var m := cursors[|cursors| - 1];
      LastOnScreen(View());
      assert 0 <= m.row < fb.height && 0 <= m.col < fb.width;
      var r := GetOrMakeRow(fb);
      if m.col + 1 >= fb.width { BecomeTentative(); }
      RowOfShape(View(), r);
      ghost var v := View();
      var rightmost := if overwrite then m.col else fb.width - 1;
      var cells := overlays[r].cells;
      var i: nat := rightmost;
      while i > m.col
        invariant i < fb.width && |cells| == fb.width && View() == v
        invariant ShiftDown(v, fb, now, m.row, cells, m.col, i) ==
                  ShiftDown(v, fb, now, m.row, v.overlays[r].cells, m.col, rightmost)
      {
        cells := cells[i := ShiftedCell(View(), fb, now, m.row, cells, i)];
        i := i - 1;
      }
      cells := cells[m.col := PlacedCell(View(), fb, now, m.row, cells, m.col, ch)];
      overlays := overlays[r := overlays[r].(cells := cells)];
    }

    method InsertChar(ch: char, fb: Frame, now: nat)
      requires Fits(View(), fb) && cursors != []
      modifies this
      ensures View() == Insert(old(View()), ch, fb, now)
    {
      hide RowsShape, CursorsShape, FrameOk, InsertCells, Newline;
      LastOnScreen(View());
      InsertRow(ch, fb, now);
      ghost var v := View();
      var m := cursors[|cursors| - 1].(expiration := sent + 1, time := now);
      MoveLast(m);
      assert View() == Moved(v, fb, m);
      if m.col < fb.width - 1 {
        MoveLast(m.(col := m.col + 1));
      } else {
        BecomeTentative();
        NewlineCarriageReturn(fb, now);
      }
    }

    method Handle(a: Act, fb: Frame, now: nat)
      requires Fits(View(), fb)
      modifies this
      ensures View() == React(keys, old(View()), a, fb, now)
    {
      hide RowsShape, CursorsShape, FrameOk, InitCursor, Backspace, Insert, Newline;
      match a
      case Print(ch) =>
        InitializeCursor(fb);
        if ch as int == 0x7F {
          EraseBackwards(fb, now);
        } else if (ch as int) < 0x20 || keys.width(ch) != 1 {
          BecomeTentative();
        } else {
          InsertChar(ch, fb, now);
        }
      case Execute(ch) =>
        BecomeTentative();
        if ch as int == 0x0D { NewlineCarriageReturn(fb, now); }
      case EscDispatch => BecomeTentative();
      case CsiDispatch(ch) =>
        if ch == 'C' || ch == 'D' {
          InitializeCursor(fb);
          LastOnScreen(View());
          var m := cursors[|cursors| - 1];
          if ch == 'C' && m.col < fb.width - 1 {
            MoveLast(m.(col := m.col + 1, expiration := sent + 1, time := now));
          } else if ch == 'D' && m.col > 0 {
            MoveLast(m.(col := m.col - 1, expiration := sent + 1, time := now));
          }
        } else {
          BecomeTentative();
        }
      case Quiet =>
    }

    method NewUserByte(theByte: byte, fb: Frame, now: nat)
      requires FrameOk(fb) && Shape(View())
      modifies this
      ensures View() == UserByte(keys, old(View()), theByte, fb, now)
    {
      hide RowsShape, CursorsShape, FrameOk, Cull, ReactAll;
      if pref.Never? { return; }
      if pref.Experimental? { epoch := confirmed; }
      CullGuesses(fb, now);
      var b := if lastByte == 0x1B && theByte == 0x4F then 0x5B else theByte;
      lastByte := b;
      var (p, acts) := keys.input(parser, b);
      parser := p;
      HandleAll(acts, fb, now);
    }

    method HandleAll(acts: seq<Act>, fb: Frame, now: nat)
      requires Fits(View(), fb)
      modifies this
      ensures View() == ReactAll(keys, old(View()), acts, fb, now)
    {
      hide Fits, React;
      ghost var v := View();
      var i := 0;
      while i < |acts|
        invariant i <= |acts| && Fits(View(), fb)
        invariant ReactAll(keys, View(), acts[i..], fb, now) == ReactAll(keys, v, acts, fb, now)
      {
        assert acts[i..][1..] == acts[i + 1..];
        Handle(acts[i], fb, now);
        i := i + 1;
      }
    }
  }

  lemma {:induction false} JudgeCorrect<P>(e: Engine<P>, fb: Frame, now: nat, i: nat, j: nat)
    requires Fits(e, fb) && i < |e.overlays| && j < |e.overlays[i].cells| && e.overlays[i].num >= 0
    requires CellValidity(fb, e.overlays[i].num, e.lateAcked, e.overlays[i].cells[j]).Correct?
    ensures FrameOk(fb) && Shape(e) && e.lastHeight == fb.height && e.lastWidth == fb.width
    ensures var c, q := e.overlays[i].cells[j], Confirmed(e, e.overlays[i].cells[j], now);
      c.col < fb.width && e.overlays[i].num < fb.height && |fb.rows| == fb.height
        && |fb.rows[e.overlays[i].num]| == fb.width &&
      var painted := Recolored(e.overlays[i].cells, j, fb.rows[e.overlays[i].num][c.col].rend);
      Judge(e, fb, now, i, j) ==
        Culled(q.(overlays := e.overlays[i := e.overlays[i].(cells := painted[j := ClearedCell(painted[j])])]), false)
  {
    hide RowsShape, CursorsShape, FrameOk, CellValidity, Confirmed;
    RowOfShape(e, i);
    FrameCell(fb, e.overlays[i].num, e.overlays[i].cells[j].col);
  }

  method KeepCursors(cs: seq<CursorGuess>, e: nat) returns (kept: seq<CursorGuess>)
    ensures kept == KeptCursors(cs, e)
  {
    hide KeptCursors;
    kept := [];
    for i := 0 to |cs|
      invariant kept + KeptCursors(cs[i..], e) == KeptCursors(cs, e)
    {
      KeptStep(cs, i, e, kept);
      if cs[i].epoch < e { kept := kept + [cs[i]]; }
    }
    assert cs[|cs|..] == [];
  }

  lemma {:induction false} KeptStep(cs: seq<CursorGuess>, i: nat, e: nat, kept: seq<CursorGuess>)
    requires i < |cs|
    ensures kept + KeptCursors(cs[i..], e) ==
            (if cs[i].epoch < e then kept + [cs[i]] else kept) + KeptCursors(cs[i + 1..], e)
  {
    assert cs[i..][1..] == cs[i + 1..];
  }

  method FilterPending(fb: Frame, lateAck: nat, cs: seq<CursorGuess>) returns (kept: seq<CursorGuess>)
    ensures kept == PendingCursors(fb, lateAck, cs)
  {
    hide PendingCursors, CursorValidity;
    kept := [];
    for i := 0 to |cs|
      invariant kept + PendingCursors(fb, lateAck, cs[i..]) == PendingCursors(fb, lateAck, cs)
    {
      PendingStep(fb, lateAck, cs, i, kept);
      if CursorValidity(fb, lateAck, cs[i]).Pending? { kept := kept + [cs[i]]; }
    }
    assert cs[|cs|..] == [];
  }

  lemma {:induction false} PendingStep(fb: Frame, lateAck: nat, cs: seq<CursorGuess>, i: nat, kept: seq<CursorGuess>)
    requires i < |cs|
    ensures kept + PendingCursors(fb, lateAck, cs[i..]) ==
      (if CursorValidity(fb, lateAck, cs[i]).Pending? then kept + [cs[i]] else kept)
        + PendingCursors(fb, lateAck, cs[i + 1..])
  {
    assert cs[i..][1..] == cs[i + 1..];
  }

  method KillRows(rs: seq<RowGuess>, e: nat) returns (ks: seq<RowGuess>)
    ensures ks == KilledRows(rs, e)
  {
    hide KilledCells;
    ks := rs;
    for r := 0 to |rs|
      invariant |ks| == |rs| && (forall k | 0 <= k < r :: ks[k] == KilledRows(rs, e)[k])
                && forall k | r <= k < |rs| :: ks[k] == rs[k]
    {
      var cells := KillCells(ks[r].cells, e);
      ks := ks[r := ks[r].(cells := cells)];
    }
  }

  method KillCells(cs: seq<CellGuess>, e: nat) returns (r: seq<CellGuess>)
    ensures r == KilledCells(cs, e)
  {
    r := cs;
    for i := 0 to |cs|
      invariant |r| == |cs| && (forall k | 0 <= k < i :: r[k] == KilledCells(cs, e)[k])
                && forall k | i <= k < |cs| :: r[k] == cs[k]
    {
      if r[i].epoch >= e { r := r[i := ClearedCell(r[i])]; }
    }
  }

  method RecolorCells(cs: seq<CellGuess>, j: nat, rend: Renditions) returns (r: seq<CellGuess>)
    requires j <= |cs|
    ensures r == Recolored(cs, j, rend)
  {
    r := cs;
    for k := j to |cs|
      invariant |r| == |cs| && (forall i | 0 <= i < k :: r[i] == Recolored(cs, j, rend)[i])
                && forall i | k <= i < |cs| :: r[i] == cs[i]
    {
      r := r[k := r[k].(replacement := r[k].replacement.(rend := rend))];
    }
  }

  method BlankCells(cs: seq<CellGuess>, epoch: nat, expiration: nat, now: nat) returns (r: seq<CellGuess>)
    ensures |r| == |cs|
    ensures forall i | 0 <= i < |cs| :: r[i] == BlankedCell(cs[i], epoch, expiration, now)
  {
    r := cs;
    for k := 0 to |cs|
      invariant |r| == |cs| && (forall i | 0 <= i < k :: r[i] == BlankedCell(cs[i], epoch, expiration, now))
      invariant forall i | k <= i < |cs| :: r[i] == cs[i]
    {
      r := r[k := BlankedCell(r[k], epoch, expiration, now)];
    }
  }

  lemma {:induction false} BlankedIs<P>(e: Engine<P>, now: nat, cs: seq<CellGuess>, r: seq<CellGuess>)
    requires |r| == |cs| && forall i | 0 <= i < |cs| :: r[i] == BlankedCell(cs[i], e.epoch, e.sent + 1, now)
    ensures r == BlankedCells(e, now, cs)
  {
  }

  lemma {:induction false} StillFits<P>(e: Engine<P>, fb: Frame, m: CursorGuess, was: Engine<P>)
    requires Fits(was, fb) && e.cursors != [] && CursorShape(m, fb.height, fb.width)
    requires e == Moved(InitCursor(was, fb), fb, m)
    ensures Fits(e, fb)
  {
  }

  lemma {:induction false} Appended(rs: seq<RowGuess>, num: int)
    requires rs != [] && rs[|rs| - 1].num == num && RowIndex(rs[..|rs| - 1], num) == |rs| - 1
    ensures RowIndex(rs, num) == |rs| - 1
    decreases |rs|
  {
    if |rs| > 1 {
      assert rs[..|rs| - 1][1..] == rs[1..][..|rs| - 2];
      Appended(rs[1..], num);
    }
  }

  lemma {:induction false} CursorsOnScreen<P>(e: Engine<P>)
    requires Shape(e)
    ensures forall m | m in e.cursors :: m.row < e.lastHeight && m.col < e.lastWidth
  {
    hide RowsShape;
    forall m | m in e.cursors
      ensures m.row < e.lastHeight && m.col < e.lastWidth
    {
      assert CursorShape(m, e.lastHeight, e.lastWidth);
    }
  }

  lemma {:induction false} RowsOnScreen<P>(e: Engine<P>)
    requires Shape(e)
    ensures forall r | r in e.overlays :: 0 <= r.num < e.lastHeight
  {
    forall r | r in e.overlays
      ensures 0 <= r.num < e.lastHeight
    {
      assert RowShape(r, e.lastHeight, e.lastWidth);
    }
  }
}
