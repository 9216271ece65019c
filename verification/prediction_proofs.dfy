// The prediction engine over whole runs: epochs, what a cull leaves, and what may differ on the screen
// from the server's frame.
module PredictionProofs {
  import opened Predictions

  // ---- what every state keeps -----------------------------------------------

  /** A point in the epochs: live predictions are older than `before`, or made since: cells in epoch `cells`
      or later, cursors in epoch `moves` or later. */
  datatype Wall = Wall(before: nat, moves: nat, cells: nat)

  const OPEN := Wall(0, 0, 0)

  ghost predicate CellIn(c: CellGuess, epoch: nat, sent: nat, w: Wall) {
    c.active ==> c.epoch <= epoch && c.expiration <= sent + 1 && (c.epoch < w.before || c.epoch >= w.cells)
  }

  ghost predicate CellsIn(cs: seq<CellGuess>, epoch: nat, sent: nat, w: Wall) {
    forall i | 0 <= i < |cs| :: CellIn(cs[i], epoch, sent, w)
  }

  ghost predicate RowsIn(rs: seq<RowGuess>, epoch: nat, sent: nat, w: Wall) {
    forall r | 0 <= r < |rs| :: CellsIn(rs[r].cells, epoch, sent, w)
  }

  ghost predicate MoveIn(m: CursorGuess, epoch: nat, sent: nat, w: Wall) {
    m.epoch <= epoch && m.expiration <= sent + 1 && (m.epoch < w.before || m.epoch >= w.moves)
  }

  ghost predicate MovesIn(ms: seq<CursorGuess>, epoch: nat, sent: nat, w: Wall) {
    forall m | m in ms :: MoveIn(m, epoch, sent, w)
  }

  ghost predicate EpochsOk<P>(e: Engine<P>, w: Wall) {
    && !e.pref.Experimental? && w.before <= w.moves <= w.cells <= e.epoch
    && e.confirmed <= e.epoch && (e.confirmed < w.moves || e.confirmed >= w.cells)
  }

  ghost predicate Kept<P>(e: Engine<P>, w: Wall) {
    && EpochsOk(e, w) && Shape(e)
    && RowsIn(e.overlays, e.epoch, e.sent, w) && MovesIn(e.cursors, e.epoch, e.sent, w)
  }

  /** What a step may do to the counters. */
  ghost predicate Onward<P>(e: Engine<P>, r: Engine<P>) {
    && r.epoch >= e.epoch && r.confirmed >= e.confirmed
    && r.sent == e.sent && r.lateAcked == e.lateAcked && r.pref == e.pref
  }

  lemma {:induction false} Later(rs: seq<RowGuess>, ms: seq<CursorGuess>, epoch: nat, sent: nat, epoch': nat,
      sent': nat, w: Wall)
    requires epoch <= epoch' && sent <= sent' && RowsIn(rs, epoch, sent, w) && MovesIn(ms, epoch, sent, w)
    ensures RowsIn(rs, epoch', sent', w) && MovesIn(ms, epoch', sent', w)
  {
    forall r | 0 <= r < |rs|
      ensures CellsIn(rs[r].cells, epoch', sent', w)
    {
      assert CellsIn(rs[r].cells, epoch, sent, w);
      forall i | 0 <= i < |rs[r].cells|
        ensures CellIn(rs[r].cells[i], epoch', sent', w)
      {
        assert CellIn(rs[r].cells[i], epoch, sent, w);
      }
    }
    forall m | m in ms
      ensures MoveIn(m, epoch', sent', w)
    {
      assert MoveIn(m, epoch, sent, w);
    }
  }

  lemma {:induction false} TentativeKeeps<P>(e: Engine<P>, w: Wall)
    requires Kept(e, w)
    ensures Kept(Tentative(e), w) && Onward(e, Tentative(e))
  {
    hide RowsShape, CursorsShape, RowsIn, MovesIn;
    Later(e.overlays, e.cursors, e.epoch, e.sent, e.epoch + 1, e.sent, w);
  }

  /** A reset starts an epoch no prediction is in and none is shown of. */
  lemma {:induction false} ResetKeeps<P>(e: Engine<P>, w: Wall)
    requires EpochsOk(e, w)
    ensures Kept(Reset(e), w) && Onward(e, Reset(e)) && Kept(Reset(e), Wall(0, e.epoch + 1, e.epoch + 1))
  {
  }

  lemma {:induction false} MoveAdded<P>(e: Engine<P>, w: Wall, m: CursorGuess)
    requires Kept(e, w) && MoveIn(m, e.epoch, e.sent, w) && CursorShape(m, e.lastHeight, e.lastWidth)
    ensures Kept(e.(cursors := e.cursors + [m]), w)
  {
    hide RowsShape, RowsIn;
  }

  lemma {:induction false} NewMove<P>(e: Engine<P>, w: Wall, row: nat, col: nat, t: nat)
    requires EpochsOk(e, w)
    ensures MoveIn(CursorGuess(e.sent + 1, row, col, true, e.epoch, t), e.epoch, e.sent, w)
  {
  }

  // ---- killing an epoch -----------------------------------------------------

  lemma {:induction false} KilledIn(rs: seq<RowGuess>, from: nat, epoch: nat, sent: nat, w: Wall)
    requires RowsIn(rs, epoch, sent, w)
    ensures RowsIn(KilledRows(rs, from), epoch, sent, w)
    ensures RowsIn(KilledRows(rs, from), epoch, sent, Wall(from, epoch, epoch + 1))
  {
    var ks := KilledRows(rs, from);
    forall r | 0 <= r < |ks|
      ensures CellsIn(ks[r].cells, epoch, sent, w) && CellsIn(ks[r].cells, epoch, sent, Wall(from, epoch, epoch + 1))
    {
      assert CellsIn(rs[r].cells, epoch, sent, w);
      forall i | 0 <= i < |rs[r].cells|
        ensures CellIn(ks[r].cells[i], epoch, sent, w)
                && CellIn(ks[r].cells[i], epoch, sent, Wall(from, epoch, epoch + 1))
      {
        assert CellIn(rs[r].cells[i], epoch, sent, w);
      }
    }
  }

  /** A kill leaves only older predictions, except the cursor it adds, which is not shown either. */
  lemma {:induction false} KillKeeps<P>(e: Engine<P>, w: Wall, from: nat, fb: Frame)
    requires Kept(e, w) && Fits(e, fb) && e.confirmed < from <= e.epoch
    ensures var r := KillEpoch(e, from, fb);
      Kept(r, w) && Onward(e, r) && Kept(r, Wall(from, e.epoch, e.epoch + 1))
  {
    var r := KillEpoch(e, from, fb);
    var wall := Wall(from, e.epoch, e.epoch + 1);
    KilledIn(e.overlays, from, e.epoch, e.sent, w);
    NewMove(e, w, fb.row, fb.col, NEVER);
    forall m | m in r.cursors
      ensures MoveIn(m, e.epoch, e.sent, w) && MoveIn(m, e.epoch, e.sent, wall)
    {
      if m in e.cursors { assert MoveIn(m, e.epoch, e.sent, w); }
    }
    Later(r.overlays, r.cursors, e.epoch, e.sent, e.epoch + 1, e.sent, w);
    Later(r.overlays, r.cursors, e.epoch, e.sent, e.epoch + 1, e.sent, wall);
  }

  // ---- what a verdict does --------------------------------------------------

  /** A cell is cleared, or keeps all but its colors. */
  ghost predicate Fate(c: CellGuess, d: CellGuess) {
    d.active ==>
      && c.active && d.epoch == c.epoch && d.expiration == c.expiration && d.col == c.col
      && d.unknown == c.unknown && d.originals == c.originals && d.replacement.contents == c.replacement.contents
  }

  ghost predicate CellsFate(cs: seq<CellGuess>, ds: seq<CellGuess>) {
    |ds| == |cs| && forall i | 0 <= i < |cs| :: Fate(cs[i], ds[i])
  }

  ghost predicate RowsFate(rs: seq<RowGuess>, ss: seq<RowGuess>) {
    |ss| == |rs| && forall r | 0 <= r < |rs| :: ss[r].num == rs[r].num && CellsFate(rs[r].cells, ss[r].cells)
  }

  /** Not shown to be right or wrong: nothing is predicted, or the answer is still out. */
  ghost predicate Quiet(c: CellGuess, lateAck: nat) {
    !c.active || lateAck < c.expiration
  }

  /** The server's frame proves this prediction: acknowledged, visible, and not there before. */
  ghost predicate Proven(fb: Frame, row: int, lateAck: nat, c: CellGuess) {
    && c.active && 0 <= row < |fb.rows| && c.col < |fb.rows[row]| && c.expiration <= lateAck
    && !c.unknown && !IsBlank(c.replacement) && ContentsMatch(fb.rows[row][c.col], c.replacement)
    && forall o | o in c.originals :: !ContentsMatch(o, c.replacement)
  }

  lemma {:induction false} FittedFate<P>(e: Engine<P>, fb: Frame, i: nat, cells: seq<CellGuess>)
    requires Fits(e, fb) && i < |e.overlays| && CellsFate(e.overlays[i].cells, cells)
    requires |cells| == fb.width && forall k | 0 <= k < fb.width :: cells[k].col == k
    ensures RowsFate(e.overlays, Fitted(e, fb, i, cells).overlays)
  {
    hide Shape, FrameOk, CellsFate;
    forall r | 0 <= r < |e.overlays|
      ensures CellsFate(e.overlays[r].cells, e.overlays[r].cells)
    {
      SameFate(e.overlays[r].cells);
    }
  }

  lemma {:induction false} SameFate(cs: seq<CellGuess>)
    ensures CellsFate(cs, cs)
  {
  }

  lemma {:induction false} SameRows(rs: seq<RowGuess>)
    ensures RowsFate(rs, rs)
  {
    forall r | 0 <= r < |rs| ensures CellsFate(rs[r].cells, rs[r].cells) { SameFate(rs[r].cells); }
  }

  lemma {:induction false} KilledFate(rs: seq<RowGuess>, from: nat)
    ensures RowsFate(rs, KilledRows(rs, from))
  {
    forall r | 0 <= r < |rs|
      ensures CellsFate(rs[r].cells, KilledCells(rs[r].cells, from))
    {
    }
  }

  lemma {:induction false} FateTwice(rs: seq<RowGuess>, ss: seq<RowGuess>, ts: seq<RowGuess>)
    requires RowsFate(rs, ss) && RowsFate(ss, ts)
    ensures RowsFate(rs, ts)
  {
    forall r | 0 <= r < |rs|
      ensures ts[r].num == rs[r].num && CellsFate(rs[r].cells, ts[r].cells)
    {
      assert CellsFate(rs[r].cells, ss[r].cells) && CellsFate(ss[r].cells, ts[r].cells);
      forall i | 0 <= i < |rs[r].cells|
        ensures Fate(rs[r].cells[i], ts[r].cells[i])
      {
        assert Fate(rs[r].cells[i], ss[r].cells[i]) && Fate(ss[r].cells[i], ts[r].cells[i]);
      }
    }
  }

  /** Cells only lose predictions. */
  lemma {:induction false} FateIn(rs: seq<RowGuess>, ss: seq<RowGuess>, epoch: nat, sent: nat, w: Wall)
    requires RowsFate(rs, ss) && RowsIn(rs, epoch, sent, w)
    ensures RowsIn(ss, epoch, sent, w)
  {
    forall r | 0 <= r < |ss|
      ensures CellsIn(ss[r].cells, epoch, sent, w)
    {
      assert CellsFate(rs[r].cells, ss[r].cells) && CellsIn(rs[r].cells, epoch, sent, w);
      forall i | 0 <= i < |ss[r].cells|
        ensures CellIn(ss[r].cells[i], epoch, sent, w)
      {
        assert Fate(rs[r].cells[i], ss[r].cells[i]) && CellIn(rs[r].cells[i], epoch, sent, w);
      }
    }
  }

  /** Everything a verdict on cell `j` of row `i` does. */
  ghost predicate Verdict<P>(e: Engine<P>, v: Culled<P>, fb: Frame, i: nat, j: nat)
    requires Fits(e, fb) && i < |e.overlays| && j < |e.overlays[i].cells|
  {
    var c := e.overlays[i].cells[j];
    if v.over then v.e == Reset(e)
    else
      && RowsFate(e.overlays, v.e.overlays) && j < |v.e.overlays[i].cells|
      && Quiet(v.e.overlays[i].cells[j], e.lateAcked)
      && (v.e.confirmed == e.confirmed ||
          (v.e.confirmed == c.epoch > e.confirmed && Proven(fb, e.overlays[i].num, e.lateAcked, c)))
      && (if v.e.epoch == e.epoch then v.e.cursors == e.cursors
          else e.confirmed < c.epoch && c.active && v.e == KillEpoch(e, c.epoch, fb))
      && Onward(e, v.e)
  }

  lemma {:induction false} JudgeDoes<P>(e: Engine<P>, fb: Frame, now: nat, i: nat, j: nat)
    requires Fits(e, fb) && !e.pref.Experimental? && i < |e.overlays| && j < fb.width
    ensures |e.overlays[i].cells| == fb.width && Verdict(e, Judge(e, fb, now, i, j), fb, i, j)
  {
    hide Shape, FrameOk, CellValidity, Verdict, KillEpoch, Recolored, Fitted;
    RowOfShape(e, i);
    var c := e.overlays[i].cells[j];
    match CellValidity(fb, e.overlays[i].num, e.lateAcked, c)
    case IncorrectOrExpired =>
      WrongIsActive(fb, e.overlays[i].num, e.lateAcked, c);
      if c.epoch > e.confirmed { VerdictKills(e, fb, i, j); } else { VerdictResets(e, fb, i, j); }
    case Correct => VerdictBelieves(e, fb, now, i, j);
    case CorrectNoCredit => VerdictClears(e, fb, i, j);
    case Pending => VerdictWaits(e, fb, now, i, j);
    case Inactive => VerdictNothing(e, fb, i, j);
  }

  lemma {:induction false} WrongIsActive(fb: Frame, row: nat, late: nat, c: CellGuess)
    requires FrameOk(fb) && CellValidity(fb, row, late, c).IncorrectOrExpired?
    ensures c.active
  {
  }

  lemma {:induction false} VerdictResets<P>(e: Engine<P>, fb: Frame, i: nat, j: nat)
    requires Fits(e, fb) && i < |e.overlays| && j < |e.overlays[i].cells|
    ensures Verdict(e, Culled(Reset(e), true), fb, i, j)
  {
  }

  lemma {:induction false} VerdictKills<P>(e: Engine<P>, fb: Frame, i: nat, j: nat)
    requires Fits(e, fb) && !e.pref.Experimental? && i < |e.overlays| && j < |e.overlays[i].cells|
    requires e.overlays[i].cells[j].active && e.overlays[i].cells[j].epoch > e.confirmed
    ensures Verdict(e, Culled(KillEpoch(e, e.overlays[i].cells[j].epoch, fb), false), fb, i, j)
  {
    hide Shape, FrameOk, RowsFate, Quiet;
    var from := e.overlays[i].cells[j].epoch;
    KilledFate(e.overlays, from);
    KilledQuiet(e.overlays, from, i, j, e.lateAcked);
  }

  lemma {:induction false} VerdictBelieves<P>(e: Engine<P>, fb: Frame, now: nat, i: nat, j: nat)
    requires Fits(e, fb) && i < |e.overlays| && j < |e.overlays[i].cells| && e.overlays[i].num >= 0
    requires CellValidity(fb, e.overlays[i].num, e.lateAcked, e.overlays[i].cells[j]).Correct?
    requires !e.pref.Experimental?
    ensures Verdict(e, Judge(e, fb, now, i, j), fb, i, j)
  {
    hide Shape, FrameOk, CellsFate, Recolored, Judge;
    var cells, c, row := e.overlays[i].cells, e.overlays[i].cells[j], e.overlays[i].num;
    RightIsProven(fb, row, e.lateAcked, c);
    RowOfShape(e, i);
    FrameCell(fb, row, c.col);
    var painted := Recolored(cells, j, fb.rows[row][c.col].rend);
    Repainted(cells, j, fb.rows[row][c.col].rend);
    ConfirmedFits(e, c, now, fb);
    var q := painted[j := ClearedCell(painted[j])];
    FittedFate(Confirmed(e, c, now), fb, i, q);
    BelievesIs(e, fb, now, i, j, q);
    hide Proven;
  }

  lemma {:induction false} BelievesIs<P>(e: Engine<P>, fb: Frame, now: nat, i: nat, j: nat, q: seq<CellGuess>)
    requires Fits(e, fb) && i < |e.overlays| && j < |e.overlays[i].cells| && e.overlays[i].num >= 0 && FrameOk(fb)
    requires CellValidity(fb, e.overlays[i].num, e.lateAcked, e.overlays[i].cells[j]).Correct?
    requires var c := e.overlays[i].cells[j];
      c.col < fb.width && e.overlays[i].num < |fb.rows| && |fb.rows[e.overlays[i].num]| == fb.width &&
      var painted := Recolored(e.overlays[i].cells, j, fb.rows[e.overlays[i].num][c.col].rend);
      q == painted[j := ClearedCell(painted[j])]
    requires |q| == fb.width && (forall k | 0 <= k < fb.width :: q[k].col == k)
             && Fits(Confirmed(e, e.overlays[i].cells[j], now), fb)
    ensures Judge(e, fb, now, i, j) == Culled(Fitted(Confirmed(e, e.overlays[i].cells[j], now), fb, i, q), false)
  {
    hide Shape, FrameOk, CellValidity, Recolored, Confirmed, Fitted;
  }

  lemma {:induction false} RightIsProven(fb: Frame, row: nat, late: nat, c: CellGuess)
    requires FrameOk(fb) && CellValidity(fb, row, late, c).Correct?
    ensures Proven(fb, row, late, c) && row < fb.height && c.col < fb.width && c.active
  {
  }

  lemma {:induction false} VerdictClears<P>(e: Engine<P>, fb: Frame, i: nat, j: nat)
    requires Fits(e, fb) && i < |e.overlays| && j < |e.overlays[i].cells| && |e.overlays[i].cells| == fb.width
    requires forall k | 0 <= k < fb.width :: e.overlays[i].cells[k].col == k
    ensures var cells := e.overlays[i].cells;
      Verdict(e, Culled(Fitted(e, fb, i, cells[j := ClearedCell(cells[j])]), false), fb, i, j)
  {
    hide Shape, FrameOk, CellsFate;
    var cells := e.overlays[i].cells;
    Cleared(cells, j);
    FittedFate(e, fb, i, cells[j := ClearedCell(cells[j])]);
  }

  lemma {:induction false} VerdictWaits<P>(e: Engine<P>, fb: Frame, now: nat, i: nat, j: nat)
    requires Fits(e, fb) && i < |e.overlays| && j < |e.overlays[i].cells| && e.overlays[i].num >= 0
    requires CellValidity(fb, e.overlays[i].num, e.lateAcked, e.overlays[i].cells[j]).Pending?
    ensures Verdict(e, Culled(Waiting(e, e.overlays[i].cells[j], now), false), fb, i, j)
  {
    hide Shape, FrameOk;
    SameRows(e.overlays);
    PendingIsQuiet(fb, e.overlays[i].num, e.lateAcked, e.overlays[i].cells[j]);
    hide CellValidity, RowsFate, Quiet;
  }

  lemma {:induction false} VerdictNothing<P>(e: Engine<P>, fb: Frame, i: nat, j: nat)
    requires Fits(e, fb) && i < |e.overlays| && j < |e.overlays[i].cells| && e.overlays[i].num >= 0
    requires CellValidity(fb, e.overlays[i].num, e.lateAcked, e.overlays[i].cells[j]).Inactive?
    ensures Verdict(e, Culled(e, false), fb, i, j)
  {
    hide Shape, FrameOk;
    SameRows(e.overlays);
    PendingIsQuiet(fb, e.overlays[i].num, e.lateAcked, e.overlays[i].cells[j]);
    hide CellValidity, RowsFate, Quiet;
  }

  lemma {:induction false} PendingIsQuiet(fb: Frame, row: nat, late: nat, c: CellGuess)
    requires FrameOk(fb) && (CellValidity(fb, row, late, c).Pending? || CellValidity(fb, row, late, c).Inactive?)
    ensures Quiet(c, late)
  {
  }

  lemma {:induction false} ConfirmedFits<P>(e: Engine<P>, c: CellGuess, now: nat, fb: Frame)
    requires Fits(e, fb)
    ensures Fits(Confirmed(e, c, now), fb)
  {
  }

  lemma {:induction false} KilledQuiet(rs: seq<RowGuess>, from: nat, i: nat, j: nat, lateAck: nat)
    requires i < |rs| && j < |rs[i].cells| && rs[i].cells[j].epoch >= from
    ensures j < |KilledRows(rs, from)[i].cells| && Quiet(KilledRows(rs, from)[i].cells[j], lateAck)
  {
  }

  lemma {:induction false} Cleared(cells: seq<CellGuess>, j: nat)
    requires j < |cells|
    ensures CellsFate(cells, cells[j := ClearedCell(cells[j])])
  {
  }

  lemma {:induction false} Repainted(cells: seq<CellGuess>, j: nat, rend: Renditions)
    requires j < |cells|
    ensures var p := Recolored(cells, j, rend); CellsFate(cells, p[j := ClearedCell(p[j])])
  {
  }

  lemma {:induction false} JudgeKeeps<P>(e: Engine<P>, w: Wall, fb: Frame, now: nat, i: nat, j: nat)
    requires Kept(e, w) && Fits(e, fb) && i < |e.overlays| && j < fb.width
    ensures |e.overlays[i].cells| == fb.width
    ensures Kept(Judge(e, fb, now, i, j).e, w) && Onward(e, Judge(e, fb, now, i, j).e)
  {
    hide Judge, Shape, RowsIn, MovesIn, RowsFate, KillEpoch, Proven, Reset;
    JudgeDoes(e, fb, now, i, j);
    ResetKeeps(e, w);
    var v, c := Judge(e, fb, now, i, j), e.overlays[i].cells[j];
    CellOf(e.overlays, e.epoch, e.sent, w, i, j);
    if !v.over {
      if v.e.epoch == e.epoch {
        FateIn(e.overlays, v.e.overlays, e.epoch, e.sent, w);
        if v.e.confirmed != e.confirmed { ProvenActive(fb, e.overlays[i].num, e.lateAcked, c); }
      } else {
        KillKeeps(e, w, c.epoch, fb);
      }
    }
  }

  lemma {:induction false} ProvenActive(fb: Frame, row: int, lateAck: nat, c: CellGuess)
    requires Proven(fb, row, lateAck, c)
    ensures c.active
  {
  }

  lemma {:induction false} CellOf(rs: seq<RowGuess>, epoch: nat, sent: nat, w: Wall, i: nat, j: nat)
    requires RowsIn(rs, epoch, sent, w) && i < |rs| && j < |rs[i].cells|
    ensures CellIn(rs[i].cells[j], epoch, sent, w)
  {
    assert CellsIn(rs[i].cells, epoch, sent, w);
  }

  // ---- the cull -------------------------------------------------------------

  ghost predicate CellsQuiet(cs: seq<CellGuess>, n: nat, lateAck: nat) {
    forall k | 0 <= k < n && k < |cs| :: Quiet(cs[k], lateAck)
  }

  ghost predicate RowsQuiet(rs: seq<RowGuess>, n: nat, lateAck: nat) {
    forall r | 0 <= r < n && r < |rs| :: CellsQuiet(rs[r].cells, |rs[r].cells|, lateAck)
  }

  lemma {:induction false} StayQuiet(rs: seq<RowGuess>, ss: seq<RowGuess>, i: nat, j: nat, lateAck: nat)
    requires RowsFate(rs, ss) && i < |rs| && RowsQuiet(rs, i, lateAck) && CellsQuiet(rs[i].cells, j, lateAck)
    ensures RowsQuiet(ss, i, lateAck) && CellsQuiet(ss[i].cells, j, lateAck)
  {
    forall r | 0 <= r < i
      ensures CellsQuiet(ss[r].cells, |ss[r].cells|, lateAck)
    {
      assert CellsFate(rs[r].cells, ss[r].cells) && CellsQuiet(rs[r].cells, |rs[r].cells|, lateAck);
      forall k | 0 <= k < |ss[r].cells|
        ensures Quiet(ss[r].cells[k], lateAck)
      {
        assert Fate(rs[r].cells[k], ss[r].cells[k]) && Quiet(rs[r].cells[k], lateAck);
      }
    }
    assert CellsFate(rs[i].cells, ss[i].cells);
    forall k | 0 <= k < j && k < |ss[i].cells|
      ensures Quiet(ss[i].cells[k], lateAck)
    {
      assert Fate(rs[i].cells[k], ss[i].cells[k]) && Quiet(rs[i].cells[k], lateAck);
    }
  }

  /** If the confirmed epoch went up, some cell of `rs` in that epoch was proven. */
  ghost predicate Justified(rs: seq<RowGuess>, fb: Frame, lateAck: nat, was: nat, now: nat) {
    now > was ==> exists r, k | 0 <= r < |rs| && 0 <= k < |rs[r].cells| ::
      rs[r].cells[k].epoch == now && Proven(fb, rs[r].num, lateAck, rs[r].cells[k])
  }

  lemma {:induction false} JustifiedBefore(rs: seq<RowGuess>, ss: seq<RowGuess>, fb: Frame, lateAck: nat, was: nat,
      now: nat)
    requires RowsFate(rs, ss) && Justified(ss, fb, lateAck, was, now)
    ensures Justified(rs, fb, lateAck, was, now)
  {
    if now > was {
      var r, k :| 0 <= r < |ss| && 0 <= k < |ss[r].cells| &&
        ss[r].cells[k].epoch == now && Proven(fb, ss[r].num, lateAck, ss[r].cells[k]);
      assert CellsFate(rs[r].cells, ss[r].cells);
      assert Fate(rs[r].cells[k], ss[r].cells[k]);
      assert Proven(fb, rs[r].num, lateAck, rs[r].cells[k]);
    }
  }

  /** What holds after part of a cull that began with rows `rs` and confirmed epoch `was`. */
  ghost predicate Progress<P>(rs: seq<RowGuess>, was: nat, fb: Frame, late: nat, e: Engine<P>, w: Wall, i: nat,
      j: nat) {
    && Kept(e, w) && Fits(e, fb) && RowsFate(rs, e.overlays) && e.lateAcked == late && e.confirmed >= was
    && i <= |e.overlays| && RowsQuiet(e.overlays, i, late)
    && (i < |e.overlays| ==> CellsQuiet(e.overlays[i].cells, j, late))
    && Justified(rs, fb, late, was, e.confirmed)
  }

  ghost predicate Aborted<P>(rs: seq<RowGuess>, was: nat, fb: Frame, late: nat, e: Engine<P>, w: Wall) {
    && Kept(e, w) && e.overlays == [] && e.cursors == [] && e.lateAcked == late && e.confirmed >= was
    && Justified(rs, fb, late, was, e.confirmed)
  }

  lemma {:induction false} JudgeStep<P>(rs: seq<RowGuess>, was: nat, fb: Frame, now: nat, e: Engine<P>, w: Wall, i: nat,
      j: nat)
    requires Progress(rs, was, fb, e.lateAcked, e, w, i, j) && i < |e.overlays| && j < fb.width
    ensures |e.overlays[i].cells| == fb.width
    ensures var v := Judge(e, fb, now, i, j);
      && (if v.over then Aborted(rs, was, fb, e.lateAcked, v.e, w)
          else |v.e.overlays| == |e.overlays| && Progress(rs, was, fb, e.lateAcked, v.e, w, i, j + 1))
      && Onward(e, v.e)
  {
    hide Judge, Kept, Shape, FrameOk, RowsFate, KillEpoch, Justified, CellsQuiet, RowsQuiet;
    NotExperimental(e, w);
    JudgeDoes(e, fb, now, i, j);
    JudgeKeeps(e, w, fb, now, i, j);
    var v := Judge(e, fb, now, i, j);
    if !v.over {
      StayQuiet(e.overlays, v.e.overlays, i, j, e.lateAcked);
      RowOfShape(v.e, i);
      OneMore(v.e.overlays[i].cells, j, e.lateAcked);
      FateTwice(rs, e.overlays, v.e.overlays);
      if v.e.confirmed != e.confirmed {
        NowJustified(e.overlays, fb, e.lateAcked, was, v.e.confirmed, i, j);
        JustifiedBefore(rs, e.overlays, fb, e.lateAcked, was, v.e.confirmed);
      }
    }
  }

  lemma {:induction false} NotExperimental<P>(e: Engine<P>, w: Wall)
    requires Kept(e, w)
    ensures !e.pref.Experimental? && Shape(e)
  {
  }

  lemma {:induction false} OneMore(cs: seq<CellGuess>, j: nat, late: nat)
    requires j < |cs| && CellsQuiet(cs, j, late) && Quiet(cs[j], late)
    ensures CellsQuiet(cs, j + 1, late)
  {
  }

  lemma {:induction false} NowJustified(rs: seq<RowGuess>, fb: Frame, late: nat, was: nat, now: nat, i: nat, j: nat)
    requires i < |rs| && j < |rs[i].cells| && rs[i].cells[j].epoch == now && Proven(fb, rs[i].num, late, rs[i].cells[j])
    ensures Justified(rs, fb, late, was, now)
  {
  }

  lemma {:induction false} CullRowDoes<P>(rs: seq<RowGuess>, was: nat, fb: Frame, now: nat, e: Engine<P>, w: Wall,
      i: nat, j: nat)
    requires Progress(rs, was, fb, e.lateAcked, e, w, i, j) && i < |e.overlays| && j <= fb.width
    ensures var v := CullRow(e, fb, now, i, j);
      && (if v.over then Aborted(rs, was, fb, e.lateAcked, v.e, w)
          else |v.e.overlays| == |e.overlays| && Progress(rs, was, fb, e.lateAcked, v.e, w, i, fb.width))
      && Onward(e, v.e)
    decreases fb.width - j
  {
    hide Judge, Progress, Aborted;
    ProgressFits(rs, was, fb, e, w, i, j);
    if j < fb.width {
      JudgeStep(rs, was, fb, now, e, w, i, j);
      var v := Judge(e, fb, now, i, j);
      if !v.over { CullRowDoes(rs, was, fb, now, v.e, w, i, j + 1); }
    }
  }

  lemma {:induction false} ProgressFits<P>(rs: seq<RowGuess>, was: nat, fb: Frame, e: Engine<P>, w: Wall, i: nat,
      j: nat)
    requires Progress(rs, was, fb, e.lateAcked, e, w, i, j)
    ensures Fits(e, fb) && i <= |e.overlays|
    ensures i < |e.overlays| ==> |e.overlays[i].cells| == fb.width
  {
    if i < |e.overlays| { RowOfShape(e, i); }
  }

  lemma {:induction false} NextRow<P>(rs: seq<RowGuess>, was: nat, fb: Frame, e: Engine<P>, w: Wall, i: nat)
    requires Progress(rs, was, fb, e.lateAcked, e, w, i, fb.width) && i < |e.overlays|
    ensures Progress(rs, was, fb, e.lateAcked, e, w, i + 1, 0)
  {
    hide Kept, Shape, FrameOk, RowsFate, Justified;
    RowOfShape(e, i);
    assert CellsQuiet(e.overlays[i].cells, |e.overlays[i].cells|, e.lateAcked);
  }

  lemma {:induction false} CullRowsDoes<P>(rs: seq<RowGuess>, was: nat, fb: Frame, now: nat, e: Engine<P>, w: Wall,
      i: nat)
    requires Progress(rs, was, fb, e.lateAcked, e, w, i, 0)
    ensures Fits(e, fb) && i <= |e.overlays|
    ensures var v := CullRows(e, fb, now, i);
      && (if v.over then Aborted(rs, was, fb, e.lateAcked, v.e, w)
          else Progress(rs, was, fb, e.lateAcked, v.e, w, |v.e.overlays|, 0))
      && Onward(e, v.e)
    decreases |e.overlays| - i
  {
    hide CullRow, Progress, Aborted;
    ProgressFits(rs, was, fb, e, w, i, 0);
    if i < |e.overlays| {
      CullRowDoes(rs, was, fb, now, e, w, i, 0);
      var v := CullRow(e, fb, now, i, 0);
      if !v.over {
        NextRow(rs, was, fb, v.e, w, i);
        CullRowsDoes(rs, was, fb, now, v.e, w, i + 1);
      }
    }
  }

  /** Every prediction left is in bounds and unanswered. */
  ghost predicate AllPending<P>(e: Engine<P>, fb: Frame) {
    && Fits(e, fb)
    && (forall r, k | 0 <= r < |e.overlays| && 0 <= k < |e.overlays[r].cells| :: e.overlays[r].cells[k].active ==>
         0 <= e.overlays[r].num && CellValidity(fb, e.overlays[r].num, e.lateAcked, e.overlays[r].cells[k]).Pending?)
    && (forall m | m in e.cursors :: CursorValidity(fb, e.lateAcked, m).Pending?)
  }

  lemma {:induction false} QuietPending<P>(e: Engine<P>, fb: Frame)
    requires Fits(e, fb) && RowsQuiet(e.overlays, |e.overlays|, e.lateAcked)
    requires forall m | m in e.cursors :: CursorValidity(fb, e.lateAcked, m).Pending?
    ensures AllPending(e, fb)
  {
    forall r, k | 0 <= r < |e.overlays| && 0 <= k < |e.overlays[r].cells| && e.overlays[r].cells[k].active
      ensures 0 <= e.overlays[r].num
              && CellValidity(fb, e.overlays[r].num, e.lateAcked, e.overlays[r].cells[k]).Pending?
    {
      RowOfShape(e, r);
      assert CellsQuiet(e.overlays[r].cells, |e.overlays[r].cells|, e.lateAcked);
      assert Quiet(e.overlays[r].cells[k], e.lateAcked);
    }
  }

  lemma {:induction false} CullCursorsDoes<P>(e: Engine<P>, w: Wall, fb: Frame)
    requires Kept(e, w) && Fits(e, fb)
    ensures var r := CullCursors(e, fb);
      && Kept(r, w) && Onward(e, r) && r.confirmed == e.confirmed && (r.overlays == e.overlays || r.overlays == [])
      && forall m | m in r.cursors :: CursorValidity(fb, r.lateAcked, m).Pending?
  {
    hide RowsShape, RowsIn, CursorValidity;
    ResetKeeps(e, w);
    var ms := PendingCursors(fb, e.lateAcked, e.cursors);
    forall m | m in ms
      ensures MoveIn(m, e.epoch, e.sent, w) && CursorShape(m, e.lastHeight, e.lastWidth)
    {
      assert m in e.cursors;
    }
  }

  lemma {:induction false} Begin<P>(e: Engine<P>, w: Wall, fb: Frame)
    requires Kept(e, w) && FrameOk(fb)
    ensures var v := Triggers(Resized(e, fb));
      && Progress(v.overlays, e.confirmed, fb, e.lateAcked, v, w, 0, 0) && Onward(e, v)
      && v.confirmed == e.confirmed && (v.overlays == e.overlays || v.overlays == [])
  {
    hide Active, RowsFate, Shape, RowsIn, MovesIn, FrameOk;
    ResetKeeps(e.(lastHeight := fb.height, lastWidth := fb.width), w);
    assert Kept(Resized(e, fb), w);
    SameRows(Resized(e, fb).overlays);
    SameShape(Resized(e, fb), Triggers(Resized(e, fb)));
  }

  lemma {:induction false} SameShape<P>(e: Engine<P>, r: Engine<P>)
    requires Shape(e) && r.overlays == e.overlays && r.cursors == e.cursors && r.lastHeight == e.lastHeight
             && r.lastWidth == e.lastWidth
    ensures Shape(r)
  {
  }

  /** A cull keeps the invariant; all it leaves is pending and in bounds; and it raises the confirmed
      epoch only to that of a prediction the server's frame proves. */
  lemma {:induction false} CullDoes<P>(e: Engine<P>, w: Wall, fb: Frame, now: nat)
    requires Kept(e, w) && FrameOk(fb)
    ensures var r := Cull(e, fb, now);
      && Kept(r, w) && Onward(e, r) && (!e.pref.Never? ==> AllPending(r, fb))
      && Justified(e.overlays, fb, e.lateAcked, e.confirmed, r.confirmed)
  {
    hide Shape, FrameOk, RowsFate, CullRows, CullCursors, Triggers,
      Resized, AllPending, RowsQuiet, Kept, RowsShape, CursorsShape;
    KeptShape(e, w);
    if !e.pref.Never? {
      Begin(e, w, fb);
      var u := Triggers(Resized(e, fb));
      CullRowsDoes(u.overlays, e.confirmed, fb, now, u, w, 0);
      var v := CullRows(u, fb, now, 0);
      FewerRows(u.overlays, e.overlays, fb, e.lateAcked, e.confirmed, v.e.confirmed);
      if v.over {
        NothingLeft(v.e, fb);
      } else {
        CullCursorsDoes(v.e, w, fb);
        var r := CullCursors(v.e, fb);
        KeptShape(r, w);
        StillQuiet(v.e.overlays, r.overlays, e.lateAcked);
        QuietPending(r, fb);
      }
    }
  }

  lemma {:induction false} StillQuiet(rs: seq<RowGuess>, ss: seq<RowGuess>, late: nat)
    requires RowsQuiet(rs, |rs|, late) && (ss == rs || ss == [])
    ensures RowsQuiet(ss, |ss|, late)
  {
  }

  lemma {:induction false} KeptShape<P>(e: Engine<P>, w: Wall)
    requires Kept(e, w)
    ensures Shape(e)
  {
  }

  lemma {:induction false} FewerRows(ss: seq<RowGuess>, rs: seq<RowGuess>, fb: Frame, late: nat, was: nat, now: nat)
    requires Justified(ss, fb, late, was, now) && (ss == rs || ss == [])
    ensures Justified(rs, fb, late, was, now)
  {
  }

  lemma {:induction false} NothingLeft<P>(e: Engine<P>, fb: Frame)
    requires Fits(e, fb) && e.overlays == [] && e.cursors == []
    ensures AllPending(e, fb)
  {
  }
}
