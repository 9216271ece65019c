// When a guess is right, wrong or still open, what follows from it, and how it looks on the screen.
module PredictionVerdicts {
  import opened Predictions

  // ---- right and wrong ----------------------------------------------------------

  /** Nothing to be seen: no contents, a space, or a no-break space. */
  predicate Empty(g: Glyph) {
    g.contents in {[], [0x20], [0xC2, 0xA0]}
  }

  predicate Alike(a: Glyph, b: Glyph) {
    a.contents == b.contents || (Empty(a) && Empty(b))
  }

  /** The server has had time to echo it. */
  predicate Due(c: CellGuess, lateAck: nat) {
    c.active && lateAck >= c.expiration
  }

  /** The server's frame shows something else. */
  predicate Wrong(c: CellGuess, actual: Glyph) {
    !c.unknown && !Empty(c.replacement) && !Alike(actual, c.replacement)
  }

  /** It shows what was guessed, and nothing that had stood there did. */
  predicate Right(c: CellGuess, actual: Glyph) {
    !c.unknown && !Empty(c.replacement) && Alike(actual, c.replacement)
    && forall o | o in c.originals :: !Alike(o, c.replacement)
  }

  lemma {:induction false} SameLooks(a: Glyph, b: Glyph)
    ensures ContentsMatch(a, b) <==> Alike(a, b)
    ensures IsBlank(a) <==> Empty(a)
  {
  }

  /** One guess cleared. */
  function Cleared<P>(e: Engine<P>, i: nat, j: nat): Engine<P>
    requires i < |e.overlays| && j < |e.overlays[i].cells|
  {
    var row := e.overlays[i];
    var c := row.cells[j].(active := false, unknown := false, originals := [], expiration := NEVER, epoch := NEVER);
    e.(overlays := e.overlays[i := row.(cells := row.cells[j := c])])
  }

  /** An idle guess means nothing; one that is not due only makes a slow server known. */
  lemma {:induction false} OpenWaits<P>(e: Engine<P>, fb: Frame, now: nat, i: nat, j: nat)
    requires Fits(e, fb) && i < |e.overlays| && j < |e.overlays[i].cells|
    requires !Due(e.overlays[i].cells[j], e.lateAcked)
    ensures var c, v := e.overlays[i].cells[j], Judge(e, fb, now, i, j);
            && !v.over
            && v.e == e.(glitch := if !c.active then e.glitch
                                   else if Sub(now, c.time) >= 5000 then 20
                                   else if Sub(now, c.time) >= 250 && e.glitch < 10 then 10 else e.glitch)
  {
    RowOfShape(e, i);
    hide Shape, FrameOk;
  }

  /** A due guess that is wrong: while its epoch is unconfirmed, the epoch is killed, and else everything
      is forgotten; Experimental mode only clears it. */
  lemma {:induction false} WrongKills<P>(e: Engine<P>, fb: Frame, now: nat, i: nat, j: nat)
    requires Fits(e, fb) && i < |e.overlays| && j < |e.overlays[i].cells|
    ensures var row, c, v := e.overlays[i].num, e.overlays[i].cells[j], Judge(e, fb, now, i, j);
            && 0 <= row < fb.height == |fb.rows| && |fb.rows[row]| == fb.width && c.col == j < fb.width
            && (Due(c, e.lateAcked) && Wrong(c, fb.rows[row][j]) ==>
                  if e.pref.Experimental? then v == Culled(Cleared(e, i, j), false)
                  else if c.epoch > e.confirmed then v == Culled(KillEpoch(e, c.epoch, fb), false)
                  else v == Culled(Reset(e), true))
  {
    RowOfShape(e, i);
    var c, row := e.overlays[i].cells[j], e.overlays[i].num;
    FrameCell(fb, row, j);
    SameLooks(fb.rows[row][j], c.replacement);
    SameLooks(c.replacement, c.replacement);
    hide Shape, FrameOk, KillEpoch, IsBlank, ContentsMatch, Empty, Alike;
  }

  /** One that is right confirms its epoch, gives the rest of the row the renditions really there, and,
      when quick, repairs a glitch; it is then cleared. */
  lemma {:induction false} RightConfirms<P>(e: Engine<P>, fb: Frame, now: nat, i: nat, j: nat)
    requires Fits(e, fb) && i < |e.overlays| && j < |e.overlays[i].cells|
    ensures var row, c, v := e.overlays[i].num, e.overlays[i].cells[j], Judge(e, fb, now, i, j);
            && 0 <= row < fb.height == |fb.rows| && |fb.rows[row]| == fb.width && c.col == j < fb.width
            && (Due(c, e.lateAcked) && Right(c, fb.rows[row][j]) ==>
                  var repairs := Sub(now, c.time) < 250 && e.glitch > 0 && Sub(now, 150) >= e.quick;
                  && !v.over && |v.e.overlays| == |e.overlays| && |v.e.overlays[i].cells| == fb.width
                  && v.e == e.(overlays := e.overlays[i := e.overlays[i].(cells := v.e.overlays[i].cells)],
                               confirmed := if c.epoch > e.confirmed then c.epoch else e.confirmed,
                               glitch := if repairs then e.glitch - 1 else e.glitch,
                               quick := if repairs then now else e.quick)
                  && forall k | 0 <= k < fb.width ::
                       var was, next := e.overlays[i].cells[k], v.e.overlays[i].cells[k];
                       var painted := was.(replacement := was.replacement.(rend := fb.rows[row][j].rend));
                       next == if k < j then was
                             else if k > j then painted
                             else painted.(active := false, unknown := false, originals := [],
                                           expiration := NEVER, epoch := NEVER))
  {
    hide *;
    FitsShape(e, fb);
    RowOfShape(e, i);
    var c, row := e.overlays[i].cells[j], e.overlays[i].num;
    FrameCell(fb, row, j);
    if Due(c, e.lateAcked) && Right(c, fb.rows[row][j]) {
      RightIs(fb, row, e.lateAcked, c);
      RightDoes(e, fb, now, i, j);
    }
  }

  lemma {:induction false} FitsShape<P>(e: Engine<P>, fb: Frame)
    requires Fits(e, fb)
    ensures FrameOk(fb) && Shape(e) && e.lastHeight == fb.height && e.lastWidth == fb.width
  {
  }

  lemma {:induction false} RightIs(fb: Frame, row: nat, lateAck: nat, c: CellGuess)
    requires FrameOk(fb) && row < fb.height && c.col < fb.width && |fb.rows| == fb.height && |fb.rows[row]| == fb.width
    requires Due(c, lateAck) && Right(c, fb.rows[row][c.col])
    ensures CellValidity(fb, row, lateAck, c) == Correct
  {
    hide FrameOk;
    SameLooks(fb.rows[row][c.col], c.replacement);
    SameLooks(c.replacement, c.replacement);
    if o :| o in c.originals && ContentsMatch(o, c.replacement) { SameLooks(o, c.replacement); }
  }

  lemma {:induction false} RightDoes<P>(e: Engine<P>, fb: Frame, now: nat, i: nat, j: nat)
    requires Fits(e, fb) && i < |e.overlays| && j < |e.overlays[i].cells| == fb.width
    requires 0 <= e.overlays[i].num < fb.height == |fb.rows| && |fb.rows[e.overlays[i].num]| == fb.width
             && j == e.overlays[i].cells[j].col
    requires FrameOk(fb) && CellValidity(fb, e.overlays[i].num, e.lateAcked, e.overlays[i].cells[j]) == Correct
    ensures var row, c, v := e.overlays[i].num, e.overlays[i].cells[j], Judge(e, fb, now, i, j);
            var repairs := Sub(now, c.time) < 250 && e.glitch > 0 && Sub(now, 150) >= e.quick;
            && !v.over && |v.e.overlays| == |e.overlays| && |v.e.overlays[i].cells| == fb.width
            && v.e == e.(overlays := e.overlays[i := e.overlays[i].(cells := v.e.overlays[i].cells)],
                         confirmed := if c.epoch > e.confirmed then c.epoch else e.confirmed,
                         glitch := if repairs then e.glitch - 1 else e.glitch,
                         quick := if repairs then now else e.quick)
            && forall k | 0 <= k < fb.width ::
                 var was, next := e.overlays[i].cells[k], v.e.overlays[i].cells[k];
                 var painted := was.(replacement := was.replacement.(rend := fb.rows[row][j].rend));
                 next == if k < j then was
                       else if k > j then painted
                       else painted.(active := false, unknown := false, originals := [],
                                     expiration := NEVER, epoch := NEVER)
  {
    hide RowsShape, CursorsShape, FrameOk, CellValidity;
  }

  /** Any other due guess, unknown, blank, or equal to what stood there before, is only cleared. */
  lemma {:induction false} OthersClear<P>(e: Engine<P>, fb: Frame, now: nat, i: nat, j: nat)
    requires Fits(e, fb) && i < |e.overlays| && j < |e.overlays[i].cells|
    ensures var row, c, v := e.overlays[i].num, e.overlays[i].cells[j], Judge(e, fb, now, i, j);
            && 0 <= row < fb.height == |fb.rows| && |fb.rows[row]| == fb.width && c.col == j < fb.width
            && (Due(c, e.lateAcked) && !Wrong(c, fb.rows[row][j]) && !Right(c, fb.rows[row][j]) ==>
                  v == Culled(Cleared(e, i, j), false))
  {
    RowOfShape(e, i);
    var c, row := e.overlays[i].cells[j], e.overlays[i].num;
    FrameCell(fb, row, j);
    SameLooks(fb.rows[row][j], c.replacement);
    SameLooks(c.replacement, c.replacement);
    if Alike(fb.rows[row][j], c.replacement) && !Right(c, fb.rows[row][j]) && !Empty(c.replacement) && !c.unknown {
      var o :| o in c.originals && Alike(o, c.replacement);
      SameLooks(o, c.replacement);
    }
    hide Shape, FrameOk, KillEpoch, IsBlank, ContentsMatch, Empty, Alike;
  }

  // ---- killing ------------------------------------------------------------------------

  /** Killing an epoch clears its guesses and those of later ones, keeps all others, drops its cursors, and
      expects the cursor where the frame has it, in the epoch that was current; then a new one begins. */
  lemma {:induction false} KillDoes<P>(e: Engine<P>, epoch: nat, fb: Frame, i: nat, j: nat)
    requires Fits(e, fb)
    ensures var r := KillEpoch(e, epoch, fb);
            && r == e.(overlays := r.overlays, cursors := r.cursors,
                       epoch := if e.pref.Experimental? then e.epoch else e.epoch + 1)
            && |r.overlays| == |e.overlays|
            && (i < |e.overlays| ==>
                  && r.overlays[i] == e.overlays[i].(cells := r.overlays[i].cells)
                  && |r.overlays[i].cells| == |e.overlays[i].cells|)
            && (i < |e.overlays| && j < |e.overlays[i].cells| ==>
                  var was, next := e.overlays[i].cells[j], r.overlays[i].cells[j];
                  next == if was.epoch < epoch then was
                        else was.(active := false, unknown := false, originals := [],
                                  expiration := NEVER, epoch := NEVER))
            && r.cursors != []
            && (var m := r.cursors[|r.cursors| - 1];
                m.row == fb.row && m.col == fb.col && m.active && m.epoch == e.epoch && m.expiration == e.sent + 1)
            && (forall m :: m in r.cursors[..|r.cursors| - 1] <==> m in e.cursors && m.epoch < epoch)
  {
    hide RowsShape, CursorsShape, FrameOk;
    var r := KillEpoch(e, epoch, fb);
    OlderKept(e.cursors, epoch);
    assert r.cursors[..|r.cursors| - 1] == KeptCursors(e.cursors, epoch);
  }

  lemma {:induction false} OlderKept(ms: seq<CursorGuess>, epoch: nat)
    ensures forall m :: m in KeptCursors(ms, epoch) <==> m in ms && m.epoch < epoch
  {
    if ms != [] {
      OlderKept(ms[1..], epoch);
      assert forall m :: m in ms <==> m == ms[0] || m in ms[1..];
    }
  }

  // ---- cursors --------------------------------------------------------------------------

  predicate CursorDue(m: CursorGuess, lateAck: nat) {
    m.active && lateAck >= m.expiration
  }

  /** If the last cursor expected is due and the frame's is elsewhere, everything is forgotten, in
      Experimental mode the cursors; else those that are due go. */
  lemma {:induction false} CursorsJudged<P>(e: Engine<P>, fb: Frame)
    requires Shape(e) && e.lastHeight == fb.height && e.lastWidth == fb.width
    ensures var r := CullCursors(e, fb);
            if e.cursors != [] && CursorDue(e.cursors[|e.cursors| - 1], e.lateAcked)
               && (fb.row, fb.col) != (e.cursors[|e.cursors| - 1].row, e.cursors[|e.cursors| - 1].col)
            then r == if e.pref.Experimental? then e.(cursors := []) else Reset(e)
            else
              && r == e.(cursors := r.cursors)
              && forall m :: m in r.cursors <==> m in e.cursors && !CursorDue(m, e.lateAcked)
  {
    hide RowsShape, FrameOk;
    PendingIs(fb, e.lateAcked, e.cursors);
    if e.cursors != [] { LastOnScreen(e); }
  }

  lemma {:induction false} PendingIs(fb: Frame, lateAck: nat, ms: seq<CursorGuess>)
    requires CursorsShape(ms, fb.height, fb.width)
    ensures forall m :: m in PendingCursors(fb, lateAck, ms) <==> m in ms && !CursorDue(m, lateAck)
    decreases |ms|
  {
    if ms != [] {
      assert forall m :: m in ms <==> m == ms[0] || m in ms[1..];
      assert CursorShape(ms[0], fb.height, fb.width);
      PendingIs(fb, lateAck, ms[1..]);
    }
  }

  // ---- looks --------------------------------------------------------------------------------

  /** A known guess is painted over what is there, underlined when flagging unless both are blank; an
      unknown one only underlines, but not in the last column. */
  lemma {:induction false} GuessPaints(g: Glyph, c: CellGuess, flag: bool, lastColumn: bool)
    ensures var r := Painted(g, c, flag, lastColumn);
            var marks := flag && !(Empty(g) && Empty(c.replacement));
            && (c.unknown ==> r == if marks && !lastColumn then g.(rend := g.rend.(underlined := true)) else g)
            && (!c.unknown ==>
                  && (g == c.replacement ==> r == g)
                  && (g != c.replacement ==>
                        r == if marks then c.replacement.(rend := c.replacement.rend.(underlined := true))
                          else c.replacement))
  {
    SameLooks(g, g);
    SameLooks(c.replacement, c.replacement);
  }

  /** Guesses are shown for slow or glitching connections, or when asked for; flagged from 80 ms on until
      50 ms, and for great glitches. */
  lemma {:induction false} TriggersSet<P>(e: Engine<P>)
    ensures var r := Triggers(e);
            && r == e.(srtt := r.srtt, flagging := r.flagging)
            && (e.interval > 30 ==> r.srtt) && (e.interval > 20 && !e.srtt && e.interval <= 30 ==> !r.srtt)
            && (20 < e.interval <= 30 ==> r.srtt == e.srtt)
            && (e.interval <= 20 ==> r.srtt == (e.srtt && Active(e)))
            && (e.glitch > 10 ==> r.flagging)
            && (e.glitch <= 10 ==> r.flagging == (e.interval > 80 || (e.interval > 50 && e.flagging)))
    ensures Shown(e) <==> !e.pref.Never? && (e.srtt || e.glitch > 0 || e.pref.Always? || e.pref.Experimental?)
  {
  }

  /** Nothing predicted survives a change of size, and what is predicted next has yet to prove itself. */
  lemma {:induction false} ResizeForgets<P>(e: Engine<P>, fb: Frame, now: nat)
    requires FrameOk(fb) && Shape(e) && !e.pref.Never? && (e.lastHeight != fb.height || e.lastWidth != fb.width)
    ensures var r := Cull(e, fb, now);
      && r.overlays == [] && r.cursors == [] && r.lastHeight == fb.height && r.lastWidth == fb.width
      && r.epoch == (if e.pref.Experimental? then e.epoch else e.epoch + 1) && r.confirmed == e.confirmed
  {
    hide FrameOk, RowsShape, CursorsShape;
  }
}
