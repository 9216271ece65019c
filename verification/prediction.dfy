// zz-mosh/src/frontend/terminaloverlay.cc and .h: the prediction engine as functions on its state.
module Predictions {
  import opened Utf8

  // ---- frames ---------------------------------------------------------------

  datatype Renditions = Renditions(fg: nat, bg: nat, underlined: bool, others: nat)

  datatype Glyph = Glyph(contents: seq<byte>, rend: Renditions, wide: bool, fallback: bool, wrap: bool, link: nat)

  /** What the engine reads and writes of a framebuffer. */
  datatype Frame = Frame(
    height: nat, width: nat, rows: seq<seq<Glyph>>, row: nat, col: nat, willWrap: bool, combRow: nat, combCol: nat,
    originMode: bool, rend: Renditions)

  ghost predicate FrameOk(fb: Frame) {
    && fb.height > 0 && fb.width > 0 && |fb.rows| == fb.height
    && (forall r | 0 <= r < fb.height :: |fb.rows[r]| == fb.width)
    && fb.row < fb.height && fb.col < fb.width
  }

  predicate IsBlank(c: Glyph) {
    c.contents == [] || c.contents == [0x20] || c.contents == [0xC2, 0xA0]
  }

  predicate ContentsMatch(a: Glyph, b: Glyph) {
    (IsBlank(a) && IsBlank(b)) || a.contents == b.contents
  }

  // ---- predictions ----------------------------------------------------------

  /** `uint64_t(-1)`. */
  const NEVER: nat := 0xFFFF_FFFF_FFFF_FFFF

  /** Unsigned 64-bit subtraction. */
  function Sub(a: nat, b: nat): int {
    if a >= b then a - b else a - b + NEVER + 1
  }

  datatype CellGuess = CellGuess(
    expiration: nat, col: nat, active: bool, epoch: nat, time: nat,
      replacement: Glyph, unknown: bool, originals: seq<Glyph>)

  datatype CursorGuess = CursorGuess(expiration: nat, row: nat, col: nat, active: bool, epoch: nat, time: nat)

  datatype RowGuess = RowGuess(num: int, cells: seq<CellGuess>)

  datatype Preference = Always | Never | Adaptive | Experimental

  datatype Act = Print(ch: char) | Execute(ch: char) | EscDispatch | CsiDispatch(ch: char) | Quiet

  /** The keystroke parser, and `wcwidth`. */
  datatype Keys<!P> = Keys(input: (P, byte) -> (P, seq<Act>), width: char -> int)

  datatype Engine<P> = Engine(
    lastByte: byte, parser: P, overlays: seq<RowGuess>, cursors: seq<CursorGuess>,
    sent: nat, acked: nat, lateAcked: nat, epoch: nat, confirmed: nat,
    flagging: bool, srtt: bool, glitch: nat, quick: nat, interval: nat, lastHeight: nat, lastWidth: nat,
    pref: Preference, overwrite: bool)

  function Fresh<P>(parser: P): (r: Engine<P>)
    ensures Shape(r)
  {
    Engine(0, parser, [], [], 0, 0, 0, 1, 0, false, false, 0, 0, 250, 0, 0, Adaptive, false)
  }

  const SRTT_TRIGGER_LOW := 20
  const SRTT_TRIGGER_HIGH := 30
  const FLAG_TRIGGER_LOW := 50
  const FLAG_TRIGGER_HIGH := 80
  const GLITCH_THRESHOLD := 250
  const GLITCH_REPAIR_COUNT := 10
  const GLITCH_REPAIR_MININTERVAL := 150
  const GLITCH_FLAG_THRESHOLD := 5000

  const EMPTY := Glyph([], Renditions(0, 0, false, 0), false, false, false, 0)

  function FreshCell(col: nat, epoch: nat): CellGuess {
    CellGuess(0, col, false, epoch, NEVER, EMPTY, false, [])
  }

  function ClearedCell(c: CellGuess): CellGuess {
    c.(unknown := false, originals := [], expiration := NEVER, epoch := NEVER, active := false)
  }

  /** `reset_with_orig`. */
  function Retired(c: CellGuess): CellGuess {
    if !c.active || c.unknown then ClearedCell(c)
    else c.(originals := c.originals + [c.replacement], expiration := NEVER, epoch := NEVER, active := false)
  }

  // ---- shape ----------------------------------------------------------------

  ghost predicate RowShape(r: RowGuess, height: nat, width: nat) {
    && 0 <= r.num < height && |r.cells| == width
    && forall i | 0 <= i < width :: r.cells[i].col == i
  }

  ghost predicate CursorShape(m: CursorGuess, height: nat, width: nat) {
    m.active && m.row < height && m.col < width
  }

  /** Rows and cursors fit the last frame size seen, one row of guesses per screen row. */
  ghost predicate Shape<P>(e: Engine<P>) {
    RowsShape(e.overlays, e.lastHeight, e.lastWidth) && CursorsShape(e.cursors, e.lastHeight, e.lastWidth)
  }

  ghost predicate RowsShape(rs: seq<RowGuess>, height: nat, width: nat) {
    && (forall r | 0 <= r < |rs| :: RowShape(rs[r], height, width))
    && (forall q, r | 0 <= q < r < |rs| :: rs[q].num != rs[r].num)
  }

  ghost predicate CursorsShape(ms: seq<CursorGuess>, height: nat, width: nat) {
    forall m | m in ms :: CursorShape(m, height, width)
  }

  ghost predicate Fits<P>(e: Engine<P>, fb: Frame) {
    FrameOk(fb) && Shape(e) && e.lastHeight == fb.height && e.lastWidth == fb.width
  }

  // ---- validity -------------------------------------------------------------

  datatype Validity = Pending | Correct | CorrectNoCredit | IncorrectOrExpired | Inactive

  function CellValidity(fb: Frame, row: nat, lateAck: nat, c: CellGuess): Validity
    requires FrameOk(fb)
  {
    if !c.active then Inactive
    else if row >= fb.height || c.col >= fb.width then IncorrectOrExpired
    else if lateAck < c.expiration then Pending
    else if c.unknown || IsBlank(c.replacement) then CorrectNoCredit
    else if ContentsMatch(fb.rows[row][c.col], c.replacement) then
      if exists o | o in c.originals :: ContentsMatch(o, c.replacement) then CorrectNoCredit else Correct
    else IncorrectOrExpired
  }

  function CursorValidity(fb: Frame, lateAck: nat, m: CursorGuess): Validity {
    if !m.active then Inactive
    else if m.row >= fb.height || m.col >= fb.width then IncorrectOrExpired
    else if lateAck >= m.expiration then
      if fb.col == m.col && fb.row == m.row then Correct else IncorrectOrExpired
    else Pending
  }

  // ---- epochs ---------------------------------------------------------------

  function Tentative<P>(e: Engine<P>): Engine<P> {
    if e.pref.Experimental? then e else e.(epoch := e.epoch + 1)
  }

  function Reset<P>(e: Engine<P>): (r: Engine<P>)
    ensures Shape(r)
  {
    Tentative(e.(cursors := [], overlays := []))
  }

  function KeptCursors(ms: seq<CursorGuess>, epoch: nat): (r: seq<CursorGuess>)
    ensures |r| <= |ms| && forall m | m in r :: m in ms && m.epoch < epoch
  {
    if ms == [] then []
    else (if ms[0].epoch >= epoch then [] else [ms[0]]) + KeptCursors(ms[1..], epoch)
  }

  function KilledCells(cs: seq<CellGuess>, epoch: nat): (r: seq<CellGuess>)
    ensures |r| == |cs|
    ensures forall i | 0 <= i < |cs| :: r[i] == if cs[i].epoch >= epoch then ClearedCell(cs[i]) else cs[i]
  {
    seq(|cs|, i requires 0 <= i < |cs| => if cs[i].epoch >= epoch then ClearedCell(cs[i]) else cs[i])
  }

  function KilledRows(rs: seq<RowGuess>, epoch: nat): (r: seq<RowGuess>)
    ensures |r| == |rs| && forall i | 0 <= i < |rs| :: r[i] == rs[i].(cells := KilledCells(rs[i].cells, epoch))
  {
    seq(|rs|, i requires 0 <= i < |rs| => rs[i].(cells := KilledCells(rs[i].cells, epoch)))
  }

  lemma {:induction false} KilledShape(rs: seq<RowGuess>, epoch: nat, height: nat, width: nat)
    requires RowsShape(rs, height, width)
    ensures RowsShape(KilledRows(rs, epoch), height, width)
  {
    var ks := KilledRows(rs, epoch);
    forall r | 0 <= r < |ks|
      ensures RowShape(ks[r], height, width)
    {
      assert RowShape(rs[r], height, width);
    }
  }

  function FrameCursor<P>(e: Engine<P>, fb: Frame): CursorGuess {
    CursorGuess(e.sent + 1, fb.row, fb.col, true, e.epoch, NEVER)
  }

  function KillEpoch<P>(e: Engine<P>, epoch: nat, fb: Frame): (r: Engine<P>)
    requires Fits(e, fb)
    ensures Fits(r, fb) && |r.overlays| == |e.overlays|
    ensures forall i | 0 <= i < |e.overlays| :: |r.overlays[i].cells| == |e.overlays[i].cells|
  {
    KilledShape(e.overlays, epoch, fb.height, fb.width);
    Tentative(e.(cursors := KeptCursors(e.cursors, epoch) + [FrameCursor(e, fb)],
      overlays := KilledRows(e.overlays, epoch)))
  }

  function InitCursor<P>(e: Engine<P>, fb: Frame): (r: Engine<P>)
    requires Fits(e, fb)
    ensures Fits(r, fb) && r.confirmed == e.confirmed && r.cursors != [] && r.overlays == e.overlays
            && r.epoch == e.epoch
  {
    if e.cursors == [] then e.(cursors := [FrameCursor(e, fb)])
    else
      var m := e.cursors[|e.cursors| - 1];
      assert CursorShape(m, fb.height, fb.width);
      if m.epoch != e.epoch then
        e.(cursors := e.cursors + [CursorGuess(e.sent + 1, m.row, m.col, true, e.epoch, NEVER)])
      else e
  }

  // ---- cull -----------------------------------------------------------------

  predicate Active<P>(e: Engine<P>) {
    e.cursors != [] || exists r | r in e.overlays :: exists c | c in r.cells :: c.active
  }

  function Triggers<P>(e: Engine<P>): (r: Engine<P>)
    ensures r.overlays == e.overlays && r.cursors == e.cursors
    ensures r.lastHeight == e.lastHeight && r.lastWidth == e.lastWidth
  {
    var srtt :=
      if e.interval > SRTT_TRIGGER_HIGH then true
      else if e.srtt && e.interval <= SRTT_TRIGGER_LOW && !Active(e) then false
      else e.srtt;
    var flagging := if e.interval > FLAG_TRIGGER_HIGH then true else if e.interval <= FLAG_TRIGGER_LOW then false
      else e.flagging;
    e.(srtt := srtt, flagging := if e.glitch > GLITCH_REPAIR_COUNT then true else flagging)
  }

  /** Cells put back into their row. */
  function Fitted<P>(e: Engine<P>, fb: Frame, r: nat, cells: seq<CellGuess>): (q: Engine<P>)
    requires Fits(e, fb) && r < |e.overlays| && |cells| == fb.width && forall i | 0 <= i < fb.width :: cells[i].col == i
    ensures Fits(q, fb) && q.cursors == e.cursors && |q.overlays| == |e.overlays|
  {
    hide CursorsShape, FrameOk;
    assert RowShape(e.overlays[r], e.lastHeight, e.lastWidth);
    e.(overlays := e.overlays[r := e.overlays[r].(cells := cells)])
  }

  /** The rest of the row takes the renditions really there. */
  function Recolored(cs: seq<CellGuess>, j: nat, rend: Renditions): (r: seq<CellGuess>)
    requires j <= |cs|
    ensures |r| == |cs|
    ensures forall i | 0 <= i < |cs| ::
            (r[i] == if i < j then cs[i] else cs[i].(replacement := cs[i].replacement.(rend := rend)))
  {
    seq(|cs|, i requires 0 <= i < |cs| =>
      if i < j then cs[i] else cs[i].(replacement := cs[i].replacement.(rend := rend)))
  }

  function Confirmed<P>(e: Engine<P>, c: CellGuess, now: nat): (r: Engine<P>)
    ensures r.overlays == e.overlays && r.cursors == e.cursors
    ensures r.lastHeight == e.lastHeight && r.lastWidth == e.lastWidth
  {
    var up := if c.epoch > e.confirmed then e.(confirmed := c.epoch) else e;
    if Sub(now, c.time) < GLITCH_THRESHOLD && e.glitch > 0 && Sub(now, GLITCH_REPAIR_MININTERVAL) >= e.quick
    then up.(glitch := e.glitch - 1, quick := now)
    else up
  }

  function Waiting<P>(e: Engine<P>, c: CellGuess, now: nat): (r: Engine<P>)
    ensures r.overlays == e.overlays && r.cursors == e.cursors
    ensures r.lastHeight == e.lastHeight && r.lastWidth == e.lastWidth
  {
    if Sub(now, c.time) >= GLITCH_FLAG_THRESHOLD then e.(glitch := GLITCH_REPAIR_COUNT * 2)
    else if Sub(now, c.time) >= GLITCH_THRESHOLD && e.glitch < GLITCH_REPAIR_COUNT
      then e.(glitch := GLITCH_REPAIR_COUNT)
    else e
  }

  /** `over`: a reset has ended the whole cull. */
  datatype Culled<P> = Culled(e: Engine<P>, over: bool)

  /** The verdict on cell `j` of row `i`, carried out. */
  function Judge<P>(e: Engine<P>, fb: Frame, now: nat, i: nat, j: nat): (r: Culled<P>)
    requires Fits(e, fb) && i < |e.overlays| && j < |e.overlays[i].cells|
    ensures !r.over ==> Fits(r.e, fb) && |r.e.overlays| == |e.overlays|
    ensures r.over ==> Shape(r.e)
    ensures r.e.lastHeight == fb.height && r.e.lastWidth == fb.width
  {
    hide RowsShape, CursorsShape, FrameOk;
    var cells, row := e.overlays[i].cells, e.overlays[i].num;
    RowOfShape(e, i);
    var c := cells[j];
    match CellValidity(fb, row, e.lateAcked, c)
    case IncorrectOrExpired =>
      if c.epoch > e.confirmed then
        if e.pref.Experimental? then Culled(Fitted(e, fb, i, cells[j := ClearedCell(c)]), false)
        else Culled(KillEpoch(e, c.epoch, fb), false)
      else if e.pref.Experimental? then Culled(Fitted(e, fb, i, cells[j := ClearedCell(c)]), false)
      else Culled(Reset(e), true)
    case Correct =>
      FrameCell(fb, row, c.col);
      var painted := Recolored(cells, j, fb.rows[row][c.col].rend);
      Culled(Fitted(Confirmed(e, c, now), fb, i, painted[j := ClearedCell(painted[j])]), false)
    case CorrectNoCredit => Culled(Fitted(e, fb, i, cells[j := ClearedCell(c)]), false)
    case Pending => Culled(Waiting(e, c, now), false)
    case Inactive => Culled(e, false)
  }

  lemma {:induction false} RowOfShape<P>(e: Engine<P>, i: nat)
    requires Shape(e) && i < |e.overlays|
    ensures 0 <= e.overlays[i].num < e.lastHeight && |e.overlays[i].cells| == e.lastWidth
    ensures forall k | 0 <= k < e.lastWidth :: e.overlays[i].cells[k].col == k
  {
    assert RowShape(e.overlays[i], e.lastHeight, e.lastWidth);
  }

  lemma {:induction false} FrameCell(fb: Frame, row: nat, col: nat)
    requires FrameOk(fb) && row < fb.height && col < fb.width
    ensures |fb.rows| == fb.height && |fb.rows[row]| == fb.width
  {
  }

  function CullRow<P>(e: Engine<P>, fb: Frame, now: nat, i: nat, j: nat): (r: Culled<P>)
    requires Fits(e, fb) && i < |e.overlays| && j <= fb.width
    ensures !r.over ==> Fits(r.e, fb) && |r.e.overlays| == |e.overlays|
    ensures r.over ==> Shape(r.e)
    ensures r.e.lastHeight == fb.height && r.e.lastWidth == fb.width
    decreases fb.width - j
  {
    if j == fb.width then Culled(e, false)
    else
      var v := Judge(e, fb, now, i, j);
      if v.over then v else CullRow(v.e, fb, now, i, j + 1)
  }

  /** Rows from `i` on; all lie on the screen. */
  function CullRows<P>(e: Engine<P>, fb: Frame, now: nat, i: nat): (r: Culled<P>)
    requires Fits(e, fb) && i <= |e.overlays|
    ensures Shape(r.e) && r.e.lastHeight == fb.height && r.e.lastWidth == fb.width
    decreases |e.overlays| - i
  {
    if i == |e.overlays| then Culled(e, false)
    else
      var v := CullRow(e, fb, now, i, 0);
      if v.over then v else CullRows(v.e, fb, now, i + 1)
  }

  function PendingCursors(fb: Frame, lateAck: nat, ms: seq<CursorGuess>): (r: seq<CursorGuess>)
    ensures |r| <= |ms| && forall m | m in r :: m in ms && CursorValidity(fb, lateAck, m).Pending?
  {
    if ms == [] then []
    else (if CursorValidity(fb, lateAck, ms[0]).Pending? then [ms[0]] else []) + PendingCursors(fb, lateAck, ms[1..])
  }

  function CullCursors<P>(e: Engine<P>, fb: Frame): (r: Engine<P>)
    requires Shape(e)
    ensures Shape(r) && r.lastHeight == e.lastHeight && r.lastWidth == e.lastWidth
  {
    if e.cursors != [] && CursorValidity(fb, e.lateAcked, e.cursors[|e.cursors| - 1]).IncorrectOrExpired? then
      if e.pref.Experimental? then e.(cursors := []) else Reset(e)
    else
      e.(cursors := PendingCursors(fb, e.lateAcked, e.cursors))
  }

  function Resized<P>(e: Engine<P>, fb: Frame): (r: Engine<P>)
    requires FrameOk(fb) && Shape(e)
    ensures Fits(r, fb)
  {
    if e.lastHeight != fb.height || e.lastWidth != fb.width
    then Reset(e.(lastHeight := fb.height, lastWidth := fb.width))
    else e
  }

  function Cull<P>(e: Engine<P>, fb: Frame, now: nat): (r: Engine<P>)
    requires FrameOk(fb) && Shape(e)
    ensures Shape(r) && (!e.pref.Never? ==> Fits(r, fb))
  {
    if e.pref.Never? then e
    else
      var v := CullRows(Triggers(Resized(e, fb)), fb, now, 0);
      if v.over then v.e else CullCursors(v.e, fb)
  }

  // ---- apply ----------------------------------------------------------------

  predicate Shown<P>(e: Engine<P>) {
    !e.pref.Never? && (e.srtt || e.glitch > 0 || e.pref.Always? || e.pref.Experimental?)
  }

  /** The cell a live prediction leaves on the screen. */
  function Painted(g: Glyph, c: CellGuess, flag: bool, lastColumn: bool): Glyph {
    var flag := flag && !(IsBlank(c.replacement) && IsBlank(g));
    if c.unknown then
      if flag && !lastColumn then g.(rend := g.rend.(underlined := true)) else g
    else if g != c.replacement then
      if flag then c.replacement.(rend := c.replacement.rend.(underlined := true)) else c.replacement
    else g
  }

  function ApplyCell(fb: Frame, confirmed: nat, row: int, flag: bool, c: CellGuess): (r: Frame)
    requires FrameOk(fb) && 0 <= row
    ensures FrameOk(r) && r.height == fb.height && r.width == fb.width
  {
    if !c.active || row >= fb.height || c.col >= fb.width || c.epoch > confirmed then fb
    else
      var g := Painted(fb.rows[row][c.col], c, flag, c.col == fb.width - 1);
      fb.(rows := fb.rows[row := fb.rows[row][c.col := g]])
  }

  function ApplyCursor(fb: Frame, confirmed: nat, m: CursorGuess): (r: Frame)
    requires FrameOk(fb) && m.row < fb.height && m.col < fb.width
    ensures FrameOk(r) && r.height == fb.height && r.width == fb.width
  {
    if !m.active || m.epoch > confirmed then fb
    else fb.(row := m.row, col := m.col, willWrap := false, combRow := m.row, combCol := m.col)
  }

  function ApplyCursors(fb: Frame, confirmed: nat, ms: seq<CursorGuess>): (r: Frame)
    requires FrameOk(fb) && forall m | m in ms :: m.row < fb.height && m.col < fb.width
    ensures FrameOk(r) && r.height == fb.height && r.width == fb.width && r.rows == fb.rows
    decreases |ms|
  {
    hide FrameOk;
    if ms == [] then fb else ApplyCursors(ApplyCursor(fb, confirmed, ms[0]), confirmed, ms[1..])
  }

  function ApplyRow(fb: Frame, confirmed: nat, row: int, flag: bool, cs: seq<CellGuess>): (r: Frame)
    requires FrameOk(fb) && 0 <= row
    ensures FrameOk(r) && r.height == fb.height && r.width == fb.width
    decreases |cs|
  {
    if cs == [] then fb else ApplyRow(ApplyCell(fb, confirmed, row, flag, cs[0]), confirmed, row, flag, cs[1..])
  }

  function ApplyRows(fb: Frame, confirmed: nat, flag: bool, rs: seq<RowGuess>): (r: Frame)
    requires FrameOk(fb) && forall r | r in rs :: 0 <= r.num
    ensures FrameOk(r) && r.height == fb.height && r.width == fb.width
    decreases |rs|
  {
    if rs == [] then fb else ApplyRows(ApplyRow(fb, confirmed, rs[0].num, flag, rs[0].cells), confirmed, flag, rs[1..])
  }

  /** The asserts of the source: cursors on the screen, no origin mode. */
  function Apply<P>(e: Engine<P>, fb: Frame): (r: Frame)
    requires FrameOk(fb) && (Shown(e) ==> Fits(e, fb) && !fb.originMode)
    ensures FrameOk(r) && r.height == fb.height && r.width == fb.width
  {
    if !Shown(e) then fb
    else ApplyRows(ApplyCursors(fb, e.confirmed, e.cursors), e.confirmed, e.flagging, e.overlays)
  }

  // ---- predicting -----------------------------------------------------------

  function Last<P>(e: Engine<P>): CursorGuess
    requires e.cursors != []
  {
    e.cursors[|e.cursors| - 1]
  }

  /** Index of the row of guesses for a screen row; the length when there is none. */
  function RowIndex(rs: seq<RowGuess>, num: int): (i: nat)
    ensures i <= |rs| && (i < |rs| ==> rs[i].num == num) && forall k | 0 <= k < i :: rs[k].num != num
  {
    if rs == [] then 0 else if rs[0].num == num then 0 else 1 + RowIndex(rs[1..], num)
  }

  function FreshRow(num: int, width: nat, epoch: nat): RowGuess {
    RowGuess(num, seq(width, i requires 0 <= i < width => FreshCell(i, epoch)))
  }

  /** `get_or_make_row`, for the row of the cursor. */
  function WithRow<P>(e: Engine<P>, fb: Frame): (r: Engine<P>)
    requires Fits(e, fb) && e.cursors != []
    ensures Fits(r, fb) && r.confirmed == e.confirmed && r.cursors == e.cursors && r.epoch == e.epoch && r.cursors != []
    ensures RowIndex(r.overlays, Last(e).row) < |r.overlays|
  {
    var num := Last(e).row;
    var i := RowIndex(e.overlays, num);
    if i < |e.overlays| then e
    else
      assert CursorShape(Last(e), fb.height, fb.width);
      var r := e.(overlays := e.overlays + [FreshRow(num, fb.width, e.epoch)]);
      assert RowShape(r.overlays[|e.overlays|], fb.height, fb.width);
      assert forall k | 0 <= k < |e.overlays| :: e.overlays[k].num != num;
      assert r.overlays[|e.overlays|].num == num;
      r
  }

  /** A cell predicted now, in the current epoch. */
  function Renewed<P>(e: Engine<P>, now: nat, c: CellGuess): CellGuess {
    Retired(c).(active := true, epoch := e.epoch, expiration := e.sent + 1, time := now)
  }

  /** The cell takes over what is predicted, or else shown, beside it. */
  function Copied(c: CellGuess, beside: CellGuess, actual: Glyph): CellGuess {
    if beside.active then
      if beside.unknown then c.(unknown := true) else c.(unknown := false, replacement := beside.replacement)
    else c.(unknown := false, replacement := actual)
  }

  function ErasedCell<P>(e: Engine<P>, fb: Frame, now: nat, row: nat, cells: seq<CellGuess>, i: nat): CellGuess
    requires FrameOk(fb) && row < fb.height && |cells| == fb.width && i < fb.width
  {
    var c := Renewed(e, now, cells[i]);
    var c := c.(originals := c.originals + [fb.rows[row][i]]);
    if i + 2 < fb.width then Copied(c, cells[i + 1], fb.rows[row][i + 1]) else c.(unknown := true)
  }

  /** Backspace without overwriting: the rest of the row moves left. */
  function EraseFrom<P>(e: Engine<P>, fb: Frame, now: nat, row: nat, cells: seq<CellGuess>, i: nat): (r: seq<CellGuess>)
    requires FrameOk(fb) && row < fb.height && |cells| == fb.width && i <= fb.width
    ensures |r| == |cells| && forall k | 0 <= k < |cells| :: r[k].col == cells[k].col
    decreases fb.width - i
  {
    if i == fb.width then cells
      else EraseFrom(e, fb, now, row, cells[i := ErasedCell(e, fb, now, row, cells, i)], i + 1)
  }

  function OverwrittenCell<P>(e: Engine<P>, fb: Frame, now: nat, c: CellGuess): (r: CellGuess)
    requires FrameOk(fb)
    ensures r.col == c.col
  {
    var c := Renewed(e, now, c);
    var g := fb.rows[fb.row][fb.col];
    c.(originals := c.originals + [g], replacement := g.(contents := [0x20]))
  }

  lemma {:induction false} LastOnScreen<P>(e: Engine<P>)
    requires Shape(e) && e.cursors != []
    ensures CursorShape(Last(e), e.lastHeight, e.lastWidth)
  {
  }

  /** The last cursor moved within the screen. */
  function Moved<P>(e: Engine<P>, fb: Frame, m: CursorGuess): (r: Engine<P>)
    requires Fits(e, fb) && e.cursors != [] && CursorShape(m, fb.height, fb.width)
    ensures Fits(r, fb) && r.confirmed == e.confirmed && r.cursors != [] && Last(r) == m && r.overlays == e.overlays
  {
    hide RowsShape, FrameOk;
    e.(cursors := e.cursors[|e.cursors| - 1 := m])
  }

  function Backspace<P>(e: Engine<P>, fb: Frame, now: nat): (r: Engine<P>)
    requires Fits(e, fb) && e.cursors != []
    ensures Fits(r, fb) && r.confirmed == e.confirmed
  {
    hide RowsShape, CursorsShape, FrameOk;
    var e := WithRow(e, fb);
    var m := Last(e);
    LastOnScreen(e);
    if m.col == 0 then e
    else
      var e := Moved(e, fb, m.(col := m.col - 1, expiration := e.sent + 1, time := now));
      var r := RowIndex(e.overlays, m.row);
      RowOfShape(e, r);
      var cells := e.overlays[r].cells;
      if e.overwrite then Fitted(e, fb, r, cells[m.col - 1 := OverwrittenCell(e, fb, now, cells[m.col - 1])])
      else Fitted(e, fb, r, EraseFrom(e, fb, now, m.row, cells, m.col - 1))
  }

  function ShiftedCell<P>(e: Engine<P>, fb: Frame, now: nat, row: nat, cells: seq<CellGuess>, i: nat): CellGuess
    requires FrameOk(fb) && row < fb.height && |cells| == fb.width && 0 < i < fb.width
  {
    var c := Renewed(e, now, cells[i]);
    var c := c.(originals := c.originals + [fb.rows[row][i]]);
    if i == fb.width - 1 then c.(unknown := true) else Copied(c, cells[i - 1], fb.rows[row][i - 1])
  }

  /** Insertion: cells `i` down to `stop + 1` take over their left neighbours. */
  function ShiftDown<P>(e: Engine<P>, fb: Frame, now: nat, row: nat, cells: seq<CellGuess>, stop: nat,
      i: nat): (r: seq<CellGuess>)
    requires FrameOk(fb) && row < fb.height && |cells| == fb.width && i < fb.width
    ensures |r| == |cells| && forall k | 0 <= k < |cells| :: r[k].col == cells[k].col
    decreases i
  {
    if i <= stop then cells
    else ShiftDown(e, fb, now, row, cells[i := ShiftedCell(e, fb, now, row, cells, i)], stop, i - 1)
  }

  /** The character itself; its renditions are those to its left. */
  function PlacedCell<P>(e: Engine<P>, fb: Frame, now: nat, row: nat, cells: seq<CellGuess>, col: nat,
      ch: char): (r: CellGuess)
    requires FrameOk(fb) && row < fb.height && |cells| == fb.width && col < fb.width
    ensures r.col == cells[col].col
  {
    var c := Renewed(e, now, cells[col]);
    var rend :=
      if col == 0 then fb.rend
      else if cells[col - 1].active && !cells[col - 1].unknown then cells[col - 1].replacement.rend
      else fb.rows[row][col - 1].rend;
    c.(replacement := c.replacement.(rend := rend, contents := Encode(ch)),
      originals := c.originals + [fb.rows[row][col]])
  }

  function BlankedCell(c: CellGuess, epoch: nat, expiration: nat, now: nat): CellGuess {
    c.(active := true, epoch := epoch, expiration := expiration,
      time := now, replacement := c.replacement.(contents := []))
  }

  function BlankedCells<P>(e: Engine<P>, now: nat, cs: seq<CellGuess>): (r: seq<CellGuess>)
    ensures |r| == |cs| && forall i | 0 <= i < |cs| :: r[i] == BlankedCell(cs[i], e.epoch, e.sent + 1, now)
  {
    seq(|cs|, i requires 0 <= i < |cs| => BlankedCell(cs[i], e.epoch, e.sent + 1, now))
  }

  function Newline<P>(e: Engine<P>, fb: Frame, now: nat): (r: Engine<P>)
    requires Fits(e, fb)
    ensures Fits(r, fb) && r.confirmed == e.confirmed
  {
    hide RowsShape, CursorsShape, FrameOk;
    var e := InitCursor(e, fb);
    var m := Last(e);
    LastOnScreen(e);
    var e := Moved(e, fb, m.(col := 0));
    if m.row == fb.height - 1 then
      var e := WithRow(e, fb);
      var r := RowIndex(e.overlays, m.row);
      RowOfShape(e, r);
      Fitted(e, fb, r, BlankedCells(e, now, e.overlays[r].cells))
    else Moved(e, fb, m.(col := 0, row := m.row + 1))
  }

  /** The row's cells after typing at the cursor. The last column is tricky, so it starts an epoch. */
  function InsertCells<P>(e: Engine<P>, ch: char, fb: Frame, now: nat): (r: Engine<P>)
    requires Fits(e, fb) && e.cursors != []
    ensures Fits(r, fb) && r.confirmed == e.confirmed && r.cursors == e.cursors
  {
    hide RowsShape, CursorsShape, FrameOk;
    var m := Last(e);
    LastOnScreen(e);
    var e := WithRow(e, fb);
    var e := if m.col + 1 >= fb.width then Tentative(e) else e;
    var r := RowIndex(e.overlays, m.row);
    RowOfShape(e, r);
    var cells := ShiftDown(e, fb, now, m.row, e.overlays[r].cells, m.col, if e.overwrite then m.col else fb.width - 1);
    Fitted(e, fb, r, cells[m.col := PlacedCell(e, fb, now, m.row, cells, m.col, ch)])
  }

  function Insert<P>(e: Engine<P>, ch: char, fb: Frame, now: nat): (r: Engine<P>)
    requires Fits(e, fb) && e.cursors != []
    ensures Fits(r, fb) && r.confirmed == e.confirmed
  {
    hide RowsShape, CursorsShape, FrameOk, InsertCells;
    LastOnScreen(e);
    var e := InsertCells(e, ch, fb, now);
    var m := Last(e).(expiration := e.sent + 1, time := now);
    if m.col < fb.width - 1 then Moved(e, fb, m.(col := m.col + 1))
    else Newline(Tentative(Moved(e, fb, m)), fb, now)
  }

  function PrintKey<P>(k: Keys<P>, e: Engine<P>, ch: char, fb: Frame, now: nat): (r: Engine<P>)
    requires Fits(e, fb)
    ensures Fits(r, fb) && r.confirmed == e.confirmed
  {
    var e := InitCursor(e, fb);
    if ch as int == 0x7F then Backspace(e, fb, now)
    else if (ch as int) < 0x20 || k.width(ch) != 1 then Tentative(e)
    else Insert(e, ch, fb, now)
  }

  function Arrow<P>(e: Engine<P>, right: bool, fb: Frame, now: nat): (r: Engine<P>)
    requires Fits(e, fb)
    ensures Fits(r, fb) && r.confirmed == e.confirmed
  {
    hide RowsShape, CursorsShape, FrameOk;
    var e := InitCursor(e, fb);
    var m := Last(e);
    LastOnScreen(e);
    if right && m.col < fb.width - 1 then Moved(e, fb, m.(col := m.col + 1, expiration := e.sent + 1, time := now))
    else if !right && m.col > 0 then Moved(e, fb, m.(col := m.col - 1, expiration := e.sent + 1, time := now))
    else e
  }

  function React<P>(k: Keys<P>, e: Engine<P>, a: Act, fb: Frame, now: nat): (r: Engine<P>)
    requires Fits(e, fb)
    ensures Fits(r, fb) && r.confirmed == e.confirmed
  {
    match a
    case Print(ch) => PrintKey(k, e, ch, fb, now)
    case Execute(ch) => if ch as int == 0x0D then Newline(Tentative(e), fb, now) else Tentative(e)
    case EscDispatch => Tentative(e)
    case CsiDispatch(ch) =>
      if ch == 'C' then Arrow(e, true, fb, now)
      else if ch == 'D' then Arrow(e, false, fb, now)
      else Tentative(e)
    case Quiet => e
  }

  function ReactAll<P>(k: Keys<P>, e: Engine<P>, acts: seq<Act>, fb: Frame, now: nat): (r: Engine<P>)
    requires Fits(e, fb)
    ensures Fits(r, fb) && r.confirmed == e.confirmed
    decreases |acts|
  {
    if acts == [] then e else ReactAll(k, React(k, e, acts[0], fb, now), acts[1..], fb, now)
  }

  /** A cursor-key sequence in application mode is read as the ANSI one. */
  function Translated(last: byte, b: byte): byte {
    if last == 0x1B && b == 0x4F then 0x5B else b
  }

  function UserByte<P>(k: Keys<P>, e: Engine<P>, b: byte, fb: Frame, now: nat): (r: Engine<P>)
    requires FrameOk(fb) && Shape(e)
    ensures Shape(r)
  {
    if e.pref.Never? then e
    else
      var e := Cull(if e.pref.Experimental? then e.(epoch := e.confirmed) else e, fb, now);
      var b := Translated(e.lastByte, b);
      var (p, acts) := k.input(e.parser, b);
      ReactAll(k, e.(lastByte := b, parser := p), acts, fb, now)
  }
}
