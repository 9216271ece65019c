// What a keystroke predicts: which cells show what afterwards, and where the cursor is expected.
module PredictionLaws {
  import opened Utf8
  import opened Predictions

  // ---- what is predicted ------------------------------------------------------

  datatype Sight = Sees(g: Glyph) | Unsure

  datatype Guessed = Has(c: CellGuess) | NoGuess

  /** The guess for a place, if its row has guesses. */
  function GuessAt<P>(e: Engine<P>, y: nat, x: nat): Guessed {
    var r := RowIndex(e.overlays, y);
    if r < |e.overlays| && x < |e.overlays[r].cells| then Has(e.overlays[r].cells[x]) else NoGuess
  }

  /** What a guess makes of what is there: itself, if it is live. */
  function Sight1(c: CellGuess, actual: Glyph): Sight {
    if !c.active then Sees(actual) else if c.unknown then Unsure else Sees(c.replacement)
  }

  /** What is expected to be seen there. */
  function SightAt<P>(e: Engine<P>, fb: Frame, y: nat, x: nat): Sight
    requires FrameOk(fb) && y < fb.height && x < fb.width
  {
    match GuessAt(e, y, x)
    case Has(c) => Sight1(c, fb.rows[y][x])
    case NoGuess => Sees(fb.rows[y][x])
  }

  /** Where the next character is expected: at the last predicted cursor, else at the frame's. */
  function Row<P>(e: Engine<P>, fb: Frame): nat {
    if e.cursors == [] then fb.row else e.cursors[|e.cursors| - 1].row
  }

  function Col<P>(e: Engine<P>, fb: Frame): nat {
    if e.cursors == [] then fb.col else e.cursors[|e.cursors| - 1].col
  }

  /** A guess made now. */
  ghost predicate Made<P>(e: Engine<P>, g: Guessed, epoch: nat, now: nat) {
    g.Has? && g.c.active && g.c.epoch == epoch && g.c.expiration == e.sent + 1 && g.c.time == now
  }

  /** Nothing is predicted anew there. */
  ghost predicate Untouched<P>(e: Engine<P>, r: Engine<P>, y: nat, x: nat) {
    GuessAt(r, y, x) == GuessAt(e, y, x) || (GuessAt(e, y, x).NoGuess? && !GuessAt(r, y, x).c.active)
  }

  /** The cursor expected last. */
  ghost predicate Expects<P>(r: Engine<P>, row: nat, col: nat, epoch: nat, expiration: nat) {
    r.cursors != [] && var m := r.cursors[|r.cursors| - 1];
                       m.row == row && m.col == col && m.active && m.epoch == epoch && m.expiration == expiration
  }

  /** Nothing but guesses, cursors and the epoch. */
  ghost predicate OnlyGuesses<P>(e: Engine<P>, r: Engine<P>) {
    r == e.(overlays := r.overlays, cursors := r.cursors, epoch := r.epoch)
  }

  // ---- rows of guesses ----------------------------------------------------------

  lemma {:induction false} ShiftAt<P>(e: Engine<P>, fb: Frame, now: nat, row: nat, cells: seq<CellGuess>, stop: nat,
      i: nat, k: nat)
    requires FrameOk(fb) && row < fb.height && |cells| == fb.width && i < fb.width && k < fb.width
    ensures ShiftDown(e, fb, now, row, cells, stop, i)[k] ==
            if stop < k <= i then ShiftedCell(e, fb, now, row, cells, k) else cells[k]
    decreases i
  {
    hide FrameOk;
    if i > stop {
      var next := cells[i := ShiftedCell(e, fb, now, row, cells, i)];
      ShiftAt(e, fb, now, row, next, stop, i - 1, k);
      if stop < k < i { ShiftedSame(e, fb, now, row, cells, next, k); }
    }
  }

  lemma {:induction false} ShiftedSame<P>(e: Engine<P>, fb: Frame, now: nat, row: nat, cells: seq<CellGuess>,
      next: seq<CellGuess>, k: nat)
    requires FrameOk(fb) && row < fb.height && |cells| == |next| == fb.width && 0 < k < fb.width
    requires cells[k] == next[k] && cells[k - 1] == next[k - 1]
    ensures ShiftedCell(e, fb, now, row, next, k) == ShiftedCell(e, fb, now, row, cells, k)
  {
  }

  lemma {:induction false} EraseAt<P>(e: Engine<P>, fb: Frame, now: nat, row: nat, cells: seq<CellGuess>, i: nat,
      k: nat)
    requires FrameOk(fb) && row < fb.height && |cells| == fb.width && i <= fb.width && k < fb.width
    ensures EraseFrom(e, fb, now, row, cells, i)[k] == if i <= k then ErasedCell(e, fb, now, row, cells, k)
            else cells[k]
    decreases fb.width - i
  {
    hide FrameOk;
    if i < fb.width {
      var next := cells[i := ErasedCell(e, fb, now, row, cells, i)];
      EraseAt(e, fb, now, row, next, i + 1, k);
      if i < k { ErasedSame(e, fb, now, row, cells, next, k); }
    }
  }

  lemma {:induction false} ErasedSame<P>(e: Engine<P>, fb: Frame, now: nat, row: nat, cells: seq<CellGuess>,
      next: seq<CellGuess>, k: nat)
    requires FrameOk(fb) && row < fb.height && |cells| == |next| == fb.width && k < fb.width
    requires cells[k] == next[k] && (k + 1 < fb.width ==> cells[k + 1] == next[k + 1])
    ensures ErasedCell(e, fb, now, row, next, k) == ErasedCell(e, fb, now, row, cells, k)
  {
  }

  lemma {:induction false} ShiftedSees<P>(e: Engine<P>, fb: Frame, now: nat, row: nat, cells: seq<CellGuess>, k: nat)
    requires FrameOk(fb) && row < fb.height && |cells| == fb.width && 0 < k < fb.width
    ensures var c := ShiftedCell(e, fb, now, row, cells, k);
            && Made(e, Has(c), e.epoch, now)
            && Sight1(c, fb.rows[row][k]) == if k == fb.width - 1 then Unsure
               else Sight1(cells[k - 1], fb.rows[row][k - 1])
  {
  }

  lemma {:induction false} ErasedSees<P>(e: Engine<P>, fb: Frame, now: nat, row: nat, cells: seq<CellGuess>, k: nat)
    requires FrameOk(fb) && row < fb.height && |cells| == fb.width && k < fb.width
    ensures var c := ErasedCell(e, fb, now, row, cells, k);
            && Made(e, Has(c), e.epoch, now)
            && Sight1(c, fb.rows[row][k]) ==
               if k + 2 < fb.width then Sight1(cells[k + 1], fb.rows[row][k + 1]) else Unsure
  {
  }

  /** The place of a row is the first of its number. */
  lemma {:induction false} IndexIs(rs: seq<RowGuess>, r: nat)
    requires r < |rs| && forall k | 0 <= k < r :: rs[k].num != rs[r].num
    ensures RowIndex(rs, rs[r].num) == r
  {
  }

  lemma {:induction false} NoIndex(rs: seq<RowGuess>, num: int)
    ensures (forall k | 0 <= k < |rs| :: rs[k].num != num) <==> RowIndex(rs, num) == |rs|
  {
  }

  lemma {:induction false} SameIndex(rs: seq<RowGuess>, ss: seq<RowGuess>, num: int)
    requires |rs| == |ss| && forall k | 0 <= k < |rs| :: rs[k].num == ss[k].num
    ensures RowIndex(rs, num) == RowIndex(ss, num)
  {
    var i, j := RowIndex(rs, num), RowIndex(ss, num);
    assert i < |rs| ==> ss[i].num == rs[i].num;
    assert j < |ss| ==> ss[j].num == rs[j].num;
  }

  /** Putting cells into a row changes the guesses of that row only. */
  lemma {:induction false} FittedAt<P>(e: Engine<P>, fb: Frame, r: nat, cells: seq<CellGuess>, y: nat, x: nat)
    requires Fits(e, fb) && r < |e.overlays| && |cells| == fb.width && forall i | 0 <= i < fb.width :: cells[i].col == i
    requires r == RowIndex(e.overlays, e.overlays[r].num) && x < fb.width
    ensures var q := Fitted(e, fb, r, cells);
            && OnlyGuesses(e, q) && q.cursors == e.cursors && q.epoch == e.epoch
            && GuessAt(q, y, x) == if y as int == e.overlays[r].num then Has(cells[x]) else GuessAt(e, y, x)
  {
    hide FrameOk, Shape;
    SameIndex(e.overlays, Fitted(e, fb, r, cells).overlays, y);
  }

  /** Making room for the guesses of the cursor's row predicts nothing. */
  lemma {:induction false} WithRowAt<P>(e: Engine<P>, fb: Frame, y: nat, x: nat)
    requires Fits(e, fb) && e.cursors != [] && x < fb.width
    ensures var q := WithRow(e, fb);
            && OnlyGuesses(e, q) && q.cursors == e.cursors && q.epoch == e.epoch && Untouched(e, q, y, x)
            && (y == Last(e).row ==>
                  var r := RowIndex(q.overlays, y);
                  && r < |q.overlays| && q.overlays[r].num == y && |q.overlays[r].cells| == fb.width
                  && GuessAt(q, y, x) == Has(q.overlays[r].cells[x]))
  {
    hide FrameOk;
    var q, num := WithRow(e, fb), Last(e).row;
    var r := RowIndex(q.overlays, num);
    RowOfShape(q, r);
    if RowIndex(e.overlays, num) == |e.overlays| {
      NoIndex(e.overlays, num);
      NewRowAt(e.overlays, FreshRow(num, fb.width, e.epoch), y);
    }
  }

  /** A row added at the end is found there; all others are found where they were. */
  lemma {:induction false} NewRowAt(rs: seq<RowGuess>, row: RowGuess, num: int)
    requires forall k | 0 <= k < |rs| :: rs[k].num != row.num
    ensures var i, j := RowIndex(rs, num), RowIndex(rs + [row], num);
            if num == row.num then i == |rs| && j == |rs| else j == if i < |rs| then i else |rs| + 1
  {
    var ss := rs + [row];
    var i, j := RowIndex(rs, num), RowIndex(ss, num);
    NoIndex(rs, num);
    assert ss[|rs|] == row;
    assert j < |rs| ==> ss[j] == rs[j];
    assert i < |rs| ==> ss[i] == rs[i];
  }

  /** The predicted cursor is where the next character was expected. */
  lemma {:induction false} InitAt<P>(e: Engine<P>, fb: Frame)
    requires Fits(e, fb)
    ensures var q := InitCursor(e, fb);
            && OnlyGuesses(e, q) && q.overlays == e.overlays && q.epoch == e.epoch && q.cursors != []
            && Last(q).row == Row(e, fb) < fb.height && Last(q).col == Col(e, fb) < fb.width
            && Last(q).epoch == e.epoch && Last(q).active
            && (e.cursors == [] || e.cursors[|e.cursors| - 1].epoch != e.epoch ==> Last(q).expiration == e.sent + 1)
  {
    hide RowsShape;
    if e.cursors != [] { LastOnScreen(e); }
  }

  // ---- typing -------------------------------------------------------------------

  /** The epoch of what is typed: in the last column a new one begins, except in Experimental mode. */
  function NextEpoch<P>(e: Engine<P>): nat {
    if e.pref.Experimental? then e.epoch else e.epoch + 1
  }

  function TypedEpoch<P>(e: Engine<P>, fb: Frame): nat {
    if Col(e, fb) + 1 >= fb.width then NextEpoch(e) else e.epoch
  }

  /** The pen expected for a character: that of the place to its left, or of the frame. */
  function PenAt<P>(e: Engine<P>, fb: Frame, y: nat, x: nat): Renditions
    requires FrameOk(fb) && y < fb.height && x < fb.width
  {
    if x == 0 then fb.rend
    else
      match SightAt(e, fb, y, x - 1)
      case Sees(g) => g.rend
      case Unsure => fb.rows[y][x - 1].rend
  }

  /** The row of the cursor after typing `ch`: the character where the cursor was, and, unless it
      overwrites, everything to its right one place further, the last column being unsure. */
  ghost predicate Typed<P>(e: Engine<P>, r: Engine<P>, fb: Frame, ch: char, now: nat, i: nat)
    requires FrameOk(fb) && Row(e, fb) < fb.height && Col(e, fb) < fb.width && i < fb.width
  {
    var y, x, g := Row(e, fb), Col(e, fb), GuessAt(r, Row(e, fb), i);
    if i == x then
      && Made(e, g, TypedEpoch(e, fb), now) && !g.c.unknown
      && g.c.replacement.contents == Encode(ch) && g.c.replacement.rend == PenAt(e, fb, y, x)
      && g.c.originals != [] && g.c.originals[|g.c.originals| - 1] == fb.rows[y][x]
    else if i > x && !e.overwrite then
      && Made(e, g, TypedEpoch(e, fb), now)
      && SightAt(r, fb, y, i) == if i == fb.width - 1 then Unsure else SightAt(e, fb, y, i - 1)
    else Untouched(e, r, y, i)
  }

  lemma {:induction false} PlacedSees<P>(e: Engine<P>, fb: Frame, now: nat, row: nat, cells: seq<CellGuess>, col: nat,
      ch: char)
    requires FrameOk(fb) && row < fb.height && |cells| == fb.width && col < fb.width
    ensures var c := PlacedCell(e, fb, now, row, cells, col, ch);
            && Made(e, Has(c), e.epoch, now) && !c.unknown && c.replacement.contents == Encode(ch)
            && c.originals != [] && c.originals[|c.originals| - 1] == fb.rows[row][col]
            && c.replacement.rend == if col == 0 then fb.rend
                                     else match Sight1(cells[col - 1], fb.rows[row][col - 1])
                                          case Sees(g) => g.rend
                                          case Unsure => fb.rows[row][col - 1].rend
  {
  }

  /** Guesses of one row, as cells, see what the row was seen to show. */
  ghost predicate RowSeen<P>(e: Engine<P>, e1: Engine<P>, y: nat, cells: seq<CellGuess>, k: nat) {
    k < |cells| && GuessAt(e1, y, k) == Has(cells[k]) && Untouched(e, e1, y, k)
  }

  lemma {:induction false} SeenAs<P>(e: Engine<P>, e1: Engine<P>, fb: Frame, y: nat, cells: seq<CellGuess>, k: nat)
    requires FrameOk(fb) && y < fb.height && k < fb.width && RowSeen(e, e1, y, cells, k)
    ensures Sight1(cells[k], fb.rows[y][k]) == SightAt(e, fb, y, k)
  {
  }

  lemma {:induction false} CursorIs<P>(e: Engine<P>, fb: Frame)
    requires e.cursors != []
    ensures Row(e, fb) == Last(e).row && Col(e, fb) == Last(e).col
  {
  }

  /** The engine that types: guesses for the row at hand, and a new epoch in the last column. */
  function Typing<P>(e: Engine<P>, fb: Frame): (r: Engine<P>)
    requires Fits(e, fb) && e.cursors != []
    ensures Fits(r, fb) && r.cursors == e.cursors && r.overlays == WithRow(e, fb).overlays && OnlyGuesses(e, r)
    ensures r.epoch == TypedEpoch(e, fb)
  {
    hide RowsShape, CursorsShape, FrameOk;
    WithRowAt(e, fb, 0, fb.col);
    if Last(e).col + 1 >= fb.width then Tentative(WithRow(e, fb)) else WithRow(e, fb)
  }

  /** The guesses of the cursor's row, as cells. */
  lemma {:induction false} RowHere<P>(e: Engine<P>, fb: Frame) returns (r: nat, cells: seq<CellGuess>)
    requires Fits(e, fb) && e.cursors != []
    ensures var q, y := WithRow(e, fb), Last(e).row;
            && y < fb.height && Last(e).col < fb.width && q.cursors == e.cursors && Fits(q, fb)
            && r < |q.overlays| && r == RowIndex(q.overlays, q.overlays[r].num) && q.overlays[r].num == y
            && r == RowIndex(q.overlays, y) && cells == q.overlays[r].cells && |cells| == fb.width
            && (forall k | 0 <= k < fb.width :: cells[k].col == k)
            && (forall k: nat | k < fb.width :: RowSeen(e, q, y, cells, k))
  {
    hide RowsShape, CursorsShape;
    var q, y := WithRow(e, fb), Last(e).row;
    LastOnScreen(e);
    r := RowIndex(q.overlays, y);
    WithRowAt(e, fb, y, fb.col);
    RowOfShape(q, r);
    cells := q.overlays[r].cells;
    IndexIs(q.overlays, r);
    forall k: nat | k < fb.width
      ensures RowSeen(e, q, y, cells, k)
    {
      WithRowAt(e, fb, y, k);
    }
  }

  lemma {:induction false} TypingRow<P>(e: Engine<P>, fb: Frame) returns (r: nat, cells: seq<CellGuess>)
    requires Fits(e, fb) && e.cursors != []
    ensures var q, y := Typing(e, fb), Last(e).row;
            && y < fb.height && Last(e).col < fb.width
            && r < |q.overlays| && r == RowIndex(q.overlays, q.overlays[r].num) && q.overlays[r].num == y
            && r == RowIndex(q.overlays, y) && cells == q.overlays[r].cells && |cells| == fb.width
            && (forall k | 0 <= k < fb.width :: cells[k].col == k)
            && (forall k: nat | k < fb.width :: RowSeen(e, q, y, cells, k))
  {
    hide RowsShape, CursorsShape, FrameOk, RowSeen;
    r, cells := RowHere(e, fb);
    forall k: nat | k < fb.width
      ensures RowSeen(e, Typing(e, fb), Last(e).row, cells, k)
    {
      SeenSame(e, WithRow(e, fb), Typing(e, fb), Last(e).row, cells, k);
    }
  }

  lemma {:induction false} SeenSame<P>(e: Engine<P>, q: Engine<P>, r: Engine<P>, y: nat, cells: seq<CellGuess>, k: nat)
    requires RowSeen(e, q, y, cells, k) && r.overlays == q.overlays
    ensures RowSeen(e, r, y, cells, k)
  {
  }

  lemma {:induction false} OtherRows<P>(e: Engine<P>, fb: Frame, y: nat, i: nat)
    requires Fits(e, fb) && e.cursors != [] && i < fb.width
    ensures Untouched(e, Typing(e, fb), y, i)
  {
    hide RowsShape, CursorsShape, FrameOk;
    WithRowAt(e, fb, y, i);
  }

  lemma {:induction false} InsertCellsIs<P>(e: Engine<P>, ch: char, fb: Frame, now: nat, r: nat, cells: seq<CellGuess>)
    requires Fits(e, fb) && e.cursors != [] && Last(e).row < fb.height && Last(e).col < fb.width
    requires var q := Typing(e, fb);
             r == RowIndex(q.overlays, Last(e).row) < |q.overlays| && cells == q.overlays[r].cells
    requires |cells| == fb.width && forall k | 0 <= k < fb.width :: cells[k].col == k
    ensures var q, m := Typing(e, fb), Last(e);
            var shifted := ShiftDown(q, fb, now, m.row, cells, m.col, if q.overwrite then m.col else fb.width - 1);
            InsertCells(e, ch, fb, now) ==
              Fitted(q, fb, r, shifted[m.col := PlacedCell(q, fb, now, m.row, shifted, m.col, ch)])
  {
    hide RowsShape, CursorsShape, FrameOk, ShiftDown, PlacedCell, Fitted;
  }

  lemma {:induction false} InsertCellsAt<P>(e: Engine<P>, ch: char, fb: Frame, now: nat, y: nat, i: nat)
    requires Fits(e, fb) && e.cursors != [] && i < fb.width
    ensures Row(e, fb) < fb.height && Col(e, fb) < fb.width
    ensures var r := InsertCells(e, ch, fb, now);
            && OnlyGuesses(e, r) && r.cursors == e.cursors && r.epoch == TypedEpoch(e, fb)
            && (y == Row(e, fb) ==> Typed(e, r, fb, ch, now, i)) && (y != Row(e, fb) ==> Untouched(e, r, y, i))
  {
    hide *;
    var m, q := Last(e), Typing(e, fb);
    CursorIs(e, fb);
    var r, cells := TypingRow(e, fb);
    InsertCellsIs(e, ch, fb, now, r, cells);
    OtherRows(e, fb, y, i);
    FitsFrame(e, fb);
    var upto := if q.overwrite then m.col else fb.width - 1;
    var shifted := ShiftDown(q, fb, now, m.row, cells, m.col, upto);
    var placed := PlacedCell(q, fb, now, m.row, shifted, m.col, ch);
    FittedAt(q, fb, r, shifted[m.col := placed], y, i);
    var t := InsertCells(e, ch, fb, now);
    GuessesTwice(e, q, t);
    if y == m.row {
      ShiftAt(q, fb, now, m.row, cells, m.col, upto, i);
      if i == m.col {
        PlacedSees(q, fb, now, m.row, shifted, m.col, ch);
        if i > 0 {
          ShiftAt(q, fb, now, m.row, cells, m.col, upto, i - 1);
          SeenAs(e, q, fb, y, cells, i - 1);
        }
        TypedHere(e, q, t, fb, ch, now, i, placed, shifted);
      } else if i > m.col && !q.overwrite {
        ShiftedSees(q, fb, now, m.row, cells, i);
        SeenAs(e, q, fb, y, cells, i - 1);
        TypedBeyond(e, q, t, fb, ch, now, i, shifted[i]);
      } else {
        TypedElsewhere(e, q, t, fb, ch, now, i, cells);
      }
    } else {
      UntouchedOn(e, q, t, y, i);
    }
  }

  lemma {:induction false} FitsFrame<P>(e: Engine<P>, fb: Frame)
    requires Fits(e, fb)
    ensures FrameOk(fb) && fb.width > 0 && fb.height > 0 && fb.col < fb.width
  {
  }

  lemma {:induction false} GuessesTwice<P>(e: Engine<P>, q: Engine<P>, r: Engine<P>)
    requires OnlyGuesses(e, q) && OnlyGuesses(q, r)
    ensures OnlyGuesses(e, r) && q.overwrite == e.overwrite && q.sent == e.sent
  {
  }

  lemma {:induction false} UntouchedOn<P>(e: Engine<P>, q: Engine<P>, r: Engine<P>, y: nat, i: nat)
    requires Untouched(e, q, y, i) && GuessAt(r, y, i) == GuessAt(q, y, i)
    ensures Untouched(e, r, y, i)
  {
  }

  lemma {:induction false} TypedHere<P>(e: Engine<P>, q: Engine<P>, t: Engine<P>, fb: Frame, ch: char, now: nat, i: nat,
      c: CellGuess, cells: seq<CellGuess>)
    requires FrameOk(fb) && Row(e, fb) < fb.height && i == Col(e, fb) < fb.width == |cells|
    requires OnlyGuesses(e, q) && q.epoch == TypedEpoch(e, fb) && GuessAt(t, Row(e, fb), i) == Has(c)
    requires Made(q, Has(c), q.epoch, now) && !c.unknown && c.replacement.contents == Encode(ch)
    requires c.originals != [] && c.originals[|c.originals| - 1] == fb.rows[Row(e, fb)][i]
    requires i > 0 ==> Sight1(cells[i - 1], fb.rows[Row(e, fb)][i - 1]) == SightAt(e, fb, Row(e, fb), i - 1)
    requires c.replacement.rend == if i == 0 then fb.rend
                                   else match Sight1(cells[i - 1], fb.rows[Row(e, fb)][i - 1])
                                        case Sees(g) => g.rend
                                        case Unsure => fb.rows[Row(e, fb)][i - 1].rend
    ensures Typed(e, t, fb, ch, now, i)
  {
  }

  lemma {:induction false} TypedBeyond<P>(e: Engine<P>, q: Engine<P>, t: Engine<P>, fb: Frame, ch: char, now: nat,
      i: nat, c: CellGuess)
    requires FrameOk(fb) && Row(e, fb) < fb.height && Col(e, fb) < i < fb.width && !e.overwrite
    requires OnlyGuesses(e, q) && q.epoch == TypedEpoch(e, fb) && GuessAt(t, Row(e, fb), i) == Has(c)
    requires Made(q, Has(c), q.epoch, now)
    requires Sight1(c, fb.rows[Row(e, fb)][i]) == if i == fb.width - 1 then Unsure
             else SightAt(e, fb, Row(e, fb), i - 1)
    ensures Typed(e, t, fb, ch, now, i)
  {
  }

  lemma {:induction false} TypedElsewhere<P>(e: Engine<P>, q: Engine<P>, t: Engine<P>, fb: Frame, ch: char, now: nat,
      i: nat, cells: seq<CellGuess>)
    requires FrameOk(fb) && Row(e, fb) < fb.height && Col(e, fb) < fb.width && i < fb.width && i != Col(e, fb)
    requires i < Col(e, fb) || e.overwrite
    requires RowSeen(e, q, Row(e, fb), cells, i) && GuessAt(t, Row(e, fb), i) == Has(cells[i])
    ensures Typed(e, t, fb, ch, now, i)
  {
  }

  // ---- the cursor --------------------------------------------------------------------

  lemma {:induction false} MovedAt<P>(e: Engine<P>, fb: Frame, m: CursorGuess)
    requires Fits(e, fb) && e.cursors != [] && CursorShape(m, fb.height, fb.width)
    ensures var r := Predictions.Moved(e, fb, m);
            OnlyGuesses(e, r) && r.overlays == e.overlays && r.epoch == e.epoch && r.cursors != [] && Last(r) == m
  {
  }

  ghost predicate BlankAt<P>(e: Engine<P>, r: Engine<P>, row: nat, now: nat, y: nat, x: nat) {
    if y == row then Made(e, GuessAt(r, y, x), e.epoch, now) && GuessAt(r, y, x).c.replacement.contents == []
    else Untouched(e, r, y, x)
  }

  /** A line end: the cursor at the start of the next row; on the last one it stays, and the whole row is
      expected blank. */
  ghost predicate LineEnded<P>(e: Engine<P>, r: Engine<P>, fb: Frame, row: nat, now: nat) {
    && OnlyGuesses(e, r) && r.epoch == e.epoch
    && r.cursors != [] && Last(r).col == 0 && Last(r).active
    && Last(r).row == (if row + 1 < fb.height then row + 1 else row)
    && (if row + 1 < fb.height then r.overlays == e.overlays
        else forall y: nat, x: nat | x < fb.width :: BlankAt(e, r, row, now, y, x))
  }

  lemma {:induction false} NewlineAt<P>(e: Engine<P>, fb: Frame, now: nat)
    requires Fits(e, fb)
    ensures LineEnded(e, Newline(e, fb, now), fb, Row(e, fb), now)
  {
    hide *;
    FitsFrame(e, fb);
    InitAt(e, fb);
    var q := InitCursor(e, fb);
    var m := Last(q);
    FitsShape(q, fb);
    LastOnScreen(q);
    CursorOn(q, m);
    MovedAt(q, fb, m.(col := 0));
    var t := Predictions.Moved(q, fb, m.(col := 0));
    GuessesTwice(e, q, t);
    if m.row + 1 < fb.height {
      NewlineDown(e, fb, now);
      MovedAt(t, fb, m.(col := 0, row := m.row + 1));
      GuessesTwice(e, t, Newline(e, fb, now));
      EndedBelow(e, Newline(e, fb, now), fb, m.row, now);
    } else {
      FitsShape(t, fb);
      NewlineBlanks(e, fb, now, t);
      forall y: nat, x: nat | x < fb.width
        ensures BlankAt(e, Newline(e, fb, now), m.row, now, y, x)
      {
        RowBlanked(t, fb, now, y, x);
        BlankFrom(e, t, Newline(e, fb, now), m.row, now, y, x);
      }
      BlanksRow(t, fb, now);
      GuessesTwice(e, t, Newline(e, fb, now));
      EndedAtBottom(e, Newline(e, fb, now), fb, m.row, now);
    }
  }

  lemma {:induction false} FitsShape<P>(e: Engine<P>, fb: Frame)
    requires Fits(e, fb)
    ensures Shape(e) && e.lastHeight == fb.height && e.lastWidth == fb.width
  {
  }

  lemma {:induction false} CursorOn<P>(q: Engine<P>, m: CursorGuess)
    requires CursorShape(m, q.lastHeight, q.lastWidth)
    ensures CursorShape(m.(col := 0), q.lastHeight, q.lastWidth) && m.active && m.row < q.lastHeight
    ensures m.row + 1 < q.lastHeight ==> CursorShape(m.(col := 0, row := m.row + 1), q.lastHeight, q.lastWidth)
  {
  }

  lemma {:induction false} NewlineDown<P>(e: Engine<P>, fb: Frame, now: nat)
    requires Fits(e, fb) && Row(e, fb) + 1 < fb.height
    ensures var q := InitCursor(e, fb);
            var m := Last(q);
            && CursorShape(m.(col := 0), fb.height, fb.width)
            && CursorShape(m.(col := 0, row := m.row + 1), fb.height, fb.width)
            && Newline(e, fb, now) ==
               Predictions.Moved(Predictions.Moved(q, fb, m.(col := 0)), fb, m.(col := 0, row := m.row + 1))
  {
    hide RowsShape, CursorsShape, FrameOk;
    InitAt(e, fb);
    LastOnScreen(InitCursor(e, fb));
  }

  /** The row of the last cursor blanked. */
  function Bottomed<P>(t: Engine<P>, fb: Frame, now: nat): (r: Engine<P>)
    requires Fits(t, fb) && t.cursors != []
  {
    hide RowsShape, CursorsShape, FrameOk;
    var e := WithRow(t, fb);
    var r := RowIndex(e.overlays, Last(t).row);
    RowOfShape(e, r);
    Fitted(e, fb, r, BlankedCells(e, now, e.overlays[r].cells))
  }

  lemma {:induction false} NewlineBlanks<P>(e: Engine<P>, fb: Frame, now: nat, t: Engine<P>)
    requires Fits(e, fb) && Row(e, fb) + 1 >= fb.height
    requires var m := Last(InitCursor(e, fb));
             CursorShape(m.(col := 0), fb.height, fb.width)
               && t == Predictions.Moved(InitCursor(e, fb), fb, m.(col := 0))
    ensures Newline(e, fb, now) == Bottomed(t, fb, now)
  {
    hide RowsShape, CursorsShape, FrameOk, WithRow, Fitted, BlankedCells;
    InitAt(e, fb);
    LastOnScreen(InitCursor(e, fb));
  }

  lemma {:induction false} RowBlanked<P>(t: Engine<P>, fb: Frame, now: nat, y: nat, x: nat)
    requires Fits(t, fb) && t.cursors != [] && x < fb.width
    ensures BlankAt(t, Bottomed(t, fb, now), Last(t).row, now, y, x)
  {
    hide RowsShape, CursorsShape, FrameOk, WithRow, Fitted, BlankedCells;
    WithRowAt(t, fb, y, x);
    WithRowAt(t, fb, Last(t).row, x);
    var e := WithRow(t, fb);
    var r := RowIndex(e.overlays, Last(t).row);
    RowOfShape(e, r);
    IndexIs(e.overlays, r);
    FittedAt(e, fb, r, BlankedCells(e, now, e.overlays[r].cells), y, x);
  }

  lemma {:induction false} BlanksRow<P>(t: Engine<P>, fb: Frame, now: nat)
    requires Fits(t, fb) && t.cursors != []
    ensures var r := Bottomed(t, fb, now);
            OnlyGuesses(t, r) && r.cursors == t.cursors && r.epoch == t.epoch && Last(r) == Last(t)
  {
    hide RowsShape, CursorsShape, FrameOk, WithRow, Fitted, BlankedCells;
    var e := WithRow(t, fb);
    FitsFrame(t, fb);
    WithRowAt(t, fb, Last(t).row, fb.col);
    var r := RowIndex(e.overlays, Last(t).row);
    RowOfShape(e, r);
    IndexIs(e.overlays, r);
    FittedAt(e, fb, r, BlankedCells(e, now, e.overlays[r].cells), Last(t).row, fb.col);
  }

  lemma {:induction false} BlankFrom<P>(e: Engine<P>, t: Engine<P>, r: Engine<P>, row: nat, now: nat, y: nat, x: nat)
    requires BlankAt(t, r, row, now, y, x) && t.overlays == e.overlays && t.sent == e.sent && t.epoch == e.epoch
    ensures BlankAt(e, r, row, now, y, x)
  {
  }

  lemma {:induction false} EndedBelow<P>(e: Engine<P>, r: Engine<P>, fb: Frame, row: nat, now: nat)
    requires row + 1 < fb.height && OnlyGuesses(e, r) && r.epoch == e.epoch && r.overlays == e.overlays
    requires r.cursors != [] && Last(r).active && Last(r).row == row + 1 && Last(r).col == 0
    ensures LineEnded(e, r, fb, row, now)
  {
  }

  lemma {:induction false} EndedAtBottom<P>(e: Engine<P>, r: Engine<P>, fb: Frame, row: nat, now: nat)
    requires row + 1 >= fb.height && OnlyGuesses(e, r) && r.epoch == e.epoch
    requires r.cursors != [] && Last(r).active && Last(r).row == row && Last(r).col == 0
    requires forall y: nat, x: nat | x < fb.width :: BlankAt(e, r, row, now, y, x)
    ensures LineEnded(e, r, fb, row, now)
  {
  }

  // ---- keystrokes ------------------------------------------------------------------------

  predicate Printable<P>(k: Keys<P>, ch: char) {
    ch as int >= 0x20 && ch as int != 0x7F && k.width(ch) == 1
  }

  /** A printable character of width 1 before the last column: it is expected where the cursor was, what
      was expected to its right one place further, and the cursor after it. */
  lemma {:induction false} TypesOne<P>(k: Keys<P>, e: Engine<P>, ch: char, fb: Frame, now: nat, y: nat, i: nat)
    requires Fits(e, fb) && Printable(k, ch) && Col(e, fb) + 1 < fb.width && i < fb.width
    ensures Row(e, fb) < fb.height
    ensures var r := React(k, e, Act.Print(ch), fb, now);
            && OnlyGuesses(e, r) && r.epoch == e.epoch
            && Expects(r, Row(e, fb), Col(e, fb) + 1, e.epoch, e.sent + 1)
            && (y == Row(e, fb) ==> Typed(e, r, fb, ch, now, i)) && (y != Row(e, fb) ==> Untouched(e, r, y, i))
  {
    hide *;
    FitsFrame(e, fb);
    InitAt(e, fb);
    var q := InitCursor(e, fb);
    CursorIs(q, fb);
    SameStart(e, q, fb);
    InsertCellsAt(q, ch, fb, now, y, i);
    var t := InsertCells(q, ch, fb, now);
    PrintsIn(k, e, ch, fb, now);
    var r := React(k, e, Act.Print(ch), fb, now);
    LastMoved(q, t, fb, now);
    MovedAt(t, fb, Last(t).(expiration := t.sent + 1, time := now, col := Last(t).col + 1));
    GuessesTwice(e, q, t);
    GuessesTwice(e, t, r);
    ExpectsIt(r, Row(e, fb), Col(e, fb) + 1, e.epoch, e.sent + 1);
    TypedFrom(e, q, t, r, fb, ch, now, y, i);
  }

  lemma {:induction false} SameStart<P>(e: Engine<P>, q: Engine<P>, fb: Frame)
    requires Row(q, fb) == Row(e, fb) && Col(q, fb) == Col(e, fb) && q.epoch == e.epoch && OnlyGuesses(e, q)
    ensures TypedEpoch(q, fb) == TypedEpoch(e, fb) && (Col(e, fb) + 1 < fb.width ==> TypedEpoch(e, fb) == e.epoch)
  {
  }

  lemma {:induction false} LastMoved<P>(q: Engine<P>, t: Engine<P>, fb: Frame, now: nat)
    requires Fits(t, fb) && q.cursors != [] && t.cursors == q.cursors
    ensures Last(t) == Last(q) && CursorShape(Last(t).(expiration := t.sent + 1, time := now), fb.height, fb.width)
    ensures Last(t).col + 1 < fb.width ==>
              CursorShape(Last(t).(expiration := t.sent + 1, time := now, col := Last(t).col + 1), fb.height, fb.width)
  {
    hide RowsShape, FrameOk;
    LastOnScreen(t);
  }

  /** A new epoch with the cursor moved: what a line end starts from. */
  function Anew<P>(t: Engine<P>, fb: Frame, m: CursorGuess): (r: Engine<P>)
    requires Fits(t, fb) && t.cursors != [] && CursorShape(m, fb.height, fb.width)
    ensures Fits(r, fb) && OnlyGuesses(t, r) && r.overlays == t.overlays && r.epoch == NextEpoch(t)
    ensures Row(r, fb) == m.row && Col(r, fb) == m.col
  {
    hide RowsShape, FrameOk;
    Tentative(Predictions.Moved(t, fb, m))
  }

  lemma {:induction false} PrintsIn<P>(k: Keys<P>, e: Engine<P>, ch: char, fb: Frame, now: nat)
    requires Fits(e, fb) && Printable(k, ch)
    ensures InitCursor(e, fb).cursors != []
    ensures var t := InsertCells(InitCursor(e, fb), ch, fb, now);
            t.cursors != [] &&
            var m := Last(t).(expiration := t.sent + 1, time := now);
            && CursorShape(m, fb.height, fb.width)
            && (m.col + 1 < fb.width ==>
                  && CursorShape(m.(col := m.col + 1), fb.height, fb.width)
                  && React(k, e, Act.Print(ch), fb, now) == Predictions.Moved(t, fb, m.(col := m.col + 1)))
            && (m.col + 1 >= fb.width ==> React(k, e, Act.Print(ch), fb, now) == Newline(Anew(t, fb, m), fb, now))
  {
    hide RowsShape, FrameOk, InsertCells, Newline;
    InitAt(e, fb);
    var t := InsertCells(InitCursor(e, fb), ch, fb, now);
    LastOnScreen(t);
  }

  lemma {:induction false} ExpectsIt<P>(r: Engine<P>, row: nat, col: nat, epoch: nat, expiration: nat)
    requires r.cursors != [] && Last(r).row == row && Last(r).col == col && Last(r).active
    requires Last(r).epoch == epoch && Last(r).expiration == expiration
    ensures Expects(r, row, col, epoch, expiration)
  {
  }

  /** Guesses do not depend on the cursors. */
  lemma {:induction false} TypedFrom<P>(e: Engine<P>, q: Engine<P>, t: Engine<P>, r: Engine<P>, fb: Frame, ch: char,
      now: nat, y: nat, i: nat)
    requires FrameOk(fb) && Row(e, fb) == Row(q, fb) < fb.height && Col(e, fb) == Col(q, fb) < fb.width && i < fb.width
    requires q.overlays == e.overlays && q.epoch == e.epoch && OnlyGuesses(e, q) && r.overlays == t.overlays
    requires if y == Row(q, fb) then Typed(q, t, fb, ch, now, i) else Untouched(q, t, y, i)
    ensures if y == Row(e, fb) then Typed(e, r, fb, ch, now, i) else Untouched(e, r, y, i)
  {
    GuessSame(e, q, y, i);
    GuessSame(t, r, y, i);
    if i > 0 { GuessSame(e, q, y, i - 1); }
  }

  lemma {:induction false} GuessSame<P>(e: Engine<P>, q: Engine<P>, y: nat, i: nat)
    requires e.overlays == q.overlays
    ensures GuessAt(e, y, i) == GuessAt(q, y, i)
  {
  }

  /** In the last column the character begins a new epoch, and the line end after it another; at the
      bottom the whole row, with the character, is then expected blank. */
  lemma {:induction false} TypesAtEdge<P>(k: Keys<P>, e: Engine<P>, ch: char, fb: Frame, now: nat)
      returns (t: Engine<P>)
    requires Fits(e, fb) && Printable(k, ch) && Col(e, fb) + 1 >= fb.width
    ensures Row(e, fb) < fb.height && Col(e, fb) < fb.width
    ensures OnlyGuesses(e, t) && t.epoch == NextEpoch(InNext(e))
            && LineEnded(t, React(k, e, Act.Print(ch), fb, now), fb, Row(e, fb), now)
    ensures forall y: nat, i: nat | i < fb.width ::
              if y == Row(e, fb) then Typed(e, t, fb, ch, now, i) else Untouched(e, t, y, i)
  {
    hide *;
    FitsFrame(e, fb);
    InitAt(e, fb);
    var q := InitCursor(e, fb);
    CursorIs(q, fb);
    SameStart(e, q, fb);
    InsertCellsAt(q, ch, fb, now, 0, 0);
    var u := InsertCells(q, ch, fb, now);
    PrintsIn(k, e, ch, fb, now);
    LastMoved(q, u, fb, now);
    t := Anew(u, fb, Last(u).(expiration := u.sent + 1, time := now));
    GuessesTwice(e, q, u);
    GuessesTwice(e, u, t);
    TwoEpochs(e, u, t, fb);
    NewlineAt(t, fb, now);
    forall y: nat, i: nat | i < fb.width
      ensures if y == Row(e, fb) then Typed(e, t, fb, ch, now, i) else Untouched(e, t, y, i)
    {
      InsertCellsAt(q, ch, fb, now, y, i);
      TypedFrom(e, q, u, t, fb, ch, now, y, i);
    }
  }

  /** The engine in the next epoch. */
  function InNext<P>(e: Engine<P>): Engine<P> {
    e.(epoch := NextEpoch(e))
  }

  lemma {:induction false} TwoEpochs<P>(e: Engine<P>, u: Engine<P>, t: Engine<P>, fb: Frame)
    requires Col(e, fb) + 1 >= fb.width && OnlyGuesses(e, u) && u.epoch == TypedEpoch(e, fb) && t.epoch == NextEpoch(u)
    ensures t.epoch == NextEpoch(InNext(e))
  {
  }

  /** Backspace off the first column: what was expected to the right of the cursor moves one place left
      over the place before it, the last two columns being unsure; or, overwriting, that place is expected
      to be a space. */
  ghost predicate Erased<P>(e: Engine<P>, r: Engine<P>, fb: Frame, now: nat, i: nat)
    requires FrameOk(fb) && Row(e, fb) < fb.height && 0 < Col(e, fb) < fb.width && i < fb.width
  {
    var y, x, g := Row(e, fb), Col(e, fb) - 1, GuessAt(r, Row(e, fb), i);
    if e.overwrite && i == x then
      Made(e, g, e.epoch, now) && !g.c.unknown && g.c.replacement == fb.rows[fb.row][fb.col].(contents := [0x20])
    else if !e.overwrite && i >= x then
      && Made(e, g, e.epoch, now)
      && SightAt(r, fb, y, i) == if i + 2 < fb.width then SightAt(e, fb, y, i + 1) else Unsure
    else Untouched(e, r, y, i)
  }

  lemma {:induction false} BackspaceAt<P>(e: Engine<P>, fb: Frame, now: nat, y: nat, i: nat)
    requires Fits(e, fb) && e.cursors != [] && i < fb.width
    ensures Row(e, fb) < fb.height && Col(e, fb) < fb.width
    ensures var r := Backspace(e, fb, now);
            && OnlyGuesses(e, r) && r.epoch == e.epoch && r.cursors != []
            && (if Col(e, fb) == 0 then r.cursors == e.cursors && Untouched(e, r, y, i)
                else
                  && Last(r) == Last(e).(col := Last(e).col - 1, expiration := e.sent + 1, time := now)
                  && (if y == Row(e, fb) then Erased(e, r, fb, now, i) else Untouched(e, r, y, i)))
  {
    hide *;
    FitsFrame(e, fb);
    FitsShape(e, fb);
    CursorIs(e, fb);
    LastOnScreen(e);
    ShapeOf(Last(e), fb);
    WithRowAt(e, fb, y, i);
    var m, q, t := Last(e), WithRow(e, fb), Backspace(e, fb, now);
    if m.col == 0 {
      NoBackspace(e, fb, now);
    } else {
      var r, cells := RowHere(e, fb);
      BackspaceIs(e, fb, now, r, cells);
      var to := m.(col := m.col - 1, expiration := e.sent + 1, time := now);
      var u := Predictions.Moved(q, fb, to);
      MovedAt(q, fb, to);
      var next := BackedCells(u, fb, now, m.row, cells, m.col - 1);
      IndexIs(u.overlays, r);
      FittedAt(u, fb, r, next, y, i);
      GuessesTwice(e, q, u);
      GuessesTwice(e, u, t);
      SameLast(u, t);
      GuessSame(q, u, y, i);
      if y == m.row {
        ErasedBy(e, q, u, fb, now, cells, next, t, i);
      } else {
        UntouchedOn(e, q, t, y, i);
      }
    }
  }

  lemma {:induction false} ShapeOf(m: CursorGuess, fb: Frame)
    requires CursorShape(m, fb.height, fb.width)
    ensures m.row < fb.height && m.col < fb.width && m.active
    ensures forall col: nat, x: nat, t: nat | col < fb.width ::
            CursorShape(m.(col := col, expiration := x, time := t), fb.height, fb.width)
  {
  }

  /** The cells of the row after a backspace to before the cursor. */
  function BackedCells<P>(u: Engine<P>, fb: Frame, now: nat, row: nat, cells: seq<CellGuess>,
      x: nat): (r: seq<CellGuess>)
    requires FrameOk(fb) && row < fb.height && |cells| == fb.width && x < fb.width
    ensures |r| == |cells| && forall k | 0 <= k < |cells| :: r[k].col == cells[k].col
  {
    if u.overwrite then cells[x := OverwrittenCell(u, fb, now, cells[x])] else EraseFrom(u, fb, now, row, cells, x)
  }

  lemma {:induction false} BackspaceIs<P>(e: Engine<P>, fb: Frame, now: nat, r: nat, cells: seq<CellGuess>)
    requires Fits(e, fb) && e.cursors != [] && Last(e).col > 0 && Last(e).row < fb.height && Last(e).col < fb.width
    requires var q := WithRow(e, fb);
             r == RowIndex(q.overlays, Last(e).row) < |q.overlays| && cells == q.overlays[r].cells
    requires |cells| == fb.width && forall k | 0 <= k < fb.width :: cells[k].col == k
    requires CursorShape(Last(e).(col := Last(e).col - 1, expiration := e.sent + 1, time := now), fb.height, fb.width)
    ensures var q, m := WithRow(e, fb), Last(e);
            var u := Predictions.Moved(q, fb, m.(col := m.col - 1, expiration := e.sent + 1, time := now));
            Backspace(e, fb, now) == Fitted(u, fb, r, BackedCells(u, fb, now, m.row, cells, m.col - 1))
  {
    hide RowsShape, CursorsShape, FrameOk, EraseFrom, OverwrittenCell, Fitted;
    WithRowSent(e, fb);
  }

  lemma {:induction false} WithRowSent<P>(e: Engine<P>, fb: Frame)
    requires Fits(e, fb) && e.cursors != []
    ensures WithRow(e, fb).sent == e.sent
  {
    hide RowsShape, CursorsShape, FrameOk;
  }

  lemma {:induction false} BackedSees<P>(u: Engine<P>, fb: Frame, now: nat, row: nat, cells: seq<CellGuess>, x: nat,
      i: nat)
    requires FrameOk(fb) && row < fb.height && |cells| == fb.width && x < fb.width && i < fb.width
    ensures fb.row < |fb.rows| && fb.col < |fb.rows[fb.row]|
    ensures var c := BackedCells(u, fb, now, row, cells, x)[i];
            if u.overwrite && i == x then
              Made(u, Has(c), u.epoch, now) && !c.unknown
                && c.replacement == fb.rows[fb.row][fb.col].(contents := [0x20])
            else if !u.overwrite && i >= x then
              && Made(u, Has(c), u.epoch, now)
              && Sight1(c, fb.rows[row][i]) == if i + 2 < fb.width then Sight1(cells[i + 1], fb.rows[row][i + 1])
                 else Unsure
            else c == cells[i]
  {
    hide ErasedCell;
    if !u.overwrite {
      EraseAt(u, fb, now, row, cells, x, i);
      if i >= x { ErasedSees(u, fb, now, row, cells, i); }
    }
  }

  lemma {:induction false} ErasedBy<P>(e: Engine<P>, q: Engine<P>, u: Engine<P>, fb: Frame, now: nat,
      cells: seq<CellGuess>, next: seq<CellGuess>, t: Engine<P>, i: nat)
    requires FrameOk(fb) && Row(e, fb) < fb.height && 0 < Col(e, fb) < fb.width && i < fb.width
             && |cells| == |next| == fb.width
    requires OnlyGuesses(e, u) && u.epoch == e.epoch && GuessAt(t, Row(e, fb), i) == Has(next[i])
    requires next == BackedCells(u, fb, now, Row(e, fb), cells, Col(e, fb) - 1)
    requires RowSeen(e, q, Row(e, fb), cells, i) && (i + 1 < fb.width ==> RowSeen(e, q, Row(e, fb), cells, i + 1))
    ensures Erased(e, t, fb, now, i)
  {
    hide BackedCells;
    BackedSees(u, fb, now, Row(e, fb), cells, Col(e, fb) - 1, i);
    if i + 1 < fb.width { SeenAs(e, q, fb, Row(e, fb), cells, i + 1); }
  }

  lemma {:induction false} SameLast<P>(u: Engine<P>, r: Engine<P>)
    requires u.cursors != [] && r.cursors == u.cursors
    ensures r.cursors != [] && Last(r) == Last(u)
  {
  }

  lemma {:induction false} NoBackspace<P>(e: Engine<P>, fb: Frame, now: nat)
    requires Fits(e, fb) && e.cursors != [] && Last(e).col == 0
    ensures Backspace(e, fb, now) == WithRow(e, fb)
  {
    hide RowsShape, CursorsShape, FrameOk;
  }

  lemma {:induction false} BackspaceIn<P>(k: Keys<P>, e: Engine<P>, fb: Frame, now: nat)
    requires Fits(e, fb)
    ensures InitCursor(e, fb).cursors != []
    ensures React(k, e, Act.Print(0x7F as char), fb, now) == Backspace(InitCursor(e, fb), fb, now)
  {
    hide Backspace, InitCursor;
  }

  /** The delete character. */
  lemma {:induction false} TypesBackspace<P>(k: Keys<P>, e: Engine<P>, fb: Frame, now: nat, y: nat, i: nat)
    requires Fits(e, fb) && i < fb.width
    ensures Row(e, fb) < fb.height && Col(e, fb) < fb.width
    ensures var r := React(k, e, Act.Print(0x7F as char), fb, now);
            && OnlyGuesses(e, r) && r.epoch == e.epoch && r.cursors != []
            && (if Col(e, fb) == 0 then Row(r, fb) == Row(e, fb) && Col(r, fb) == 0 && Untouched(e, r, y, i)
                else
                  && Expects(r, Row(e, fb), Col(e, fb) - 1, e.epoch, e.sent + 1)
                  && (if y == Row(e, fb) then Erased(e, r, fb, now, i) else Untouched(e, r, y, i)))
  {
    hide *;
    FitsFrame(e, fb);
    InitAt(e, fb);
    var q := InitCursor(e, fb);
    CursorIs(q, fb);
    BackspaceIn(k, e, fb, now);
    BackspaceAt(q, fb, now, y, i);
    var r := Backspace(q, fb, now);
    GuessesTwice(e, q, r);
    GuessSame(e, q, y, i);
    if Col(e, fb) == 0 {
      SameLast(q, r);
      CursorIs(r, fb);
      UntouchedSince(e, q, r, y, i);
    } else {
      ExpectsIt(r, Row(e, fb), Col(e, fb) - 1, e.epoch, e.sent + 1);
      if y == Row(e, fb) { ErasedSince(e, q, r, fb, now, i); } else { UntouchedSince(e, q, r, y, i); }
    }
  }

  lemma {:induction false} UntouchedSince<P>(e: Engine<P>, q: Engine<P>, r: Engine<P>, y: nat, i: nat)
    requires q.overlays == e.overlays && Untouched(q, r, y, i)
    ensures Untouched(e, r, y, i)
  {
    GuessSame(e, q, y, i);
  }

  lemma {:induction false} ErasedSince<P>(e: Engine<P>, q: Engine<P>, r: Engine<P>, fb: Frame, now: nat, i: nat)
    requires FrameOk(fb) && Row(e, fb) == Row(q, fb) < fb.height && 0 < Col(e, fb) == Col(q, fb) < fb.width
             && i < fb.width
    requires OnlyGuesses(e, q) && q.overlays == e.overlays && q.epoch == e.epoch && Erased(q, r, fb, now, i)
    ensures Erased(e, r, fb, now, i)
  {
    GuessSame(e, q, Row(e, fb), i);
    GuessSame(e, q, Row(e, fb), i + 1);
  }

  /** The arrows move the cursor within the row, and predict nothing else. */
  lemma {:induction false} TypesArrow<P>(k: Keys<P>, e: Engine<P>, right: bool, fb: Frame, now: nat)
    requires Fits(e, fb)
    ensures var r, x := React(k, e, CsiDispatch(if right then 'C' else 'D'), fb, now), Col(e, fb);
            && OnlyGuesses(e, r) && r.overlays == e.overlays && r.epoch == e.epoch && r.cursors != []
            && Row(r, fb) == Row(e, fb)
            && Col(r, fb) == (if right && x + 1 < fb.width then x + 1 else if !right && x > 0 then x - 1 else x)
            && (Col(r, fb) != x ==> Expects(r, Row(e, fb), Col(r, fb), e.epoch, e.sent + 1))
  {
    hide RowsShape, CursorsShape, FrameOk, InitCursor;
    InitAt(e, fb);
    LastOnScreen(InitCursor(e, fb));
  }

  /** CR begins an epoch and ends the line; whatever else the keystroke parser reports begins an epoch. */
  lemma {:induction false} TypesReturn<P>(k: Keys<P>, e: Engine<P>, fb: Frame, now: nat)
    requires Fits(e, fb)
    ensures LineEnded(InNext(e), React(k, e, Execute(0x0D as char), fb, now), fb, Row(e, fb), now)
  {
    hide Newline, LineEnded, RowsShape, CursorsShape, FrameOk;
    NewlineAt(Tentative(e), fb, now);
    assert InNext(e) == Tentative(e);
  }

  lemma {:induction false} OthersBegin<P>(k: Keys<P>, e: Engine<P>, ch: char, fb: Frame, now: nat)
    requires Fits(e, fb)
    ensures ch as int != 0x0D ==> React(k, e, Execute(ch), fb, now) == InNext(e)
    ensures React(k, e, EscDispatch, fb, now) == InNext(e) && React(k, e, Quiet, fb, now) == e
    ensures ch != 'C' && ch != 'D' ==> React(k, e, CsiDispatch(ch), fb, now) == InNext(e)
    ensures !Printable(k, ch) && ch as int != 0x7F ==>
              React(k, e, Act.Print(ch), fb, now) == InNext(InitCursor(e, fb))
  {
    hide RowsShape, CursorsShape, FrameOk, InitCursor;
    InitAt(e, fb);
  }

  // ---- a byte typed --------------------------------------------------------------------------

  /** A byte is read after the guesses are culled; ESC O reads as ESC [, so application-mode arrows are
      arrows; Experimental mode shows what it predicts at once. */
  lemma {:induction false} ByteReacts<P>(k: Keys<P>, e: Engine<P>, b: byte, fb: Frame, now: nat)
    requires FrameOk(fb) && Shape(e) && !e.pref.Never?
    ensures var start := Cull(if e.pref.Experimental? then e.(epoch := e.confirmed) else e, fb, now);
            var key: byte := if b == 'O' as int && start.lastByte == 0x1B then '[' as int else b;
            var (p, acts) := k.input(start.parser, key);
            && Fits(start.(lastByte := key, parser := p), fb)
            && UserByte(k, e, b, fb, now) == ReactAll(k, start.(lastByte := key, parser := p), acts, fb, now)
  {
    hide CullRows, CullCursors, RowsShape, CursorsShape, FrameOk, ReactAll;
  }
}
