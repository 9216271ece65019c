// What resizing a screen guarantees: a well-formed screen with the cursor inside it, no row lost
// except blank ones at the bottom and ring evictions, and exactly when the cursor keeps its row.
module ScreenProofs {
  import opened Cells
  import opened Reflow
  import opened ReflowProofs
  import opened Screens

  // ---- well-formedness ------------------------------------------------------

  lemma {:induction false} FitWidthOk(s: Scr, cols: nat, at: Spot, reflow: bool)
    requires ScrOk(s) && 1 <= cols <= 0xFFFF && at.row < s.rows && at.col < s.cols
    ensures var (t, to) := FitWidth(s, cols, at, reflow);
            ScrOk(t) && t.rows == s.rows && t.cols == cols && t.maxScrollback == s.maxScrollback && to.col < cols
  {
    if cols != s.cols && reflow { ReflowShape(s, cols, at); }
  }

  /** Everything but the number of rows is in order. */
  ghost predicate Sized(s: Scr) {
    && 1 <= s.cols <= 0xFFFF && RowsFit(s.grid, s.cols)
    && |s.scrollback| <= s.maxScrollback && RowsFit(s.scrollback, s.cols)
  }

  lemma {:induction false} ShortenOk(s: Scr, at: Spot, rows: nat, reflow: bool)
    requires Sized(s) && 1 <= rows
    ensures var (t, to) := Shorten(s, at, rows, reflow);
            Sized(t) && |t.grid| == Min(|s.grid|, rows) && t.cols == s.cols && t.maxScrollback == s.maxScrollback
              && to.col == at.col
    decreases |s.grid|
  {
    var n := |s.grid|;
    if n > rows {
      if reflow && (at.row >= n - 1 || !RowBlank(s.grid[n - 1])) {
        ShortenOk(s.(grid := s.grid[1..], scrollback := KeepLast(s.scrollback + [s.grid[0]], s.maxScrollback)),
                  at.(row := if at.row > 0 then at.row - 1 else 0), rows, reflow);
      } else {
        ShortenOk(s.(grid := s.grid[..n - 1]), at, rows, reflow);
      }
    }
  }

  lemma {:induction false} LengthenOk(s: Scr, at: Spot, rows: nat, reflow: bool)
    requires Sized(s) && |s.grid| <= rows
    ensures var (t, to) := Lengthen(s, at, rows, reflow);
            Sized(t) && |t.grid| == rows && t.cols == s.cols && t.maxScrollback == s.maxScrollback && to.col == at.col
  {
    var (t, to) := Lengthen(s, at, rows, reflow);
    var keep := |t.scrollback|;
    assert forall i | 0 <= i < keep :: t.scrollback[i] == s.scrollback[i];
    forall i | 0 <= i < |t.grid|
      ensures |t.grid[i].cells| == s.cols
    {
      if i < |s.scrollback| - keep { assert t.grid[i] == s.scrollback[keep + i]; }
    }
  }

  /** Any resize of a well-formed screen gives a well-formed screen of the requested size (at least
      one row and one column) with the cursor inside it. */
  lemma {:induction false} ResizeOk(s: Scr, rows: nat, cols: nat, at: Spot, reflow: bool)
    requires ScrOk(s) && rows <= 0xFFFF && cols <= 0xFFFF && at.row < s.rows && at.col < s.cols
    ensures var (t, to) := Resize(s, rows, cols, at, reflow);
            && ScrOk(t) && t.rows == Max(rows, 1) && t.cols == Max(cols, 1) && t.maxScrollback == s.maxScrollback
            && to.row < t.rows && to.col < t.cols
  {
    hide FitWidth, Shorten, Lengthen, RowsFit;
    var h, w := Max(rows, 1), Max(cols, 1);
    FitWidthOk(s, w, at, reflow);
    var (t, to) := FitWidth(s, w, at, reflow);
    ShortenOk(t, to, h, reflow);
    var (u, up) := Shorten(t, to, h, reflow);
    LengthenOk(u, up, h, reflow);
  }

  // ---- height changes conserve the text ---------------------------------------

  /** One past the last row that shows something. */
  function ShownRows(grid: seq<Row>): (n: nat)
    ensures n <= |grid|
    ensures forall i | n <= i < |grid| :: RowBlank(grid[i])
  {
    if grid == [] then 0
    else if RowBlank(grid[|grid| - 1]) then ShownRows(grid[..|grid| - 1])
    else |grid|
  }

  /** Blank rows dropped from the bottom when the grid shrinks. */
  function DropsBelow(s: Scr, at: Spot, rows: nat): nat {
    var kept := Max(at.row + 1, ShownRows(s.grid));
    if |s.grid| <= rows then 0 else Min(|s.grid| - rows, if |s.grid| > kept then |s.grid| - kept else 0)
  }

  /** Rows that leave at the top when the grid shrinks. */
  function MovesUp(s: Scr, at: Spot, rows: nat): nat {
    if |s.grid| <= rows then 0 else |s.grid| - rows - DropsBelow(s, at, rows)
  }

  lemma {:induction false} KeepTwice(sb: seq<Row>, a: seq<Row>, b: seq<Row>, max: nat)
    ensures KeepLast(KeepLast(sb + a, max) + b, max) == KeepLast(sb + a + b, max)
  {
  }

  /** `m` rows leave at the top and `d` at the bottom. */
  function Shrunk(s: Scr, at: Spot, m: nat, d: nat): (Scr, Spot)
    requires m + d <= |s.grid|
  {
    (s.(grid := s.grid[m..|s.grid| - d], scrollback := KeepLast(s.scrollback + s.grid[..m], s.maxScrollback)),
     at.(row := if at.row > m then at.row - m else 0))
  }

  lemma {:induction false} TopRows(sb: seq<Row>, grid: seq<Row>, m: nat)
    requires m < |grid|
    ensures sb + [grid[0]] + grid[1..][..m] == sb + grid[..m + 1]
    ensures grid[1..][m..|grid| - 1 - 0] == grid[m + 1..|grid| - 0]
  {
    assert [grid[0]] + grid[1..][..m] == grid[..m + 1];
  }

  lemma {:induction false} ShrunkTop(s: Scr, at: Spot, m: nat)
    requires m < |s.grid|
    ensures var t := s.(grid := s.grid[1..], scrollback := KeepLast(s.scrollback + [s.grid[0]], s.maxScrollback));
            Shrunk(t, at.(row := if at.row > 0 then at.row - 1 else 0), m, 0) == Shrunk(s, at, m + 1, 0)
  {
    KeepTwice(s.scrollback, [s.grid[0]], s.grid[1..][..m], s.maxScrollback);
    hide KeepLast;
    TopRows(s.scrollback, s.grid, m);
  }

  lemma {:induction false} ShrunkBottom(s: Scr, at: Spot, m: nat, d: nat)
    requires m + d < |s.grid|
    ensures Shrunk(s.(grid := s.grid[..|s.grid| - 1]), at, m, d) == Shrunk(s, at, m, d + 1)
  {
    var g := s.grid[..|s.grid| - 1];
    assert |g| - d == |s.grid| - (d + 1);
    assert g[m..|g| - d] == s.grid[m..|s.grid| - (d + 1)];
    assert g[..m] == s.grid[..m];
  }

  lemma {:induction false} ShrunkNone(s: Scr, at: Spot)
    requires |s.scrollback| <= s.maxScrollback
    ensures Shrunk(s, at, 0, 0) == (s, at)
  {
    assert s.scrollback + s.grid[..0] == s.scrollback && s.grid[0..|s.grid| - 0] == s.grid;
  }

  /** The loop in closed form: first blank rows below the cursor are dropped, then only top rows
      leave, into the scrollback. */
  lemma {:induction false} ShortenClosed(s: Scr, at: Spot, rows: nat)
    requires 1 <= rows && at.row < |s.grid| && |s.scrollback| <= s.maxScrollback
    ensures DropsBelow(s, at, rows) + MovesUp(s, at, rows) <= |s.grid|
    ensures Shorten(s, at, rows, true) == Shrunk(s, at, MovesUp(s, at, rows), DropsBelow(s, at, rows))
    decreases |s.grid|
  {
    hide Shrunk, RowBlank;
    var n := |s.grid|;
    if n <= rows {
      ShrunkNone(s, at);
    } else if at.row >= n - 1 || !RowBlank(s.grid[n - 1]) {
      NothingBelow(s, at);
      TopLeaves(s, at, rows);
    } else {
      var t := s.(grid := s.grid[..n - 1]);
      ShortenClosed(t, at, rows);
      ShrunkBottom(s, at, MovesUp(t, at, rows), DropsBelow(t, at, rows));
    }
  }

  lemma {:induction false} TopLeaves(s: Scr, at: Spot, rows: nat)
    requires 1 <= rows < |s.grid| && at.row < |s.grid| && |s.scrollback| <= s.maxScrollback
    requires at.row >= |s.grid| - 1 || !RowBlank(s.grid[|s.grid| - 1])
    ensures Shorten(s, at, rows, true) == Shrunk(s, at, |s.grid| - rows, 0)
    decreases |s.grid|
  {
    hide Shrunk, RowBlank;
    var n := |s.grid|;
    var t := s.(grid := s.grid[1..], scrollback := KeepLast(s.scrollback + [s.grid[0]], s.maxScrollback));
    var to := at.(row := if at.row > 0 then at.row - 1 else 0);
    assert Shorten(s, at, rows, true) == Shorten(t, to, rows, true);
    ShrunkTop(s, at, n - rows - 1);
    if n - 1 > rows {
      assert t.grid[n - 2] == s.grid[n - 1];
      TopLeaves(t, to, rows);
    } else {
      ShrunkNone(t, to);
    }
  }

  lemma {:induction false} NothingBelow(s: Scr, at: Spot)
    requires at.row < |s.grid| && (at.row >= |s.grid| - 1 || !RowBlank(s.grid[|s.grid| - 1]))
    ensures Max(at.row + 1, ShownRows(s.grid)) == |s.grid|
  {
  }

  /** Shrinking: the rows kept are a contiguous part of what was there; the rows below it are blank,
      and rows are missing at the front only if the scrollback is full. */
  lemma {:induction false} ShrinkConserves(s: Scr, at: Spot, rows: nat)
    requires ScrOk(s) && 1 <= rows && at.row < s.rows
    ensures var (t, _) := Shorten(s, at, rows, true);
            var all := AllRows(s);
            var d := DropsBelow(s, at, rows);
            && |AllRows(t)| + d <= |all|
            && AllRows(t) == all[|all| - d - |AllRows(t)|..|all| - d]
            && (forall i | |all| - d <= i < |all| :: RowBlank(all[i]))
            && (|AllRows(t)| + d < |all| ==> |t.scrollback| == s.maxScrollback)
  {
    assert |s.scrollback| <= s.maxScrollback && at.row < |s.grid|;
    hide *;
    ShortenClosed(s, at, rows);
    var d, m := DropsBelow(s, at, rows), MovesUp(s, at, rows);
    DroppedBlank(s, at, rows);
    ShrunkRows(s, at, m, d);
  }

  lemma {:induction false} ShrunkRows(s: Scr, at: Spot, m: nat, d: nat)
    requires m + d <= |s.grid|
    ensures var (t, _) := Shrunk(s, at, m, d);
            var all := AllRows(s);
            && |AllRows(t)| + d <= |all|
            && AllRows(t) == all[|all| - d - |AllRows(t)|..|all| - d]
            && (|AllRows(t)| + d < |all| ==> |t.scrollback| == s.maxScrollback)
  {
    Slices(s.scrollback, s.grid, m, d, s.maxScrollback);
    hide KeepLast;
  }

  lemma {:induction false} DroppedBlank(s: Scr, at: Spot, rows: nat)
    ensures var d := DropsBelow(s, at, rows);
            d <= |s.grid| && forall i | |AllRows(s)| - d <= i < |AllRows(s)| :: RowBlank(AllRows(s)[i])
  {
  }

  lemma {:induction false} Slices(sb: seq<Row>, grid: seq<Row>, m: nat, d: nat, max: nat)
    requires m + d <= |grid|
    ensures var all := sb + grid;
            var kept := KeepLast(sb + grid[..m], max) + grid[m..|grid| - d];
            && |kept| + d <= |all| && kept == all[|all| - d - |kept|..|all| - d]
            && (|kept| + d < |all| ==> |KeepLast(sb + grid[..m], max)| == max)
  {
    var pre := sb + grid[..m];
    var e := |pre| - |KeepLast(pre, max)|;
    assert pre + grid[m..|grid| - d] == (sb + grid)[..|sb + grid| - d];
    assert pre[e..] + grid[m..|grid| - d] == (pre + grid[m..|grid| - d])[e..];
  }

  /** Exactly when shrinking keeps the cursor on its own row: the text must not reach further than
      `rows` below it. On row 0 with a taller text the cursor's row goes into the scrollback. */
  lemma {:induction false} CursorRowKept(s: Scr, at: Spot, rows: nat)
    requires ScrOk(s) && 1 <= rows < s.rows && at.row < s.rows
    ensures var (t, to) := Shorten(s, at, rows, true);
            var lost := MovesUp(s, at, rows);
            && to.row < rows == |t.grid|
            && (to.row + lost == at.row <==> ShownRows(s.grid) <= rows + at.row)
            && (to.row + lost == at.row ==> t.grid[to.row] == s.grid[at.row])
  {
    ShortenClosed(s, at, rows);
    hide Shorten;
  }

  /** Growing back: the newest scrollback rows return above the grid and nothing else changes. */
  lemma {:induction false} GrowConserves(s: Scr, at: Spot, rows: nat)
    requires ScrOk(s) && s.rows <= rows
    ensures var (t, to) := Lengthen(s, at, rows, true);
            && AllRows(t) == AllRows(s) + BlankRows(|AllRows(t)| - |AllRows(s)|, s.cols, PLAIN)
            && |t.scrollback| + to.row == |s.scrollback| + at.row
            && (t.scrollback != [] ==> AllRows(t) == AllRows(s))
  {
    var (t, to) := Lengthen(s, at, rows, true);
    var keep := |t.scrollback|;
    assert s.scrollback[..keep] + (s.scrollback[keep..] + s.grid) == AllRows(s);
    if |s.scrollback[keep..] + s.grid| >= rows {
      assert AllRows(s) + BlankRows(0, s.cols, PLAIN) == AllRows(s);
    }
  }
}
