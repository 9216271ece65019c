// crates/posh-term/src/png.rs: undoing the per-scanline filters in place, against the filters of
// section 6 of RFC 2083.
module Png {
  import opened Utf8
  import opened Sequences

  function Distance(a: int, b: int): nat {
    if a < b then b - a else a - b
  }

  /** The Paeth predictor: the neighbour nearest to left + up - corner, in that order on ties. */
  function Paeth(a: byte, b: byte, c: byte): (r: byte)
    ensures r == a || r == b || r == c
    ensures var p := a + b - c;
            && Distance(p, r) <= Distance(p, a) && Distance(p, r) <= Distance(p, b) && Distance(p, r) <= Distance(p, c)
            && (Distance(p, a) == Distance(p, r) ==> r == a)
            && (Distance(p, b) == Distance(p, r) ==> r == a || r == b)
  {
    var p := a + b - c;
    var pa, pb, pc := Distance(p, a), Distance(p, b), Distance(p, c);
    if pa <= pb && pa <= pc then a else if pb <= pc then b else c
  }

  function Predicted(filter: byte, left: byte, up: byte, corner: byte): byte
    requires filter <= 4
  {
    if filter == 0 then 0
    else if filter == 1 then left
    else if filter == 2 then up
    else if filter == 3 then (left + up) / 2
    else Paeth(left, up, corner)
  }

  /** A byte of a row, zero outside the image. */
  function At(row: seq<byte>, i: int): byte {
    if 0 <= i < |row| then row[i] else 0
  }

  // ---- filtering, as an encoder does it -------------------------------------

  /** Each byte minus its prediction from the unfiltered bytes around it. */
  function FilterRow(filter: byte, prior: seq<byte>, row: seq<byte>, bpp: nat): (r: seq<byte>)
    requires filter <= 4 && bpp >= 1
    ensures |r| == |row|
  {
    seq(|row|, i requires 0 <= i < |row| =>
      var x: int := row[i];
      (x - Predicted(filter, At(row, i - bpp), At(prior, i), At(prior, i - bpp))) % 256)
  }

  datatype Line = Line(filter: byte, row: seq<byte>)

  /** Scanlines with their filter bytes, `prior` being the row above the first. */
  function Scanlines(prior: seq<byte>, lines: seq<Line>, bpp: nat): seq<byte>
    requires bpp >= 1 && forall i | 0 <= i < |lines| :: lines[i].filter <= 4
    decreases |lines|
  {
    if lines == [] then []
    else
      [lines[0].filter] + FilterRow(lines[0].filter, prior, lines[0].row, bpp)
      + Scanlines(lines[0].row, lines[1..], bpp)
  }

  function Pixels(lines: seq<Line>): seq<byte> {
    if lines == [] then [] else lines[0].row + Pixels(lines[1..])
  }

  // ---- unfiltering ----------------------------------------------------------

  /** Bytes `|done|..` of a line, given those before. */
  function UnfilterFrom(filter: byte, prior: seq<byte>, line: seq<byte>, bpp: nat, done: seq<byte>): (r: seq<byte>)
    requires filter <= 4 && bpp >= 1 && |done| <= |line|
    ensures |r| == |line| && done <= r
    decreases |line| - |done|
  {
    var i := |done|;
    if i == |line| then done
    else
      var x: int := line[i];
      var y: byte := (x + Predicted(filter, At(done, i - bpp), At(prior, i), At(prior, i - bpp))) % 256;
      UnfilterFrom(filter, prior, line, bpp, done + [y])
  }

  datatype Outcome = Image(pixels: seq<byte>) | BadData

  /** `n` scanlines of `stride` bytes; an unknown filter fails if the lines are not empty. */
  function Unfiltered(prior: seq<byte>, raw: seq<byte>, stride: nat, n: nat, bpp: nat): (o: Outcome)
    requires |raw| == n * (stride + 1) && bpp >= 1
    ensures o.Image? ==> |o.pixels| == n * stride
    decreases n
  {
    if n == 0 then Image([])
    else
      LineFits(n, stride);
      var filter, line, rest := raw[0], raw[1..stride + 1], raw[stride + 1..];
      if filter > 4 && stride > 0 then BadData
      else
        var row := if filter > 4 then [] else UnfilterFrom(filter, prior, line, bpp, []);
        var more := Unfiltered(row, rest, stride, n - 1, bpp);
        if more.BadData? then BadData else Image(row + more.pixels)
  }

  lemma {:induction false} LineFits(n: nat, stride: nat)
    requires n > 0
    ensures n * (stride + 1) == (stride + 1) + (n - 1) * (stride + 1)
    ensures n * stride == stride + (n - 1) * stride
  {
  }

  /** Unfiltering one filtered row gives the row back. */
  lemma {:induction false} RowBack(filter: byte, prior: seq<byte>, row: seq<byte>, bpp: nat, k: nat)
    requires filter <= 4 && bpp >= 1 && k <= |row|
    ensures UnfilterFrom(filter, prior, FilterRow(filter, prior, row, bpp), bpp, row[..k]) == row
    decreases |row| - k
  {
    hide UnfilterFrom, Undone, FilterRow;
    var line := FilterRow(filter, prior, row, bpp);
    if k == |row| {
      assert row[..k] == row;
      Finished(filter, prior, line, bpp, row);
    } else {
      NextByte(filter, prior, line, bpp, row[..k]);
      UndoneBack(filter, prior, row, bpp, k);
      assert row[..k] + [row[k]] == row[..k + 1];
      RowBack(filter, prior, row, bpp, k + 1);
    }
  }

  /** The byte of a filtered row, undone with the bytes before it. */
  lemma {:induction false} UndoneBack(filter: byte, prior: seq<byte>, row: seq<byte>, bpp: nat, k: nat)
    requires filter <= 4 && bpp >= 1 && k < |row|
    ensures Undone(filter, prior, FilterRow(filter, prior, row, bpp)[k], bpp, row[..k]) == row[k]
  {
    hide Predicted;
    assert At(row[..k], k - bpp) == At(row, k - bpp);
    ByteBack(row[k], Predicted(filter, At(row, k - bpp), At(prior, k), At(prior, k - bpp)));
  }

  lemma {:induction false} ByteBack(x: int, p: int)
    requires 0 <= x < 256
    ensures ((x - p) % 256 + p) % 256 == x
  {
  }

  /** Unfiltering inverts filtering: any pixels, any bytes per pixel, any filter for each row. */
  lemma {:induction false} ImageBack(prior: seq<byte>, lines: seq<Line>, stride: nat, bpp: nat)
    requires bpp >= 1 && forall i | 0 <= i < |lines| :: lines[i].filter <= 4 && |lines[i].row| == stride
    ensures |Scanlines(prior, lines, bpp)| == |lines| * (stride + 1)
    ensures Unfiltered(prior, Scanlines(prior, lines, bpp), stride, |lines|, bpp) == Image(Pixels(lines))
    decreases |lines|
  {
    if lines != [] {
      var l := lines[0];
      LineFits(|lines|, stride);
      ImageBack(l.row, lines[1..], stride, bpp);
      RowBack(l.filter, prior, l.row, bpp, 0);
      var raw := Scanlines(prior, lines, bpp);
      assert raw[1..stride + 1] == FilterRow(l.filter, prior, l.row, bpp);
      assert raw[stride + 1..] == Scanlines(l.row, lines[1..], bpp);
      if stride == 0 { assert l.row == []; }
    }
  }

  // ---- in place -------------------------------------------------------------

  /** The byte at `cur + i` from its neighbours, all of them already undone. */
  method UnfilterByte(raw: array<byte>, filter: byte, cur: nat, i: nat, bpp: nat, first: bool, outAt: nat,
      ghost prior: seq<byte>)
    requires filter <= 4 && bpp >= 1 && cur + i < raw.Length
    requires if first then prior == []
             else outAt + |prior| <= cur && i < |prior| && raw[..][outAt..outAt + |prior|] == prior
    modifies raw
    ensures var now := old(raw[..]);
            raw[..] == now[cur + i := Undone(filter, prior, now[cur + i], bpp, now[cur..cur + i])]
  {
    hide Predicted;
    var left: byte := if i >= bpp then raw[cur + i - bpp] else 0;
    var up: byte := if !first then raw[outAt + i] else 0;
    var corner: byte := if !first && i >= bpp then raw[outAt + i - bpp] else 0;
    assert !first ==> up == raw[..][outAt..outAt + |prior|][i];
    assert !first && i >= bpp ==> corner == raw[..][outAt..outAt + |prior|][i - bpp];
    var x: int := raw[cur + i];
    raw[cur + i] := (x + Predicted(filter, left, up, corner)) % 256;
  }

  /** Byte `|done|` of a line from its filtered value `x`. */
  function Undone(filter: byte, prior: seq<byte>, x: byte, bpp: nat, done: seq<byte>): byte
    requires filter <= 4
  {
    var v: int := x;
    var i := |done|;
    (v + Predicted(filter, At(done, i - bpp), At(prior, i), At(prior, i - bpp))) % 256
  }

  /** A whole line undone; an empty one whatever its filter. */
  function LineOf(filter: byte, prior: seq<byte>, line: seq<byte>, bpp: nat): (r: seq<byte>)
    requires bpp >= 1 && (filter <= 4 || line == [])
    ensures |r| == |line|
  {
    if line == [] then [] else UnfilterFrom(filter, prior, line, bpp, [])
  }

  lemma {:induction false} LineIs(filter: byte, prior: seq<byte>, line: seq<byte>, bpp: nat)
    requires bpp >= 1 && filter <= 4 && line != []
    ensures LineOf(filter, prior, line, bpp) == UnfilterFrom(filter, prior, line, bpp, [])
  {
  }

  /** Undoes one row whose filtered bytes stand at `cur`; `outAt` is where the row above stands. */
  method UnfilterRow(raw: array<byte>, filter: byte, cur: nat, stride: nat, bpp: nat, first: bool, outAt: nat,
      ghost prior: seq<byte>)
    requires bpp >= 1 && cur + stride <= raw.Length && filter <= 4
    requires if first then prior == []
             else |prior| == stride && outAt + stride <= cur && raw[..][outAt..outAt + stride] == prior
    modifies raw
    ensures var was := old(raw[..]);
            raw[..] == was[..cur] + UnfilterFrom(filter, prior, was[cur..cur + stride], bpp, []) + was[cur + stride..]
  {
    hide *;
    ghost var was := raw[..];
    ghost var line := was[cur..cur + stride];
    ghost var done: seq<byte> := [];
    SpliceNone(was, cur);
    for i := 0 to stride
      invariant |done| == i && |was| == raw.Length && Part(raw[..], was, cur, done)
      invariant UnfilterFrom(filter, prior, line, bpp, done) == UnfilterFrom(filter, prior, line, bpp, [])
    {
      ghost var now := raw[..];
      ghost var y := Undone(filter, prior, line[i], bpp, done);
      Spliced(was, cur, done, now);
      if !first { Above(now, was, cur, outAt, stride, prior); }
      NextByte(filter, prior, line, bpp, done);
      SplicePush(was, cur, done, now, y);
      UnfilterByte(raw, filter, cur, i, bpp, first, outAt, prior);
      done := done + [y];
    }
    Spliced(was, cur, done, raw[..]);
    Finished(filter, prior, line, bpp, done);
  }

  /** A buffer with the first bytes of a row replaced. */
  ghost predicate Part(now: seq<byte>, was: seq<byte>, cur: nat, done: seq<byte>) {
    cur + |done| <= |was| && now == was[..cur] + done + was[cur + |done|..]
  }

  lemma {:induction false} SpliceNone(was: seq<byte>, cur: nat)
    requires cur <= |was|
    ensures Part(was, was, cur, [])
  {
  }

  lemma {:induction false} Spliced(was: seq<byte>, cur: nat, done: seq<byte>, now: seq<byte>)
    requires Part(now, was, cur, done)
    ensures |now| == |was| && cur + |done| <= |was| && now == was[..cur] + done + was[cur + |done|..]
    ensures now[..cur] == was[..cur] && now[cur..cur + |done|] == done
    ensures cur + |done| < |was| ==> now[cur + |done|] == was[cur + |done|]
  {
  }

  lemma {:induction false} SplicePush(was: seq<byte>, cur: nat, done: seq<byte>, now: seq<byte>, y: byte)
    requires Part(now, was, cur, done) && |now| == |was| && cur + |done| < |was|
    ensures Part(now[cur + |done| := y], was, cur, done + [y])
  {
  }

  lemma {:induction false} Finished(filter: byte, prior: seq<byte>, line: seq<byte>, bpp: nat, done: seq<byte>)
    requires filter <= 4 && bpp >= 1 && |done| == |line|
    ensures UnfilterFrom(filter, prior, line, bpp, done) == done
  {
  }

  lemma {:induction false} Above(now: seq<byte>, was: seq<byte>, cur: nat, outAt: nat, stride: nat, prior: seq<byte>)
    requires outAt + stride <= cur <= |now| == |was| && now[..cur] == was[..cur] && prior == was[outAt..outAt + stride]
    ensures now[outAt..outAt + stride] == prior
  {
    assert now[outAt..outAt + stride] == now[..cur][outAt..outAt + stride];
    assert was[outAt..outAt + stride] == was[..cur][outAt..outAt + stride];
  }

  lemma {:induction false} NextByte(filter: byte, prior: seq<byte>, line: seq<byte>, bpp: nat, done: seq<byte>)
    requires filter <= 4 && bpp >= 1 && |done| < |line|
    ensures UnfilterFrom(filter, prior, line, bpp, done) ==
            UnfilterFrom(filter, prior, line, bpp, done + [Undone(filter, prior, line[|done|], bpp, done)])
  {
    hide Predicted;
  }

  /** Moves `n` bytes from `from` down to `to`. */
  method ShiftDown(raw: array<byte>, from: nat, to: nat, n: nat)
    requires to <= from && from + n <= raw.Length
    modifies raw
    ensures var was := old(raw[..]); raw[..] == was[..to] + was[from..from + n] + was[to + n..]
  {
    hide *;
    ghost var was := raw[..];
    MoveBytes(raw, from, to, n, was);
    MovedIs(was, raw[..], from, to, n);
  }

  method MoveBytes(raw: array<byte>, from: nat, to: nat, n: nat, ghost was: seq<byte>)
    requires to <= from && from + n <= raw.Length && raw[..] == was
    modifies raw
    ensures Moved(was, raw[..], from, to, n)
  {
    hide *;
    ShiftNone(was, from, to);
    for i := 0 to n
      invariant Moved(was, raw[..], from, to, i)
    {
      ghost var now := raw[..];
      ShiftStep(was, now, from, to, i);
      CopyByte(raw, from + i, to + i, now);
    }
  }

  /** `i` bytes from `from` on have been moved down to `to`. */
  ghost predicate Moved(was: seq<byte>, now: seq<byte>, from: nat, to: nat, i: nat) {
    to <= from && from + i <= |was| == |now| && now == was[..to] + was[from..from + i] + was[to + i..]
  }

  lemma {:induction false} MovedIs(was: seq<byte>, now: seq<byte>, from: nat, to: nat, i: nat)
    requires Moved(was, now, from, to, i)
    ensures to <= from && from + i <= |was| && now == was[..to] + was[from..from + i] + was[to + i..]
  {
  }

  method CopyByte(raw: array<byte>, from: nat, to: nat, ghost was: seq<byte>)
    requires from < raw.Length && to < raw.Length && raw[..] == was
    modifies raw
    ensures raw[..] == was[to := was[from]]
  {
    raw[to] := raw[from];
  }

  lemma {:induction false} ShiftNone(was: seq<byte>, from: nat, to: nat)
    requires to <= from <= |was|
    ensures Moved(was, was, from, to, 0)
  {
  }

  lemma {:induction false} ShiftStep(was: seq<byte>, now: seq<byte>, from: nat, to: nat, i: nat)
    requires Moved(was, now, from, to, i) && from + i < |was|
    ensures to + i < |now| && from + i < |now| && Moved(was, now[to + i := now[from + i]], from, to, i + 1)
  {
    assert now[from + i] == was[from + i];
  }

  /** The row that the scanline at the front of `rest` stands for. */
  function RowOf(rest: seq<byte>, prior: seq<byte>, stride: nat, bpp: nat): (out: seq<byte>)
    requires bpp >= 1 && |rest| >= stride + 1 && (rest[0] <= 4 || stride == 0)
    ensures |out| == stride
  {
    LineOf(rest[0], prior, rest[1..stride + 1], bpp)
  }

  /** One scanline: shifted over its filter byte, then undone. */
  method UnfilterLine(raw: array<byte>, lineAt: nat, cur: nat, stride: nat, bpp: nat, first: bool, outAt: nat,
      ghost prior: seq<byte>)
    returns (ok: bool)
    requires bpp >= 1 && cur <= lineAt && lineAt + stride < raw.Length
    requires if first then prior == []
             else |prior| == stride && outAt + stride <= cur && prior == raw[..][outAt..outAt + stride]
    modifies raw
    ensures ok <==> old(raw[..])[lineAt] <= 4 || stride == 0
    ensures ok ==> var was := old(raw[..]);
                   raw[..] == was[..cur] + LineOf(was[lineAt], prior, was[lineAt + 1..lineAt + 1 + stride], bpp)
                     + was[cur + stride..]
  {
    ghost var was := raw[..];
    ghost var line := was[lineAt + 1..lineAt + 1 + stride];
    var filter := raw[lineAt];
    hide *;
    ShiftDown(raw, lineAt + 1, cur, stride);
    ghost var now := raw[..];
    Spliced(was, cur, line, now);
    if !first { Above(now, was, cur, outAt, stride, prior); }
    if stride == 0 {
      LineNone(filter, prior, line, bpp);
      return true;
    }
    if filter > 4 { return false; }
    LineIs(filter, prior, line, bpp);
    UnfilterRow(raw, filter, cur, stride, bpp, first, outAt, prior);
    ok := true;
  }

  lemma {:induction false} LineNone(filter: byte, prior: seq<byte>, line: seq<byte>, bpp: nat)
    requires bpp >= 1 && line == []
    ensures LineOf(filter, prior, line, bpp) == line
  {
  }

  /** The buffer after a line has been shifted and undone. */
  lemma {:induction false} Lands(done: seq<byte>, gap: seq<byte>, rest: seq<byte>, stride: nat, out: seq<byte>)
    requires |rest| >= stride + 1 && |out| == stride
    ensures var s := done + gap + rest;
            s[..|done|] + out + s[|done| + stride..] ==
              (done + out) + (gap + rest)[stride..|gap| + stride + 1] + rest[stride + 1..]
  {
    Layout(done, gap, rest, stride);
    Assoc(done + out, (gap + rest)[stride..|gap| + stride + 1], rest[stride + 1..]);
  }

  lemma {:induction false} AboveIn(done: seq<byte>, gap: seq<byte>, rest: seq<byte>, outAt: nat)
    requires outAt <= |done|
    ensures (done + gap + rest)[outAt..|done|] == done[outAt..]
  {
  }

  lemma {:induction false} RowOfIs(rest: seq<byte>, prior: seq<byte>, stride: nat, bpp: nat)
    requires bpp >= 1 && |rest| >= stride + 1 && (rest[0] <= 4 || stride == 0)
    ensures RowOf(rest, prior, stride, bpp) == LineOf(rest[0], prior, rest[1..stride + 1], bpp)
  {
  }

  /** `unfilter`: each row is shifted over its filter byte and undone where it then stands. The result
      occupies the front of the buffer; nothing is overwritten before it has been read. */
  method Unfilter(raw: array<byte>, stride: nat, height: nat, bpp: nat) returns (ok: bool, n: nat)
    requires raw.Length == height * (stride + 1) && bpp >= 1
    modifies raw
    ensures var o := Unfiltered([], old(raw[..]), stride, height, bpp);
            ok == o.Image? && (ok ==> n == height * stride <= raw.Length && raw[..][..n] == o.pixels)
  {
    hide *;
    ghost var whole := raw[..];
    ghost var v, outAt;
    AtStart(whole, stride, height, bpp);
    ok, v, outAt := UnfilterRows(raw, stride, height, bpp);
    if !ok { return false, 0; }
    AtEnd(raw[..], whole, v, height, height, stride, bpp, outAt);
    return true, height * stride;
  }

  method UnfilterRows(raw: array<byte>, stride: nat, height: nat, bpp: nat)
      returns (ok: bool, ghost v: View, ghost at: nat)
    requires Starts(0, 0, 0, stride) && Midway(raw[..], raw[..], View([], [], raw[..], []), 0, height, stride, bpp, 0)
    modifies raw
    ensures !ok ==>
              && bpp >= 1 && |old(raw[..])| == height * (stride + 1)
              && Unfiltered([], old(raw[..]), stride, height, bpp) == BadData
    ensures ok ==> Midway(raw[..], old(raw[..]), v, height, height, stride, bpp, at)
  {
    hide *;
    ghost var whole := raw[..];
    var outAt: nat, row: nat, lineAt: nat, cur: nat := 0, 0, 0, 0;
    v := View([], [], whole, []);
    while row < height
      invariant row <= height && Starts(lineAt, cur, row, stride)
      invariant Midway(raw[..], whole, v, row, height, stride, bpp, outAt)
      decreases height - row
    {
      NextLine(raw[..], whole, v, row, height, stride, bpp, outAt, lineAt, cur);
      ok := UnfilterLine(raw, lineAt, cur, stride, bpp, row == 0, outAt, v.prior);
      if !ok { return false, v, outAt; }
      v := After(v, stride, bpp);
      outAt, row, lineAt, cur := cur, row + 1, lineAt + (stride + 1), cur + stride;
    }
    return true, v, outAt;
  }

  /** The buffer in the middle of the pass: rows done, bytes left behind, lines to come; the last row. */
  datatype View = View(done: seq<byte>, gap: seq<byte>, rest: seq<byte>, prior: seq<byte>)

  ghost predicate Midway(now: seq<byte>, whole: seq<byte>, v: View, row: nat, height: nat, stride: nat, bpp: nat,
      outAt: nat) {
    && bpp >= 1 && row <= height && |whole| == height * (stride + 1) == |now|
    && now == v.done + v.gap + v.rest && |v.done| == row * stride && |v.done + v.gap| == row * (stride + 1)
    && |v.rest| == (height - row) * (stride + 1)
    && (if row == 0 then v.prior == []
        else |v.prior| == stride && outAt + stride == |v.done| && v.prior == v.done[outAt..])
    && Joined(v.done, Unfiltered(v.prior, v.rest, stride, height - row, bpp)) ==
       Unfiltered([], whole, stride, height, bpp)
  }

  /** Where line `row` begins, in the buffer and in the pixels. */
  ghost predicate Starts(lineAt: nat, cur: nat, row: nat, stride: nat) {
    lineAt == row * (stride + 1) && cur == row * stride
  }

  function After(v: View, stride: nat, bpp: nat): View
    requires bpp >= 1 && |v.rest| >= stride + 1 && (v.rest[0] <= 4 || stride == 0)
  {
    var out := RowOf(v.rest, v.prior, stride, bpp);
    View(v.done + out, (v.gap + v.rest)[stride..|v.gap| + stride + 1], v.rest[stride + 1..], out)
  }

  lemma {:induction false} AtStart(whole: seq<byte>, stride: nat, height: nat, bpp: nat)
    requires bpp >= 1 && |whole| == height * (stride + 1)
    ensures Starts(0, 0, 0, stride) && Midway(whole, whole, View([], [], whole, []), 0, height, stride, bpp, 0)
  {
    Nothing(Unfiltered([], whole, stride, height, bpp));
  }

  lemma {:induction false} AtEnd(now: seq<byte>, whole: seq<byte>, v: View, row: nat, height: nat, stride: nat,
      bpp: nat, outAt: nat)
    requires Midway(now, whole, v, row, height, stride, bpp, outAt) && row == height
    ensures height * stride <= |now| && |whole| == height * (stride + 1) && bpp >= 1
    ensures Unfiltered([], whole, stride, height, bpp) == Image(now[..height * stride])
  {
    NoRows(v.prior, v.rest, stride, bpp);
    Done(v.done, v.gap, v.rest);
  }

  /** What one line needs. */
  lemma {:induction false} BeforeLine(now: seq<byte>, whole: seq<byte>, v: View, row: nat, height: nat, stride: nat,
      bpp: nat, outAt: nat)
    requires Midway(now, whole, v, row, height, stride, bpp, outAt) && row < height
    ensures var lineAt, cur := row * (stride + 1), row * stride;
            && bpp >= 1 && cur <= lineAt && lineAt + stride < |now| && |whole| == height * (stride + 1)
            && |v.rest| >= stride + 1
            && (if row == 0 then v.prior == []
                else |v.prior| == stride && outAt + stride <= cur && v.prior == now[outAt..outAt + stride])
            && now[lineAt] == v.rest[0] && now[lineAt + 1..lineAt + 1 + stride] == v.rest[1..stride + 1]
            && |v.done| == cur && now == v.done + v.gap + v.rest && |v.rest| == (height - row) * (stride + 1)
            && |v.done + v.gap| == lineAt && |v.rest[stride + 1..]| == (height - row - 1) * (stride + 1)
            && Joined(v.done, Unfiltered(v.prior, v.rest, stride, height - row, bpp)) ==
               Unfiltered([], whole, stride, height, bpp)
  {
    LineFits(height - row, stride);
    hide Unfiltered, Joined;
    Layout(v.done, v.gap, v.rest, stride);
    if row > 0 { AboveIn(v.done, v.gap, v.rest, outAt); }
  }

  /** What failing means, and where the pass stands after a line. */
  lemma {:induction false} AfterLine(now: seq<byte>, whole: seq<byte>, v: View, row: nat, height: nat, stride: nat,
      bpp: nat, outAt: nat)
    requires Midway(now, whole, v, row, height, stride, bpp, outAt) && row < height
    requires bpp >= 1 && row * (stride + 1) + stride < |now| && row * stride + stride <= |now| && |v.rest| >= stride + 1
    requires |whole| == height * (stride + 1)
    ensures now[row * (stride + 1)] == v.rest[0]
            && now[row * (stride + 1) + 1..row * (stride + 1) + 1 + stride] == v.rest[1..stride + 1]
    ensures v.rest[0] > 4 && stride > 0 ==> Unfiltered([], whole, stride, height, bpp) == BadData
    ensures v.rest[0] <= 4 || stride == 0 ==>
      Midway(now[..row * stride] + LineOf(v.rest[0], v.prior, v.rest[1..stride + 1], bpp)
        + now[row * stride + stride..],
        whole, After(v, stride, bpp), row + 1, height, stride, bpp, row * stride)
  {
    hide *;
    BeforeLine(now, whole, v, row, height, stride, bpp, outAt);
    StepFits(row, stride);
    FirstRow(v.prior, v.rest, stride, height - row, bpp);
    if v.rest[0] <= 4 || stride == 0 {
      var out := RowOf(v.rest, v.prior, stride, bpp);
      RowOfIs(v.rest, v.prior, stride, bpp);
      Lands(v.done, v.gap, v.rest, stride, out);
      Grows(v.done, out, Unfiltered(out, v.rest[stride + 1..], stride, height - row - 1, bpp));
      AfterIs(v, stride, bpp);
      Stands(After(v, stride, bpp), whole, row + 1, height, stride, bpp, row * stride);
    } else {
      JoinedBad(v.done);
    }
  }

  lemma {:induction false} AfterIs(v: View, stride: nat, bpp: nat)
    requires bpp >= 1 && |v.rest| >= stride + 1 && (v.rest[0] <= 4 || stride == 0)
    ensures var out, w := RowOf(v.rest, v.prior, stride, bpp), After(v, stride, bpp);
      && w == View(v.done + out, (v.gap + v.rest)[stride..|v.gap| + stride + 1], v.rest[stride + 1..], out)
      && w.done[|v.done|..] == out && |w.done| == |v.done| + stride && |w.done + w.gap| == |v.done + v.gap| + stride + 1
      && |w.done + w.gap + w.rest| == |v.done + v.gap + v.rest|
  {
    hide RowOf;
  }

  /** The buffer seen as its pieces, once their sizes and their meaning are known. */
  lemma {:induction false} Stands(v: View, whole: seq<byte>, row: nat, height: nat, stride: nat, bpp: nat, outAt: nat)
    requires bpp >= 1 && 0 < row <= height && |whole| == height * (stride + 1) == |v.done + v.gap + v.rest|
    requires |v.done| == row * stride && |v.done + v.gap| == row * (stride + 1)
             && |v.rest| == (height - row) * (stride + 1)
    requires |v.prior| == stride && outAt + stride == |v.done| && v.done[outAt..] == v.prior
    requires Joined(v.done, Unfiltered(v.prior, v.rest, stride, height - row, bpp)) ==
             Unfiltered([], whole, stride, height, bpp)
    ensures Midway(v.done + v.gap + v.rest, whole, v, row, height, stride, bpp, outAt)
  {
  }

  /** Both at once, in terms of the positions the loop keeps. */
  lemma {:induction false} NextLine(now: seq<byte>, whole: seq<byte>, v: View, row: nat, height: nat, stride: nat,
      bpp: nat, outAt: nat, lineAt: nat, cur: nat)
    requires Midway(now, whole, v, row, height, stride, bpp, outAt) && row < height
    requires Starts(lineAt, cur, row, stride)
    ensures bpp >= 1 && cur <= lineAt && lineAt + stride < |now| && |whole| == height * (stride + 1)
    ensures if row == 0 then v.prior == []
            else |v.prior| == stride && outAt + stride <= cur && v.prior == now[outAt..outAt + stride]
    ensures now[lineAt] > 4 && stride > 0 ==> Unfiltered([], whole, stride, height, bpp) == BadData
    ensures now[lineAt] <= 4 || stride == 0 ==>
      && |v.rest| >= stride + 1 && (v.rest[0] <= 4 || stride == 0)
      && Midway(now[..cur] + LineOf(now[lineAt], v.prior, now[lineAt + 1..lineAt + 1 + stride], bpp)
         + now[cur + stride..],
         whole, After(v, stride, bpp), row + 1, height, stride, bpp, cur)
    ensures Starts(lineAt + (stride + 1), cur + stride, row + 1, stride)
  {
    hide Midway, LineOf, Unfiltered, After;
    BeforeLine(now, whole, v, row, height, stride, bpp, outAt);
    AfterLine(now, whole, v, row, height, stride, bpp, outAt);
    StepFits(row, stride);
  }

  /** Where the pieces of the buffer lie. */
  lemma {:induction false} Layout(done: seq<byte>, gap: seq<byte>, rest: seq<byte>, stride: nat)
    requires |rest| >= stride + 1
    ensures var s, at := done + gap + rest, |done + gap|;
            && s[at] == rest[0] && s[at + 1..at + 1 + stride] == rest[1..stride + 1]
            && s[..|done|] == done && s[|done| + stride..] == (gap + rest)[stride..]
            && |done| + stride <= |s|
            && (gap + rest)[stride..] == (gap + rest)[stride..|gap| + stride + 1] + rest[stride + 1..]
            && s == done + (gap + rest)[..stride] + (gap + rest)[stride..]
  {
  }

  lemma {:induction false} Done(done: seq<byte>, gap: seq<byte>, rest: seq<byte>)
    ensures (done + gap + rest)[..|done|] == done && Joined(done, Image([])) == Image(done)
  {
    assert done + [] == done;
  }

  lemma {:induction false} Nothing(o: Outcome)
    ensures Joined([], o) == o
  {
    if o.Image? { assert [] + o.pixels == o.pixels; }
  }

  lemma {:induction false} NoRows(prior: seq<byte>, raw: seq<byte>, stride: nat, bpp: nat)
    requires raw == [] && bpp >= 1
    ensures 0 * (stride + 1) == 0 && Unfiltered(prior, raw, stride, 0, bpp) == Image([])
  {
  }

  /** The first scanline, and the rest relative to it. */
  lemma {:induction false} FirstRow(prior: seq<byte>, raw: seq<byte>, stride: nat, n: nat, bpp: nat)
    requires n > 0 && |raw| == n * (stride + 1) && |raw| >= stride + 1 && bpp >= 1
             && |raw[stride + 1..]| == (n - 1) * (stride + 1)
    ensures if raw[0] > 4 && stride > 0 then Unfiltered(prior, raw, stride, n, bpp) == BadData
            else var row := RowOf(raw, prior, stride, bpp);
                 Unfiltered(prior, raw, stride, n, bpp) ==
                   Joined(row, Unfiltered(row, raw[stride + 1..], stride, n - 1, bpp))
  {
    hide UnfilterFrom;
  }

  /** The rows so far in front of what the rest yields. */
  function Joined(done: seq<byte>, o: Outcome): Outcome {
    if o.BadData? then o else Image(done + o.pixels)
  }

  lemma {:induction false} JoinedBad(done: seq<byte>)
    ensures Joined(done, BadData) == BadData && !BadData.Image?
  {
  }

  lemma {:induction false} Grows(a: seq<byte>, b: seq<byte>, o: Outcome)
    ensures Joined(a, Joined(b, o)) == Joined(a + b, o)
  {
    if o.Image? { assert a + (b + o.pixels) == a + b + o.pixels; }
  }

  lemma {:induction false} StepFits(row: nat, stride: nat)
    ensures (row + 1) * (stride + 1) == row * (stride + 1) + (stride + 1) && (row + 1) * stride == row * stride + stride
  {
  }
}
