// What the graphics commands do to placements, images and frames, in the terms of the protocol: which
// placements a delete takes and which images it frees, where a placement goes, what is transmitted.
module GraphicsLaws {
  import opened Utf8
  import opened Cells
  import opened Pixels
  import opened Graphics
  import opened GraphicsProofs

  // ---- keeping some entries of a list ------------------------------------------

  /** `qs` is `ps` at the rising places `at`, which are exactly those of the entries not dropped. */
  ghost predicate Picks(ps: seq<Placement>, qs: seq<Placement>, at: seq<nat>, drop: Placement -> bool) {
    && |at| == |qs|
    && (forall i, j | 0 <= i < j < |at| :: at[i] < at[j])
    && (forall i | 0 <= i < |at| :: at[i] < |ps| && qs[i] == ps[at[i]] && !drop(ps[at[i]]))
    && (forall j | 0 <= j < |ps| && !drop(ps[j]) :: j in at)
  }

  /** Exactly the entries that meet `drop` are gone; the others stay, in order and number. */
  ghost predicate Retains(ps: seq<Placement>, qs: seq<Placement>, drop: Placement -> bool) {
    exists at: seq<nat> :: Picks(ps, qs, at, drop)
  }

  lemma {:induction false} RetainsBy(ps: seq<Placement>, qs: seq<Placement>, at: seq<nat>, drop: Placement -> bool)
    requires Picks(ps, qs, at, drop)
    ensures Retains(ps, qs, drop)
  {
  }

  lemma {:induction false} RetainsWhere(ps: seq<Placement>, qs: seq<Placement>, drop: Placement -> bool)
      returns (at: seq<nat>)
    requires Retains(ps, qs, drop)
    ensures Picks(ps, qs, at, drop) && |at| == |qs|
  {
    at :| Picks(ps, qs, at, drop);
  }

  lemma {:induction false} RetainsStep(ps: seq<Placement>, q: seq<Placement>, drop: Placement -> bool)
    requires ps != [] && Retains(ps[1..], q, drop)
    ensures Retains(ps, (if drop(ps[0]) then [] else [ps[0]]) + q, drop)
  {
    hide *;
    var at := RetainsWhere(ps[1..], q, drop);
    var up: seq<nat> := seq(|at|, i requires 0 <= i < |at| => at[i] + 1);
    UpRises(ps, q, at, up, drop);
    UpCovers(ps, q, at, up, drop);
    if drop(ps[0]) {
      PicksRest(ps, q, up, drop);
      assert [] + q == q;
      RetainsBy(ps, q, up, drop);
    } else {
      PicksFirst(ps, q, up, drop);
      RetainsBy(ps, [ps[0]] + q, [0] + up, drop);
    }
  }

  /** Places in the tail, seen from the whole. */
  lemma {:induction false} UpRises(ps: seq<Placement>, q: seq<Placement>, at: seq<nat>, up: seq<nat>,
      drop: Placement -> bool)
    requires ps != [] && Picks(ps[1..], q, at, drop)
    requires |up| == |at| && forall i | 0 <= i < |up| :: up[i] == at[i] + 1
    ensures |up| == |q| && (forall i, j | 0 <= i < j < |up| :: up[i] < up[j])
    ensures forall i | 0 <= i < |up| :: 0 < up[i] < |ps| && q[i] == ps[up[i]] && !drop(ps[up[i]])
  {
  }

  lemma {:induction false} UpCovers(ps: seq<Placement>, q: seq<Placement>, at: seq<nat>, up: seq<nat>,
      drop: Placement -> bool)
    requires ps != [] && Picks(ps[1..], q, at, drop)
    requires |up| == |at| && forall i | 0 <= i < |up| :: up[i] == at[i] + 1
    ensures forall j | 0 < j < |ps| && !drop(ps[j]) :: j in up
  {
    forall j | 0 < j < |ps| && !drop(ps[j])
      ensures j in up
    {
      assert ps[1..][j - 1] == ps[j];
      var i :| 0 <= i < |at| && at[i] == j - 1;
      assert up[i] == j;
    }
  }

  lemma {:induction false} PicksRest(ps: seq<Placement>, q: seq<Placement>, up: seq<nat>, drop: Placement -> bool)
    requires ps != [] && drop(ps[0])
    requires |up| == |q| && forall i, j | 0 <= i < j < |up| :: up[i] < up[j]
    requires forall i | 0 <= i < |up| :: 0 < up[i] < |ps| && q[i] == ps[up[i]] && !drop(ps[up[i]])
    requires forall j | 0 < j < |ps| && !drop(ps[j]) :: j in up
    ensures Picks(ps, q, up, drop)
  {
  }

  lemma {:induction false} PicksFirst(ps: seq<Placement>, q: seq<Placement>, up: seq<nat>, drop: Placement -> bool)
    requires ps != [] && !drop(ps[0])
    requires |up| == |q| && forall i, j | 0 <= i < j < |up| :: up[i] < up[j]
    requires forall i | 0 <= i < |up| :: 0 < up[i] < |ps| && q[i] == ps[up[i]] && !drop(ps[up[i]])
    requires forall j | 0 < j < |ps| && !drop(ps[j]) :: j in up
    ensures Picks(ps, [ps[0]] + q, [0] + up, drop)
  {
  }

  lemma {:induction false} RetainsNone(drop: Placement -> bool)
    ensures Retains([], [], drop)
  {
    assert Picks([], [], [], drop);
  }

  lemma {:induction false} RetainsAll(ps: seq<Placement>, drop: Placement -> bool)
    requires forall p | p in ps :: !drop(p)
    ensures Retains(ps, ps, drop)
    decreases |ps|
  {
    if ps == [] {
      RetainsNone(drop);
    } else {
      RetainsAll(ps[1..], drop);
      RetainsStep(ps, ps[1..], drop);
      assert [ps[0]] + ps[1..] == ps;
    }
  }

  lemma {:induction false} RetainsEmpty(ps: seq<Placement>, drop: Placement -> bool)
    requires forall p | p in ps :: drop(p)
    ensures Retains(ps, [], drop)
  {
    assert forall j | 0 <= j < |ps| :: ps[j] in ps;
    assert Picks(ps, [], [], drop);
  }

  /** So an entry is left exactly if it was there and is not dropped. */
  lemma {:induction false} RetainsMeans(ps: seq<Placement>, qs: seq<Placement>, drop: Placement -> bool, p: Placement)
    requires Retains(ps, qs, drop)
    ensures p in qs <==> p in ps && !drop(p)
  {
    hide Retains, Picks;
    var at := RetainsWhere(ps, qs, drop);
    if p in qs {
      var i :| 0 <= i < |qs| && qs[i] == p;
      PickedFrom(ps, qs, at, drop, i);
    }
    if p in ps && !drop(p) {
      var j: nat :| j < |ps| && ps[j] == p;
      PickedTo(ps, qs, at, drop, j);
    }
  }

  lemma {:induction false} PickedFrom(ps: seq<Placement>, qs: seq<Placement>, at: seq<nat>, drop: Placement -> bool,
      i: nat)
    requires Picks(ps, qs, at, drop) && i < |qs|
    ensures qs[i] in ps && !drop(qs[i])
  {
    assert qs[i] == ps[at[i]];
  }

  lemma {:induction false} PickedTo(ps: seq<Placement>, qs: seq<Placement>, at: seq<nat>, drop: Placement -> bool,
      j: nat)
    requires Picks(ps, qs, at, drop) && j < |ps| && !drop(ps[j])
    ensures ps[j] in qs
  {
    var i :| 0 <= i < |at| && at[i] == j;
    assert qs[i] == ps[j];
  }

  lemma {:induction false} RetainsSame(ps: seq<Placement>, qs: seq<Placement>, drop: Placement -> bool,
      goes: Placement -> bool)
    requires Retains(ps, qs, drop) && forall p | p in ps :: drop(p) <==> goes(p)
    ensures Retains(ps, qs, goes)
  {
    var at: seq<nat> :| Picks(ps, qs, at, drop);
    assert forall j | 0 <= j < |ps| :: ps[j] in ps;
    assert Picks(ps, qs, at, goes);
  }

  // ---- the cells of a placement --------------------------------------------------

  /** Pixels shown across, from the source rectangle or else from the image. */
  function PixelWidth(s: Store, p: Placement): nat {
    if p.srcW != 0 then p.srcW else if p.image in s.images then s.images[p.image].width else 0
  }

  function PixelHeight(s: Store, p: Placement): nat {
    if p.srcH != 0 then p.srcH else if p.image in s.images then s.images[p.image].height else 0
  }

  /** Cell `k` after the first: within the cells asked for, or some pixel falls on it. */
  predicate Spans(cells: nat, pixels: nat, cell: nat, k: nat) {
    if cells != 0 then k < cells else k == 0 || cell * k < pixels
  }

  /** Sums are in 32 bits; cells that reach past them cover nothing. */
  predicate OnColumn(s: Store, p: Placement, col: nat) {
    && !p.unicode && p.col <= col && p.col + p.cols < MOD32
    && Spans(p.cols, PixelWidth(s, p), 10, col - p.col)
  }

  predicate OnRow(s: Store, p: Placement, row: nat) {
    && !p.unicode && p.row <= row && p.row + p.rows < MOD32
    && Spans(p.rows, PixelHeight(s, p), 20, row - p.row)
  }

  predicate OnCell(s: Store, p: Placement, row: nat, col: nat) {
    OnRow(s, p, row) && OnColumn(s, p, col)
  }

  lemma {:induction false} CeilSpans(pixels: nat, cell: nat, k: nat)
    requires cell > 0
    ensures k < CeilDiv(pixels, cell) <==> cell * k < pixels
    ensures pixels < MOD32 ==> CeilDiv(pixels, cell) <= MOD32
  {
    var n := CeilDiv(pixels, cell);
    var r := (pixels + cell - 1) % cell;
    assert pixels + cell - 1 == n * cell + r;
    if k < n { Scales(k + 1, n, cell); }
    if cell * k < pixels { Smaller(k, n, cell, r); }
    Scales(1, cell, n);
  }

  lemma {:induction false} Scales(a: nat, b: nat, c: nat)
    requires a <= b
    ensures a * c <= b * c
  {
  }

  lemma {:induction false} Smaller(k: nat, n: nat, cell: nat, r: nat)
    requires cell * k <= n * cell + r - cell && r < cell
    ensures k < n
  {
    if k >= n { Scales(n, k, cell); }
  }

  lemma {:induction false} ExtentCovers(at: u16, cells: u32, pixels: u32, cell: nat, k: nat)
    requires cell in {10, 20}
    ensures var n: nat := if cells != 0 then cells else if pixels == 0 then 1 else CeilDiv(pixels, cell);
            Covers(at, n, k) <==> at <= k && at + cells < MOD32 && Spans(cells, pixels, cell, k - at)
  {
    var n: nat := if cells != 0 then cells else if pixels == 0 then 1 else CeilDiv(pixels, cell);
    if cells == 0 && pixels != 0 {
      TenthFits(pixels, cell);
      if k >= at { CeilSpans(pixels, cell, k - at); }
      CeilSpans(pixels, cell, 0);
    }
    hide CeilDiv;
    Wraps(at + n);
  }

  lemma {:induction false} TenthFits(pixels: u32, cell: nat)
    requires cell in {10, 20}
    ensures CeilDiv(pixels, cell) + 0x1_0000 < MOD32
  {
  }

  lemma {:induction false} Wraps(n: nat)
    ensures n < MOD32 ==> n % MOD32 == n
    ensures MOD32 <= n < 2 * MOD32 ==> n % MOD32 == n - MOD32
  {
  }

  lemma {:induction false} ColumnIs(s: Store, p: Placement, col: nat)
    ensures !p.unicode && Covers(p.col, ExtentOf(s, p).cols, col) <==> OnColumn(s, p, col)
  {
    hide CeilDiv, Covers, Spans;
    ExtentCovers(p.col, p.cols, PixelWidth(s, p), 10, col);
  }

  lemma {:induction false} RowIs(s: Store, p: Placement, row: nat)
    ensures !p.unicode && Covers(p.row, ExtentOf(s, p).rows, row) <==> OnRow(s, p, row)
  {
    hide CeilDiv, Covers, Spans;
    ExtentCovers(p.row, p.rows, PixelHeight(s, p), 20, row);
  }

  // ---- what a delete is about ------------------------------------------------------

  predicate Upper(b: byte) {
    0x41 <= b <= 0x5A
  }

  /** The delete key without its case. */
  predicate Form(c: Command, letter: char) {
    c.delete == letter as int || c.delete == letter as int - 0x20
  }

  /** The image an id or, without one, a number stands for: the newest of that number. */
  ghost predicate Names(s: Store, id: u32, number: u32, k: u32) {
    if id != 0 then k == id && id in s.images
    else number != 0 && k in s.images && s.images[k].number == number
         && forall j | j in s.images && s.images[j].number == number :: s.images[j].seqNo <= s.images[k].seqNo
  }

  /** Coordinates beyond 16 bits mean the last one. */
  function Cell16(n: nat): nat {
    if n > 0xFFFF then 0xFFFF else n
  }

  /** The placement is on the cell that `x` and `y`, counted from 1, name. */
  predicate AtKeys(s: Store, c: Command, p: Placement) {
    c.srcX > 0 && c.srcY > 0 && OnCell(s, p, Cell16(c.srcY - 1), Cell16(c.srcX - 1))
  }

  predicate Positional(c: Command) {
    Form(c, 'c') || Form(c, 'p') || Form(c, 'q') || Form(c, 'x') || Form(c, 'y') || Form(c, 'z')
  }

  /** What each form of delete takes, the cursor being at `row`, `col`. */
  ghost predicate Goes(s: Store, c: Command, row: u16, col: u16, p: Placement) {
    || c.delete == 0 || Form(c, 'a')
    || (Form(c, 'i') && Names(s, c.id, c.number, p.image) && (c.placementId == 0 || p.id == c.placementId))
    || (Form(c, 'n') && Names(s, 0, c.number, p.image))
    || (Form(c, 'c') && OnCell(s, p, row, col))
    || (Form(c, 'p') && AtKeys(s, c, p))
    || (Form(c, 'q') && p.z == c.z && AtKeys(s, c, p))
    || (Form(c, 'x') && c.srcX > 0 && OnColumn(s, p, c.srcX - 1))
    || (Form(c, 'y') && c.srcY > 0 && OnRow(s, p, c.srcY - 1))
    || (Form(c, 'z') && p.z == c.z)
  }

  /** The images an upper-case form frees: all, the one named, or those it takes placements of and leaves
      none. */
  ghost predicate Freed(s: Store, c: Command, row: u16, col: u16, id: u32) {
    Upper(c.delete) &&
    (|| Form(c, 'a')
     || (Form(c, 'i') && Names(s, c.id, c.number, id))
     || (Form(c, 'n') && Names(s, 0, c.number, id))
     || (Positional(c)
         && (exists p :: p in s.placements && p.image == id)
         && forall p | p in s.placements && p.image == id :: Goes(s, c, row, col, p)))
  }

  lemma {:induction false} KeysOnCell(s: Store, c: Command, p: Placement)
    ensures (c.srcX >= 1 && c.srcY >= 1 && Intersects(s, p, ClampCell(c.srcY - 1), ClampCell(c.srcX - 1)))
            <==> AtKeys(s, c, p)
  {
    if c.srcX >= 1 && c.srcY >= 1 {
      hide ExtentOf, Covers, OnColumn, OnRow;
      RowIs(s, p, ClampCell(c.srcY - 1));
      ColumnIs(s, p, ClampCell(c.srcX - 1));
    }
  }

  lemma {:induction false} MatchesGoes(s: Store, c: Command, p: Placement, row: u16, col: u16)
    requires Positional(c)
    ensures Matches(s, c, p, row, col) <==> Goes(s, c, row, col, p)
  {
    hide ExtentOf, Covers, OnColumn, OnRow, AtKeys;
    KeysOnCell(s, c, p);
    RowIs(s, p, row);
    ColumnIs(s, p, col);
    if c.srcX >= 1 { ColumnIs(s, p, c.srcX - 1); }
    if c.srcY >= 1 { RowIs(s, p, c.srcY - 1); }
  }

  // ---- the lists --------------------------------------------------------------------

  lemma {:induction false} WithoutRetains(ps: seq<Placement>, image: u32, drop: Placement -> bool)
    requires forall p | p in ps :: drop(p) <==> p.image == image
    ensures Retains(ps, Without(ps, image), drop)
    decreases |ps|
  {
    if ps == [] {
      RetainsNone(drop);
    } else {
      WithoutRetains(ps[1..], image, drop);
      RetainsStep(ps, Without(ps[1..], image), drop);
    }
  }

  lemma {:induction false} WithoutOfRetains(ps: seq<Placement>, image: u32, id: u32, drop: Placement -> bool)
    requires forall p | p in ps :: drop(p) <==> p.image == image && (id == 0 || p.id == id)
    ensures Retains(ps, WithoutOf(ps, image, id), drop)
    decreases |ps|
  {
    if ps == [] {
      RetainsNone(drop);
    } else {
      WithoutOfRetains(ps[1..], image, id, drop);
      RetainsStep(ps, WithoutOf(ps[1..], image, id), drop);
    }
  }

  lemma {:induction false} ReplacedRetains(ps: seq<Placement>, image: u32, id: u32, drop: Placement -> bool)
    requires forall p | p in ps :: drop(p) <==> p.image == image && p.id == id
    ensures Retains(ps, WithoutPlacement(ps, image, id), drop)
    decreases |ps|
  {
    if ps == [] {
      RetainsNone(drop);
    } else {
      ReplacedRetains(ps[1..], image, id, drop);
      RetainsStep(ps, WithoutPlacement(ps[1..], image, id), drop);
    }
  }

  lemma {:induction false} UnmatchedRetains(s: Store, c: Command, row: u16, col: u16, ps: seq<Placement>,
      drop: Placement -> bool)
    requires forall p | p in ps :: drop(p) <==> Matches(s, c, p, row, col)
    ensures Retains(ps, Unmatched(s, c, row, col, ps), drop)
    decreases |ps|
  {
    hide Matches;
    if ps == [] {
      RetainsNone(drop);
    } else {
      UnmatchedRetains(s, c, row, col, ps[1..], drop);
      RetainsStep(ps, Unmatched(s, c, row, col, ps[1..]), drop);
    }
  }

  lemma {:induction false} TouchedIs(s: Store, c: Command, row: u16, col: u16, ps: seq<Placement>, id: u32)
    ensures id in Touched(s, c, row, col, ps) <==> exists p :: p in ps && Matches(s, c, p, row, col) && p.image == id
    decreases |ps|
  {
    hide Matches;
    if ps != [] {
      TouchedIs(s, c, row, col, ps[1..], id);
      assert forall p :: p in ps <==> p == ps[0] || p in ps[1..];
    }
  }

  // ---- images ----------------------------------------------------------------------

  /** `id` is out of the store exactly if it was not in it or is freed; everything else is as it was. */
  ghost predicate Frees(s: Store, r: Store, freed: u32 -> bool) {
    && (forall k: u32 :: k in r.images <==> k in s.images && !freed(k))
    && (forall k: u32 :: k in r.frames <==> k in s.frames && !freed(k))
    && (forall k: u32 :: k in r.animations <==> k in s.animations && !freed(k))
    && (forall k: u32 | k in r.images :: r.images[k] == s.images[k])
    && (forall k: u32 | k in r.frames :: r.frames[k] == s.frames[k])
    && (forall k: u32 | k in r.animations :: r.animations[k] == s.animations[k])
    && r.pending == s.pending && r.nextSeq == s.nextSeq && r.nextId == s.nextId
  }

  lemma {:induction false} FreesNone(s: Store, freed: u32 -> bool, ps: seq<Placement>)
    requires forall k: u32 :: !freed(k)
    ensures Frees(s, s.(placements := ps), freed)
  {
  }

  lemma {:induction false} DropFrees(s: Store, id: u32, freed: u32 -> bool)
    requires forall k: u32 :: freed(k) <==> k == id
    ensures Frees(s, Drop(s, id), freed) && Drop(s, id).placements == s.placements
  {
  }

  lemma {:induction false} UnusedFrees(s: Store, ids: seq<u32>, freed: u32 -> bool)
    requires forall k: u32 :: freed(k) <==> k in ids && !InUse(s.placements, k)
    ensures Frees(s, FreeUnused(s, ids), freed) && FreeUnused(s, ids).placements == s.placements
    decreases |ids|
  {
    hide InUse;
    if ids == [] {
      FreesNone(s, freed, s.placements);
    } else {
      var rest: u32 -> bool := k => k in ids[1..] && !InUse(s.placements, k);
      if InUse(s.placements, ids[0]) {
        UnusedFrees(s, ids[1..], rest);
        FreesSame(s, FreeUnused(s, ids), rest, freed);
      } else {
        var d := Drop(s, ids[0]);
        var first: u32 -> bool := k => k == ids[0];
        DropFrees(s, ids[0], first);
        UnusedFrees(d, ids[1..], rest);
        FreesBoth(s, d, FreeUnused(d, ids[1..]), first, rest, freed);
      }
    }
  }

  lemma {:induction false} FreesSame(s: Store, r: Store, a: u32 -> bool, b: u32 -> bool)
    requires Frees(s, r, a) && forall k: u32 :: a(k) <==> b(k)
    ensures Frees(s, r, b)
  {
  }

  lemma {:induction false} FreesBoth(s: Store, d: Store, r: Store, a: u32 -> bool, b: u32 -> bool, both: u32 -> bool)
    requires Frees(s, d, a) && Frees(d, r, b) && forall k: u32 :: both(k) <==> a(k) || b(k)
    ensures Frees(s, r, both)
  {
  }

  lemma {:induction false} ResolvedNames(s: Store, id: u32, number: u32, k: u32)
    requires Counted(s)
    ensures Names(s, id, number, k) <==> ResolveId(s, id, number) == Some(k)
  {
    if id == 0 && number != 0 && Names(s, id, number, k) { assert IsNewest(s.images, number, k); }
  }

  // ---- deleting ---------------------------------------------------------------------

  /** Every delete takes exactly the placements it is about, and frees exactly the images it is about. */
  lemma {:induction false} DeleteDoes(s: Store, c: Command, row: u16, col: u16)
    requires Counted(s)
    ensures var r := Delete(s, c, row, col);
            && Retains(s.placements, r.placements, p => Goes(s, c, row, col, p))
            && Frees(s, r, (k: u32) => Freed(s, c, row, col, k))
  {
    hide *;
    var goes, freed := (p: Placement) => Goes(s, c, row, col, p), (k: u32) => Freed(s, c, row, col, k);
    if c.delete == 0 || Form(c, 'a') {
      DeletesAll(s, c, row, col, goes, freed);
    } else if Form(c, 'i') {
      DeletesId(s, c, row, col, goes, freed);
    } else if Form(c, 'n') {
      DeletesNumber(s, c, row, col, goes, freed);
    } else if Positional(c) {
      DeletesPlaced(s, c, row, col, goes, freed);
    } else {
      DeletesNone(s, c, row, col, goes, freed);
    }
  }

  lemma {:induction false} DeletesAll(s: Store, c: Command, row: u16, col: u16, goes: Placement -> bool,
      freed: u32 -> bool)
    requires c.delete == 0 || Form(c, 'a')
    requires forall p :: goes(p) <==> Goes(s, c, row, col, p)
    requires forall k: u32 :: freed(k) <==> Freed(s, c, row, col, k)
    ensures var r := Delete(s, c, row, col); Retains(s.placements, r.placements, goes) && Frees(s, r, freed)
  {
    hide Retains, Names, OnCell, OnColumn, OnRow, AtKeys;
    RetainsEmpty(s.placements, goes);
    if !Upper(c.delete) { FreesNone(s, freed, []); }
  }

  lemma {:induction false} DeletesNone(s: Store, c: Command, row: u16, col: u16, goes: Placement -> bool,
      freed: u32 -> bool)
    requires c.delete != 0 && !Form(c, 'a') && !Form(c, 'i') && !Form(c, 'n') && !Positional(c)
    requires forall p :: goes(p) <==> Goes(s, c, row, col, p)
    requires forall k: u32 :: freed(k) <==> Freed(s, c, row, col, k)
    ensures var r := Delete(s, c, row, col); Retains(s.placements, r.placements, goes) && Frees(s, r, freed)
  {
    hide Retains, Names, OnCell, OnColumn, OnRow, AtKeys;
    RetainsAll(s.placements, goes);
    FreesNone(s, freed, s.placements);
    assert s.(placements := s.placements) == s;
  }

  lemma {:induction false} DeletesId(s: Store, c: Command, row: u16, col: u16, goes: Placement -> bool,
      freed: u32 -> bool)
    requires Counted(s) && Form(c, 'i')
    requires forall p :: goes(p) <==> Goes(s, c, row, col, p)
    requires forall k: u32 :: freed(k) <==> Freed(s, c, row, col, k)
    ensures var r := Delete(s, c, row, col); Retains(s.placements, r.placements, goes) && Frees(s, r, freed)
  {
    hide Retains, Frees, Names, OnCell, OnColumn, OnRow, AtKeys, Drop, WithoutOf, Counted, ResolveId;
    forall k: u32
      ensures Names(s, c.id, c.number, k) <==> ResolveId(s, c.id, c.number) == Some(k)
    {
      ResolvedNames(s, c.id, c.number, k);
    }
    var id := ResolveId(s, c.id, c.number);
    if id.None? {
      RetainsAll(s.placements, goes);
      FreesNone(s, freed, s.placements);
      assert s.(placements := s.placements) == s;
    } else {
      WithoutOfRetains(s.placements, id.value, c.placementId, goes);
      FreesOne(s, WithoutOf(s.placements, id.value, c.placementId), id.value, Upper(c.delete), freed);
    }
  }

  lemma {:induction false} DeletesNumber(s: Store, c: Command, row: u16, col: u16, goes: Placement -> bool,
      freed: u32 -> bool)
    requires Counted(s) && Form(c, 'n')
    requires forall p :: goes(p) <==> Goes(s, c, row, col, p)
    requires forall k: u32 :: freed(k) <==> Freed(s, c, row, col, k)
    ensures var r := Delete(s, c, row, col); Retains(s.placements, r.placements, goes) && Frees(s, r, freed)
  {
    hide Retains, Frees, Names, OnCell, OnColumn, OnRow, AtKeys, Drop, Without, Counted, ResolveId;
    forall k: u32
      ensures Names(s, 0, c.number, k) <==> ResolveId(s, 0, c.number) == Some(k)
    {
      ResolvedNames(s, 0, c.number, k);
    }
    var id := ResolveId(s, 0, c.number);
    if id.None? {
      RetainsAll(s.placements, goes);
      FreesNone(s, freed, s.placements);
      assert s.(placements := s.placements) == s;
    } else {
      WithoutRetains(s.placements, id.value, goes);
      FreesOne(s, Without(s.placements, id.value), id.value, Upper(c.delete), freed);
    }
  }

  lemma {:induction false} FreesOne(s: Store, ps: seq<Placement>, id: u32, free: bool, freed: u32 -> bool)
    requires forall k: u32 :: freed(k) <==> free && k == id
    ensures var d := s.(placements := ps); Frees(s, if free then Drop(d, id) else d, freed)
    ensures Drop(s.(placements := ps), id).placements == ps
  {
  }

  lemma {:induction false} DeletesPlaced(s: Store, c: Command, row: u16, col: u16, goes: Placement -> bool,
      freed: u32 -> bool)
    requires Positional(c)
    requires forall p :: goes(p) <==> Goes(s, c, row, col, p)
    requires forall k: u32 :: freed(k) <==> Freed(s, c, row, col, k)
    ensures var r := Delete(s, c, row, col); Retains(s.placements, r.placements, goes) && Frees(s, r, freed)
  {
    hide Retains, Frees, Goes, Freed, Matches, FreeUnused, Unmatched, Touched, InUse;
    forall p
      ensures Matches(s, c, p, row, col) <==> Goes(s, c, row, col, p)
    {
      MatchesGoes(s, c, p, row, col);
    }
    var ps := Unmatched(s, c, row, col, s.placements);
    var d := s.(placements := ps);
    UnmatchedRetains(s, c, row, col, s.placements, goes);
    if Upper(c.delete) {
      var ids := Touched(s, c, row, col, s.placements);
      forall k: u32
        ensures freed(k) <==> k in ids && !InUse(ps, k)
      {
        FreedWhen(s, c, row, col, ps, goes, k);
      }
      UnusedFrees(d, ids, freed);
      FreesPast(s, ps, FreeUnused(d, ids), freed);
    } else {
      forall k: u32
        ensures !freed(k)
      {
        NotFreed(s, c, row, col, k);
      }
      FreesNone(s, freed, ps);
    }
  }

  lemma {:induction false} NotFreed(s: Store, c: Command, row: u16, col: u16, k: u32)
    requires !Upper(c.delete)
    ensures !Freed(s, c, row, col, k)
  {
  }

  lemma {:induction false} FreesPast(s: Store, ps: seq<Placement>, r: Store, freed: u32 -> bool)
    requires Frees(s.(placements := ps), r, freed)
    ensures Frees(s, r, freed)
  {
  }

  lemma {:induction false} FreedWhen(s: Store, c: Command, row: u16, col: u16, ps: seq<Placement>,
      goes: Placement -> bool, k: u32)
    requires Positional(c) && Upper(c.delete) && Retains(s.placements, ps, goes)
    requires forall p :: goes(p) <==> Goes(s, c, row, col, p)
    requires forall p :: Matches(s, c, p, row, col) <==> Goes(s, c, row, col, p)
    ensures Freed(s, c, row, col, k) <==> k in Touched(s, c, row, col, s.placements) && !InUse(ps, k)
  {
    hide Retains, Goes, Matches, Touched, Names;
    TouchedIs(s, c, row, col, s.placements, k);
    forall p
      ensures p in ps <==> p in s.placements && !Goes(s, c, row, col, p)
    {
      RetainsMeans(s.placements, ps, goes, p);
    }
  }

  /** The same for the command as it arrives: a placement stays if and only if the delete is not about it,
      in order and number; lower-case forms free nothing; nothing is answered, and the cursor stays. */
  lemma {:induction false} CommandDeletes(m: Media, s: Store, data: seq<byte>, row: u16, col: u16)
    requires Counted(s) && s.pending.None? && Handled(m, s, data)
    requires m.parse(Control(data)).Some? && m.parse(Control(data)).value.action == 'd' as int
    ensures var c, o := m.parse(Control(data)).value, Dispatch(m, s, data, row, col);
            && Retains(s.placements, o.s.placements, p => Goes(s, c, row, col, p))
            && Frees(s, o.s, (k: u32) => Freed(s, c, row, col, k))
            && (!Upper(c.delete) ==> o.s == s.(placements := o.s.placements))
            && o.reply == NoReply && o.advance == None
  {
    hide Delete, Retains, Frees, Goes, Freed, Counted, Control, Composable, Payload;
    var c := m.parse(Control(data)).value;
    DeleteDoes(s, c, row, col);
    if !Upper(c.delete) { LowerFrees(s, c, row, col); }
  }

  lemma {:induction false} LowerFrees(s: Store, c: Command, row: u16, col: u16)
    requires !Upper(c.delete)
    ensures var r := Delete(s, c, row, col); r == s.(placements := r.placements)
  {
    hide ResolveId, WithoutOf, Without, Unmatched;
  }

  // ---- placing ----------------------------------------------------------------------

  /** The placement a reference stands for: the first of that image, and of that id unless it is 0. */
  ghost predicate Refers(ps: seq<Placement>, image: u32, id: u32, j: nat) {
    && j < |ps| && ps[j].image == image && (id == 0 || ps[j].id == id)
    && forall i | 0 <= i < j :: ps[i].image != image || (id != 0 && ps[i].id != id)
  }

  lemma {:induction false} FoundFirst(ps: seq<Placement>, image: u32, id: u32) returns (j: nat)
    ensures FindPlacement(ps, image, id).Some? ==>
            Refers(ps, image, id, j) && FindPlacement(ps, image, id) == Some(ps[j])
    ensures FindPlacement(ps, image, id).None? ==> forall i: nat :: !Refers(ps, image, id, i)
    decreases |ps|
  {
    j := 0;
    if ps != [] && (ps[0].image != image || (id != 0 && ps[0].id != id)) {
      var k := FoundFirst(ps[1..], image, id);
      j := k + 1;
      if FindPlacement(ps, image, id).None? {
        forall i: nat
          ensures !Refers(ps, image, id, i)
        {
          if Refers(ps, image, id, i) { assert Refers(ps[1..], image, id, i - 1); }
        }
      }
    }
  }

  lemma {:induction false} OnlyRefers(ps: seq<Placement>, image: u32, id: u32, j: nat)
    requires Refers(ps, image, id, j)
    ensures FindPlacement(ps, image, id) == Some(ps[j])
  {
    var k := FoundFirst(ps, image, id);
    assert k == j;
  }

  datatype Ref = Ref(image: u32, id: u32)

  /** What the reference `n` steps up the parents is; a placement of no parent ends the walk. */
  function Ancestor(ps: seq<Placement>, r: Ref, n: nat): Option<Ref>
    decreases n
  {
    if n == 0 then Some(r)
    else
      match FindPlacement(ps, r.image, r.id)
      case None => None
      case Some(p) => if p.parentImage == 0 then None else Ancestor(ps, Ref(p.parentImage, p.parentId), n - 1)
  }

  /** Somewhere up the parents stands the placement itself. */
  ghost predicate OwnAncestor(ps: seq<Placement>, r: Ref, self: Ref) {
    exists n: nat :: Ancestor(ps, r, n) == Some(self)
  }

  lemma {:induction false} AncestorUp(ps: seq<Placement>, r: Ref)
    ensures var p := FindPlacement(ps, r.image, r.id);
            forall k: nat :: k > 0 ==>
              Ancestor(ps, r, k) == if p.None? || p.value.parentImage == 0 then None
                                    else Ancestor(ps, Ref(p.value.parentImage, p.value.parentId), k - 1)
  {
  }

  /** The walk of `n` steps looks at the first `n` references. */
  ghost predicate Within(ps: seq<Placement>, r: Ref, self: Ref, n: nat) {
    exists k: nat :: k < n && Ancestor(ps, r, k) == Some(self)
  }

  lemma {:induction false} WithinStep(ps: seq<Placement>, r: Ref, self: Ref, n: nat)
    requires n > 0
    ensures var p := FindPlacement(ps, r.image, r.id);
            Within(ps, r, self, n) <==>
              r == self
              || (p.Some? && p.value.parentImage != 0
                  && Within(ps, Ref(p.value.parentImage, p.value.parentId), self, n - 1))
  {
    AncestorUp(ps, r);
    hide Ancestor, FindPlacement;
    assert Ancestor(ps, r, 0) == Some(r) by { AncestorHere(ps, r); }
    var p := FindPlacement(ps, r.image, r.id);
    if p.Some? && p.value.parentImage != 0 {
      var up := Ref(p.value.parentImage, p.value.parentId);
      if k: nat :| k < n - 1 && Ancestor(ps, up, k) == Some(self) {
        assert Ancestor(ps, r, k + 1) == Some(self);
      }
    }
  }

  lemma {:induction false} AncestorHere(ps: seq<Placement>, r: Ref)
    ensures Ancestor(ps, r, 0) == Some(r)
  {
  }

  lemma {:induction false} WalkIs(ps: seq<Placement>, r: Ref, self: Ref, n: nat)
    ensures ComesBack(ps, self.image, self.id, r.image, r.id, n) <==> Within(ps, r, self, n)
    decreases n
  {
    hide Within;
    if n == 0 {
      assert !Within(ps, r, self, 0) by { NotWithin(ps, r, self); }
    } else {
      WithinStep(ps, r, self, n);
      var p := FindPlacement(ps, r.image, r.id);
      if p.Some? && p.value.parentImage != 0 { WalkIs(ps, Ref(p.value.parentImage, p.value.parentId), self, n - 1); }
    }
  }

  lemma {:induction false} NotWithin(ps: seq<Placement>, r: Ref, self: Ref)
    ensures !Within(ps, r, self, 0)
  {
  }

  lemma {:induction false} AncestorSplits(ps: seq<Placement>, r: Ref, a: nat, b: nat)
    requires Ancestor(ps, r, a).Some?
    ensures Ancestor(ps, r, a + b) == Ancestor(ps, Ancestor(ps, r, a).value, b)
    decreases a
  {
    if a > 0 {
      var p := FindPlacement(ps, r.image, r.id).value;
      AncestorSplits(ps, Ref(p.parentImage, p.parentId), a - 1, b);
    }
  }

  lemma {:induction false} AncestorBefore(ps: seq<Placement>, r: Ref, a: nat, b: nat)
    requires a <= b && Ancestor(ps, r, b).Some?
    ensures Ancestor(ps, r, a).Some?
    decreases a
  {
    if a > 0 {
      var p := FindPlacement(ps, r.image, r.id).value;
      AncestorBefore(ps, Ref(p.parentImage, p.parentId), a - 1, b - 1);
    }
  }

  /** More values than there is room for: two are the same. */
  lemma {:induction false} Pigeons(xs: seq<nat>, n: nat) returns (i: nat, j: nat)
    requires |xs| > n && forall k | 0 <= k < |xs| :: xs[k] < n
    ensures i < j < |xs| && xs[i] == xs[j]
    decreases n
  {
    var last := |xs| - 1;
    if k: nat :| k < last && xs[k] == xs[last] {
      i, j := k, last;
    } else {
      // Without the last value, room for one less: rename the top value to it.
      var ys: seq<nat> := seq(last, k requires 0 <= k < last => if xs[k] == n - 1 then xs[last] else xs[k]);
      i, j := Pigeons(ys, n - 1);
    }
  }

  /** A walk longer than the list repeats a placement, so it can be cut. */
  lemma {:induction false} ShortWalk(ps: seq<Placement>, r: Ref, self: Ref, n: nat) returns (k: nat)
    requires Ancestor(ps, r, n) == Some(self)
    ensures k <= |ps| && Ancestor(ps, r, k) == Some(self)
    decreases n
  {
    if n <= |ps| {
      k := n;
    } else {
      var at := ParentsOf(ps, r, n);
      var i, j := Pigeons(at, |ps|);
      AncestorSplits(ps, r, i + 1, n - (j + 1));
      AncestorSplits(ps, r, j + 1, n - (j + 1));
      k := ShortWalk(ps, r, self, n - (j - i));
    }
  }

  lemma {:induction false} ParentsOf(ps: seq<Placement>, r: Ref, n: nat) returns (at: seq<nat>)
    requires Ancestor(ps, r, n).Some?
    ensures |at| == n && forall i | 0 <= i < n ::
              at[i] < |ps| && Ancestor(ps, r, i + 1) == Some(Ref(ps[at[i]].parentImage, ps[at[i]].parentId))
    decreases n
  {
    if n == 0 {
      at := [];
    } else {
      AncestorBefore(ps, r, n - 1, n);
      at := ParentsOf(ps, r, n - 1);
      AncestorSplits(ps, r, n - 1, 1);
      var q := Ancestor(ps, r, n - 1).value;
      var j := FoundFirst(ps, q.image, q.id);
      assert Ancestor(ps, q, 1) == Some(Ref(ps[j].parentImage, ps[j].parentId));
      at := at + [j];
    }
  }

  /** The bounded walk finds every cycle through the placement, however long. */
  lemma {:induction false} CycleFound(ps: seq<Placement>, r: Ref, self: Ref)
    ensures ComesBack(ps, self.image, self.id, r.image, r.id, |ps| + 1) <==> OwnAncestor(ps, r, self)
  {
    WalkIs(ps, r, self, |ps| + 1);
    if n: nat :| Ancestor(ps, r, n) == Some(self) {
      var k := ShortWalk(ps, r, self, n);
    }
  }

  /** A signed offset in cells, kept at or past zero; sums that leave 32 bits are negative. */
  function Offset(at: nat, off: int): nat {
    if at + off < 0 || at + off >= 0x8000_0000 then 0 else (at + off) % 0x1_0000
  }

  lemma {:induction false} OffsetIs(at: u16, off: i32)
    ensures Shifted(at, off) == Offset(at, off)
  {
  }

  /** The new placement stands last, at its place, with the fields of the command; it takes the place of
      one of the same image and id only. */
  ghost predicate Puts(s: Store, c: Command, id: u32, row: nat, col: nat, r: Store) {
    && r.placements != [] && r == s.(placements := r.placements)
    && var n := |r.placements| - 1;
       var p := r.placements[n];
       && Retains(s.placements, r.placements[..n], (q: Placement) => q.image == id && q.id == c.placementId)
       && p.image == id && p.id == c.placementId && p.row == row && p.col == col
       && p.srcX == c.srcX && p.srcY == c.srcY && p.srcW == c.srcW && p.srcH == c.srcH
       && p.cols == c.cols && p.rows == c.rows && p.z == c.z && p.cellX == c.cellX && p.cellY == c.cellY
       && p.parentImage == c.parentImage && p.parentId == c.parentId && p.hOff == c.hOff && p.vOff == c.vOff
       && p.unicode == c.unicode
  }

  lemma {:induction false} PutsIt(s: Store, c: Command, id: u32, row: u16, col: u16)
    requires Resolved(s, c, id, row, col).Spot?
    ensures var at := Resolved(s, c, id, row, col);
            AddPlacement(s, c, id, row, col).Placed?
              && Puts(s, c, id, at.row, at.col, AddPlacement(s, c, id, row, col).s)
  {
    hide Resolved, ExtentOf;
    var drop := (q: Placement) => q.image == id && q.id == c.placementId;
    ReplacedRetains(s.placements, id, c.placementId, drop);
    var r := AddPlacement(s, c, id, row, col).s;
    var n := |r.placements| - 1;
    assert r.placements[..n] == WithoutPlacement(s.placements, id, c.placementId);
    assert Retains(s.placements, r.placements[..n], drop);
  }

  /** Where a placement goes: to the cursor; or to an offset from the placement its parent reference
      stands for, unless it would be its own ancestor or there is none. */
  lemma {:induction false} PlacesAt(s: Store, c: Command, id: u32, row: u16, col: u16, j: nat)
    ensures c.parentImage == 0 ==>
              AddPlacement(s, c, id, row, col).Placed? && Puts(s, c, id, row, col, AddPlacement(s, c, id, row, col).s)
    ensures var parent, self := Ref(c.parentImage, c.parentId), Ref(id, c.placementId);
            c.parentImage != 0 ==>
              && (OwnAncestor(s.placements, parent, self) ==> AddPlacement(s, c, id, row, col) == NotPlaced(Cycle))
              && (!OwnAncestor(s.placements, parent, self) ==>
                    && ((forall i: nat :: !Refers(s.placements, c.parentImage, c.parentId, i)) ==>
                          AddPlacement(s, c, id, row, col) == NotPlaced(NoParent))
                    && (Refers(s.placements, c.parentImage, c.parentId, j) ==>
                          var p := s.placements[j];
                          && AddPlacement(s, c, id, row, col).Placed?
                          && Puts(s, c, id, Offset(p.row, c.vOff),
                             Offset(p.col, c.hOff), AddPlacement(s, c, id, row, col).s)))
  {
    hide Puts, ComesBack, OwnAncestor, FindPlacement, ExtentOf;
    if c.parentImage == 0 {
      PutsIt(s, c, id, row, col);
    } else {
      CycleFound(s.placements, Ref(c.parentImage, c.parentId), Ref(id, c.placementId));
      var k := FoundFirst(s.placements, c.parentImage, c.parentId);
      if Refers(s.placements, c.parentImage, c.parentId, j) {
        OnlyRefers(s.placements, c.parentImage, c.parentId, j);
        OffsetIs(s.placements[j].row, c.vOff);
        OffsetIs(s.placements[j].col, c.hOff);
      }
      if Resolved(s, c, id, row, col).Spot? { PutsIt(s, c, id, row, col); }
    }
  }

  /** And how far the cursor moves: over the cells the new placement covers. */
  lemma {:induction false} AdvancesOver(s: Store, c: Command, id: u32, row: u16, col: u16, k: nat)
    requires AddPlacement(s, c, id, row, col).Placed?
    ensures var r := AddPlacement(s, c, id, row, col);
            && r.advance.Some? == (!c.noCursorMove && !c.unicode && c.parentImage == 0)
            && r.s.placements != []
            && var p := r.s.placements[|r.s.placements| - 1];
               r.advance.Some? ==>
                 && (k < r.advance.value.cols <==> Spans(p.cols, PixelWidth(s, p), 10, k))
                 && (k < r.advance.value.rows <==> Spans(p.rows, PixelHeight(s, p), 20, k))
  {
    hide Resolved, CeilDiv;
    var r := AddPlacement(s, c, id, row, col);
    var p := r.s.placements[|r.s.placements| - 1];
    CeilSpans(PixelWidth(s, p), 10, k);
    CeilSpans(PixelHeight(s, p), 20, k);
    CeilSpans(PixelWidth(s, p), 10, 0);
    CeilSpans(PixelHeight(s, p), 20, 0);
  }

  /** The place command names an image, and answers what came of it. */
  lemma {:induction false} CommandPlaces(m: Media, s: Store, data: seq<byte>, row: u16, col: u16, id: u32)
    requires Counted(s) && s.pending.None? && Handled(m, s, data)
    requires m.parse(Control(data)).Some? && m.parse(Control(data)).value.action == 'p' as int
    ensures var c, o := m.parse(Control(data)).value, Dispatch(m, s, data, row, col);
            && ((forall k: u32 :: !Names(s, c.id, c.number, k)) ==> o == Outcome(s, Respond(c, NoImage), None))
            && (Names(s, c.id, c.number, id) ==>
                  var named, placed := c.(id := id), AddPlacement(s, c.(id := id), id, row, col);
                  o == if placed.Placed? then Outcome(placed.s, Respond(named, Fine), placed.advance)
                       else Outcome(s, Respond(named, placed.msg), None))
  {
    hide Names, Counted, ResolveId, AddPlacement, Control, Payload, Composable, Respond;
    var c := m.parse(Control(data)).value;
    ResolvedNames(s, c.id, c.number, id);
    var k := ResolveId(s, c.id, c.number);
    if k.Some? { ResolvedNames(s, c.id, c.number, k.value); }
  }

  // ---- storing ----------------------------------------------------------------------

  /** What belongs to a kept image stays as it is, what belongs to an evicted one goes; the evicted are
      older than the kept. */
  ghost predicate Spared(d: Store, r: Store) {
    && (forall k | k in r.images :: k in d.images && r.images[k] == d.images[k])
    && (forall j, k | j in r.images && k in d.images && k !in r.images :: d.images[k].seqNo < d.images[j].seqNo)
    && (forall k: u32 :: k in r.frames <==> k in d.frames && (k in d.images ==> k in r.images))
    && (forall k: u32 :: k in r.animations <==> k in d.animations && (k in d.images ==> k in r.images))
    && (forall k | k in r.frames :: r.frames[k] == d.frames[k])
    && (forall k | k in r.animations :: r.animations[k] == d.animations[k])
    && r.pending == d.pending && r.nextSeq == d.nextSeq && r.nextId == d.nextId
  }

  /** What quota does: besides, exactly the placements of the evicted images go. */
  ghost predicate Evicted(d: Store, r: Store) {
    Spared(d, r) && Retains(d.placements, r.placements, (p: Placement) => p.image in d.images && p.image !in r.images)
  }

  lemma {:induction false} RetainsBoth(ps: seq<Placement>, qs: seq<Placement>, rs: seq<Placement>,
      a: Placement -> bool, b: Placement -> bool, both: Placement -> bool)
    requires Retains(ps, qs, a) && Retains(qs, rs, b)
    requires forall p | p in ps :: both(p) <==> a(p) || b(p)
    ensures Retains(ps, rs, both)
  {
    hide *;
    var at := RetainsWhere(ps, qs, a);
    var up := RetainsWhere(qs, rs, b);
    var all := Through(ps, qs, rs, at, up, a, b, both);
    RetainsBy(ps, rs, all, both);
  }

  lemma {:induction false} Through(ps: seq<Placement>, qs: seq<Placement>, rs: seq<Placement>, at: seq<nat>,
      up: seq<nat>, a: Placement -> bool, b: Placement -> bool, both: Placement -> bool) returns (all: seq<nat>)
    requires Picks(ps, qs, at, a) && Picks(qs, rs, up, b)
    requires forall p | p in ps :: both(p) <==> a(p) || b(p)
    ensures Picks(ps, rs, all, both)
  {
    all := seq(|up|, i requires 0 <= i < |up| => at[up[i]]);
    forall i | 0 <= i < |all|
      ensures all[i] < |ps| && rs[i] == ps[all[i]] && !both(ps[all[i]])
    {
      assert rs[i] == qs[up[i]] == ps[at[up[i]]];
      assert ps[all[i]] in ps;
    }
    ThroughAll(ps, qs, rs, at, up, all, a, b, both);
  }

  lemma {:induction false} ThroughAll(ps: seq<Placement>, qs: seq<Placement>, rs: seq<Placement>, at: seq<nat>,
      up: seq<nat>, all: seq<nat>, a: Placement -> bool, b: Placement -> bool, both: Placement -> bool)
    requires Picks(ps, qs, at, a) && Picks(qs, rs, up, b) && |all| == |up|
    requires forall i | 0 <= i < |all| :: all[i] == at[up[i]]
    requires forall p | p in ps :: both(p) <==> a(p) || b(p)
    ensures forall j | 0 <= j < |ps| && !both(ps[j]) :: j in all
  {
    forall j | 0 <= j < |ps| && !both(ps[j])
      ensures j in all
    {
      assert ps[j] in ps;
      var i :| 0 <= i < |at| && at[i] == j;
      var k :| 0 <= k < |up| && up[k] == i;
      assert all[k] == j;
    }
  }

  lemma {:induction false} QuotaEvicts(d: Store)
    requires Counted(d)
    ensures Evicted(d, EnforceQuota(d))
    decreases |d.images|
  {
    hide Counted, Evicted, Drop, Without;
    if d.total <= QUOTA || d.images == map[] {
      NothingEvicted(d);
    } else {
      var o := Oldest(d.images);
      var dropped := Drop(d, o);
      DropKeeps(d, o);
      DropIs(d, o);
      PlacementsFree(dropped, Without(d.placements, o));
      Dropped(d, o);
      var e := dropped.(placements := Without(d.placements, o));
      QuotaEvicts(e);
      EvictsMore(d, o, e, EnforceQuota(e));
    }
  }

  lemma {:induction false} Dropped(d: Store, o: u32)
    requires o in d.images
    ensures |Drop(d, o).images| < |d.images|
  {
    assert Drop(d, o).images == d.images - {o};
  }

  lemma {:induction false} NothingEvicted(d: Store)
    requires Counted(d)
    ensures Evicted(d, d)
  {
    hide Retains;
    RetainsAll(d.placements, (p: Placement) => p.image in d.images && p.image !in d.images);
  }

  lemma {:induction false} EvictsMore(d: Store, o: u32, e: Store, r: Store)
    requires Counted(d) && IsOldest(d.images, o) && Evicted(e, r)
    requires e == Drop(d, o).(placements := Without(d.placements, o))
    ensures Evicted(d, r)
  {
    hide *;
    var a, b := (p: Placement) => p.image == o, (p: Placement) => p.image in e.images && p.image !in r.images;
    var both := (p: Placement) => p.image in d.images && p.image !in r.images;
    WithoutRetains(d.placements, o, a);
    EvictedParts(e, r, b);
    DropIs(d, o);
    OldestIn(d.images, o);
    SparesMore(d, o, e, r);
    assert forall k | k in r.images :: k in e.images by { SparedIn(e, r); }
    assert e.images == d.images - {o};
    RetainsBoth(d.placements, e.placements, r.placements, a, b, both);
    EvictedFrom(d, r, both);
  }

  lemma {:induction false} OldestIn(images: map<u32, Image>, o: u32)
    requires IsOldest(images, o)
    ensures o in images
  {
  }

  lemma {:induction false} SparedIn(d: Store, r: Store)
    requires Spared(d, r)
    ensures forall k | k in r.images :: k in d.images
  {
  }

  lemma {:induction false} EvictedParts(d: Store, r: Store, gone: Placement -> bool)
    requires Evicted(d, r) && forall p :: gone(p) <==> p.image in d.images && p.image !in r.images
    ensures Spared(d, r) && Retains(d.placements, r.placements, gone)
  {
    hide Retains, Spared;
    RetainsSame(d.placements, r.placements, (p: Placement) => p.image in d.images && p.image !in r.images, gone);
  }

  lemma {:induction false} EvictedFrom(d: Store, r: Store, gone: Placement -> bool)
    requires Spared(d, r) && Retains(d.placements, r.placements, gone)
    requires forall p :: gone(p) <==> p.image in d.images && p.image !in r.images
    ensures Evicted(d, r)
  {
    hide Retains, Spared;
    RetainsSame(d.placements, r.placements, gone, (p: Placement) => p.image in d.images && p.image !in r.images);
  }

  lemma {:induction false} SparesMore(d: Store, o: u32, e: Store, r: Store)
    requires Counted(d) && IsOldest(d.images, o) && Spared(e, r)
    requires e == Drop(d, o).(placements := Without(d.placements, o))
    ensures Spared(d, r)
  {
    hide Without, Counted, IsOldest;
    OldestIn(d.images, o);
    OlderGone(d, o, e, r);
    KeysIn(d);
  }

  lemma {:induction false} KeysIn(d: Store)
    requires Counted(d)
    ensures (forall k | k in d.frames :: k in d.images) && (forall k | k in d.animations :: k in d.images)
  {
  }

  lemma {:induction false} OlderGone(d: Store, o: u32, e: Store, r: Store)
    requires Counted(d) && IsOldest(d.images, o) && Spared(e, r)
    requires e == Drop(d, o).(placements := Without(d.placements, o))
    ensures forall j, k | j in r.images && k in d.images && k !in r.images :: d.images[k].seqNo < d.images[j].seqNo
  {
    hide Without, Counted, IsOldest;
    forall j, k | j in r.images && k in d.images && k !in r.images
      ensures d.images[k].seqNo < d.images[j].seqNo
    {
      assert j in e.images && j != o;
      if k == o { OldestFirst(d, o, j); } else { assert k in e.images; }
    }
  }

  /** The newest image is evicted only if it does not fit alone. */
  lemma {:induction false} NewestSurvives(d: Store, id: u32)
    requires Counted(d) && id in d.images && forall k | k in d.images :: d.images[k].seqNo <= d.images[id].seqNo
    requires |d.images[id].data| + FrameBytes(FramesOf(d, id)) <= QUOTA
    ensures id in EnforceQuota(d).images
    decreases |d.images|
  {
    hide Counted, Drop, Without, FramesOf, FrameBytes;
    if d.total > QUOTA {
      var o := Oldest(d.images);
      if o == id {
        OldestAndNewest(d, id);
      } else {
        DropKeeps(d, o);
        DropIs(d, o);
        Dropped(d, o);
        StaysWhole(d, o, id);
        PlacementsFree(Drop(d, o), Without(d.placements, o));
        NewestSurvives(Drop(d, o).(placements := Without(d.placements, o)), id);
      }
    }
  }

  lemma {:induction false} StaysWhole(d: Store, o: u32, id: u32)
    requires id in d.images && o != id
    ensures var e, f := Drop(d, o), Drop(d, o).(placements := Without(d.placements, o));
            && id in e.images && e.images[id] == d.images[id] && FramesOf(f, id) == FramesOf(d, id)
            && forall k | k in e.images :: k in d.images && e.images[k] == d.images[k]
  {
  }

  /** Oldest and newest at once is alone, and the total is its own. */
  lemma {:induction false} OldestAndNewest(d: Store, id: u32)
    requires Counted(d) && IsOldest(d.images, id) && forall k | k in d.images :: d.images[k].seqNo <= d.images[id].seqNo
    ensures d.total == |d.images[id].data| + FrameBytes(FramesOf(d, id))
  {
    hide FrameBytes, Sum;
    DropKeeps(d, id);
    var e := Drop(d, id);
    forall k | k in d.images
      ensures k == id
    {
      assert d.images[k].seqNo == d.images[id].seqNo;
    }
    assert e.images == map[];
    NoImages(e);
  }

  /** A transmission stores the image under its id, or the next free one, in place of what was there, as
      the newest; unless it alone exceeds the quota it is there afterwards, and only older images can have
      gone for it. */
  ghost predicate Stores(s: Store, c: Command, w: u32, h: u32, f: Format, data: seq<byte>, r: Store) {
    var id: u32 := if c.id != 0 then c.id else (s.nextId + 1) % MOD32;
    var d := s.(images := s.images[id := Image(id, c.number, f, w, h, data, s.nextSeq + 1)],
                frames := s.frames - {id}, animations := s.animations - {id}, nextSeq := s.nextSeq + 1,
                nextId := if c.id == 0 then id else if c.id > s.nextId then c.id else s.nextId);
    && Evicted(d.(total := r.total), r)
    && (|data| <= QUOTA ==> id in r.images)
    && (s.total + |data| <= QUOTA ==> r == d.(total := r.total))
  }

  lemma {:induction false} StowStores(s: Store, c: Command, w: u32, h: u32, f: Format, data: seq<byte>)
    requires Counted(s)
    ensures var id: u32 := if c.id != 0 then c.id else (s.nextId + 1) % MOD32;
            var t := s.(nextId := if c.id == 0 then id else Larger(s.nextId, c.id));
            Stores(s, c, w, h, f, data, Stow(t, c.(id := id, width := w, height := h), id, w, h, f, data))
  {
    hide Evicted, Drop, Counted, EnforceQuota, FrameBytes, FramesOf;
    var id: u32 := if c.id != 0 then c.id else (s.nextId + 1) % MOD32;
    var t := s.(nextId := if c.id == 0 then id else Larger(s.nextId, c.id));
    var image := Image(id, c.number, f, w, h, data, s.nextSeq + 1);
    NextIdCounts(s, t.nextId);
    DropKeeps(t, id);
    DropIs(t, id);
    AddImage(Drop(t, id), id, image);
    var d := Drop(t, id).(images := Drop(t, id).images[id := image], total := Drop(t, id).total + |data|,
                          nextSeq := s.nextSeq + 1);
    assert d.images == s.images[id := image];
    QuotaEvicts(d);
    EvictedTotal(d, EnforceQuota(d));
    Newest(s, id, image);
    FramesGone(d, id);
    if |data| <= QUOTA { NewestSurvives(d, id); }
    if s.total + |data| <= QUOTA { EnforceKeeps(d); }
  }

  lemma {:induction false} NextIdCounts(s: Store, id: u32)
    requires Counted(s)
    ensures Counted(s.(nextId := id))
  {
  }

  lemma {:induction false} FramesGone(d: Store, id: u32)
    requires id !in d.frames
    ensures FrameBytes(FramesOf(d, id)) == 0
  {
  }

  lemma {:induction false} DropIs(s: Store, id: u32)
    ensures var d := Drop(s, id);
            d == s.(images := s.images - {id}, frames := s.frames - {id},
              animations := s.animations - {id}, total := d.total)
  {
  }

  lemma {:induction false} EvictedTotal(d: Store, r: Store)
    requires Evicted(d, r)
    ensures Evicted(d.(total := r.total), r)
  {
  }

  lemma {:induction false} Newest(s: Store, id: u32, image: Image)
    requires Counted(s) && image.seqNo == s.nextSeq + 1
    ensures var images := s.images[id := image]; forall k | k in images :: images[k].seqNo <= image.seqNo
  {
  }

  /** What a complete transmission does, by its action. */
  lemma {:induction false} CommandTransmits(m: Media, s: Store, c: Command, payload: seq<byte>, row: u16, col: u16)
      returns (t: Store)
    requires Counted(s) && Receive(m, c, payload).Block?
    ensures var b, o := Receive(m, c, payload), Finish(m, s, c, payload, row, col);
            var id: u32 := if c.id != 0 then c.id else (s.nextId + 1) % MOD32;
            var named := c.(id := id, width := b.width, height := b.height);
            && Stores(s, c, b.width, b.height, b.format, b.data, t)
            && (c.action == 'q' as int ==> o == Outcome(s.(nextId := t.nextId), Respond(named, Fine), None))
            && (c.action !in {'q' as int, 'f' as int, 'T' as int} ==> o == Outcome(t, Respond(named, Fine), None))
            && (c.action == 'T' as int ==>
                  var placed := AddPlacement(t, named, id, row, col);
                  o == if placed.Placed? then Outcome(placed.s, Respond(named, Fine), placed.advance)
                       else Outcome(t, Respond(named, placed.msg), None))
  {
    hide Counted, Stow, AddPlacement, StoreFrame, Receive, Respond, Evicted;
    var b := Receive(m, c, payload);
    var id: u32 := if c.id != 0 then c.id else (s.nextId + 1) % MOD32;
    StowStores(s, c, b.width, b.height, b.format, b.data);
    t := Stow(s.(nextId := if c.id == 0 then id else Larger(s.nextId, c.id)),
              c.(id := id, width := b.width, height := b.height), id, b.width, b.height, b.format, b.data);
    StoresNext(s, c, b.width, b.height, b.format, b.data, t);
  }

  lemma {:induction false} StoresNext(s: Store, c: Command, w: u32, h: u32, f: Format, data: seq<byte>, t: Store)
    requires Stores(s, c, w, h, f, data, t)
    ensures t.nextId == if c.id == 0 then (s.nextId + 1) % MOD32 else Larger(s.nextId, c.id)
  {
    hide Retains;
  }

  lemma {:induction false} CommandRefuses(m: Media, s: Store, c: Command, payload: seq<byte>, row: u16, col: u16)
    requires Receive(m, c, payload).Refused?
    ensures Finish(m, s, c, payload, row, col) == Outcome(s, Respond(c, Receive(m, c, payload).msg), None)
  {
  }

  /** Commands without a name are not answered, nor is success when quiet, nor anything when very quiet. */
  lemma {:induction false} RepliesWhen(c: Command, msg: Message)
    ensures Respond(c, msg) == NoReply
            <==> (c.id == 0 && c.number == 0) || (c.quiet == 1 && msg == Fine) || c.quiet >= 2
    ensures Respond(c, msg) != NoReply ==> Respond(c, msg) == Reply(c.id, c.number, msg)
  {
  }

  // ---- chunks -----------------------------------------------------------------------

  /** The control data ends at the first semicolon, and the payload begins after it. */
  lemma {:induction false} SplitsAt(data: seq<byte>)
    ensures ';' as int !in Control(data)
    ensures if ';' as int in data then data == Control(data) + [';' as int] + Payload(data)
            else Control(data) == data && Payload(data) == []
    decreases |data|
  {
    if data != [] && data[0] != 0x3B {
      SplitsAt(data[1..]);
      assert data == [data[0]] + data[1..];
    } else if data != [] {
      assert [] + [0x3B] + data[1..] == data;
    }
  }

  /** A command that parses, announcing more chunks. */
  ghost predicate Announces(m: Media, data: seq<byte>) {
    m.parse(Control(data)).Some? && m.parse(Control(data)).value.more == 1
  }

  function Joined(chunks: seq<seq<byte>>): seq<byte> {
    if chunks == [] then [] else Payload(chunks[0]) + Joined(chunks[1..])
  }

  lemma {:induction false} ChunkTaken(m: Media, s: Store, data: seq<byte>, row: u16, col: u16)
    requires s.pending.Some? && Announces(m, data)
    ensures Handled(m, s, data)
    ensures var p := s.pending.value;
      Dispatch(m, s, data, row, col) ==
        if |p.payload| + |Payload(data)| <= 430_000_000
        then Outcome(s.(pending := Some(Pending(p.cmd, p.payload + Payload(data)))), NoReply, None)
        else Outcome(s, NoReply, None)
  {
    hide Control, Payload;
  }

  /** The store after chunks that each announce another. */
  ghost function Sent(m: Media, s: Store, chunks: seq<seq<byte>>, row: u16, col: u16): (r: Store)
    requires s.pending.Some? && forall d <- chunks :: Announces(m, d)
    ensures r.pending.Some?
    decreases |chunks|
  {
    if chunks == [] then s
    else
      ChunkTaken(m, s, chunks[0], row, col);
      Sent(m, Dispatch(m, s, chunks[0], row, col).s, chunks[1..], row, col)
  }

  lemma {:induction false} SentJoins(m: Media, s: Store, chunks: seq<seq<byte>>, row: u16, col: u16)
    requires s.pending.Some? && forall d <- chunks :: Announces(m, d)
    requires |s.pending.value.payload| + |Joined(chunks)| <= 430_000_000
    ensures var p := s.pending.value;
            Sent(m, s, chunks, row, col) == s.(pending := Some(Pending(p.cmd, p.payload + Joined(chunks))))
    decreases |chunks|
  {
    hide Dispatch, Payload, Announces, Handled;
    var p := s.pending.value;
    if chunks == [] {
      assert p.payload + [] == p.payload;
    } else {
      ChunkTaken(m, s, chunks[0], row, col);
      SentJoins(m, Dispatch(m, s, chunks[0], row, col).s, chunks[1..], row, col);
      assert p.payload + Payload(chunks[0]) + Joined(chunks[1..]) == p.payload + Joined(chunks);
    }
  }

  /** A transmission in any number of chunks, within the limit, is the transmission in one: nothing is
      answered before the last, whose cursor counts; the first says what it is. */
  lemma {:induction false} ChunksAreWhole(m: Media, s: Store, first: seq<byte>, middle: seq<seq<byte>>, last: seq<byte>,
      row: u16, col: u16)
    requires s.pending.None? && Announces(m, first) && Receives(m.parse(Control(first)).value)
    requires (forall d <- middle :: Announces(m, d)) && m.parse(Control(last)).Some? && !Announces(m, last)
    requires |Payload(first)| + |Joined(middle)| + |Payload(last)| <= 430_000_000
    ensures Handled(m, s, first)
    ensures var o := Dispatch(m, s, first, row, col);
      && o.s.pending.Some? && o.reply == NoReply && o.advance == None
      && var t := Sent(m, o.s, middle, row, col);
         && Handled(m, t, last)
         && Dispatch(m, t, last, row, col) ==
            Finish(m, s, m.parse(Control(first)).value, Payload(first) + Joined(middle) + Payload(last), row, col)
  {
    hide Sent, Joined, Finish, Control, Payload, Counted;
    var c := m.parse(Control(first)).value;
    var o := Dispatch(m, s, first, row, col);
    assert o == Outcome(s.(pending := Some(Pending(c, Payload(first)))), NoReply, None);
    SentJoins(m, o.s, middle, row, col);
    var t := Sent(m, o.s, middle, row, col);
    assert t.(pending := None) == s;
  }

  /** What arrives as pixels: the payload decoded and unpacked, in the bytes its format and size ask for. */
  lemma {:induction false} ArrivesAs(m: Media, c: Command, payload: seq<byte>, raw: seq<byte>, data: seq<byte>)
    requires c.transmission in {0, 'd' as int} && m.base64(payload) == Some(raw)
    requires if c.compression == 0 then data == raw else c.compression == 'z' as int && m.inflate(raw) == Data(data)
    ensures Receive(m, c, payload) ==
      if c.format == 100 then
        (match m.png(data)
         case None => Refused(BadPng)
         case Some(p) => Block(p.width, p.height, FromPng, p.rgba))
      else if c.format !in {0, 24, 32} then Refused(BadFormat)
      else if c.width == 0 || c.height == 0
              || |data| != c.width * c.height * (if c.format == 24 then 3 else 4) % 0x1_0000_0000_0000_0000
      then Refused(SizeMismatch)
      else Block(c.width, c.height, if c.format == 24 then RawRgb else RawRgba, data)
  {
  }

  /** And what does not arrive at all. */
  lemma {:induction false} ArrivesNot(m: Media, c: Command, payload: seq<byte>)
    ensures c.transmission in {0, 'd' as int} && m.base64(payload).None? ==>
              Receive(m, c, payload) == Refused(BadBase64)
    ensures c.transmission == 's' as int ==> Receive(m, c, payload) == Refused(SharedMemory)
    ensures c.transmission !in {0, 'd' as int, 'f' as int, 't' as int, 's' as int} ==>
              Receive(m, c, payload) == Refused(BadMedium)
    ensures c.transmission in {0, 'd' as int} && m.base64(payload).Some? && c.compression !in {0, 'z' as int} ==>
              Receive(m, c, payload) == Refused(BadCompression)
  {
    hide Checked;
  }

  // ---- frames -----------------------------------------------------------------------

  /** The frame takes the place of the one of its number, or comes last. */
  ghost predicate FramePut(fs: seq<Frame>, f: Frame, gs: seq<Frame>) {
    || ((forall i | 0 <= i < |fs| :: fs[i].number != f.number) && gs == fs + [f])
    || exists k :: 0 <= k < |fs| && fs[k].number == f.number && (forall i | 0 <= i < k :: fs[i].number != f.number)
                   && gs == fs[k := f]
  }

  ghost predicate IsMost(fs: seq<Frame>, n: u32) {
    && (forall i | 0 <= i < |fs| :: fs[i].number <= n)
    && (if fs == [] then n == 0 else exists i :: 0 <= i < |fs| && fs[i].number == n)
  }

  lemma {:induction false} MostIs(fs: seq<Frame>)
    ensures IsMost(fs, MostNumber(fs))
    decreases |fs|
  {
    if fs != [] {
      MostIs(fs[1..]);
      var m := MostNumber(fs[1..]);
      forall i | 0 <= i < |fs|
        ensures fs[i].number <= MostNumber(fs)
      {
        if i > 0 { assert fs[i] == fs[1..][i - 1]; }
      }
      if fs[0].number <= m && |fs| > 1 {
        var k :| 0 <= k < |fs[1..]| && fs[1..][k].number == m;
        assert fs[k + 1].number == m;
      } else {
        assert fs[0].number == MostNumber(fs);
      }
    }
  }

  lemma {:induction false} WithFramePuts(fs: seq<Frame>, f: Frame)
    ensures FramePut(fs, f, WithFrame(fs, f))
  {
    var k := FrameIndex(fs, f.number);
    if k < |fs| { assert fs[k].number == f.number; }
  }

  /** What arrives as a frame: its number is the one asked for, or one more than the highest there is. */
  lemma {:induction false} FramesArrive(s: Store, c: Command, f: Format, w: u32, h: u32, data: seq<byte>, id: u32,
      n: u32)
      returns (gs: seq<Frame>)
    requires Counted(s) && Names(s, c.id, c.number, id)
    requires if c.rows != 0 then n == c.rows
             else exists most: u32 :: IsMost(FramesOf(s, id), most) && n == (most + 1) % MOD32
    ensures FramePut(FramesOf(s, id), Frame(n, c.z, c.cols, c.srcX, c.srcY, f, w, h, data, c.cellX == 1), gs)
    ensures var (r, reply) := StoreFrame(s, c, f, w, h, data);
            reply == Respond(c, Fine) && Evicted(s.(frames := s.frames[id := gs], total := r.total), r)
  {
    hide Counted, Evicted, EnforceQuota, Names, WithFrame, FrameIndex, FramePut, ResolveId;
    ResolvedNames(s, c.id, c.number, id);
    var fs := FramesOf(s, id);
    MostIs(fs);
    MostOnce(fs);
    var frame := Frame(n, c.z, c.cols, c.srcX, c.srcY, f, w, h, data, c.cellX == 1);
    gs := WithFrame(fs, frame);
    WithFramePuts(fs, frame);
    FramesSet(s, id, frame);
    var lost := if FrameIndex(fs, n) < |fs| then |fs[FrameIndex(fs, n)].data| else 0;
    var d := s.(frames := s.frames[id := gs], total := s.total + |data| - lost);
    QuotaEvicts(d);
    EvictedTotal(d, EnforceQuota(d));
  }

  lemma {:induction false} MostOnce(fs: seq<Frame>)
    ensures forall a: u32, b: u32 | IsMost(fs, a) && IsMost(fs, b) :: a == b
  {
  }

  lemma {:induction false} FrameNeedsImage(s: Store, c: Command, f: Format, w: u32, h: u32, data: seq<byte>)
    requires Counted(s) && forall k: u32 :: !Names(s, c.id, c.number, k)
    ensures StoreFrame(s, c, f, w, h, data) == (s, Respond(c, NoImage))
  {
    hide Counted, Names, ResolveId;
    var k := ResolveId(s, c.id, c.number);
    if k.Some? { ResolvedNames(s, c.id, c.number, k.value); }
  }

  /** Animation control sets what is not 0, of the image named. */
  lemma {:induction false} Animates(s: Store, c: Command, id: u32)
    requires Counted(s) && Names(s, c.id, c.number, id)
    ensures var (r, reply) := Animate(s, c);
            && reply == Respond(c, Fine) && r == s.(animations := r.animations)
            && r.animations.Keys == s.animations.Keys + {id}
            && (forall k | k in s.animations && k != id :: r.animations[k] == s.animations[k])
            && var was := if id in s.animations then s.animations[id] else Animation(0, 0, 0);
               var now := r.animations[id];
               && now.state == (if c.width == 0 then was.state else c.width % 256)
               && now.loops == (if c.height == 0 then was.loops else c.height)
               && now.current == (if c.cols == 0 then was.current else c.cols)
  {
    hide Counted, Names, ResolveId;
    ResolvedNames(s, c.id, c.number, id);
  }

  // ---- composed frames ----------------------------------------------------------------

  /** What has been met matters only to a chain that comes back to it. */
  lemma {:induction false} FewerSeen(image: Image, fs: seq<Frame>, number: u32, seen: seq<u32>, less: seq<u32>)
    requires ChainSized(image, fs, number) && (forall x | x in less :: x in seen)
    requires ComposeChain(image, fs, number, seen).Some?
    ensures ComposeChain(image, fs, number, less) == ComposeChain(image, fs, number, seen)
    decreases Unseen(fs, seen)
  {
    hide ChainSized, Reaches, Composed;
    if number != 0 {
      var f := fs[FrameIndex(fs, number)];
      ChainDown(image, fs, number);
      assert number in Unseen(fs, seen) && number !in Unseen(fs, seen + [number]);
      FewerSeen(image, fs, f.base, seen + [number], less + [number]);
    }
  }

  /** The pixels of a composed frame: of the frame itself over, or instead of, those of its composed base;
      the base alone outside the frame. Frame 0 is the image. */
  lemma {:induction false} ComposedOver(s: Store, id: u32, number: u32, x: nat, y: nat)
    requires ReadsSized(s, id, number) && ComposedFrame(s, id, number).Some? && number != 0
    requires id in s.images && x < s.images[id].width && y < s.images[id].height
    ensures var image, fs := s.images[id], FramesOf(s, id);
            && FrameIndex(fs, number) < |fs|
            && var f := fs[FrameIndex(fs, number)];
               && ReadsSized(s, id, f.base) && ComposedFrame(s, id, f.base).Some?
               && |ComposedFrame(s, id, f.base).value| == |ComposedFrame(s, id, number).value| ==
                  4 * (image.width * image.height)
               && |AsRgba(f.format, f.data)| == 4 * (f.width * f.height)
               && At(image.width, x, y) + 4 <= 4 * (image.width * image.height)
               && Pixel(ComposedFrame(s, id, number).value, image.width, x, y) ==
                  if f.x <= x < f.x + f.width && f.y <= y < f.y + f.height then
                    AtRange(f.width, f.height, x - f.x, y - f.y);
                    Mixed(Pixel(ComposedFrame(s, id, f.base).value, image.width, x, y),
                          Pixel(AsRgba(f.format, f.data), f.width, x - f.x, y - f.y), f.replace)
                  else Pixel(ComposedFrame(s, id, f.base).value, image.width, x, y)
  {
    hide ChainSized, Reaches, Pixel, Mixed, At, ComposeRect;
    var image, fs := s.images[id], FramesOf(s, id);
    var f := fs[FrameIndex(fs, number)];
    ChainDown(image, fs, number);
    assert [] + [number] == [number];
    FewerSeen(image, fs, f.base, [number], []);
    var base := ComposedFrame(s, id, f.base).value;
    RgbaSize(f.format, f.data, f.width, f.height);
    ComposedPixel(base, image.width, image.height, AsRgba(f.format, f.data), f.width, f.height,
                  Box(0, 0, f.x, f.y, f.width, f.height), f.replace, x, y);
  }

  lemma {:induction false} ComposedRoot(s: Store, id: u32)
    requires ReadsSized(s, id, 0) && id in s.images && s.images[id].width != 0 && s.images[id].height != 0
    ensures ComposedFrame(s, id, 0) == Some(AsRgba(s.images[id].format, s.images[id].data))
  {
  }

  /** Composing answers for what is missing, and changes nothing then. */
  lemma {:induction false} ComposeRefuses(s: Store, c: Command, id: u32)
    requires Counted(s) && Composable(s, c)
    ensures (forall k: u32 :: !Names(s, c.id, c.number, k)) ==> Compose(s, c) == (s, Respond(c, NoImage))
    ensures Names(s, c.id, c.number, id) && (c.rows == 0 || c.cols == 0
              || (forall i | 0 <= i < |FramesOf(s, id)| :: FramesOf(s, id)[i].number != c.rows)
              || (forall i | 0 <= i < |FramesOf(s, id)| :: FramesOf(s, id)[i].number != c.cols)) ==>
            Compose(s, c) == (s, Respond(c, NoFrame))
  {
    hide Counted, Names, ResolveId, Composable;
    ResolvedNames(s, c.id, c.number, id);
    var k := ResolveId(s, c.id, c.number);
    if k.Some? { ResolvedNames(s, c.id, c.number, k.value); }
  }

  /** Otherwise the rectangle of frame `c.cols` is put onto frame `c.rows`, which becomes a full canvas of
      its own; pixels outside the rectangle are those it had. */
  lemma {:induction false} ComposesOnto(s: Store, c: Command, id: u32) returns (canvas: seq<byte>, gs: seq<Frame>)
    requires Counted(s) && Composable(s, c) && Names(s, c.id, c.number, id)
    requires HaveFrame(s, id, c.rows) && HaveFrame(s, id, c.cols)
    ensures id in s.images && ReadsSized(s, id, c.rows) && ReadsSized(s, id, c.cols)
    ensures var src, dst, image := ComposedFrame(s, id, c.cols), ComposedFrame(s, id, c.rows), s.images[id];
            if src.None? || dst.None? then Compose(s, c) == (s, Respond(c, CannotCompose))
            else
              && |canvas| == |src.value| == |dst.value| == 4 * (image.width * image.height)
              && Composes(dst.value, src.value, image.width, image.height, c, canvas)
              && (exists k :: 0 <= k < |FramesOf(s, id)| && FramesOf(s, id)[k].number == c.rows
                    && var was := FramesOf(s, id)[k];
                       gs == FramesOf(s, id)[k :=
                         Frame(c.rows, was.gap, 0, 0, 0, RawRgba, image.width, image.height, canvas, true)])
              && Compose(s, c).1 == Respond(c, Fine)
              && Evicted(s.(frames := s.frames[id := gs], total := Compose(s, c).0.total), Compose(s, c).0)
  {
    hide Counted, Names, ResolveId, Evicted, EnforceQuota, ComposedFrame, ReadsSized, ComposeRect, Composes;
    canvas, gs := [], [];
    ResolvedNames(s, c.id, c.number, id);
    var src, dst, image := ComposedFrame(s, id, c.cols), ComposedFrame(s, id, c.rows), s.images[id];
    if src.Some? && dst.Some? {
      var fs := FramesOf(s, id);
      var w, h := if c.srcW != 0 then c.srcW else image.width, if c.srcH != 0 then c.srcH else image.height;
      canvas := ComposeRect(dst.value, image.width, image.height, src.value, image.width, image.height,
                            Box(c.cellX, c.cellY, c.srcX, c.srcY, w, h), c.noCursorMove);
      RectComposes(dst.value, src.value, image.width, image.height, c);
      var k := FrameIndex(fs, c.rows);
      var frame := Frame(c.rows, fs[k].gap, 0, 0, 0, RawRgba, image.width, image.height, canvas, true);
      gs := WithFrame(fs, frame);
      FramesSet(s, id, frame);
      var d := s.(frames := s.frames[id := gs], total := s.total - |fs[k].data| + |canvas|);
      QuotaEvicts(d);
      EvictedTotal(d, EnforceQuota(d));
    }
  }

  /** Pixel by pixel: the rectangle read at `X`, `Y` of the source is mixed onto `x`, `y`; its size is that
      of the image where none is given, and it is cut at both images' edges. */
  ghost predicate Composes(dst: seq<byte>, src: seq<byte>, w: nat, h: nat, c: Command, canvas: seq<byte>)
    requires |dst| == |src| == |canvas| == 4 * (w * h)
  {
    forall x: nat, y: nat | x < w && y < h :: PixelComposes(dst, src, w, h, c, canvas, x, y)
  }

  ghost predicate PixelComposes(dst: seq<byte>, src: seq<byte>, w: nat, h: nat, c: Command, canvas: seq<byte>, x: nat,
      y: nat)
    requires |dst| == |src| == |canvas| == 4 * (w * h) && x < w && y < h
  {
    var sx, sy := x - c.srcX + c.cellX, y - c.srcY + c.cellY;
    AtRange(w, h, x, y);
    if c.srcX <= x < c.srcX + (if c.srcW != 0 then c.srcW else w)
      && c.srcY <= y < c.srcY + (if c.srcH != 0 then c.srcH else h)
       && sx < w && sy < h
    then
      AtRange(w, h, sx, sy);
      Pixel(canvas, w, x, y) == Mixed(Pixel(dst, w, x, y), Pixel(src, w, sx, sy), c.noCursorMove)
    else Pixel(canvas, w, x, y) == Pixel(dst, w, x, y)
  }

  lemma {:induction false} RectComposes(dst: seq<byte>, src: seq<byte>, w: nat, h: nat, c: Command)
    requires |dst| == |src| == 4 * (w * h)
    ensures Composes(dst, src, w, h, c,
              ComposeRect(dst, w, h, src, w, h, Box(c.cellX, c.cellY, c.srcX, c.srcY, if c.srcW != 0 then c.srcW else w,
                                                    if c.srcH != 0 then c.srcH else h), c.noCursorMove))
  {
    hide PixelComposes, ComposeRect;
    var b := Box(c.cellX, c.cellY, c.srcX, c.srcY,
      if c.srcW != 0 then c.srcW else w, if c.srcH != 0 then c.srcH else h);
    var canvas := ComposeRect(dst, w, h, src, w, h, b, c.noCursorMove);
    forall x: nat, y: nat | x < w && y < h
      ensures PixelComposes(dst, src, w, h, c, canvas, x, y)
    {
      PixelIs(dst, src, w, h, c, b, x, y);
    }
  }

  lemma {:induction false} PixelIs(dst: seq<byte>, src: seq<byte>, w: nat, h: nat, c: Command, b: Box, x: nat, y: nat)
    requires |dst| == |src| == 4 * (w * h) && x < w && y < h
    requires b == Box(c.cellX, c.cellY, c.srcX, c.srcY,
               if c.srcW != 0 then c.srcW else w, if c.srcH != 0 then c.srcH else h)
    ensures PixelComposes(dst, src, w, h, c, ComposeRect(dst, w, h, src, w, h, b, c.noCursorMove), x, y)
  {
    hide Pixel, Mixed, At, ComposeRect;
    ComposedPixel(dst, w, h, src, w, h, b, c.noCursorMove, x, y);
  }
}
