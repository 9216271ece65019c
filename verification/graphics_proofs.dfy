// The graphics store over whole runs of commands: exact accounting within the quota, live frames only,
// exact block sizes, and composition over chains of base frames.
module GraphicsProofs {
  import opened Utf8
  import opened Cells
  import opened Pixels
  import opened Graphics

  // ---- sums -----------------------------------------------------------------

  /** The order of summation does not matter. */
  lemma {:induction false} SumRemove<V>(m: map<u32, V>, size: V -> nat, k: u32)
    requires k in m
    ensures Sum(m, size) == size(m[k]) + Sum(m - {k}, size)
    decreases |m|
  {
    var j :| j in m && Sum(m, size) == size(m[j]) + Sum(m - {j}, size);
    if j != k {
      SumRemove(m - {j}, size, k);
      SumRemove(m - {k}, size, j);
      assert m - {j} - {k} == m - {k} - {j};
    }
  }

  lemma {:induction false} SumAbsent<V>(m: map<u32, V>, size: V -> nat, k: u32)
    ensures Sum(m, size) == (if k in m then size(m[k]) else 0) + Sum(m - {k}, size)
  {
    if k in m { SumRemove(m, size, k); } else { assert m - {k} == m; }
  }

  lemma {:induction false} SumSet<V>(m: map<u32, V>, size: V -> nat, k: u32, v: V)
    ensures Sum(m[k := v], size) == size(v) + Sum(m - {k}, size)
  {
    SumRemove(m[k := v], size, k);
    assert m[k := v] - {k} == m - {k};
  }

  lemma {:induction false} FrameBytesSet(fs: seq<Frame>, i: nat, f: Frame)
    requires i < |fs|
    ensures FrameBytes(fs[i := f]) == FrameBytes(fs) - |fs[i].data| + |f.data|
    decreases i
  {
    if i > 0 {
      assert fs[i := f][1..] == fs[1..][i - 1 := f];
      FrameBytesSet(fs[1..], i - 1, f);
    } else {
      assert fs[0 := f][1..] == fs[1..];
    }
  }

  lemma {:induction false} FrameBytesPush(fs: seq<Frame>, f: Frame)
    ensures FrameBytes(fs + [f]) == FrameBytes(fs) + |f.data|
    decreases |fs|
  {
    if fs == [] {
      assert [] + [f] == [f] && [f][1..] == [];
    } else {
      assert (fs + [f])[1..] == fs[1..] + [f];
      FrameBytesPush(fs[1..], f);
    }
  }

  // ---- removing -------------------------------------------------------------

  lemma {:induction false} DropKeeps(s: Store, id: u32)
    requires Counted(s)
    ensures var d := Drop(s, id);
      Counted(d) && d.total <= s.total && id !in d.images && id !in d.frames && id !in d.animations &&
      d.total == s.total - (if id in s.images then |s.images[id].data| else 0) - FrameBytes(FramesOf(s, id))
  {
    SumAbsent(s.images, ImageBytes, id);
    SumAbsent(s.frames, FrameBytes, id);
  }

  lemma {:induction false} PlacementsFree(s: Store, ps: seq<Placement>)
    requires Counted(s)
    ensures Counted(s.(placements := ps))
  {
  }

  lemma {:induction false} NoImages(s: Store)
    requires Counted(s) && s.images == map[]
    ensures s.total == 0
  {
    assert s.frames.Keys == {};
    assert s.frames == map[];
  }

  /** The quota is met, and only the oldest images pay for it: everything kept is unchanged and newer than
      everything evicted. */
  lemma {:induction false} EnforceKeeps(s: Store)
    requires Counted(s)
    ensures var r := EnforceQuota(s);
      && Counted(r) && r.total <= QUOTA && r.frames.Keys <= s.frames.Keys
      && (forall k | k in r.images :: k in s.images && r.images[k] == s.images[k])
      && (forall k | k in r.images && k in s.frames :: k in r.frames && r.frames[k] == s.frames[k])
      && (forall j, k | j in r.images && k in s.images && k !in r.images :: s.images[k].seqNo < s.images[j].seqNo)
      && (s.total <= QUOTA ==> r == s)
    decreases |s.images|
  {
    hide Counted;
    if s.total > QUOTA {
      if s.images == map[] {
        NoImages(s);
      } else {
        var o := Oldest(s.images);
        var d := Drop(s, o);
        DropKeeps(s, o);
        var e := d.(placements := Without(d.placements, o));
        PlacementsFree(d, Without(d.placements, o));
        EnforceKeeps(e);
        var r := EnforceQuota(s);
        forall j, k | j in r.images && k in s.images && k !in r.images
          ensures s.images[k].seqNo < s.images[j].seqNo
        {
          assert j in e.images;
          if k == o { OldestFirst(s, o, j); }
        }
      }
    }
  }

  lemma {:induction false} OldestFirst(s: Store, o: u32, j: u32)
    requires Counted(s) && IsOldest(s.images, o) && j in s.images && j != o
    ensures s.images[o].seqNo < s.images[j].seqNo
  {
  }

  /** The newest image evicted, with its frames, would not have fitted. */
  ghost predicate Needed(s: Store, r: Store, k: u32) {
    && k in s.images && k !in r.images
    && (forall j | j in s.images && j !in r.images :: s.images[j].seqNo <= s.images[k].seqNo)
    && r.total + |s.images[k].data| + FrameBytes(FramesOf(s, k)) > QUOTA
  }

  /** No more is evicted than must be. */
  lemma {:induction false} LastWasNeeded(s: Store)
    requires Counted(s) && s.total > QUOTA
    ensures exists k :: Needed(s, EnforceQuota(s), k)
    decreases |s.images|
  {
    hide Counted, FrameBytes;
    if s.images == map[] { NoImages(s); }
    var o := Oldest(s.images);
    var d := Drop(s, o);
    DropKeeps(s, o);
    var e := d.(placements := Without(d.placements, o));
    PlacementsFree(d, Without(d.placements, o));
    var r := EnforceQuota(s);
    EnforceKeeps(e);
    if e.total <= QUOTA {
      assert forall j | j in s.images && j !in r.images :: j == o;
      assert Needed(s, r, o);
    } else {
      LastWasNeeded(e);
      var k :| Needed(e, r, k);
      forall j | j in s.images && j !in r.images
        ensures s.images[j].seqNo <= s.images[k].seqNo
      {
        if j != o { assert j in e.images; }
      }
      assert Needed(s, r, k);
    }
  }

  // ---- storing --------------------------------------------------------------

  lemma {:induction false} StowKeeps(s: Store, c: Command, id: u32, w: u32, h: u32, f: Format, data: seq<byte>)
    requires Counted(s)
    ensures var r := Stow(s, c, id, w, h, f, data); Counted(r) && r.total <= QUOTA && r.pending == s.pending
  {
    hide Counted;
    DropKeeps(s, id);
    var d := Drop(s, id);
    var image := Image(id, c.number, f, w, h, data, d.nextSeq + 1);
    AddImage(d, id, image);
    EnforceKeeps(d.(images := d.images[id := image], total := d.total + |data|, nextSeq := d.nextSeq + 1));
  }

  lemma {:induction false} AddImage(s: Store, id: u32, image: Image)
    requires Counted(s) && id !in s.images && image.id == id && image.seqNo == s.nextSeq + 1
    ensures Counted(s.(images := s.images[id := image], total := s.total + |image.data|, nextSeq := s.nextSeq + 1))
  {
    SumSet(s.images, ImageBytes, id, image);
    assert s.images - {id} == s.images;
  }

  lemma {:induction false} FramesSet(s: Store, id: u32, f: Frame)
    requires Counted(s) && id in s.images
    ensures var fs := FramesOf(s, id);
      var i := FrameIndex(fs, f.number);
      Counted(s.(frames := s.frames[id := WithFrame(fs, f)],
        total := s.total + |f.data| - (if i < |fs| then |fs[i].data| else 0)))
  {
    hide ImagesOk, FramesOk, FrameIndex, WithFrame, FrameBytes, Sum;
    var fs := FramesOf(s, id);
    SumSet(s.frames, FrameBytes, id, WithFrame(fs, f));
    SumAbsent(s.frames, FrameBytes, id);
    NoFrames();
    WithFrameBytes(fs, f);
    if id !in s.frames { NoFramesOk(); }
    WithFrameOk(fs, f);
  }

  lemma {:induction false} NoFrames()
    ensures FrameBytes([]) == 0
  {
  }

  lemma {:induction false} NoFramesOk()
    ensures FramesOk([])
  {
  }

  lemma {:induction false} WithFrameBytes(fs: seq<Frame>, f: Frame)
    ensures var i := FrameIndex(fs, f.number);
      FrameBytes(WithFrame(fs, f)) == FrameBytes(fs) + |f.data| - (if i < |fs| then |fs[i].data| else 0)
  {
    var i := FrameIndex(fs, f.number);
    if i < |fs| { FrameBytesSet(fs, i, f); } else { FrameBytesPush(fs, f); }
  }

  lemma {:induction false} WithFrameOk(fs: seq<Frame>, f: Frame)
    requires FramesOk(fs)
    ensures FramesOk(WithFrame(fs, f))
  {
    NoOther(fs, f.number);
  }

  lemma {:induction false} NoOther(fs: seq<Frame>, number: u32)
    requires forall i, j | 0 <= i < j < |fs| :: fs[i].number != fs[j].number
    ensures forall k | 0 <= k < |fs| && k != FrameIndex(fs, number) :: fs[k].number != number
  {
  }

  lemma {:induction false} StoreFrameKeeps(s: Store, c: Command, f: Format, w: u32, h: u32, data: seq<byte>)
    requires Counted(s) && s.total <= QUOTA
    ensures var r := StoreFrame(s, c, f, w, h, data).0; Counted(r) && r.total <= QUOTA && r.pending == s.pending
  {
    hide Counted, FramesOf, FrameIndex, WithFrame, MostNumber, EnforceQuota, ResolveId;
    var id := ResolveId(s, c.id, c.number);
    if id.Some? {
      var fs := FramesOf(s, id.value);
      var number: u32 := if c.rows != 0 then c.rows else (MostNumber(fs) + 1) % MOD32;
      var frame := Frame(number, c.z, c.cols, c.srcX, c.srcY, f, w, h, data, c.cellX == 1);
      FramesSet(s, id.value, frame);
      var i := FrameIndex(fs, number);
      var lost := if i < |fs| then |fs[i].data| else 0;
      EnforceKeeps(s.(frames := s.frames[id.value := WithFrame(fs, frame)], total := s.total + |data| - lost));
    }
  }

  lemma {:induction false} ComposeKeeps(s: Store, c: Command)
    requires Counted(s) && s.total <= QUOTA && Composable(s, c)
    ensures var r := Compose(s, c).0; Counted(r) && r.total <= QUOTA && r.pending == s.pending
  {
    hide Counted, ComposeRect, ComposedFrame, FrameSized, Sized, EnforceQuota, FrameIndex;
    var id := ResolveId(s, c.id, c.number);
    if id.Some? && HaveFrame(s, id.value, c.rows) && HaveFrame(s, id.value, c.cols) {
      var src, dst := ComposedFrame(s, id.value, c.cols), ComposedFrame(s, id.value, c.rows);
      if src.Some? && dst.Some? {
        var image, fs := s.images[id.value], FramesOf(s, id.value);
        var w, h := if c.srcW != 0 then c.srcW else image.width, if c.srcH != 0 then c.srcH else image.height;
        var canvas := ComposeRect(dst.value, image.width, image.height, src.value, image.width, image.height,
                                  Box(c.cellX, c.cellY, c.srcX, c.srcY, w, h), c.noCursorMove);
        var was := fs[FrameIndex(fs, c.rows)];
        var frame := was.(data := canvas, format := RawRgba, x := 0,
          y := 0, width := image.width, height := image.height, base := 0, replace := true);
        FramesSet(s, id.value, frame);
        EnforceKeeps(s.(frames := s.frames[id.value := WithFrame(fs, frame)],
          total := s.total + |canvas| - |was.data|));
        assert s.total + |canvas| - |was.data| == s.total - |was.data| + |canvas|;
      }
    }
  }

  lemma {:induction false} AnimateKeeps(s: Store, c: Command)
    requires Counted(s) && s.total <= QUOTA
    ensures var r := Animate(s, c).0; Counted(r) && r.total <= QUOTA && r.pending == s.pending
  {
  }

  lemma {:induction false} FreeKeeps(s: Store, ids: seq<u32>)
    requires Counted(s)
    ensures var r := FreeUnused(s, ids); Counted(r) && r.total <= s.total && r.pending == s.pending
    decreases |ids|
  {
    hide Counted;
    if ids != [] {
      DropKeeps(s, ids[0]);
      FreeKeeps(if InUse(s.placements, ids[0]) then s else Drop(s, ids[0]), ids[1..]);
    }
  }

  lemma {:induction false} DeleteKeeps(s: Store, c: Command, row: u16, col: u16)
    requires Counted(s) && s.total <= QUOTA
    ensures var r := Delete(s, c, row, col); Counted(r) && r.total <= QUOTA && r.pending == s.pending
  {
    hide Counted;
    var what := Lowered(c.delete);
    if what == 0 || what == 0x61 {
      PlacementsFree(s, []);
      Cleared(s);
    } else if what == 0x69 {
      var id := ResolveId(s, c.id, c.number);
      if id.Some? {
        var d := s.(placements := WithoutOf(s.placements, id.value, c.placementId));
        PlacementsFree(s, d.placements);
        DropKeeps(d, id.value);
      }
    } else if what == 0x6E {
      var id := ResolveId(s, 0, c.number);
      if id.Some? {
        var d := s.(placements := Without(s.placements, id.value));
        PlacementsFree(s, d.placements);
        DropKeeps(d, id.value);
      }
    } else if what in {0x63, 0x70, 0x71, 0x78, 0x79, 0x7A} {
      var d := s.(placements := Unmatched(s, c, row, col, s.placements));
      PlacementsFree(s, d.placements);
      FreeKeeps(d, Touched(s, c, row, col, s.placements));
    }
  }

  lemma {:induction false} Cleared(s: Store)
    ensures Counted(s.(placements := [], images := map[], frames := map[], animations := map[], total := 0))
  {
  }

  // ---- the size check -------------------------------------------------------

  /** The check on raw pixels multiplies modulo 2^64. What it accepts has the size its dimensions imply
      exactly when that product does not wrap. */
  lemma {:induction false} CheckMeansSize(f: Format, w: u32, h: u32, data: seq<byte>)
    requires Checked(f, w, h, data).Block?
    ensures Sized(f, w, h, data) <==> w * h * Bpp(f) < MOD64
  {
    var n := w * h * Bpp(f);
    assert n == Bpp(f) * (w * h);
    Wrapped(n);
  }

  lemma {:induction false} Wrapped(n: nat)
    ensures n % MOD64 < MOD64 && (n < MOD64 ==> n % MOD64 == n)
  {
  }

  /** An empty payload passes for an image of 2^31 by 2^31 pixels. */
  lemma {:induction false} CheckWraps()
    ensures Checked(RawRgba, 0x8000_0000, 0x8000_0000, []) == Block(0x8000_0000, 0x8000_0000, RawRgba, [])
    ensures !Sized(RawRgba, 0x8000_0000, 0x8000_0000, [])
  {
    assert 0x8000_0000 * 0x8000_0000 * 4 == MOD64;
  }

  lemma {:induction false} ReceivedSized(m: Media, c: Command, payload: seq<byte>)
    requires PngSized(m) && Plausible(c)
    ensures var r := Receive(m, c, payload); r.Block? ==> Sized(r.format, r.width, r.height, r.data)
  {
    var raw := Transmitted(m, c, payload);
    if raw.Data? {
      var d := Unpacked(m, c, raw.bytes);
      if d.Data? {
        if c.format == 24 && Checked(RawRgb, c.width, c.height, d.bytes).Block? {
          CheckMeansSize(RawRgb, c.width, c.height, d.bytes);
        } else if (c.format == 0 || c.format == 32) && Checked(RawRgba, c.width, c.height, d.bytes).Block? {
          CheckMeansSize(RawRgba, c.width, c.height, d.bytes);
        } else if c.format == 100 && m.png(d.bytes).Some? {
          PictureSized(m, d.bytes);
        }
      }
    }
  }

  lemma {:induction false} PictureSized(m: Media, d: seq<byte>)
    requires PngSized(m) && m.png(d).Some?
    ensures var p := m.png(d).value; Sized(FromPng, p.width, p.height, p.rgba)
  {
  }

  // ---- whole commands: the accounting ------------------------------------------

  lemma {:induction false} NextIdFree(s: Store, id: u32)
    requires StoreOk(s)
    ensures StoreOk(s.(nextId := id))
  {
  }

  lemma {:induction false} PlacingKeeps(s: Store, c: Command, id: u32, row: u16, col: u16)
    requires StoreOk(s)
    ensures var p := AddPlacement(s, c, id, row, col); p.Placed? ==> StoreOk(p.s) && p.s.pending == s.pending
  {
    hide Counted;
    if AddPlacement(s, c, id, row, col).Placed? { PlacementsFree(s, AddPlacement(s, c, id, row, col).s.placements); }
  }

  lemma {:induction false} FinishKeeps(m: Media, s: Store, c: Command, payload: seq<byte>, row: u16, col: u16)
    requires StoreOk(s)
    ensures var r := Finish(m, s, c, payload, row, col).s; StoreOk(r) && r.pending == s.pending
  {
    hide StoreOk, Receive, StoreFrame, Stow, AddPlacement;
    match Receive(m, c, payload)
    case Refused(msg) =>
    case Block(w, h, f, data) =>
      var c := c.(width := w, height := h);
      StoreMeans(s);
      StoreFrameKeeps(s, c, f, w, h, data);
      StoreWhen(StoreFrame(s, c, f, w, h, data).0);
      if c.action != 0x66 {
        var id: u32 := if c.id == 0 then (s.nextId + 1) % MOD32 else c.id;
        var s1 := s.(nextId := if c.id == 0 then id else Larger(s.nextId, c.id));
        NextIdFree(s, s1.nextId);
        StoreMeans(s1);
        var c1 := c.(id := id);
        StowKeeps(s1, c1, id, w, h, f, data);
        StoreWhen(Stow(s1, c1, id, w, h, f, data));
        PlacingKeeps(Stow(s1, c1, id, w, h, f, data), c1, id, row, col);
      }
  }

  lemma {:induction false} StoreMeans(s: Store)
    requires StoreOk(s)
    ensures Counted(s) && s.total <= QUOTA
  {
  }

  lemma {:induction false} StoreWhen(s: Store)
    ensures Counted(s) && s.total <= QUOTA ==> StoreOk(s)
  {
  }

  /** One escape. */
  datatype Escape = Escape(data: seq<byte>, row: u16, col: u16)

  /** Every command keeps the accounting, whatever sizes it declares. */
  lemma {:induction false} DispatchKeeps(m: Media, s: Store, e: Escape)
    requires StoreOk(s) && Handled(m, s, e.data)
    ensures StoreOk(Dispatch(m, s, e.data, e.row, e.col).s)
  {
    hide Counted, Finish, Place, Delete, Animate, Compose;
    var parsed, payload := m.parse(Control(e.data)), Payload(e.data);
    if parsed.Some? {
      var c := parsed.value;
      if s.pending.Some? {
        var p := s.pending.value;
        var p1 := if |p.payload| + |payload| <= MAX_PENDING then p.(payload := p.payload + payload) else p;
        PendingFree(s, None);
        PendingFree(s, Some(p1));
        FinishKeeps(m, s.(pending := None), p1.cmd, p1.payload, e.row, e.col);
      } else if Receives(c) {
        PendingFree(s, Some(Graphics.Pending(c, payload)));
        FinishKeeps(m, s, c, payload, e.row, e.col);
      } else if c.action == 0x70 {
        PlaceKeeps(s, c, e.row, e.col);
      } else if c.action == 0x64 {
        DeleteKeeps(s, c, e.row, e.col);
      } else if c.action == 0x61 {
        AnimateKeeps(s, c);
      } else if c.action == 0x63 {
        ComposeKeeps(s, c);
      }
    }
  }

  lemma {:induction false} PendingFree(s: Store, p: Option<Pending>)
    requires StoreOk(s)
    ensures StoreOk(s.(pending := p))
  {
  }

  lemma {:induction false} PlaceKeeps(s: Store, c: Command, row: u16, col: u16)
    requires StoreOk(s)
    ensures StoreOk(Place(s, c, row, col).s) && Place(s, c, row, col).s.pending == s.pending
  {
    hide StoreOk, AddPlacement;
    var id := ResolveId(s, c.id, c.number);
    if id.Some? { PlacingKeeps(s, c.(id := id.value), id.value, row, col); }
  }

  // ---- whole commands: the sizes -----------------------------------------------

  lemma {:induction false} EnforceSizes(s: Store)
    requires Counted(s) && AllSized(s)
    ensures AllSized(EnforceQuota(s))
  {
    hide Counted, Sized, EnforceQuota, FrameSized;
    EnforceKeeps(s);
    var r := EnforceQuota(s);
    forall k | k in r.images
      ensures BlocksSized(r, k)
    {
      assert BlocksSized(s, k) && FramesOf(r, k) == FramesOf(s, k);
    }
  }

  lemma {:induction false} DropSizes(s: Store, id: u32)
    requires AllSized(s)
    ensures AllSized(Drop(s, id))
  {
    hide Sized, FrameSized;
    var d := Drop(s, id);
    forall k | k in d.images
      ensures BlocksSized(d, k)
    {
      assert BlocksSized(s, k) && FramesOf(d, k) == FramesOf(s, k);
    }
  }

  lemma {:induction false} StowSizes(s: Store, c: Command, id: u32, w: u32, h: u32, f: Format, data: seq<byte>)
    requires Counted(s) && AllSized(s) && Sized(f, w, h, data)
    ensures AllSized(Stow(s, c, id, w, h, f, data))
  {
    hide *;
    DropKeeps(s, id);
    DropSizes(s, id);
    var d := Drop(s, id);
    var image := Image(id, c.number, f, w, h, data, d.nextSeq + 1);
    StowIs(s, c, id, w, h, f, data);
    AddImage(d, id, image);
    AddSizes(d, id, image);
    EnforceSizes(d.(images := d.images[id := image], total := d.total + |data|, nextSeq := d.nextSeq + 1));
  }

  lemma {:induction false} StowIs(s: Store, c: Command, id: u32, w: u32, h: u32, f: Format, data: seq<byte>)
    ensures var d := Drop(s, id);
      var image := Image(id, c.number, f, w, h, data, d.nextSeq + 1);
      Stow(s, c, id, w, h, f, data)
      == EnforceQuota(d.(images := d.images[id := image], total := d.total + |data|, nextSeq := d.nextSeq + 1))
  {
    hide Drop, EnforceQuota;
  }

  lemma {:induction false} AddSizes(d: Store, id: u32, image: Image)
    requires AllSized(d) && id !in d.frames && Sized(image.format, image.width, image.height, image.data)
    ensures AllSized(d.(images := d.images[id := image], total := d.total + |image.data|, nextSeq := d.nextSeq + 1))
  {
    hide Sized, FrameSized;
    var e := d.(images := d.images[id := image], total := d.total + |image.data|, nextSeq := d.nextSeq + 1);
    forall k | k in e.images
      ensures BlocksSized(e, k)
    {
      assert FramesOf(e, k) == FramesOf(d, k);
      if k != id { assert BlocksSized(d, k); }
    }
  }

  /** A frame of the right size put in. */
  lemma {:induction false} FrameSizes(s: Store, id: u32, f: Frame, total: int)
    requires Counted(s) && AllSized(s) && id in s.images && FrameSized(f)
    requires var fs := FramesOf(s, id);
      var i := FrameIndex(fs, f.number);
      total == s.total + |f.data| - (if i < |fs| then |fs[i].data| else 0)
    ensures AllSized(EnforceQuota(s.(frames := s.frames[id := WithFrame(FramesOf(s, id), f)], total := total)))
  {
    hide Counted, Sized, FrameSized, EnforceQuota;
    FramesSet(s, id, f);
    var e := s.(frames := s.frames[id := WithFrame(FramesOf(s, id), f)], total := total);
    forall k | k in e.images
      ensures BlocksSized(e, k)
    {
      assert BlocksSized(s, k);
      assert FramesOf(e, k) == if k == id then WithFrame(FramesOf(s, id), f) else FramesOf(s, k);
    }
    EnforceSizes(e);
  }

  lemma {:induction false} StoreFrameSizes(s: Store, c: Command, f: Format, w: u32, h: u32, data: seq<byte>)
    requires Counted(s) && AllSized(s) && Sized(f, w, h, data)
    ensures AllSized(StoreFrame(s, c, f, w, h, data).0)
  {
    hide Counted, AllSized, FramesOf, FrameIndex, WithFrame, MostNumber, EnforceQuota, ResolveId;
    var id := ResolveId(s, c.id, c.number);
    if id.Some? {
      var fs := FramesOf(s, id.value);
      var number: u32 := if c.rows != 0 then c.rows else (MostNumber(fs) + 1) % MOD32;
      var frame := Frame(number, c.z, c.cols, c.srcX, c.srcY, f, w, h, data, c.cellX == 1);
      assert FrameSized(frame);
      hide Sized, FrameSized;
      var i := FrameIndex(fs, number);
      FrameSizes(s, id.value, frame, s.total + |data| - (if i < |fs| then |fs[i].data| else 0));
    }
  }

  lemma {:induction false} CanvasSized(f: Frame, w: nat, h: nat)
    requires f.format == RawRgba && f.width == w && f.height == h && |f.data| == 4 * (w * h)
    ensures FrameSized(f)
  {
  }

  lemma {:induction false} ComposeSizes(s: Store, c: Command)
    requires Counted(s) && AllSized(s) && Composable(s, c)
    ensures AllSized(Compose(s, c).0)
  {
    hide Counted, AllSized, ComposeRect, ComposedFrame, FrameSized,
      Sized, EnforceQuota, FrameIndex, WithFrame, ReadsSized, Composable;
    var id := ResolveId(s, c.id, c.number);
    if id.Some? && HaveFrame(s, id.value, c.rows) && HaveFrame(s, id.value, c.cols) {
      ComposableMeans(s, c);
      var src, dst := ComposedFrame(s, id.value, c.cols), ComposedFrame(s, id.value, c.rows);
      if src.Some? && dst.Some? {
        var image, fs := s.images[id.value], FramesOf(s, id.value);
        var w, h := if c.srcW != 0 then c.srcW else image.width, if c.srcH != 0 then c.srcH else image.height;
        var canvas := ComposeRect(dst.value, image.width, image.height, src.value, image.width, image.height,
                                  Box(c.cellX, c.cellY, c.srcX, c.srcY, w, h), c.noCursorMove);
        var was := fs[FrameIndex(fs, c.rows)];
        var frame := was.(data := canvas, format := RawRgba, x := 0,
          y := 0, width := image.width, height := image.height, base := 0, replace := true);
        CanvasSized(frame, image.width, image.height);
        FrameSizes(s, id.value, frame, s.total - |was.data| + |canvas|);
      }
    }
  }

  lemma {:induction false} ComposableMeans(s: Store, c: Command)
    requires Composable(s, c) && ResolveId(s, c.id, c.number).Some?
    requires var id := ResolveId(s, c.id, c.number).value; HaveFrame(s, id, c.rows) && HaveFrame(s, id, c.cols)
    ensures var id := ResolveId(s, c.id, c.number).value; ReadsSized(s, id, c.rows) && ReadsSized(s, id, c.cols)
  {
    hide ReadsSized;
  }

  /** What does not touch the blocks does not change their sizes. */
  lemma {:induction false} SameBlocks(s: Store, r: Store)
    requires AllSized(s) && r.images == s.images && r.frames == s.frames
    requires r.pending == s.pending || r.pending.None? || Plausible(r.pending.value.cmd)
    ensures AllSized(r)
  {
    hide Sized, FrameSized, Plausible;
    forall k | k in r.images
      ensures BlocksSized(r, k)
    {
      assert BlocksSized(s, k) && FramesOf(r, k) == FramesOf(s, k);
    }
  }

  lemma {:induction false} FreeSizes(s: Store, ids: seq<u32>)
    requires AllSized(s)
    ensures AllSized(FreeUnused(s, ids))
    decreases |ids|
  {
    hide AllSized;
    if ids != [] {
      DropSizes(s, ids[0]);
      FreeSizes(if InUse(s.placements, ids[0]) then s else Drop(s, ids[0]), ids[1..]);
    }
  }

  lemma {:induction false} NoBlocks(s: Store)
    requires AllSized(s)
    ensures AllSized(s.(placements := [], images := map[], frames := map[], animations := map[], total := 0))
  {
  }

  lemma {:induction false} DeleteSizes(s: Store, c: Command, row: u16, col: u16)
    requires AllSized(s)
    ensures AllSized(Delete(s, c, row, col))
  {
    hide AllSized, Drop;
    var what := Lowered(c.delete);
    NoBlocks(s);
    SameBlocks(s, s.(placements := []));
    if what == 0x69 {
      var id := ResolveId(s, c.id, c.number);
      if id.Some? {
        SameBlocks(s, s.(placements := WithoutOf(s.placements, id.value, c.placementId)));
        DropSizes(s.(placements := WithoutOf(s.placements, id.value, c.placementId)), id.value);
      }
    } else if what == 0x6E {
      var id := ResolveId(s, 0, c.number);
      if id.Some? {
        SameBlocks(s, s.(placements := Without(s.placements, id.value)));
        DropSizes(s.(placements := Without(s.placements, id.value)), id.value);
      }
    } else if what in {0x63, 0x70, 0x71, 0x78, 0x79, 0x7A} {
      var d := s.(placements := Unmatched(s, c, row, col, s.placements));
      SameBlocks(s, d);
      FreeSizes(d, Touched(s, c, row, col, s.placements));
    }
  }

  lemma {:induction false} FinishSizes(m: Media, s: Store, c: Command, payload: seq<byte>, row: u16, col: u16)
    requires PngSized(m) && Plausible(c) && StoreOk(s) && AllSized(s)
    ensures AllSized(Finish(m, s, c, payload, row, col).s)
  {
    hide StoreOk, AllSized, Receive, StoreFrame, Stow, AddPlacement, Sized, PngSized, Plausible;
    ReceivedSized(m, c, payload);
    match Receive(m, c, payload)
    case Refused(msg) =>
    case Block(w, h, f, data) =>
      var c := c.(width := w, height := h);
      StoreMeans(s);
      StoreFrameSizes(s, c, f, w, h, data);
      if c.action != 0x66 {
        var id: u32 := if c.id == 0 then (s.nextId + 1) % MOD32 else c.id;
        var s1 := s.(nextId := if c.id == 0 then id else Larger(s.nextId, c.id));
        NextIdFree(s, s1.nextId);
        SameBlocks(s, s1);
        StoreMeans(s1);
        var c1 := c.(id := id);
        StowSizes(s1, c1, id, w, h, f, data);
        PlacingSizes(Stow(s1, c1, id, w, h, f, data), c1, id, row, col);
      }
  }

  lemma {:induction false} PlacingSizes(s: Store, c: Command, id: u32, row: u16, col: u16)
    requires AllSized(s)
    ensures var p := AddPlacement(s, c, id, row, col); p.Placed? ==> AllSized(p.s)
  {
    hide AllSized;
    if AddPlacement(s, c, id, row, col).Placed? { SameBlocks(s, AddPlacement(s, c, id, row, col).s); }
  }

  lemma {:induction false} PlaceSizes(s: Store, c: Command, row: u16, col: u16)
    requires AllSized(s)
    ensures AllSized(Place(s, c, row, col).s)
  {
    hide AllSized, AddPlacement;
    var id := ResolveId(s, c.id, c.number);
    if id.Some? { PlacingSizes(s, c.(id := id.value), id.value, row, col); }
  }

  lemma {:induction false} AnimateSizes(s: Store, c: Command)
    requires AllSized(s)
    ensures AllSized(Animate(s, c).0)
  {
    hide AllSized;
    SameBlocks(s, Animate(s, c).0);
  }

  /** A transmission begins with dimensions that do not wrap the size check. What a continuation or any
      other command declares does not matter. */
  ghost predicate Begins(m: Media, s: Store, e: Escape) {
    var c := m.parse(Control(e.data));
    c.Some? && s.pending.None? && Receives(c.value) ==> Plausible(c.value)
  }

  lemma {:induction false} SizedHandles(m: Media, s: Store, data: seq<byte>)
    requires AllSized(s)
    ensures Handled(m, s, data)
  {
    hide BlocksSized, ReadsSized;
    var parsed := m.parse(Control(data));
    if parsed.Some? {
      var id := ResolveId(s, parsed.value.id, parsed.value.number);
      if id.Some? { SizedReads(s, id.value, parsed.value.rows); SizedReads(s, id.value, parsed.value.cols); }
    }
  }

  lemma {:induction false} SizedReads(s: Store, id: u32, number: u32)
    requires BlocksSized(s, id)
    ensures ReadsSized(s, id, number)
  {
    hide Sized, FrameSized;
  }

  /** Every command keeps the blocks as large as they declare. */
  lemma {:induction false} DispatchSizes(m: Media, s: Store, e: Escape)
    requires PngSized(m) && StoreOk(s) && AllSized(s) && Begins(m, s, e)
    ensures Handled(m, s, e.data) && AllSized(Dispatch(m, s, e.data, e.row, e.col).s)
  {
    hide Counted, AllSized, Finish, Place, Delete, Animate, Compose, Plausible, PngSized, Composable;
    SizedHandles(m, s, e.data);
    var parsed, payload := m.parse(Control(e.data)), Payload(e.data);
    if parsed.Some? {
      var c := parsed.value;
      if s.pending.Some? {
        var p := s.pending.value;
        var p1 := if |p.payload| + |payload| <= MAX_PENDING then p.(payload := p.payload + payload) else p;
        PendingPlausible(s);
        PendingFree(s, None);
        SameBlocks(s, s.(pending := None));
        SameBlocks(s, s.(pending := Some(p1)));
        FinishSizes(m, s.(pending := None), p1.cmd, p1.payload, e.row, e.col);
      } else if Receives(c) {
        SameBlocks(s, s.(pending := Some(Graphics.Pending(c, payload))));
        FinishSizes(m, s, c, payload, e.row, e.col);
      } else if c.action == 0x70 {
        PlaceSizes(s, c, e.row, e.col);
      } else if c.action == 0x64 {
        DeleteSizes(s, c, e.row, e.col);
      } else if c.action == 0x61 {
        AnimateSizes(s, c);
      } else if c.action == 0x63 {
        ComposeSizes(s, c);
      }
    }
  }

  lemma {:induction false} PendingPlausible(s: Store)
    requires AllSized(s) && s.pending.Some?
    ensures Plausible(s.pending.value.cmd)
  {
  }

  // ---- runs ----------------------------------------------------------------------

  /** No composition reads blocks of the wrong size. */
  ghost predicate AllHandled(m: Media, s: Store, es: seq<Escape>)
    decreases |es|
  {
    es == [] || (Handled(m, s, es[0].data)
      && AllHandled(m, Dispatch(m, s, es[0].data, es[0].row, es[0].col).s, es[1..]))
  }

  ghost function Run(m: Media, s: Store, es: seq<Escape>): Store
    requires AllHandled(m, s, es)
    decreases |es|
  {
    if es == [] then s else Run(m, Dispatch(m, s, es[0].data, es[0].row, es[0].col).s, es[1..])
  }

  lemma {:induction false} RunKeeps(m: Media, s: Store, es: seq<Escape>)
    requires StoreOk(s) && AllHandled(m, s, es)
    ensures StoreOk(Run(m, s, es))
    decreases |es|
  {
    hide StoreOk, Handled, Dispatch;
    if es != [] {
      DispatchKeeps(m, s, es[0]);
      RunKeeps(m, Dispatch(m, s, es[0].data, es[0].row, es[0].col).s, es[1..]);
    }
  }

  /** After any run of commands, whatever sizes they declare, from the empty store. */
  lemma {:induction false} AlwaysAccounted(m: Media, es: seq<Escape>)
    requires AllHandled(m, EMPTY_STORE, es)
    ensures var s := Run(m, EMPTY_STORE, es);
      && s.total == Sum(s.images, ImageBytes) + Sum(s.frames, FrameBytes) && 0 <= s.total <= QUOTA
      && s.frames.Keys <= s.images.Keys && s.animations.Keys <= s.images.Keys
      && (forall k, i, j | k in s.frames && 0 <= i < j < |s.frames[k]| ::
         s.frames[k][i].number != s.frames[k][j].number)
  {
    hide Run, AllHandled;
    RunKeeps(m, EMPTY_STORE, es);
    var s := Run(m, EMPTY_STORE, es);
    forall k, i, j | k in s.frames && 0 <= i < j < |s.frames[k]|
      ensures s.frames[k][i].number != s.frames[k][j].number
    {
      assert FramesOk(s.frames[k]);
    }
  }

  /** Every transmission begins with dimensions that do not wrap the size check. */
  ghost predicate AllBegin(m: Media, s: Store, es: seq<Escape>)
    decreases |es|
  {
    es != [] ==>
      && Begins(m, s, es[0])
      && (Handled(m, s, es[0].data) ==> AllBegin(m, Dispatch(m, s, es[0].data, es[0].row, es[0].col).s, es[1..]))
  }

  lemma {:induction false} RunSizes(m: Media, s: Store, es: seq<Escape>)
    requires PngSized(m) && StoreOk(s) && AllSized(s) && AllBegin(m, s, es)
    ensures AllHandled(m, s, es) && AllSized(Run(m, s, es))
    decreases |es|
  {
    hide StoreOk, AllSized, Handled, Dispatch, PngSized;
    if es != [] {
      DispatchSizes(m, s, es[0]);
      DispatchKeeps(m, s, es[0]);
      RunSizes(m, Dispatch(m, s, es[0].data, es[0].row, es[0].col).s, es[1..]);
    }
  }

  /** And if no transmission begins with dimensions that wrap the size check, every command is handled,
      and every block is as large as its format and dimensions imply. */
  lemma {:induction false} AlwaysSized(m: Media, es: seq<Escape>)
    requires PngSized(m) && AllBegin(m, EMPTY_STORE, es)
    ensures AllHandled(m, EMPTY_STORE, es)
    ensures var s := Run(m, EMPTY_STORE, es);
      && (forall k | k in s.images ::
         Sized(s.images[k].format, s.images[k].width, s.images[k].height, s.images[k].data))
      && (forall k, i | k in s.frames && 0 <= i < |s.frames[k]| :: FrameSized(s.frames[k][i]))
  {
    hide Run, AllHandled, AllBegin, Sized, FrameSized, PngSized;
    RunSizes(m, EMPTY_STORE, es);
    RunKeeps(m, EMPTY_STORE, es);
    var s := Run(m, EMPTY_STORE, es);
    forall k | k in s.images
      ensures Sized(s.images[k].format, s.images[k].width, s.images[k].height, s.images[k].data)
    {
      assert BlocksSized(s, k);
    }
    forall k, i | k in s.frames && 0 <= i < |s.frames[k]|
      ensures FrameSized(s.frames[k][i])
    {
      assert BlocksSized(s, k) && FramesOf(s, k) == s.frames[k];
    }
  }

  // ---- chains of frames -----------------------------------------------------

  lemma {:induction false} BaseSteps(fs: seq<Frame>, number: u32, a: nat, b: nat)
    requires BaseAfter(fs, number, a).Some?
    ensures BaseAfter(fs, number, a + b) == BaseAfter(fs, BaseAfter(fs, number, a).value, b)
    decreases a
  {
    if a > 0 { BaseSteps(fs, fs[FrameIndex(fs, number)].base, a - 1, b); }
  }

  /** A frame on a cycle never reaches the image. */
  lemma {:induction false} CycleNeverEnds(fs: seq<Frame>, number: u32, k: nat, n: nat)
    requires number != 0 && k > 0 && BaseAfter(fs, number, k) == Some(number)
    ensures BaseAfter(fs, number, n) != Some(0)
    decreases n
  {
    if n >= k {
      BaseSteps(fs, number, k, n - k);
      CycleNeverEnds(fs, number, k, n - k);
    } else if BaseAfter(fs, number, n) == Some(0) {
      BaseSteps(fs, number, n, k - n);
    }
  }

  ghost predicate LeadTo(fs: seq<Frame>, seen: seq<u32>, number: u32) {
    forall q | q in seen :: q != 0 && exists k: nat :: k > 0 && BaseAfter(fs, q, k) == Some(number)
  }

  lemma {:induction false} LeadOn(fs: seq<Frame>, seen: seq<u32>, number: u32)
    requires LeadTo(fs, seen, number) && number != 0 && FrameIndex(fs, number) < |fs|
    ensures LeadTo(fs, seen + [number], fs[FrameIndex(fs, number)].base)
  {
    var base := fs[FrameIndex(fs, number)].base;
    assert BaseAfter(fs, number, 1) == Some(base) by { assert BaseAfter(fs, base, 0) == Some(base); }
    forall q | q in seen + [number]
      ensures q != 0 && exists k: nat :: k > 0 && BaseAfter(fs, q, k) == Some(base)
    {
      if q in seen {
        var k: nat :| k > 0 && BaseAfter(fs, q, k) == Some(number);
        BaseSteps(fs, q, k, 1);
        assert BaseAfter(fs, q, k + 1) == Some(base);
      }
    }
  }

  lemma {:induction false} ChainComposes(image: Image, fs: seq<Frame>, number: u32, seen: seq<u32>, n: nat)
    requires ChainSized(image, fs, number)
    requires LeadTo(fs, seen, number) && BaseAfter(fs, number, n) == Some(0)
    ensures ComposeChain(image, fs, number, seen).Some?
    decreases n
  {
    hide ChainSized, Composed;
    if number != 0 {
      if number in seen {
        var k: nat :| k > 0 && BaseAfter(fs, number, k) == Some(number);
        CycleNeverEnds(fs, number, k, n);
      } else {
        LeadOn(fs, seen, number);
        ChainDown(image, fs, number);
        ChainComposes(image, fs, fs[FrameIndex(fs, number)].base, seen + [number], n - 1);
      }
    }
  }

  /** Composing ends, whatever the bases; it gives a canvas exactly when the image is not empty and the
      chain of bases leads to it, so not from a missing frame and not from a cycle; and the canvas has
      four bytes a pixel. Only the blocks it reads need to be as large as they declare. */
  lemma {:induction false} ComposesWhen(s: Store, id: u32, number: u32)
    requires ReadsSized(s, id, number)
    ensures ComposedFrame(s, id, number).Some? <==>
      id in s.images && s.images[id].width != 0 && s.images[id].height != 0 && Reaches(FramesOf(s, id), number)
    ensures ComposedFrame(s, id, number).Some? ==>
      |ComposedFrame(s, id, number).value| == 4 * (s.images[id].width * s.images[id].height)
  {
    if id in s.images && s.images[id].width != 0 && s.images[id].height != 0 {
      var image, fs := s.images[id], FramesOf(s, id);
      if n: nat :| BaseAfter(fs, number, n) == Some(0) {
        ChainComposes(image, fs, number, [], n);
      }
    }
  }

  // ---- a composed frame stands alone ----------------------------------------

  lemma {:induction false} PixelOf(w: nat, h: nat, i: nat)
    requires i < 4 * (w * h)
    ensures w > 0 && i / 4 % w < w && i / 4 / w < h && Pixels.At(w, i / 4 % w, i / 4 / w) + i % 4 == i
  {
    NotEmpty(w, h);
    var p := i / 4;
    assert p == p / w * w + p % w;
    RowBelow(p, w, h);
  }

  lemma {:induction false} NotEmpty(w: nat, h: nat)
    ensures w * h > 0 ==> w > 0
  {
  }

  lemma {:induction false} RowBelow(p: nat, w: nat, h: nat)
    requires w > 0 && p < w * h
    ensures p / w < h
  {
    assert p == w * (p / w) + p % w;
    if p / w >= h { Products(h, p / w, w); }
  }

  /** Replacing the whole canvas leaves exactly the new pixels. */
  lemma {:induction false} WholeReplaced(dst: seq<byte>, src: seq<byte>, w: nat, h: nat)
    requires |dst| == 4 * (w * h) && |src| == 4 * (w * h)
    ensures ComposeRect(dst, w, h, src, w, h, Box(0, 0, 0, 0, w, h), true) == src
  {
    var r := ComposeRect(dst, w, h, src, w, h, Box(0, 0, 0, 0, w, h), true);
    forall i | 0 <= i < |src|
      ensures r[i] == src[i]
    {
      PixelOf(w, h, i);
      var x, y := i / 4 % w, i / 4 / w;
      ComposedPixel(dst, w, h, src, w, h, Box(0, 0, 0, 0, w, h), true, x, y);
      assert Pixel(r, w, x, y)[i % 4] == Pixel(src, w, x, y)[i % 4];
      hide ComposeRect;
    }
  }

  /** After `a=c` the destination frame needs no base: composed, it is the canvas stored in it. */
  lemma {:induction false} StandsAlone(image: Image, fs: seq<Frame>, f: Frame)
    requires Sized(image.format, image.width, image.height, image.data)
    requires f.number != 0 && f.format == RawRgba && f.base == 0 && f.x == 0 && f.y == 0 && f.replace
    requires f.width == image.width && f.height == image.height && FrameSized(f)
    ensures var gs := WithFrame(fs, f);
      ChainSized(image, gs, f.number) && ComposeChain(image, gs, f.number, []) == Some(f.data)
  {
    var gs := WithFrame(fs, f);
    FoundBack(fs, f);
    OneStepChain(image, gs, f);
    ChainDown(image, gs, f.number);
    RgbaSize(image.format, image.data, image.width, image.height);
    var root := AsRgba(image.format, image.data);
    assert ComposeChain(image, gs, 0, [] + [f.number]) == Some(root);
    WholeReplaced(root, f.data, image.width, image.height);
  }

  lemma {:induction false} OneStepChain(image: Image, gs: seq<Frame>, f: Frame)
    requires Sized(image.format, image.width, image.height, image.data) && FrameSized(f) && f.number != 0 && f.base == 0
    requires FrameIndex(gs, f.number) < |gs| && gs[FrameIndex(gs, f.number)] == f
    ensures ChainSized(image, gs, f.number)
  {
    hide Sized, FrameSized, FrameIndex;
    forall n: nat | n > 1
      ensures BaseAfter(gs, f.number, n) == None
    {
      assert BaseAfter(gs, f.number, n) == BaseAfter(gs, 0, n - 1);
    }
  }

  lemma {:induction false} FoundBack(fs: seq<Frame>, f: Frame)
    ensures var gs := WithFrame(fs, f); FrameIndex(gs, f.number) < |gs| && gs[FrameIndex(gs, f.number)] == f
    decreases |fs|
  {
    var i := FrameIndex(fs, f.number);
    var gs := WithFrame(fs, f);
    if fs != [] && fs[0].number != f.number {
      FoundBack(fs[1..], f);
      assert gs[0] == fs[0] && gs[1..] == WithFrame(fs[1..], f);
    }
  }
}
