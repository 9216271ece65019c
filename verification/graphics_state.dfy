// The graphics store with its maps and lists updated in place; every method is its function in `Graphics`.
module GraphicsStates {
  import opened Utf8
  import opened Cells
  import opened Pixels
  import opened Graphics
  import opened GraphicsProofs

  class GraphicsState {
    const media: Media
    var images: map<u32, Image>
    var placements: seq<Placement>
    var frames: map<u32, seq<Frame>>
    var animations: map<u32, Animation>
    var pending: Option<Pending>
    var total: int
    var nextSeq: nat
    var nextId: u32

    function View(): Store
      reads this
    {
      Store(images, placements, frames, animations, pending, total, nextSeq, nextId)
    }

    constructor (media: Media)
      ensures this.media == media && View() == EMPTY_STORE
    {
      this.media, images, placements, frames, animations := media, map[], [], map[], map[];
      pending, total, nextSeq, nextId := None, 0, 0, 0;
    }

    method Clear()
      modifies this
      ensures View() == EMPTY_STORE
    {
      images, placements, frames, animations, pending, total, nextSeq, nextId := map[], [], map[], map[], None, 0, 0, 0;
    }

    method RemoveImageData(id: u32)
      modifies this
      ensures View() == Drop(old(View()), id)
    {
      if id in images {
        total := total - |images[id].data|;
        images := images - {id};
      } else {
        assert images - {id} == images;
      }
      if id in frames {
        var bytes := CountFrames(frames[id]);
        total := total - bytes;
        frames := frames - {id};
      } else {
        assert frames - {id} == frames;
      }
      animations := animations - {id};
    }

    /** `min_by_key(seq)`: sequence numbers differ, so the order of the map does not matter. */
    method FindOldest() returns (k: u32)
      requires images != map[] && ImagesOk(images, nextSeq)
      ensures k == Oldest(images)
    {
      var rest := images.Keys;
      k :| k in rest;
      rest := rest - {k};
      while rest != {}
        invariant k in images && rest <= images.Keys
        invariant forall j | j in images && j !in rest :: images[k].seqNo <= images[j].seqNo
        decreases |rest|
      {
        var j :| j in rest;
        if images[j].seqNo < images[k].seqNo { k := j; }
        rest := rest - {j};
      }
      assert IsOldest(images, k);
    }

    method Evict()
      requires Counted(View())
      modifies this
      ensures View() == EnforceQuota(old(View())) && Counted(View()) && total <= QUOTA
    {
      hide Counted;
      ghost var s := View();
      EnforceKeeps(s);
      while total > QUOTA
        invariant Counted(View()) && EnforceQuota(View()) == EnforceQuota(s)
        decreases |images|
      {
        ghost var v := View();
        if images == map[] { break; }
        CountedImages(v);
        var oldest := FindOldest();
        DropKeeps(v, oldest);
        RemoveImageData(oldest);
        PlacementsFree(View(), Without(placements, oldest));
        placements := Without(placements, oldest);
      }
      if images == map[] { NoImages(View()); }
    }

    method Resolve(id: u32, number: u32) returns (r: Option<u32>)
      requires ImagesOk(images, nextSeq)
      ensures r == ResolveId(View(), id, number)
    {
      if id != 0 { return if id in images then Some(id) else None; }
      if number == 0 { return None; }
      var best: Option<u32> := None;
      var rest := images.Keys;
      while rest != {}
        invariant rest <= images.Keys
        invariant best.Some? ==> best.value in images && images[best.value].number == number
        invariant best.Some? ==> forall j | j in images && j !in rest && images[j].number == number ::
                  images[j].seqNo <= images[best.value].seqNo
        invariant best.None? ==> forall j | j in images && j !in rest :: images[j].number != number
        decreases |rest|
      {
        var j :| j in rest;
        if images[j].number == number && (best.None? || images[j].seqNo > images[best.value].seqNo) { best := Some(j); }
        rest := rest - {j};
      }
      if best.Some? { assert IsNewest(images, number, best.value); }
      return best;
    }

    method PutFrame(id: u32, f: Frame)
      modifies this
      ensures View() == old(View()).(frames := old(frames)[id := WithFrame(FramesOf(old(View()), id), f)],
                                     total := old(total) + |f.data| - Lost(FramesOf(old(View()), id), f.number))
    {
      var fs := if id in frames then frames[id] else [];
      total := total + |f.data|;
      var i := FindFrame(fs, f.number);
      if i < |fs| {
        total := total - |fs[i].data|;
        fs := fs[i := f];
      } else {
        fs := fs + [f];
      }
      frames := frames[id := fs];
    }

    method AddFrame(c: Command, f: Format, w: u32, h: u32, data: seq<byte>) returns (reply: Reply)
      requires Counted(View()) && total <= QUOTA
      modifies this
      ensures (View(), reply) == StoreFrame(old(View()), c, f, w, h, data) && Counted(View()) && total <= QUOTA
    {
      hide Counted, WithFrame, MostNumber, FrameIndex, ResolveId, FramesOf, Drop, EnforceQuota;
      CountedImages(View());
      var id := Resolve(c.id, c.number);
      if id.None? { return Respond(c, NoImage); }
      var number: u32 := c.rows;
      if c.rows == 0 {
        var most := HighestNumber(FramesOf(View(), id.value));
        number := (most + 1) % MOD32;
      }
      var frame := Frame(number, c.z, c.cols, c.srcX, c.srcY, f, w, h, data, c.cellX == 1);
      FramesSet(View(), id.value, frame);
      PutFrame(id.value, frame);
      Evict();
      return Respond(c, Fine);
    }

    method AnimateImage(c: Command) returns (reply: Reply)
      requires Counted(View())
      modifies this
      ensures (View(), reply) == Animate(old(View()), c)
    {
      CountedImages(View());
      var id := Resolve(c.id, c.number);
      if id.None? { return Respond(c, NoImage); }
      var a := if id.value in animations then animations[id.value] else Animation(0, 0, 0);
      if c.width != 0 { a := a.(state := c.width % 256); }
      if c.height != 0 { a := a.(loops := c.height); }
      if c.cols != 0 { a := a.(current := c.cols); }
      animations := animations[id.value := a];
      return Respond(c, Fine);
    }

    /** The canvas is one buffer, composed in place from the root up. */
    method Chain(image: Image, fs: seq<Frame>, number: u32, seen: seq<u32>) returns (canvas: array?<byte>)
      requires ChainSized(image, fs, number)
      ensures canvas == null <==> ComposeChain(image, fs, number, seen).None?
      ensures canvas != null ==> fresh(canvas) && canvas[..] == ComposeChain(image, fs, number, seen).value
      decreases Unseen(fs, seen)
    {
      hide ComposeRect, AsRgba, ChainSized, Reaches;
      if number == 0 {
        RootSized(image, fs);
        var rgba := ToRgba(image.format, image.data);
        canvas := new byte[|rgba|](i requires 0 <= i < |rgba| => rgba[i]);
        assert canvas[..] == rgba;
        return;
      }
      if number in seen { return null; }
      var i := FindFrame(fs, number);
      if i == |fs| { return null; }
      var f := fs[i];
      assert number in Unseen(fs, seen) && number !in Unseen(fs, seen + [number]);
      ChainDown(image, fs, number);
      canvas := Chain(image, fs, f.base, seen + [number]);
      if canvas == null { return; }
      RgbaSize(f.format, f.data, f.width, f.height);
      var rgba := ToRgba(f.format, f.data);
      ComposeInPlace(canvas, image.width, image.height, rgba, f.width,
        f.height, Box(0, 0, f.x, f.y, f.width, f.height), f.replace);
    }

    method ComposedCanvas(id: u32, number: u32) returns (canvas: array?<byte>)
      requires ReadsSized(View(), id, number)
      ensures canvas == null <==> ComposedFrame(View(), id, number).None?
      ensures canvas != null ==> fresh(canvas) && canvas[..] == ComposedFrame(View(), id, number).value
    {
      hide ComposeChain;
      if id !in images || images[id].width == 0 || images[id].height == 0 { return null; }
      var fs := FramesOf(View(), id);
      canvas := Chain(images[id], fs, number, []);
    }

    method ComposeFrames(c: Command) returns (reply: Reply)
      requires Counted(View()) && total <= QUOTA && Composable(View(), c)
      modifies this
      ensures (View(), reply) == Compose(old(View()), c) && Counted(View()) && total <= QUOTA
    {
      hide Counted, ComposedFrame, ComposeRect, WithFrame,
        FrameIndex, ReadsSized, ResolveId, EnforceQuota, Drop, FramesOf;
      CountedImages(View());
      var id := Resolve(c.id, c.number);
      if id.None? { return Respond(c, NoImage); }
      var fs := FramesOf(View(), id.value);
      var at := FindFrame(fs, c.rows);
      var from := FindFrame(fs, c.cols);
      if c.rows == 0 || at == |fs| || c.cols == 0 || from == |fs| { return Respond(c, NoFrame); }
      var src := ComposedCanvas(id.value, c.cols);
      var dst := ComposedCanvas(id.value, c.rows);
      if src == null || dst == null { return Respond(c, CannotCompose); }
      var image := images[id.value];
      var w := if c.srcW != 0 then c.srcW else image.width;
      var h := if c.srcH != 0 then c.srcH else image.height;
      ComposeInPlace(dst, image.width, image.height, src[..], image.width, image.height,
                     Box(c.cellX, c.cellY, c.srcX, c.srcY, w, h), c.noCursorMove);
      var frame := fs[at].(data := dst[..], format := RawRgba,
        x := 0, y := 0, width := image.width, height := image.height, base := 0, replace := true);
      KeepFrame(id.value, frame);
      return Respond(c, Fine);
    }

    method KeepFrame(id: u32, f: Frame)
      requires Counted(View()) && id in images
      modifies this
      ensures var s, fs := old(View()), FramesOf(old(View()), id);
              View() == EnforceQuota(s.(frames := s.frames[id := WithFrame(fs, f)],
                total := s.total + |f.data| - Lost(fs, f.number)))
      ensures Counted(View()) && total <= QUOTA
    {
      hide Counted, WithFrame, FrameIndex, EnforceQuota, FramesOf;
      FramesSet(View(), id, f);
      PutFrame(id, f);
      Evict();
    }

    method PlaceImage(c: Command, id: u32, row: u16, col: u16)
        returns (refused: Option<Message>, advance: Option<Extent>)
      modifies this
      ensures match AddPlacement(old(View()), c, id, row, col)
              case Placed(q, a) => refused == None && View() == q && advance == a
              case NotPlaced(msg) => refused == Some(msg) && View() == old(View()) && advance == None
    {
      var r, k := row, col;
      if c.parentImage != 0 {
        var atImage, atId := c.parentImage, c.parentId;
        var n: nat := |placements| + 1;
        while n > 0
          invariant ComesBack(placements, id, c.placementId, c.parentImage, c.parentId, |placements| + 1) ==
                    ComesBack(placements, id, c.placementId, atImage, atId, n)
        {
          if atImage == id && atId == c.placementId { return Some(Cycle), None; }
          var p := FindPlacement(placements, atImage, atId);
          if p.None? || p.value.parentImage == 0 { break; }
          atImage, atId := p.value.parentImage, p.value.parentId;
          n := n - 1;
        }
        var parent := FindPlacement(placements, c.parentImage, c.parentId);
        if parent.None? { return Some(NoParent), None; }
        r, k := Shifted(parent.value.row, c.vOff), Shifted(parent.value.col, c.hOff);
      }
      var p := Placement(id, c.placementId, r, k, c.srcX, c.srcY, c.srcW, c.srcH, c.cols, c.rows, c.z,
                         c.parentImage, c.parentId, c.hOff, c.vOff, c.cellX, c.cellY, c.unicode);
      if !c.noCursorMove && !c.unicode && c.parentImage == 0 {
        advance := Some(ExtentOf(View(), p));
      } else {
        advance := None;
      }
      placements := WithoutPlacement(placements, id, c.placementId) + [p];
      return None, advance;
    }

    method DeleteMatching(c: Command, free: bool, row: u16, col: u16)
      modifies this
      ensures View() == DeletePlacements(old(View()), c, free, row, col)
    {
      ghost var s := View();
      var ps := placements;
      var touched: seq<u32>, kept: seq<Placement> := [], [];
      for i := 0 to |ps|
        invariant View() == s && ps == s.placements
        invariant touched + Touched(s, c, row, col, ps[i..]) == Touched(s, c, row, col, ps)
        invariant kept + Unmatched(s, c, row, col, ps[i..]) == Unmatched(s, c, row, col, ps)
      {
        MatchStep(s, c, row, col, ps, i, touched, kept);
        if Matches(View(), c, ps[i], row, col) {
          touched := touched + [ps[i].image];
        } else {
          kept := kept + [ps[i]];
        }
      }
      assert ps[|ps|..] == [];
      assert touched == Touched(s, c, row, col, ps) && kept == Unmatched(s, c, row, col, ps);
      placements := kept;
      if free {
        ghost var d := View();
        for i := 0 to |touched|
          invariant FreeUnused(View(), touched[i..]) == FreeUnused(d, touched)
        {
          assert touched[i..][1..] == touched[i + 1..];
          if !InUse(placements, touched[i]) { RemoveImageData(touched[i]); }
        }
        assert touched[|touched|..] == [];
        assert touched[0..] == touched;
        assert View() == FreeUnused(d, touched);
      }
    }

    method DeleteCommand(c: Command, row: u16, col: u16)
      requires Counted(View())
      modifies this
      ensures View() == Delete(old(View()), c, row, col)
    {
      hide Drop, DeletePlacements;
      CountedImages(View());
      var free := 0x41 <= c.delete <= 0x5A;
      var what := Lowered(c.delete);
      if what == 0 || what == 0x61 {
        placements := [];
        if free { images, frames, animations, total := map[], map[], map[], 0; }
      } else if what == 0x69 {
        var id := Resolve(c.id, c.number);
        if id.Some? {
          placements := WithoutOf(placements, id.value, c.placementId);
          if free { RemoveImageData(id.value); }
        }
      } else if what == 0x6E {
        var id := Resolve(0, c.number);
        if id.Some? {
          placements := Without(placements, id.value);
          if free { RemoveImageData(id.value); }
        }
      } else if what in {0x63, 0x70, 0x71, 0x78, 0x79, 0x7A} {
        DeleteMatching(c, free, row, col);
      }
    }

    method StowImage(c: Command, id: u32, w: u32, h: u32, f: Format, data: seq<byte>)
      requires Counted(View())
      modifies this
      ensures View() == Stow(old(View()), c, id, w, h, f, data) && Counted(View()) && total <= QUOTA
    {
      hide Counted, Drop;
      DropKeeps(View(), id);
      RemoveImageData(id);
      AddImage(View(), id, Image(id, c.number, f, w, h, data, nextSeq + 1));
      total := total + |data|;
      nextSeq := nextSeq + 1;
      images := images[id := Image(id, c.number, f, w, h, data, nextSeq)];
      Evict();
    }

    method FinishTransmission(c: Command, payload: seq<byte>, row: u16, col: u16)
        returns (reply: Reply, advance: Option<Extent>)
      requires Counted(View()) && total <= QUOTA
      modifies this
      ensures Outcome(View(), reply, advance) == Finish(media, old(View()), c, payload, row, col)
    {
      hide Counted, Receive, Stow, StoreFrame, AddPlacement;
      var got := Receive(media, c, payload);
      if got.Refused? { return Respond(c, got.msg), None; }
      var c := c.(width := got.width, height := got.height);
      if c.action == 0x66 {
        reply := AddFrame(c, got.format, got.width, got.height, got.data);
        return reply, None;
      }
      if c.id == 0 {
        NextId(View(), (nextId + 1) % MOD32);
        nextId := (nextId + 1) % MOD32;
        c := c.(id := nextId);
      } else {
        NextId(View(), Larger(nextId, c.id));
        nextId := Larger(nextId, c.id);
      }
      if c.action == 0x71 { return Respond(c, Fine), None; }
      StowImage(c, c.id, got.width, got.height, got.format, got.data);
      if c.action == 0x54 {
        var refused, a := PlaceImage(c, c.id, row, col);
        if refused.Some? { return Respond(c, refused.value), None; }
        return Respond(c, Fine), a;
      }
      return Respond(c, Fine), None;
    }

    method Handle(data: seq<byte>, row: u16, col: u16) returns (reply: Reply, advance: Option<Extent>)
      requires StoreOk(View()) && Handled(media, View(), data)
      modifies this
      ensures Outcome(View(), reply, advance) == Dispatch(media, old(View()), data, row, col) && StoreOk(View())
    {
      hide Counted, Finish, Place, Delete, Animate, Compose, Composable, Control, Payload;
      DispatchKeeps(media, View(), Escape(data, row, col));
      var control, payload := SplitControl(data);
      var parsed := media.parse(control);
      if parsed.None? { return NoReply, None; }
      var c := parsed.value;
      if pending.Some? {
        var p := pending.value;
        PendingFree(View(), None);
        pending := None;
        if |p.payload| + |payload| <= MAX_PENDING { p := p.(payload := p.payload + payload); }
        if c.more == 1 {
          pending := Some(p);
          return NoReply, None;
        }
        reply, advance := FinishTransmission(p.cmd, p.payload, row, col);
        return;
      }
      if Receives(c) {
        if c.more == 1 {
          pending := Some(Graphics.Pending(c, payload));
          return NoReply, None;
        }
        reply, advance := FinishTransmission(c, payload, row, col);
      } else if c.action == 0x70 {
        reply, advance := PlaceCommand(c, row, col);
      } else if c.action == 0x64 {
        DeleteCommand(c, row, col);
        return NoReply, None;
      } else if c.action == 0x61 {
        reply := AnimateImage(c);
        return reply, None;
      } else if c.action == 0x63 {
        reply := ComposeFrames(c);
        return reply, None;
      } else {
        return Respond(c, UnknownAction), None;
      }
    }

    method PlaceCommand(c: Command, row: u16, col: u16) returns (reply: Reply, advance: Option<Extent>)
      requires Counted(View())
      modifies this
      ensures Outcome(View(), reply, advance) == Place(old(View()), c, row, col)
    {
      hide AddPlacement;
      CountedImages(View());
      var id := Resolve(c.id, c.number);
      if id.None? { return Respond(c, NoImage), None; }
      var c := c.(id := id.value);
      var refused, a := PlaceImage(c, id.value, row, col);
      if refused.Some? { return Respond(c, refused.value), None; }
      return Respond(c, Fine), a;
    }
  }

  // ---- loops over lists -----------------------------------------------------

  method CountFrames(fs: seq<Frame>) returns (n: nat)
    ensures n == FrameBytes(fs)
  {
    n := 0;
    for i := 0 to |fs|
      invariant n + FrameBytes(fs[i..]) == FrameBytes(fs)
    {
      assert fs[i..][1..] == fs[i + 1..];
      n := n + |fs[i].data|;
    }
  }

  method FindFrame(fs: seq<Frame>, number: u32) returns (i: nat)
    ensures i == FrameIndex(fs, number)
  {
    i := 0;
    while i < |fs|
      invariant i <= |fs| && FrameIndex(fs, number) == i + FrameIndex(fs[i..], number)
    {
      if fs[i].number == number { return; }
      assert fs[i..][1..] == fs[i + 1..];
      i := i + 1;
    }
  }

  method HighestNumber(fs: seq<Frame>) returns (most: u32)
    ensures most == MostNumber(fs)
  {
    most := 0;
    for i := 0 to |fs|
      invariant MostNumber(fs) == Larger(most, MostNumber(fs[i..]))
    {
      assert fs[i..][1..] == fs[i + 1..];
      most := Larger(most, fs[i].number);
    }
  }

  method SplitControl(data: seq<byte>) returns (control: seq<byte>, payload: seq<byte>)
    ensures control == Control(data) && payload == Payload(data)
  {
    control, payload := [], [];
    for i := 0 to |data|
      invariant control + Control(data[i..]) == Control(data) && Payload(data[i..]) == Payload(data)
    {
      if data[i] == 0x3B {
        assert data[i..][1..] == data[i + 1..];
        return control, data[i + 1..];
      }
      assert data[i..][1..] == data[i + 1..];
      control := control + [data[i]];
    }
    assert data[|data|..] == [];
  }

  // ---- facts the methods use ------------------------------------------------

  function Lost(fs: seq<Frame>, number: u32): nat {
    var i := FrameIndex(fs, number);
    if i < |fs| then |fs[i].data| else 0
  }

  lemma {:induction false} CountedImages(s: Store)
    requires Counted(s)
    ensures ImagesOk(s.images, s.nextSeq)
  {
  }

  lemma {:induction false} NextId(s: Store, id: u32)
    requires Counted(s)
    ensures Counted(s.(nextId := id))
  {
  }

  lemma {:induction false} MatchStep(s: Store, c: Command, row: u16, col: u16, ps: seq<Placement>, i: nat,
      touched: seq<u32>, kept: seq<Placement>)
    requires i < |ps|
    ensures var m := Matches(s, c, ps[i], row, col);
      && touched + Touched(s, c, row, col, ps[i..]) ==
         (if m then touched + [ps[i].image] else touched) + Touched(s, c, row, col, ps[i + 1..])
      && kept + Unmatched(s, c, row, col, ps[i..]) ==
         (if m then kept else kept + [ps[i]]) + Unmatched(s, c, row, col, ps[i + 1..])
  {
    hide Matches;
    assert ps[i..][1..] == ps[i + 1..];
  }
}
