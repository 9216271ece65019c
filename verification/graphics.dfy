// crates/posh-term/src/graphics.rs: the store of images, frames, animations and placements, as
// functions on its state. Files, base64, zlib and PNG decoding and the key table are parameters.
module Graphics {
  import opened Utf8
  import opened Cells
  import opened Pixels

  const QUOTA: nat := 320 * 1024 * 1024
  const MAX_PENDING: nat := 430_000_000
  const CELL_W: nat := 10
  const CELL_H: nat := 20
  const MOD32: nat := 0x1_0000_0000
  const MOD64: nat := 0x1_0000_0000_0000_0000

  type u32 = n: nat | n < MOD32
  type u16 = n: nat | n < 0x1_0000
  type i32 = n: int | -0x8000_0000 <= n < 0x8000_0000

  // ---- state ----------------------------------------------------------------

  datatype Image = Image(id: u32, number: u32, format: Format, width: u32, height: u32, data: seq<byte>, seqNo: nat)

  datatype Frame = Frame(
    number: u32, gap: i32, base: u32, x: u32, y: u32, format: Format,
      width: u32, height: u32, data: seq<byte>, replace: bool)

  datatype Animation = Animation(state: byte, loops: u32, current: u32)

  datatype Placement = Placement(
    image: u32, id: u32, row: u16, col: u16, srcX: u32, srcY: u32, srcW: u32, srcH: u32, cols: u32, rows: u32, z: i32,
    parentImage: u32, parentId: u32, hOff: i32, vOff: i32, cellX: u32, cellY: u32, unicode: bool)

  datatype Command = Command(
    action: byte, quiet: byte, format: u32, transmission: byte, width: u32, height: u32, id: u32, number: u32,
    placementId: u32, more: byte, srcX: u32, srcY: u32, srcW: u32,
    srcH: u32, cols: u32, rows: u32, z: i32, delete: byte,
    noCursorMove: bool, unicode: bool, parentImage: u32, parentId: u32, hOff: i32, vOff: i32, cellX: u32, cellY: u32,
    fileOffset: nat, fileSize: nat, compression: byte)

  datatype Pending = Pending(cmd: Command, payload: seq<byte>)

  datatype Store = Store(
    images: map<u32, Image>, placements: seq<Placement>, frames: map<u32, seq<Frame>>, animations: map<u32, Animation>,
    pending: Option<Pending>, total: int, nextSeq: nat, nextId: u32)

  const EMPTY_STORE := Store(map[], [], map[], map[], None, 0, 0, 0)

  datatype Message =
    | Fine | BadBase64 | BadFile | SharedMemory | BadMedium | BadCompression | TooBig | BadZlib | BadFormat | BadPng
    | SizeMismatch | NoImage | NoFrame | CannotCompose | Cycle | NoParent | UnknownAction

  datatype Reply = NoReply | Reply(id: u32, number: u32, msg: Message)

  datatype Extent = Extent(cols: nat, rows: nat)

  datatype Loaded = Data(bytes: seq<byte>) | Failed(msg: Message)

  datatype Picture = Picture(width: u32, height: u32, rgba: seq<byte>)

  datatype Media = Media(
    parse: seq<byte> -> Option<Command>, base64: seq<byte> -> Option<seq<byte>>,
    load: (Command, seq<byte>) -> Loaded, inflate: seq<byte> -> Loaded, png: seq<byte> -> Option<Picture>)

  /** A decoded PNG is four bytes a pixel. */
  ghost predicate PngSized(m: Media) {
    forall d: seq<byte> :: m.png(d).Some? ==>
      |m.png(d).value.rgba| == 4 * (m.png(d).value.width * m.png(d).value.height)
  }

  // ---- what is kept ---------------------------------------------------------

  ghost predicate Sized(f: Format, w: nat, h: nat, data: seq<byte>) {
    |data| == Bpp(f) * (w * h)
  }

  ghost predicate FrameSized(f: Frame) {
    Sized(f.format, f.width, f.height, f.data)
  }

  ghost predicate FramesOk(fs: seq<Frame>) {
    forall i, j | 0 <= i < j < |fs| :: fs[i].number != fs[j].number
  }

  function FrameBytes(fs: seq<Frame>): nat {
    if fs == [] then 0 else |fs[0].data| + FrameBytes(fs[1..])
  }

  function ImageBytes(i: Image): nat {
    |i.data|
  }

  ghost function Sum<V>(m: map<u32, V>, size: V -> nat): nat
    decreases |m|
  {
    if m == map[] then 0
    else
      var k :| k in m;
      size(m[k]) + Sum(m - {k}, size)
  }

  /** All bytes held: images and frames. */
  ghost function Stored(s: Store): nat {
    Sum(s.images, ImageBytes) + Sum(s.frames, FrameBytes)
  }

  ghost predicate ImagesOk(images: map<u32, Image>, nextSeq: nat) {
    && (forall k | k in images :: images[k].id == k && images[k].seqNo <= nextSeq)
    && (forall j, k | j in images && k in images && images[j].seqNo == images[k].seqNo :: j == k)
  }

  /** The accounting, without the quota. It does not depend on what the blocks hold. */
  ghost predicate Counted(s: Store) {
    && s.total == Stored(s) && s.frames.Keys <= s.images.Keys && s.animations.Keys <= s.images.Keys
    && ImagesOk(s.images, s.nextSeq) && forall k | k in s.frames :: FramesOk(s.frames[k])
  }

  ghost predicate StoreOk(s: Store) {
    Counted(s) && s.total <= QUOTA
  }

  /** The blocks of one image, its own and its frames', have the sizes they declare. */
  ghost predicate BlocksSized(s: Store, id: u32) {
    && (id in s.images ==> Sized(s.images[id].format, s.images[id].width, s.images[id].height, s.images[id].data))
    && forall i | 0 <= i < |FramesOf(s, id)| :: FrameSized(FramesOf(s, id)[i])
  }

  /** All blocks have, and what a pending transmission will store is going to. */
  ghost predicate AllSized(s: Store) {
    (forall k | k in s.images :: BlocksSized(s, k)) && (s.pending.Some? ==> Plausible(s.pending.value.cmd))
  }

  /** The size check multiplies in 64 bits: dimensions it does not wrap on. */
  predicate Plausible(c: Command) {
    c.format != 100 ==> c.width * c.height * (if c.format == 24 then 3 else 4) < MOD64
  }

  // ---- replies --------------------------------------------------------------

  function Respond(c: Command, msg: Message): Reply {
    if c.id == 0 && c.number == 0 then NoReply
    else if c.quiet >= 2 || (msg == Fine && c.quiet == 1) then NoReply
    else Reply(c.id, c.number, msg)
  }

  // ---- receiving ------------------------------------------------------------

  datatype Received = Refused(msg: Message) | Block(width: u32, height: u32, format: Format, data: seq<byte>)

  function Transmitted(m: Media, c: Command, payload: seq<byte>): Loaded {
    if c.transmission == 0 || c.transmission == 0x64 then
      var d := m.base64(payload);
      if d.Some? then Data(d.value) else Failed(BadBase64)
    else if c.transmission == 0x66 || c.transmission == 0x74 then m.load(c, payload)
    else if c.transmission == 0x73 then Failed(SharedMemory)
    else Failed(BadMedium)
  }

  function Unpacked(m: Media, c: Command, raw: seq<byte>): Loaded {
    if c.compression == 0 then Data(raw)
    else if c.compression != 0x7A then Failed(BadCompression)
    else m.inflate(raw)
  }

  function Checked(f: Format, w: u32, h: u32, data: seq<byte>): Received {
    if w == 0 || h == 0 || |data| != (w * h * Bpp(f)) % MOD64 then Refused(SizeMismatch) else Block(w, h, f, data)
  }

  function Receive(m: Media, c: Command, payload: seq<byte>): Received {
    var raw := Transmitted(m, c, payload);
    if raw.Failed? then Refused(raw.msg)
    else
      var d := Unpacked(m, c, raw.bytes);
      if d.Failed? then Refused(d.msg)
      else if c.format == 24 then Checked(RawRgb, c.width, c.height, d.bytes)
      else if c.format == 0 || c.format == 32 then Checked(RawRgba, c.width, c.height, d.bytes)
      else if c.format == 100 then
        var p := m.png(d.bytes);
        if p.None? then Refused(BadPng) else Block(p.value.width, p.value.height, FromPng, p.value.rgba)
      else Refused(BadFormat)
  }

  // ---- removing -------------------------------------------------------------

  /** `remove_image_data`. */
  function Drop(s: Store, id: u32): Store {
    var image := if id in s.images then |s.images[id].data| else 0;
    var frames := if id in s.frames then FrameBytes(s.frames[id]) else 0;
    s.(images := s.images - {id}, frames := s.frames - {id},
      animations := s.animations - {id}, total := s.total - image - frames)
  }

  function Without(ps: seq<Placement>, image: u32): seq<Placement> {
    if ps == [] then [] else (if ps[0].image == image then [] else [ps[0]]) + Without(ps[1..], image)
  }

  ghost predicate IsOldest(images: map<u32, Image>, k: u32) {
    k in images && forall j | j in images :: images[k].seqNo <= images[j].seqNo
  }

  lemma {:induction false} OldestExists(images: map<u32, Image>)
    requires images != map[]
    ensures exists k :: IsOldest(images, k)
    decreases |images|
  {
    var k :| k in images;
    var rest := images - {k};
    assert forall j | j in images :: j == k || j in rest;
    if rest == map[] {
      assert IsOldest(images, k);
    } else {
      OldestExists(rest);
      var o :| IsOldest(rest, o);
      assert IsOldest(images, if images[k].seqNo <= images[o].seqNo then k else o);
    }
  }

  ghost function Oldest(images: map<u32, Image>): (k: u32)
    requires images != map[]
    ensures IsOldest(images, k)
  {
    OldestExists(images);
    var k :| IsOldest(images, k);
    k
  }

  ghost function EnforceQuota(s: Store): (r: Store)
    ensures r.images.Keys <= s.images.Keys && r.nextSeq == s.nextSeq && r.nextId == s.nextId && r.pending == s.pending
    decreases |s.images|
  {
    if s.total <= QUOTA || s.images == map[] then s
    else
      var k := Oldest(s.images);
      var d := Drop(s, k);
      EnforceQuota(d.(placements := Without(d.placements, k)))
  }

  // ---- looking up -----------------------------------------------------------

  ghost predicate IsNewest(images: map<u32, Image>, number: u32, k: u32) {
    && k in images && images[k].number == number
    && forall j | j in images && images[j].number == number :: images[j].seqNo <= images[k].seqNo
  }

  ghost function ResolveId(s: Store, id: u32, number: u32): (r: Option<u32>)
    ensures r.Some? ==> r.value in s.images
  {
    if id != 0 then (if id in s.images then Some(id) else None)
    else if number != 0 && exists k :: IsNewest(s.images, number, k) then
      var k :| IsNewest(s.images, number, k);
      Some(k)
    else None
  }

  /** Index of the frame of that number; the length when there is none. */
  function FrameIndex(fs: seq<Frame>, number: u32): (i: nat)
    ensures i <= |fs| && (i < |fs| ==> fs[i].number == number) && forall k | 0 <= k < i :: fs[k].number != number
  {
    if fs == [] || fs[0].number == number then 0 else 1 + FrameIndex(fs[1..], number)
  }

  function FramesOf(s: Store, id: u32): seq<Frame> {
    if id in s.frames then s.frames[id] else []
  }

  function MostNumber(fs: seq<Frame>): u32 {
    if fs == [] then 0
    else
      var m := MostNumber(fs[1..]);
      if fs[0].number > m then fs[0].number else m
  }

  // ---- frames ---------------------------------------------------------------

  function WithFrame(fs: seq<Frame>, f: Frame): (r: seq<Frame>)
    ensures FrameIndex(fs, f.number) < |fs| ==> |r| == |fs|
  {
    var i := FrameIndex(fs, f.number);
    if i < |fs| then fs[i := f] else fs + [f]
  }

  ghost function StoreFrame(s: Store, c: Command, f: Format, w: u32, h: u32, data: seq<byte>): (Store, Reply) {
    var id := ResolveId(s, c.id, c.number);
    if id.None? then (s, Respond(c, NoImage))
    else
      var fs := FramesOf(s, id.value);
      var number: u32 := if c.rows != 0 then c.rows else (MostNumber(fs) + 1) % MOD32;
      var frame := Frame(number, c.z, c.cols, c.srcX, c.srcY, f, w, h, data, c.cellX == 1);
      var i := FrameIndex(fs, number);
      var lost := if i < |fs| then |fs[i].data| else 0;
      (EnforceQuota(s.(frames := s.frames[id.value := WithFrame(fs, frame)], total := s.total + |data| - lost)),
        Respond(c, Fine))
  }

  ghost function Animate(s: Store, c: Command): (Store, Reply) {
    var id := ResolveId(s, c.id, c.number);
    if id.None? then (s, Respond(c, NoImage))
    else
      var a := if id.value in s.animations then s.animations[id.value] else Animation(0, 0, 0);
      var a := if c.width != 0 then a.(state := c.width % 256) else a;
      var a := if c.height != 0 then a.(loops := c.height) else a;
      var a := if c.cols != 0 then a.(current := c.cols) else a;
      (s.(animations := s.animations[id.value := a]), Respond(c, Fine))
  }

  // ---- composing ------------------------------------------------------------

  ghost function Unseen(fs: seq<Frame>, seen: seq<u32>): set<u32> {
    set i | 0 <= i < |fs| && fs[i].number !in seen :: fs[i].number
  }

  /** The frame `n` steps down the bases; the chain ends at 0, the image itself. */
  function BaseAfter(fs: seq<Frame>, number: u32, n: nat): Option<u32>
    decreases n
  {
    if n == 0 then Some(number)
    else if number == 0 then None
    else
      var i := FrameIndex(fs, number);
      if i == |fs| then None else BaseAfter(fs, fs[i].base, n - 1)
  }

  ghost predicate Reaches(fs: seq<Frame>, number: u32) {
    exists n: nat :: BaseAfter(fs, number, n) == Some(0)
  }

  /** What composing reads is as large as it declares: on a chain that ends, the image and the frames
      before it. */
  ghost predicate ChainSized(image: Image, fs: seq<Frame>, number: u32) {
    forall n: nat | BaseAfter(fs, number, n) == Some(0) ::
      && Sized(image.format, image.width, image.height, image.data)
      && forall k: nat | k < n :: LinkSized(fs, BaseAfter(fs, number, k))
  }

  ghost predicate LinkSized(fs: seq<Frame>, number: Option<u32>) {
    number.Some? && FrameIndex(fs, number.value) < |fs| ==> FrameSized(fs[FrameIndex(fs, number.value)])
  }

  lemma {:induction false} ChainDown(image: Image, fs: seq<Frame>, number: u32)
    requires ChainSized(image, fs, number) && number != 0 && FrameIndex(fs, number) < |fs|
    ensures var f := fs[FrameIndex(fs, number)];
            && ChainSized(image, fs, f.base)
            && (Reaches(fs, f.base) ==> Reaches(fs, number) && FrameSized(f))
  {
    hide Sized, FrameSized, FrameIndex;
    var f := fs[FrameIndex(fs, number)];
    forall n: nat | BaseAfter(fs, f.base, n) == Some(0)
      ensures Sized(image.format, image.width, image.height, image.data) && Reaches(fs, number) && FrameSized(f)
      ensures forall k: nat | k < n :: LinkSized(fs, BaseAfter(fs, f.base, k))
    {
      assert BaseAfter(fs, number, n + 1) == Some(0);
      assert LinkSized(fs, BaseAfter(fs, number, 0));
      forall k: nat | k < n
        ensures LinkSized(fs, BaseAfter(fs, f.base, k))
      {
        assert BaseAfter(fs, number, k + 1) == BaseAfter(fs, f.base, k);
      }
    }
  }

  lemma {:induction false} RootSized(image: Image, fs: seq<Frame>)
    requires ChainSized(image, fs, 0)
    ensures Sized(image.format, image.width, image.height, image.data) && Reaches(fs, 0)
  {
    assert BaseAfter(fs, 0, 0) == Some(0);
  }

  /** The canvas of a frame over its chain of bases. Every frame is met once, so a cycle ends it. */
  function ComposeChain(image: Image, fs: seq<Frame>, number: u32, seen: seq<u32>): (r: Option<seq<byte>>)
    requires ChainSized(image, fs, number)
    ensures r.Some? ==> |r.value| == 4 * (image.width * image.height) && Reaches(fs, number)
    decreases Unseen(fs, seen)
  {
    hide ChainSized, Reaches, Composed;
    if number == 0 then
      RootSized(image, fs);
      RgbaSize(image.format, image.data, image.width, image.height);
      Some(AsRgba(image.format, image.data))
    else if number in seen then None
    else
      var i := FrameIndex(fs, number);
      if i == |fs| then None
      else
        var f := fs[i];
        assert number in Unseen(fs, seen) && number !in Unseen(fs, seen + [number]);
        ChainDown(image, fs, number);
        var canvas := ComposeChain(image, fs, f.base, seen + [number]);
        if canvas.None? then None
        else
          RgbaSize(f.format, f.data, f.width, f.height);
          Some(Composed(canvas.value, image, f))
  }

  /** One frame put onto the canvas beneath it. */
  function Composed(canvas: seq<byte>, image: Image, f: Frame): (r: seq<byte>)
    requires |canvas| == 4 * (image.width * image.height) && FrameSized(f)
             && |AsRgba(f.format, f.data)| == 4 * (f.width * f.height)
    ensures |r| == |canvas|
  {
    ComposeRect(canvas, image.width, image.height, AsRgba(f.format, f.data), f.width, f.height,
                Box(0, 0, f.x, f.y, f.width, f.height), f.replace)
  }

  function ComposedFrame(s: Store, id: u32, number: u32): (r: Option<seq<byte>>)
    requires ReadsSized(s, id, number)
    ensures r.Some? ==> id in s.images && |r.value| == 4 * (s.images[id].width * s.images[id].height)
  {
    if id !in s.images || s.images[id].width == 0 || s.images[id].height == 0 then None
    else ComposeChain(s.images[id], FramesOf(s, id), number, [])
  }

  ghost predicate ReadsSized(s: Store, id: u32, number: u32) {
    id in s.images && s.images[id].width != 0 && s.images[id].height != 0 ==>
      ChainSized(s.images[id], FramesOf(s, id), number)
  }

  /** `a=c` reads pixels, so the blocks on its two chains must be as large as they declare. */
  ghost predicate Composable(s: Store, c: Command) {
    var id := ResolveId(s, c.id, c.number);
    id.Some? && HaveFrame(s, id.value, c.rows) && HaveFrame(s, id.value, c.cols) ==>
      ReadsSized(s, id.value, c.rows) && ReadsSized(s, id.value, c.cols)
  }

  predicate HaveFrame(s: Store, id: u32, n: u32) {
    n != 0 && FrameIndex(FramesOf(s, id), n) < |FramesOf(s, id)|
  }

  /** `a=c`: a rectangle of one composed frame onto another, which becomes a full canvas of its own. */
  ghost function Compose(s: Store, c: Command): (Store, Reply)
    requires Composable(s, c)
  {
    var id := ResolveId(s, c.id, c.number);
    if id.None? then (s, Respond(c, NoImage))
    else if !HaveFrame(s, id.value, c.rows) || !HaveFrame(s, id.value, c.cols) then (s, Respond(c, NoFrame))
    else
      var src, dst := ComposedFrame(s, id.value, c.cols), ComposedFrame(s, id.value, c.rows);
      if src.None? || dst.None? then (s, Respond(c, CannotCompose))
      else
        var image, fs := s.images[id.value], FramesOf(s, id.value);
        var w, h := if c.srcW != 0 then c.srcW else image.width, if c.srcH != 0 then c.srcH else image.height;
        var canvas := ComposeRect(dst.value, image.width, image.height, src.value, image.width, image.height,
                                  Box(c.cellX, c.cellY, c.srcX, c.srcY, w, h), c.noCursorMove);
        var was := fs[FrameIndex(fs, c.rows)];
        var frame := was.(data := canvas, format := RawRgba, x := 0,
          y := 0, width := image.width, height := image.height, base := 0, replace := true);
        (EnforceQuota(s.(frames := s.frames[id.value := WithFrame(fs, frame)],
          total := s.total - |was.data| + |canvas|)),
         Respond(c, Fine))
  }

  // ---- placements -----------------------------------------------------------

  function CeilDiv(a: nat, b: nat): nat
    requires b > 0
  {
    (a + b - 1) / b
  }

  function ExtentOf(s: Store, p: Placement): Extent {
    var known := p.image in s.images;
    var w := if p.srcW == 0 && known then s.images[p.image].width else p.srcW;
    var h := if p.srcH == 0 && known then s.images[p.image].height else p.srcH;
    Extent(if p.cols != 0 then p.cols else if w == 0 then 1 else CeilDiv(w, CELL_W),
           if p.rows != 0 then p.rows else if h == 0 then 1 else CeilDiv(h, CELL_H))
  }

  function FindPlacement(ps: seq<Placement>, image: u32, id: u32): Option<Placement> {
    if ps == [] then None
    else if ps[0].image == image && (id == 0 || ps[0].id == id) then Some(ps[0])
    else FindPlacement(ps[1..], image, id)
  }

  /** The walk up the parents, at most `n` steps: does it come back to the placement itself? */
  function ComesBack(ps: seq<Placement>, image: u32, id: u32, atImage: u32, atId: u32, n: nat): bool
    decreases n
  {
    if n == 0 then false
    else if atImage == image && atId == id then true
    else
      match FindPlacement(ps, atImage, atId)
      case None => false
      case Some(p) => p.parentImage != 0 && ComesBack(ps, image, id, p.parentImage, p.parentId, n - 1)
  }

  function WrapI32(n: int): int {
    var m := n % MOD32;
    if m < 0x8000_0000 then m else m - MOD32
  }

  /** `(i32 + i32).max(0) as u16`. */
  function Shifted(at: u16, offset: i32): u16 {
    var n := WrapI32(at + offset);
    if n < 0 then 0 else n % 0x1_0000
  }

  datatype Position = Spot(row: u16, col: u16) | NoPosition(msg: Message)

  function Resolved(s: Store, c: Command, id: u32, row: u16, col: u16): Position {
    if c.parentImage == 0 then Spot(row, col)
    else if ComesBack(s.placements, id, c.placementId, c.parentImage, c.parentId, |s.placements| + 1)
      then NoPosition(Cycle)
    else
      match FindPlacement(s.placements, c.parentImage, c.parentId)
      case None => NoPosition(NoParent)
      case Some(p) => Spot(Shifted(p.row, c.vOff), Shifted(p.col, c.hOff))
  }

  function WithoutPlacement(ps: seq<Placement>, image: u32, id: u32): seq<Placement> {
    if ps == [] then []
    else (if ps[0].image == image && ps[0].id == id then [] else [ps[0]]) + WithoutPlacement(ps[1..], image, id)
  }

  datatype Placed = Placed(s: Store, advance: Option<Extent>) | NotPlaced(msg: Message)

  function AddPlacement(s: Store, c: Command, id: u32, row: u16, col: u16): Placed {
    match Resolved(s, c, id, row, col)
    case NoPosition(msg) => NotPlaced(msg)
    case Spot(r, k) =>
      var p := Placement(id, c.placementId, r, k, c.srcX, c.srcY, c.srcW, c.srcH, c.cols, c.rows, c.z,
                         c.parentImage, c.parentId, c.hOff, c.vOff, c.cellX, c.cellY, c.unicode);
      Placed(s.(placements := WithoutPlacement(s.placements, id, c.placementId) + [p]),
             if !c.noCursorMove && !c.unicode && c.parentImage == 0 then Some(ExtentOf(s, p)) else None)
  }

  // ---- deleting -------------------------------------------------------------

  /** Cells covered, in 32-bit arithmetic. */
  predicate Covers(at: nat, extent: nat, cell: nat) {
    cell >= at && cell < (at + extent) % MOD32
  }

  predicate Intersects(s: Store, p: Placement, row: u16, col: u16) {
    !p.unicode && Covers(p.row, ExtentOf(s, p).rows, row) && Covers(p.col, ExtentOf(s, p).cols, col)
  }

  function ClampCell(v: nat): u16 {
    if v < 0x1_0000 then v else 0xFFFF
  }

  function Lowered(b: byte): byte {
    if 0x41 <= b <= 0x5A then b + 32 else b
  }

  /** What a positional delete is about. */
  predicate Matches(s: Store, c: Command, p: Placement, row: u16, col: u16) {
    var at := c.srcX >= 1 && c.srcY >= 1 && Intersects(s, p, ClampCell(c.srcY - 1), ClampCell(c.srcX - 1));
    var what := Lowered(c.delete);
    if what == 0x63 then Intersects(s, p, row, col)
    else if what == 0x70 then at
    else if what == 0x71 then p.z == c.z && at
    else if what == 0x78 then c.srcX >= 1 && !p.unicode && Covers(p.col, ExtentOf(s, p).cols, c.srcX - 1)
    else if what == 0x79 then c.srcY >= 1 && !p.unicode && Covers(p.row, ExtentOf(s, p).rows, c.srcY - 1)
    else p.z == c.z
  }

  /** Placements split by a predicate on the store before the delete. */
  function Unmatched(s: Store, c: Command, row: u16, col: u16, ps: seq<Placement>): seq<Placement> {
    if ps == [] then []
    else (if Matches(s, c, ps[0], row, col) then [] else [ps[0]]) + Unmatched(s, c, row, col, ps[1..])
  }

  function Touched(s: Store, c: Command, row: u16, col: u16, ps: seq<Placement>): seq<u32> {
    if ps == [] then []
    else (if Matches(s, c, ps[0], row, col) then [ps[0].image] else []) + Touched(s, c, row, col, ps[1..])
  }

  predicate InUse(ps: seq<Placement>, image: u32) {
    exists p | p in ps :: p.image == image
  }

  /** Images left without placements are dropped. */
  function FreeUnused(s: Store, ids: seq<u32>): Store
    decreases |ids|
  {
    if ids == [] then s
    else FreeUnused(if InUse(s.placements, ids[0]) then s else Drop(s, ids[0]), ids[1..])
  }

  /** While the predicate runs the list of placements is taken out; only images matter to it. */
  function DeletePlacements(s: Store, c: Command, free: bool, row: u16, col: u16): Store {
    var d := s.(placements := Unmatched(s, c, row, col, s.placements));
    if free then FreeUnused(d, Touched(s, c, row, col, s.placements)) else d
  }

  function WithoutOf(ps: seq<Placement>, image: u32, id: u32): seq<Placement> {
    if ps == [] then []
    else
      (if ps[0].image != image || (id != 0 && ps[0].id != id) then [ps[0]] else []) + WithoutOf(ps[1..], image, id)
  }

  ghost function Delete(s: Store, c: Command, row: u16, col: u16): Store {
    var free := 0x41 <= c.delete <= 0x5A;
    var what := Lowered(c.delete);
    if what == 0 || what == 0x61 then
      if free then s.(placements := [], images := map[], frames := map[], animations := map[], total := 0)
      else s.(placements := [])
    else if what == 0x69 then
      var id := ResolveId(s, c.id, c.number);
      if id.None? then s
      else
        var d := s.(placements := WithoutOf(s.placements, id.value, c.placementId));
        if free then Drop(d, id.value) else d
    else if what == 0x6E then
      var id := ResolveId(s, 0, c.number);
      if id.None? then s
      else
        var d := s.(placements := Without(s.placements, id.value));
        if free then Drop(d, id.value) else d
    else if what in {0x63, 0x70, 0x71, 0x78, 0x79, 0x7A} then DeletePlacements(s, c, free, row, col)
    else s
  }

  // ---- commands -------------------------------------------------------------

  datatype Outcome = Outcome(s: Store, reply: Reply, advance: Option<Extent>)

  function Quietly(r: (Store, Reply)): Outcome {
    Outcome(r.0, r.1, None)
  }

  ghost function Stow(s: Store, c: Command, id: u32, w: u32, h: u32, f: Format, data: seq<byte>): Store {
    var d := Drop(s, id);
    EnforceQuota(d.(images := d.images[id := Image(id, c.number, f, w, h, data, d.nextSeq + 1)],
                    total := d.total + |data|, nextSeq := d.nextSeq + 1))
  }

  function Larger(a: u32, b: u32): u32 {
    if a >= b then a else b
  }

  ghost function Finish(m: Media, s: Store, c: Command, payload: seq<byte>, row: u16, col: u16): Outcome {
    match Receive(m, c, payload)
    case Refused(msg) => Outcome(s, Respond(c, msg), None)
    case Block(w, h, f, data) =>
      var c := c.(width := w, height := h);
      if c.action == 0x66 then Quietly(StoreFrame(s, c, f, w, h, data))
      else
        var id: u32 := if c.id == 0 then (s.nextId + 1) % MOD32 else c.id;
        var s := s.(nextId := if c.id == 0 then id else Larger(s.nextId, c.id));
        var c := c.(id := id);
        if c.action == 0x71 then Outcome(s, Respond(c, Fine), None)
        else
          var s := Stow(s, c, id, w, h, f, data);
          if c.action == 0x54 then
            match AddPlacement(s, c, id, row, col)
            case Placed(q, advance) => Outcome(q, Respond(c, Fine), advance)
            case NotPlaced(msg) => Outcome(s, Respond(c, msg), None)
          else Outcome(s, Respond(c, Fine), None)
  }

  ghost function Place(s: Store, c: Command, row: u16, col: u16): Outcome {
    var id := ResolveId(s, c.id, c.number);
    if id.None? then Outcome(s, Respond(c, NoImage), None)
    else
      var c := c.(id := id.value);
      match AddPlacement(s, c, id.value, row, col)
      case Placed(q, advance) => Outcome(q, Respond(c, Fine), advance)
      case NotPlaced(msg) => Outcome(s, Respond(c, msg), None)
  }

  /** The part before the first `;`, and the part after it. */
  function Control(data: seq<byte>): seq<byte> {
    if data == [] || data[0] == 0x3B then [] else [data[0]] + Control(data[1..])
  }

  function Payload(data: seq<byte>): seq<byte> {
    if data == [] then [] else if data[0] == 0x3B then data[1..] else Payload(data[1..])
  }

  predicate Receives(c: Command) {
    c.action in {0x74, 0x54, 0x71, 0x66, 0}
  }

  /** The escape is not a composition that reads blocks of the wrong size. */
  ghost predicate Handled(m: Media, s: Store, data: seq<byte>) {
    var parsed := m.parse(Control(data));
    parsed.Some? && s.pending.None? && parsed.value.action == 0x63 ==> Composable(s, parsed.value)
  }

  ghost function Dispatch(m: Media, s: Store, data: seq<byte>, row: u16, col: u16): Outcome
    requires Handled(m, s, data)
  {
    var parsed, payload := m.parse(Control(data)), Payload(data);
    if parsed.None? then Outcome(s, NoReply, None)
    else
      var c := parsed.value;
      if s.pending.Some? then
        var p := s.pending.value;
        var p := if |p.payload| + |payload| <= MAX_PENDING then p.(payload := p.payload + payload) else p;
        if c.more == 1 then Outcome(s.(pending := Some(p)), NoReply, None)
        else Finish(m, s.(pending := None), p.cmd, p.payload, row, col)
      else if Receives(c) then
        if c.more == 1 then Outcome(s.(pending := Some(Pending(c, payload))), NoReply, None)
        else Finish(m, s, c, payload, row, col)
      else if c.action == 0x70 then Place(s, c, row, col)
      else if c.action == 0x64 then Outcome(Delete(s, c, row, col), NoReply, None)
      else if c.action == 0x61 then Quietly(Animate(s, c))
      else if c.action == 0x63 then Quietly(Compose(s, c))
      else Outcome(s, Respond(c, UnknownAction), None)
  }
}
