// crates/posh-term/src/png.rs: chunks, header and colors around the unfiltering; a whole PNG file back
// to its pixels. The chunk checksum is a parameter.
module PngDecode {
  import opened Utf8
  import opened Cells
  import Huffmans
  import Zlib
  import Adler
  import InflateStreams
  import InflateProofs
  import Png
  import Graphics

  const MAX_RGBA: nat := 320 * 1024 * 1024
  const MOD64: nat := 0x1_0000_0000_0000_0000

  const SIGNATURE: seq<byte> := [0x89, 0x50, 0x4E, 0x47, 0x0D, 0x0A, 0x1A, 0x0A]
  const IHDR: seq<byte> := [0x49, 0x48, 0x44, 0x52]
  const IDAT: seq<byte> := [0x49, 0x44, 0x41, 0x54]
  const PLTE: seq<byte> := [0x50, 0x4C, 0x54, 0x45]
  const TRNS: seq<byte> := [0x74, 0x52, 0x4E, 0x53]
  const IEND: seq<byte> := [0x49, 0x45, 0x4E, 0x44]

  datatype PngError = BadSignature | Truncated | BadCrc | BadHeader | Unsupported | BadData

  datatype Header = Header(width: nat, height: nat, color: byte)

  function Channels(color: byte): (n: nat)
    ensures 1 <= n <= 4
  {
    if color == 0 then 1 else if color == 2 then 3 else if color == 3 then 1 else if color == 4 then 2 else 4
  }

  /** Bytes of a row. */
  function Stride(h: Header): nat {
    h.width * Channels(h.color)
  }

  /** Bytes of all scanlines, each with its filter. */
  function RawSize(h: Header): nat {
    h.height * (Stride(h) + 1)
  }

  // ---- header ---------------------------------------------------------------

  datatype HeaderRes = Good(h: Header) | Bad(error: PngError)

  /** The size limit is checked in 64-bit arithmetic. */
  function ParseIhdr(s: seq<byte>): HeaderRes {
    if |s| != 13 then Bad(BadHeader)
    else
      var w, h := Zlib.BigEndian(s[0..4]), Zlib.BigEndian(s[4..8]);
      if w == 0 || h == 0 || (w * h * 4) % MOD64 > MAX_RGBA then Bad(BadHeader)
      else if s[10] != 0 || s[11] != 0 then Bad(BadHeader)
      else if s[8] != 8 || s[12] != 0 || s[9] !in {0, 2, 3, 4, 6} then Bad(Unsupported)
      else Good(Header(w, h, s[9]))
  }

  /** The size limit means what it says exactly when the product does not wrap. */
  lemma {:induction false} LimitMeans(s: seq<byte>)
    requires ParseIhdr(s).Good?
    ensures var h := ParseIhdr(s).h; 4 * (h.width * h.height) <= MAX_RGBA <==> h.width * h.height * 4 < MOD64
  {
    hide Zlib.BigEndian;
    var h := ParseIhdr(s).h;
    Remainder(h.width * h.height * 4);
    assert 4 * (h.width * h.height) == h.width * h.height * 4;
  }

  lemma {:induction false} Remainder(n: nat)
    ensures n % MOD64 < MOD64 && (n < MOD64 ==> n % MOD64 == n)
  {
  }

  /** A header of 2^31 by 2^31 pixels passes. */
  lemma {:induction false} LimitWraps()
    ensures ParseIhdr([0x80, 0, 0, 0, 0x80, 0, 0, 0, 8, 6, 0, 0, 0]) == Good(Header(0x8000_0000, 0x8000_0000, 6))
  {
    var s: seq<byte> := [0x80, 0, 0, 0, 0x80, 0, 0, 0, 8, 6, 0, 0, 0];
    assert s[0..4] == [0x80, 0, 0, 0] && s[4..8] == [0x80, 0, 0, 0];
    assert 0x8000_0000 * 0x8000_0000 * 4 == MOD64;
  }

  // ---- chunks ---------------------------------------------------------------

  /** What the chunks so far have said. */
  datatype Parts = Parts(hdr: Option<Header>, idat: seq<byte>, plte: seq<byte>, trns: seq<byte>)

  datatype Scanned = Chunks(p: Parts) | Stopped(error: PngError)

  /** One chunk that is not the last; the header must come first. */
  function Absorb(p: Parts, kind: seq<byte>, body: seq<byte>): Scanned {
    if kind == IHDR then
      (match ParseIhdr(body)
       case Good(h) => Chunks(p.(hdr := Some(h)))
       case Bad(e) => Stopped(e))
    else if p.hdr.None? then Stopped(BadHeader)
    else if kind == IDAT then Chunks(p.(idat := p.idat + body))
    else if kind == PLTE then Chunks(p.(plte := body))
    else if kind == TRNS then Chunks(p.(trns := body))
    else Chunks(p)
  }

  function Scan(crc: seq<byte> -> nat, rest: seq<byte>, at: nat, p: Parts): Scanned
    requires at <= |rest|
    decreases |rest| - at
  {
    if at + 8 > |rest| then Stopped(PngError.Truncated)
    else
      var len := Zlib.BigEndian(rest[at..at + 4]);
      var kind := rest[at + 4..at + 8];
      if at + 12 + len > |rest| then Stopped(PngError.Truncated)
      else if crc(rest[at + 4..at + 8 + len]) != Zlib.BigEndian(rest[at + 8 + len..at + 12 + len]) then Stopped(BadCrc)
      else if kind == IEND then Chunks(p)
      else
        var r := Absorb(p, kind, rest[at + 8..at + 8 + len]);
        if r.Stopped? then r else Scan(crc, rest, at + 12 + len, r.p)
  }

  // ---- colors ---------------------------------------------------------------

  /** One pixel, unless the palette lacks its index. */
  function Colored(color: byte, px: seq<byte>, plte: seq<byte>, trns: seq<byte>): (r: Option<seq<byte>>)
    requires |px| == Channels(color)
    ensures r.Some? ==> |r.value| == 4
  {
    if color == 0 then Some([px[0], px[0], px[0], if |trns| == 2 && trns[1] == px[0] then 0 else 255])
    else if color == 2 then
      Some([px[0], px[1], px[2],
        if |trns| == 6 && trns[1] == px[0] && trns[3] == px[1] && trns[5] == px[2] then 0 else 255])
    else if color == 3 then
      var i: nat := px[0];
      if 3 * i + 3 > |plte| then None
      else Some([plte[3 * i], plte[3 * i + 1], plte[3 * i + 2], if i < |trns| then trns[i] else 255])
    else if color == 4 then Some([px[0], px[0], px[0], px[1]])
    else Some(px)
  }

  /** Whole pixels only. */
  function Expand(color: byte, samples: seq<byte>, plte: seq<byte>, trns: seq<byte>): (r: Option<seq<byte>>)
    ensures r.Some? ==> |r.value| == 4 * (|samples| / Channels(color))
  {
    var n := Channels(color);
    if |samples| < n then Some([])
    else
      var px, more := Colored(color, samples[..n], plte, trns), Expand(color, samples[n..], plte, trns);
      Fewer(|samples|, n);
      if px.None? || more.None? then None else Some(px.value + more.value)
  }

  lemma {:induction false} Fewer(m: nat, n: nat)
    requires 1 <= n <= 4 && m >= n
    ensures m / n == 1 + (m - n) / n
  {
  }

  function ToRgba(hdr: Header, samples: seq<byte>, plte: seq<byte>, trns: seq<byte>): (r: Option<seq<byte>>)
    ensures r.Some? ==> |r.value| == 4 * (|samples| / Channels(hdr.color))
  {
    if hdr.color == 3 && (plte == [] || |plte| % 3 != 0) then None else Expand(hdr.color, samples, plte, trns)
  }

  // ---- the file -------------------------------------------------------------

  /** `Panicked`: a scanline is looked for past the end of the buffer, or the pixels are more than an
      address space holds. */
  datatype Decoded = Decoded(width: nat, height: nat, rgba: seq<byte>) | Failed(error: PngError) | Panicked

  function Decode(crc: seq<byte> -> nat, data: seq<byte>): Decoded {
    if |data| < 8 || data[..8] != SIGNATURE then Failed(BadSignature)
    else
      var s := Scan(crc, data[8..], 0, Parts(None, [], [], []));
      if s.Stopped? then Failed(s.error)
      else if s.p.hdr.None? then Failed(BadHeader)
      else Shown(s.p, s.p.hdr.value)
  }

  /** Bytes expected of the data, in 64-bit arithmetic. */
  function Expected(h: Header): nat {
    RawSize(h) % MOD64
  }

  /** Scanlines they hold: all of them, unless the size has wrapped. */
  function Reached(h: Header): nat {
    Expected(h) / (Stride(h) + 1)
  }

  lemma {:induction false} ReachedFits(h: Header)
    ensures Reached(h) * (Stride(h) + 1) <= Expected(h) && Reached(h) <= h.height
    ensures RawSize(h) < MOD64 ==> Expected(h) == RawSize(h) && Reached(h) == h.height
  {
    hide RawSize, Stride;
    Remainder(RawSize(h));
    AtMost(RawSize(h), Expected(h), h.height, Stride(h) + 1) by { Sized(h); }
  }

  lemma {:induction false} Sized(h: Header)
    ensures RawSize(h) == h.height * (Stride(h) + 1)
  {
  }

  lemma {:induction false} AtMost(all: nat, some: nat, n: nat, k: nat)
    requires some <= all == n * k && k >= 1
    ensures some / k * k <= some && some / k <= n && (some == all ==> some / k == n)
  {
    assert some == some / k * k + some % k;
    Unscaled(some / k, n, k);
    if some == all { Unscaled(n, some / k, k); }
  }

  lemma {:induction false} Unscaled(a: nat, b: nat, k: nat)
    requires a * k < (b + 1) * k
    ensures a <= b
  {
  }

  /** The pixels of what has been read. */
  function Shown(p: Parts, h: Header): Decoded {
    hide Zlib.Decompressed, Png.Unfiltered, ToRgba, Stride, Expected, Reached;
    var raw := Zlib.Decompressed(p.idat, Expected(h));
    ReachedFits(h);
    var rows := Reached(h);
    if raw.Err? || |raw.value| != Expected(h) then Failed(BadData)
    else
      var o := Png.Unfiltered([], raw.value[..rows * (Stride(h) + 1)], Stride(h), rows, Channels(h.color));
      if o.BadData? then Failed(BadData)
      else if rows < h.height then Panicked
      else
        var rgba := ToRgba(h, o.pixels, p.plte, p.trns);
        if rgba.None? then Failed(BadData)
        else if |rgba.value| >= MOD64 then Panicked
        else Decoded(h.width, h.height, rgba.value)
  }

  lemma {:induction false} Exact(w: nat, h: nat, n: nat)
    requires 1 <= n <= 4
    ensures h * (w * n) / n == w * h
  {
    assert h * (w * n) == (w * h) * n;
    Quotient(w * h, n);
  }

  lemma {:induction false} PixelCount(h: Header)
    ensures h.height * Stride(h) / Channels(h.color) == h.width * h.height
  {
    Exact(h.width, h.height, Channels(h.color));
  }

  lemma {:induction false} Quotient(a: nat, n: nat)
    requires 1 <= n <= 4
    ensures a * n / n == a
  {
    if n == 1 {} else if n == 2 {} else if n == 3 {} else {}
  }

  /** Whatever decodes has four bytes a pixel, and its size product has not wrapped. */
  lemma {:induction false} FourBytes(crc: seq<byte> -> nat, data: seq<byte>)
    requires Decode(crc, data).Decoded?
    ensures var d := Decode(crc, data); |d.rgba| == 4 * (d.width * d.height) && d.width * d.height * 4 < MOD64
  {
    hide Scan, Zlib.Decompressed, Png.Unfiltered, Expand, Channels, Expected, Reached;
    var h := Scan(crc, data[8..], 0, Parts(None, [], [], [])).p.hdr.value;
    ReachedFits(h);
    Exact(h.width, h.height, Channels(h.color));
  }

  /** What a header that has been read satisfies. */
  ghost predicate Checked(h: Header) {
    0 < h.width < 0x1_0000_0000 && 0 < h.height < 0x1_0000_0000 && (h.width * h.height * 4) % MOD64 <= MAX_RGBA
  }

  lemma {:induction false} ScanChecks(crc: seq<byte> -> nat, rest: seq<byte>, at: nat, p: Parts)
    requires at <= |rest| && (p.hdr.Some? ==> Checked(p.hdr.value)) && Scan(crc, rest, at, p).Chunks?
    ensures var q := Scan(crc, rest, at, p).p; q.hdr.Some? ==> Checked(q.hdr.value)
    decreases |rest| - at
  {
    hide Absorb, Zlib.BigEndian, Checked;
    if Scan(crc, rest, at, p) != Chunks(p) {
      var len, kind := Zlib.BigEndian(rest[at..at + 4]), rest[at + 4..at + 8];
      AbsorbChecks(p, kind, rest[at + 8..at + 8 + len]);
      ScanChecks(crc, rest, at + 12 + len, Absorb(p, kind, rest[at + 8..at + 8 + len]).p);
    }
  }

  lemma {:induction false} AbsorbChecks(p: Parts, kind: seq<byte>, body: seq<byte>)
    requires (p.hdr.Some? ==> Checked(p.hdr.value)) && Absorb(p, kind, body).Chunks?
    ensures var q := Absorb(p, kind, body).p; q.hdr.Some? ==> Checked(q.hdr.value)
  {
    hide Zlib.BigEndian;
  }

  /** Within the limit nothing wraps. */
  lemma {:induction false} Unwrapped(h: Header)
    requires 0 < h.width && 0 < h.height && 4 * (h.width * h.height) <= MAX_RGBA
    ensures RawSize(h) < MOD64
  {
    var a, n := h.width * h.height, Channels(h.color);
    assert RawSize(h) == a * n + h.height;
    assert a * n <= a * 4;
    assert h.height <= a;
  }

  /** Decoding a whole file panics only if the size product of its header wraps. */
  lemma {:induction false} PanicsWrapped(crc: seq<byte> -> nat, data: seq<byte>)
    requires Decode(crc, data).Panicked?
    ensures |data| >= 8
    ensures var s := Scan(crc, data[8..], 0, Parts(None, [], [], []));
            s.Chunks? && s.p.hdr.Some? && s.p.hdr.value.width * s.p.hdr.value.height * 4 >= MOD64
  {
    hide Scan, Zlib.Decompressed, Png.Unfiltered, Expand, Channels, Expected, Reached;
    var s := Scan(crc, data[8..], 0, Parts(None, [], [], []));
    var h := s.p.hdr.value;
    ScanChecks(crc, data[8..], 0, Parts(None, [], [], []));
    ReachedFits(h);
    if h.width * h.height * 4 < MOD64 {
      Remainder(h.width * h.height * 4);
      assert 4 * (h.width * h.height) == h.width * h.height * 4;
      Unwrapped(h);
      Exact(h.width, h.height, Channels(h.color));
    }
  }

  /** So the graphics store may use it: a picture is four bytes a pixel. */
  function Picture(crc: seq<byte> -> nat, data: seq<byte>): Option<Graphics.Picture> {
    match Decode(crc, data)
    case Decoded(w, h, rgba) =>
      if w < Graphics.MOD32 && h < Graphics.MOD32 then Some(Graphics.Picture(w, h, rgba)) else None
    case Failed(_) => None
    case Panicked => None
  }

  lemma {:induction false} PicturesSized(crc: seq<byte> -> nat, m: Graphics.Media)
    requires forall d: seq<byte> :: m.png(d) == Picture(crc, d)
    ensures Graphics.PngSized(m)
  {
    hide Decode;
    forall d: seq<byte> | m.png(d).Some?
      ensures |m.png(d).value.rgba| == 4 * (m.png(d).value.width * m.png(d).value.height)
    {
      FourBytes(crc, d);
    }
  }

  // ---- writing files --------------------------------------------------------

  datatype Chunk = Chunk(kind: seq<byte>, body: seq<byte>)

  function Bytes4(n: nat): (s: seq<byte>)
    requires n < 0x1_0000_0000
    ensures |s| == 4 && Zlib.BigEndian(s) == n
  {
    [n / 0x100_0000, n / 0x1_0000 % 0x100, n / 0x100 % 0x100, n % 0x100]
  }

  /** Section 3.2 of RFC 2083: length, type, data and checksum. */
  ghost predicate ChunkOk(crc: seq<byte> -> nat, c: Chunk) {
    |c.kind| == 4 && |c.body| < 0x1_0000_0000 && crc(c.kind + c.body) < 0x1_0000_0000
  }

  function ChunkBytes(crc: seq<byte> -> nat, c: Chunk): (s: seq<byte>)
    requires ChunkOk(crc, c)
    ensures |s| == 12 + |c.body|
  {
    Bytes4(|c.body|) + c.kind + c.body + Bytes4(crc(c.kind + c.body))
  }

  function FileBytes(crc: seq<byte> -> nat, cs: seq<Chunk>): seq<byte>
    requires forall c | c in cs :: ChunkOk(crc, c)
    decreases |cs|
  {
    if cs == [] then [] else ChunkBytes(crc, cs[0]) + FileBytes(crc, cs[1..])
  }

  function AbsorbAll(p: Parts, cs: seq<Chunk>): Scanned
    decreases |cs|
  {
    if cs == [] then Chunks(p)
    else
      var r := Absorb(p, cs[0].kind, cs[0].body);
      if r.Stopped? then r else AbsorbAll(r.p, cs[1..])
  }

  lemma {:induction false} ScanStep(crc: seq<byte> -> nat, rest: seq<byte>, at: nat, c: Chunk, p: Parts)
    requires |c.kind| == 4 && at + 12 + |c.body| <= |rest| && Zlib.BigEndian(rest[at..at + 4]) == |c.body|
    requires rest[at + 4..at + 8] == c.kind && rest[at + 8..at + 8 + |c.body|] == c.body
    requires crc(rest[at + 4..at + 8 + |c.body|]) == Zlib.BigEndian(rest[at + 8 + |c.body|..at + 12 + |c.body|])
    ensures Scan(crc, rest, at, p) ==
      if c.kind == IEND then Chunks(p)
      else
        var r := Absorb(p, c.kind, c.body);
        if r.Stopped? then r else Scan(crc, rest, at + 12 + |c.body|, r.p)
  {
    hide Absorb, Zlib.BigEndian;
  }

  /** Where a chunk stands, the scan reads it. */
  lemma {:induction false} ReadsChunk(crc: seq<byte> -> nat, rest: seq<byte>, at: nat, c: Chunk, p: Parts)
    requires ChunkOk(crc, c) && at + 12 + |c.body| <= |rest|
    requires rest[at..at + 12 + |c.body|] == ChunkBytes(crc, c)
    ensures Scan(crc, rest, at, p) ==
      if c.kind == IEND then Chunks(p)
      else
        var r := Absorb(p, c.kind, c.body);
        if r.Stopped? then r else Scan(crc, rest, at + 12 + |c.body|, r.p)
  {
    hide Absorb, Bytes4, Zlib.BigEndian, ChunkOk;
    var n := |c.body|;
    var b := ChunkBytes(crc, c);
    Cut(rest, at, 12 + n, 0, 4);
    Cut(rest, at, 12 + n, 4, 8);
    Cut(rest, at, 12 + n, 4, 8 + n);
    Cut(rest, at, 12 + n, 8, 8 + n);
    Cut(rest, at, 12 + n, 8 + n, 12 + n);
    assert b[0..4] == Bytes4(n) && b[4..8] == c.kind && b[8..8 + n] == c.body;
    assert b[4..8 + n] == c.kind + c.body && b[8 + n..12 + n] == Bytes4(crc(c.kind + c.body));
    ScanStep(crc, rest, at, c, p);
  }

  lemma {:induction false} Cut(s: seq<byte>, at: nat, n: nat, a: nat, b: nat)
    requires a <= b <= n && at + n <= |s|
    ensures s[at..at + n][a..b] == s[at + a..at + b]
  {
    var x, y := s[at..at + n][a..b], s[at + a..at + b];
    forall k | 0 <= k < |x|
      ensures x[k] == y[k]
    {
    }
    assert x == y;
  }

  /** Scanning a written file absorbs its chunks in order, up to the end chunk; what follows it does not
      matter. */
  lemma {:induction false} ScanReads(crc: seq<byte> -> nat, cs: seq<Chunk>, last: Chunk, rest: seq<byte>, at: nat,
      p: Parts)
    requires (forall c | c in cs :: ChunkOk(crc, c) && c.kind != IEND) && ChunkOk(crc, last) && last.kind == IEND
    requires at <= |rest| && FileBytes(crc, cs) + ChunkBytes(crc, last) <= rest[at..]
    ensures Scan(crc, rest, at, p) == AbsorbAll(p, cs)
    decreases |cs|
  {
    hide ChunkBytes, Absorb, Scan;
    if cs == [] {
      var b := ChunkBytes(crc, last);
      assert [] + b == b;
      assert rest[at..at + |b|] == rest[at..][..|b|] == b;
      ReadsChunk(crc, rest, at, last, p);
    } else {
      var b, n := ChunkBytes(crc, cs[0]), 12 + |cs[0].body|;
      var tail := FileBytes(crc, cs[1..]) + ChunkBytes(crc, last);
      assert FileBytes(crc, cs) + ChunkBytes(crc, last) == b + tail;
      assert rest[at..at + n] == rest[at..][..n] == b;
      assert rest[at + n..] == rest[at..][n..];
      assert tail <= rest[at + n..];
      ReadsChunk(crc, rest, at, cs[0], p);
      var r := Absorb(p, cs[0].kind, cs[0].body);
      if r.Chunks? { ScanReads(crc, cs[1..], last, rest, at + n, r.p); }
    }
  }

  function IhdrBytes(h: Header): (s: seq<byte>)
    requires h.width < 0x1_0000_0000 && h.height < 0x1_0000_0000
    ensures |s| == 13
  {
    Bytes4(h.width) + Bytes4(h.height) + [8, h.color, 0, 0, 0]
  }

  ghost predicate HeaderOk(h: Header) {
    && 0 < h.width < 0x1_0000_0000 && 0 < h.height < 0x1_0000_0000 && 4 * (h.width * h.height) <= MAX_RGBA
    && h.color in {0, 2, 3, 4, 6}
  }

  lemma {:induction false} HeaderFits(h: Header)
    requires HeaderOk(h)
    ensures RawSize(h) < MOD64 && 0 < h.width && 0 < h.height && 4 * (h.width * h.height) <= MAX_RGBA
  {
    Unwrapped(h);
  }

  lemma {:induction false} HeaderBack(h: Header)
    requires HeaderOk(h)
    ensures ParseIhdr(IhdrBytes(h)) == Good(h)
  {
    hide Bytes4, Zlib.BigEndian;
    var s := IhdrBytes(h);
    assert s[0..4] == Bytes4(h.width) && s[4..8] == Bytes4(h.height);
    Remainder(h.width * h.height * 4);
  }

  /** Data, palette and transparency in any order among other chunks; the data in any number of pieces. */
  function DataOf(cs: seq<Chunk>): seq<byte> {
    if cs == [] then [] else (if cs[0].kind == IDAT then cs[0].body else []) + DataOf(cs[1..])
  }

  function LastOf(cs: seq<Chunk>, kind: seq<byte>, default: seq<byte>): seq<byte> {
    if cs == [] then default else LastOf(cs[1..], kind, if cs[0].kind == kind then cs[0].body else default)
  }

  lemma {:induction false} AbsorbsBody(p: Parts, cs: seq<Chunk>)
    requires p.hdr.Some? && forall c | c in cs :: c.kind != IHDR
    ensures AbsorbAll(p, cs) ==
      Chunks(Parts(p.hdr, p.idat + DataOf(cs), LastOf(cs, PLTE, p.plte), LastOf(cs, TRNS, p.trns)))
    decreases |cs|
  {
    if cs == [] {
      assert p.idat + [] == p.idat;
    } else {
      assert IDAT[0] != PLTE[0] && IDAT[0] != TRNS[0] && PLTE[0] != TRNS[0];
      var r := Absorb(p, cs[0].kind, cs[0].body).p;
      AbsorbsBody(r, cs[1..]);
      var now := if cs[0].kind == IDAT then cs[0].body else [];
      assert r.idat == p.idat + now;
      assert p.idat + now + DataOf(cs[1..]) == p.idat + (now + DataOf(cs[1..]));
    }
  }

  /** DEFLATE blocks that stand for `raw`, in a zlib stream. */
  ghost predicate Packs(raw: seq<byte>, limit: nat, bs: seq<InflateStreams.BlockSpec>, cmf: byte, flg: byte,
      body: seq<byte>, trailer: seq<byte>) {
    hide InflateStreams.StreamOk, InflateStreams.StreamBits,
      InflateStreams.StreamOutput, InflateProofs.StreamAt, Adler.Adler32;
    && InflateStreams.StreamOk(bs, [], limit)
    && InflateProofs.StreamAt(body, 0, InflateStreams.StreamBits(bs, 0, [], limit))
    && |body| == (|InflateStreams.StreamBits(bs, 0, [], limit)| + 7) / 8 && |trailer| == 4 && Zlib.HeaderGood(cmf, flg)
    && InflateStreams.StreamOutput(bs, [], limit) == raw && Zlib.BigEndian(trailer) == Zlib.Packed(Adler.Adler32(raw))
  }

  ghost predicate LinesOk(h: Header, lines: seq<Png.Line>) {
    |lines| == h.height && forall i | 0 <= i < |lines| :: lines[i].filter <= 4 && |lines[i].row| == Stride(h)
  }

  /** An image as an encoder writes it: filtered rows, any DEFLATE blocks, and any chunks around. */
  ghost predicate Encodes(crc: seq<byte> -> nat, h: Header, cs: seq<Chunk>, lines: seq<Png.Line>,
      bs: seq<InflateStreams.BlockSpec>, cmf: byte, flg: byte, body: seq<byte>, trailer: seq<byte>)
  {
    hide Packs, Png.Scanlines, ChunkOk, Bytes4, RawSize, Stride;
    && HeaderOk(h) && LinesOk(h, lines)
    && (forall c | c in cs :: ChunkOk(crc, c) && c.kind != IHDR && c.kind != IEND)
    && ChunkOk(crc, Chunk(IHDR, IhdrBytes(h))) && ChunkOk(crc, Chunk(IEND, []))
    && Packs(Png.Scanlines([], lines, Channels(h.color)), RawSize(h), bs, cmf, flg, body, trailer)
    && DataOf(cs) == [cmf, flg] + (body + (trailer + []))
  }

  /** The whole decoder: the file of any image, whatever filters, blocks, data pieces and extra chunks
      its encoder chose and whatever follows the end chunk, decodes to its pixels, colored. */
  lemma {:induction false} DecodesBack(crc: seq<byte> -> nat, h: Header, cs: seq<Chunk>, lines: seq<Png.Line>,
      bs: seq<InflateStreams.BlockSpec>, cmf: byte, flg: byte, body: seq<byte>, trailer: seq<byte>, more: seq<byte>)
    requires Encodes(crc, h, cs, lines, bs, cmf, flg, body, trailer)
    ensures ChunkOk(crc, Chunk(IHDR, IhdrBytes(h))) && ChunkOk(crc, Chunk(IEND, []))
            && forall c | c in cs :: ChunkOk(crc, c)
    ensures var file := SIGNATURE
            + (FileBytes(crc, [Chunk(IHDR, IhdrBytes(h))] + cs) + ChunkBytes(crc, Chunk(IEND, [])) + more);
      var rgba := ToRgba(h, Png.Pixels(lines), LastOf(cs, PLTE, []), LastOf(cs, TRNS, []));
      Decode(crc, file) == if rgba.Some? then Decoded(h.width, h.height, rgba.value) else Failed(BadData)
  {
    hide *;
    EncodesShape(crc, h, cs, lines, bs, cmf, flg, body, trailer);
    ScansFile(crc, h, cs, more);
    ShowsLines(crc, h, cs, lines, bs, cmf, flg, body, trailer);
    FileDecodes(crc, h, FileBytes(crc, [Chunk(IHDR, IhdrBytes(h))] + cs) + ChunkBytes(crc, Chunk(IEND, [])) + more,
                Parts(Some(h), DataOf(cs), LastOf(cs, PLTE, []), LastOf(cs, TRNS, [])));
  }

  lemma {:induction false} EncodesShape(crc: seq<byte> -> nat, h: Header, cs: seq<Chunk>, lines: seq<Png.Line>,
      bs: seq<InflateStreams.BlockSpec>, cmf: byte, flg: byte, body: seq<byte>, trailer: seq<byte>)
    requires Encodes(crc, h, cs, lines, bs, cmf, flg, body, trailer)
    ensures HeaderOk(h) && h.width < 0x1_0000_0000 && h.height < 0x1_0000_0000
    ensures ChunkOk(crc, Chunk(IHDR, IhdrBytes(h))) && ChunkOk(crc, Chunk(IEND, []))
    ensures forall c | c in cs :: ChunkOk(crc, c) && c.kind != IHDR && c.kind != IEND
    ensures forall c | c in [Chunk(IHDR, IhdrBytes(h))] + cs :: ChunkOk(crc, c) && c.kind != IEND
  {
    hide ChunkOk, IhdrBytes;
    assert IHDR[1] != IEND[1];
  }

  lemma {:induction false} FileDecodes(crc: seq<byte> -> nat, h: Header, rest: seq<byte>, p: Parts)
    requires Scan(crc, rest, 0, Parts(None, [], [], [])) == Chunks(p) && p.hdr == Some(h)
    ensures Decode(crc, SIGNATURE + rest) == Shown(p, h)
  {
    hide Scan, Shown;
    var file := SIGNATURE + rest;
    assert |SIGNATURE| == 8;
    assert file[..8] == SIGNATURE && file[8..] == rest;
  }

  lemma {:induction false} ScansFile(crc: seq<byte> -> nat, h: Header, cs: seq<Chunk>, more: seq<byte>)
    requires HeaderOk(h) && h.width < 0x1_0000_0000 && h.height < 0x1_0000_0000
    requires ChunkOk(crc, Chunk(IEND, []))
    requires forall c | c in cs :: ChunkOk(crc, c) && c.kind != IHDR && c.kind != IEND
    requires forall c | c in [Chunk(IHDR, IhdrBytes(h))] + cs :: ChunkOk(crc, c) && c.kind != IEND
    ensures Scan(crc, FileBytes(crc, [Chunk(IHDR, IhdrBytes(h))] + cs) + ChunkBytes(crc, Chunk(IEND, [])) + more,
              0, Parts(None, [], [], [])) ==
      Chunks(Parts(Some(h), DataOf(cs), LastOf(cs, PLTE, []), LastOf(cs, TRNS, [])))
  {
    hide ChunkOk, ChunkBytes, FileBytes, IhdrBytes, Scan, DataOf, LastOf, ParseIhdr, HeaderOk;
    var all := [Chunk(IHDR, IhdrBytes(h))] + cs;
    var rest := FileBytes(crc, all) + ChunkBytes(crc, Chunk(IEND, [])) + more;
    assert rest[0..] == rest;
    ScanReads(crc, all, Chunk(IEND, []), rest, 0, Parts(None, [], [], []));
    HeaderBack(h);
    assert all[1..] == cs;
    AbsorbsBody(Parts(Some(h), [], [], []), cs);
    assert [] + DataOf(cs) == DataOf(cs);
  }

  lemma {:induction false} ShowsLines(crc: seq<byte> -> nat, h: Header, cs: seq<Chunk>, lines: seq<Png.Line>,
      bs: seq<InflateStreams.BlockSpec>, cmf: byte, flg: byte, body: seq<byte>, trailer: seq<byte>)
    requires Encodes(crc, h, cs, lines, bs, cmf, flg, body, trailer)
    ensures var p := Parts(Some(h), DataOf(cs), LastOf(cs, PLTE, []), LastOf(cs, TRNS, []));
      var rgba := ToRgba(h, Png.Pixels(lines), p.plte, p.trns);
      Shown(p, h) == if rgba.Some? then Decoded(h.width, h.height, rgba.value) else Failed(BadData)
  {
    hide Packs, Zlib.Decompressed, Png.Unfiltered, Png.Scanlines,
      Png.Pixels, ToRgba, DataOf, LastOf, ChunkOk, HeaderOk, Stride, Bytes4, Channels, Expected, Reached, RawSize;
    HeaderFits(h);
    ReachedFits(h);
    Sized(h);
    PixelCount(h);
    var raw := Png.Scanlines([], lines, Channels(h.color));
    assert |raw| == RawSize(h) ==> raw[..RawSize(h)] == raw;
    UnpacksData(Png.Scanlines([], lines, Channels(h.color)), RawSize(h), bs, cmf, flg, body, trailer);
    Png.ImageBack([], lines, Stride(h), Channels(h.color));
  }

  lemma {:induction false} UnpacksData(raw: seq<byte>, limit: nat, bs: seq<InflateStreams.BlockSpec>, cmf: byte,
      flg: byte, body: seq<byte>, trailer: seq<byte>)
    requires Packs(raw, limit, bs, cmf, flg, body, trailer)
    ensures Zlib.Decompressed([cmf, flg] + (body + (trailer + [])), limit) == Huffmans.Ok(raw)
  {
    hide InflateStreams.StreamOk, InflateStreams.StreamBits, InflateStreams.StreamOutput, InflateProofs.StreamAt,
         Adler.Adler32, Zlib.Decompressed, Zlib.HeaderGood, Zlib.BigEndian, Zlib.Packed;
    Zlib.Unpacks(bs, cmf, flg, body, trailer, [], limit);
  }

  // ---- with buffers ---------------------------------------------------------

  method ReadChunks(crc: seq<byte> -> nat, rest: seq<byte>) returns (s: Scanned)
    ensures s == Scan(crc, rest, 0, Parts(None, [], [], []))
  {
    hide ParseIhdr, Zlib.BigEndian;
    var p := Parts(None, [], [], []);
    var at := 0;
    while true
      invariant at <= |rest| && Scan(crc, rest, at, p) == Scan(crc, rest, 0, Parts(None, [], [], []))
      decreases |rest| - at
    {
      if at + 8 > |rest| { return Stopped(PngError.Truncated); }
      var len := Zlib.BigEndian(rest[at..at + 4]);
      var kind := rest[at + 4..at + 8];
      if at + 12 + len > |rest| { return Stopped(PngError.Truncated); }
      var body := rest[at + 8..at + 8 + len];
      if crc(rest[at + 4..at + 8 + len]) != Zlib.BigEndian(rest[at + 8 + len..at + 12 + len]) {
        return Stopped(BadCrc);
      }
      if kind == IEND { return Chunks(p); }
      var r := Absorb(p, kind, body);
      if r.Stopped? { return r; }
      p := r.p;
      at := at + 12 + len;
    }
  }

  method ExpandColors(hdr: Header, samples: seq<byte>, plte: seq<byte>, trns: seq<byte>) returns (r: Option<seq<byte>>)
    ensures r == ToRgba(hdr, samples, plte, trns)
  {
    hide Colored;
    if hdr.color == 3 && (plte == [] || |plte| % 3 != 0) { return None; }
    var n := Channels(hdr.color);
    var out: seq<byte> := [];
    var i := 0;
    assert samples[0..] == samples;
    assert Expand(hdr.color, samples, plte, trns).Some? ==>
      [] + Expand(hdr.color, samples, plte, trns).value == Expand(hdr.color, samples, plte, trns).value;
    while i + n <= |samples|
      invariant i <= |samples|
      invariant var more := Expand(hdr.color, samples[i..], plte, trns);
        Expand(hdr.color, samples, plte, trns) == if more.Some? then Some(out + more.value) else None
      decreases |samples| - i
    {
      ExpandStep(hdr.color, samples, plte, trns, i, out);
      var px := Colored(hdr.color, samples[i..i + n], plte, trns);
      if px.None? { return None; }
      out := out + px.value;
      i := i + n;
    }
    assert out + [] == out;
    return Some(out);
  }

  lemma {:induction false} ExpandStep(color: byte, samples: seq<byte>, plte: seq<byte>, trns: seq<byte>, i: nat,
      out: seq<byte>)
    requires i + Channels(color) <= |samples|
    ensures var n := Channels(color);
      var px, rest := Colored(color, samples[i..i + n], plte, trns), Expand(color, samples[i + n..], plte, trns);
      var more := Expand(color, samples[i..], plte, trns);
      if px.None? || rest.None? then more == None else more.Some? && out + more.value == out + px.value + rest.value
  {
    hide Colored;
    var n := Channels(color);
    assert samples[i..][..n] == samples[i..i + n] && samples[i..][n..] == samples[i + n..];
    var px, rest := Colored(color, samples[i..i + n], plte, trns), Expand(color, samples[i + n..], plte, trns);
    if px.Some? && rest.Some? { assert out + (px.value + rest.value) == out + px.value + rest.value; }
  }

  /** `decode`: the rows are unfiltered in the buffer the data was decompressed to. */
  method DecodeFile(crc: seq<byte> -> nat, data: seq<byte>) returns (r: Decoded)
    ensures r == Decode(crc, data)
  {
    hide Scan, Zlib.Decompressed, Png.Unfiltered, ToRgba, Expected, Reached;
    if |data| < 8 || data[..8] != SIGNATURE { return Failed(BadSignature); }
    var s := ReadChunks(crc, data[8..]);
    if s.Stopped? { return Failed(s.error); }
    if s.p.hdr.None? { return Failed(BadHeader); }
    var h := s.p.hdr.value;
    var n, stride, rows := Channels(h.color), Stride(h), Reached(h);
    var got := Zlib.Decompress(s.p.idat, Expected(h));
    if got.Err? || |got.value| != Expected(h) { return Failed(BadData); }
    ReachedFits(h);
    var used := got.value[..rows * (stride + 1)];
    var raw := new byte[|used|](i requires 0 <= i < |used| => used[i]);
    assert raw[..] == used;
    var ok, len := Png.Unfilter(raw, stride, rows, n);
    if !ok { return Failed(BadData); }
    if rows < h.height { return Panicked; }
    var rgba := ExpandColors(h, raw[..][..len], s.p.plte, s.p.trns);
    if rgba.None? { return Failed(BadData); }
    if |rgba.value| >= MOD64 { return Panicked; }
    return Decoded(h.width, h.height, rgba.value);
  }
}
