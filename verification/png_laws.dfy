// What a decoded PNG shows, byte by byte, and which files are refused and how.
module PngLaws {
  import Utf8
  import opened Cells
  import Huffmans
  import Zlib
  import Png
  import opened PngDecode

  type byte = Utf8.byte

  // ---- filters --------------------------------------------------------------

  /** Section 6 of RFC 2083: what is added to a byte, from the pixels to the left, above, and above left. */
  predicate AddedFor(filter: byte, left: byte, up: byte, corner: byte, added: nat) {
    match filter
    case 0 => added == 0
    case 1 => added == left
    case 2 => added == up
    case 3 => left + up - 1 <= 2 * added <= left + up
    case 4 =>
      var p := left + up - corner;
      && added in {left, up, corner}
      && (forall x <- {left, up, corner} :: Png.Distance(p, added) <= Png.Distance(p, x))
      && (Png.Distance(p, left) == Png.Distance(p, added) ==> added == left)
      && (Png.Distance(p, up) == Png.Distance(p, added) ==> added == left || added == up)
    case _ => false
  }

  lemma {:induction false} PredictedAdds(filter: byte, left: byte, up: byte, corner: byte)
    requires filter <= 4
    ensures AddedFor(filter, left, up, corner, Png.Predicted(filter, left, up, corner))
  {
  }

  /** Pixel byte `i` of a row, with what stands around it. */
  ghost predicate ByteShown(filter: byte, prior: seq<byte>, row: seq<byte>, x: byte, bpp: nat, i: nat) {
    i < |row|
    && var left: byte := if i >= bpp then row[i - bpp] else 0;
       var up: byte := if i < |prior| then prior[i] else 0;
       var corner: byte := if bpp <= i < |prior| + bpp then prior[i - bpp] else 0;
       exists added: nat :: AddedFor(filter, left, up, corner, added) && row[i] == (x + added) % 256
  }

  lemma {:induction false} LineShows(filter: byte, prior: seq<byte>, line: seq<byte>, bpp: nat, done: seq<byte>, i: nat)
    requires filter <= 4 && bpp >= 1 && |done| <= i < |line|
    ensures ByteShown(filter, prior, Png.UnfilterFrom(filter, prior, line, bpp, done), line[i], bpp, i)
    decreases i - |done|
  {
    hide Png.Predicted, AddedFor;
    Png.NextByte(filter, prior, line, bpp, done);
    var y := Png.Undone(filter, prior, line[|done|], bpp, done);
    var row := Png.UnfilterFrom(filter, prior, line, bpp, done + [y]);
    if |done| == i {
      assert (done + [y])[i] == y && row[i] == y;
      assert i >= bpp ==> (done + [y])[i - bpp] == row[i - bpp];
      var left, up, corner := Png.At(done, i - bpp), Png.At(prior, i), Png.At(prior, i - bpp);
      PredictedAdds(filter, left, up, corner);
      OneShows(filter, prior, row, line[i], bpp, i, left, up, corner, Png.Predicted(filter, left, up, corner));
    } else {
      LineShows(filter, prior, line, bpp, done + [y], i);
    }
  }

  lemma {:induction false} OneShows(filter: byte, prior: seq<byte>, row: seq<byte>, x: byte, bpp: nat, i: nat,
      left: byte, up: byte, corner: byte, added: nat)
    requires i < |row| && AddedFor(filter, left, up, corner, added)
    requires left == Png.At(row, i - bpp) && up == Png.At(prior, i) && corner == Png.At(prior, i - bpp)
    requires row[i] == (x + added) % 256 && bpp >= 1
    ensures ByteShown(filter, prior, row, x, bpp, i)
  {
    var a: byte := if i >= bpp then row[i - bpp] else 0;
    var b: byte := if i < |prior| then prior[i] else 0;
    var c: byte := if bpp <= i < |prior| + bpp then prior[i - bpp] else 0;
    assert a == left && b == up && c == corner;
    hide AddedFor;
    assert AddedFor(filter, a, b, c, added) && row[i] == (x + added) % 256;
  }

  /** Row `r` of the pixels. */
  function RowOf(px: seq<byte>, stride: nat, r: nat): (s: seq<byte>)
    requires r * stride + stride <= |px|
    ensures |s| == stride
  {
    px[r * stride..r * stride + stride]
  }

  /** Every byte of every unfiltered row is its raw byte plus what its filter adds, from the row above. */
  lemma {:induction false} PixelsShow(prior: seq<byte>, raw: seq<byte>, stride: nat, n: nat, bpp: nat, r: nat, i: nat)
    requires |raw| == n * (stride + 1) && bpp >= 1 && r < n && i < stride
    requires Png.Unfiltered(prior, raw, stride, n, bpp).Image?
    ensures var px := Png.Unfiltered(prior, raw, stride, n, bpp).pixels;
      && (r + 1) * stride <= |px| && r * (stride + 1) + 1 + i < |raw| && raw[r * (stride + 1)] <= 4
      && (r > 0 ==> (r - 1) * stride + stride <= |px|) && r * stride + stride <= |px|
      && ByteShown(raw[r * (stride + 1)], if r == 0 then prior else RowOf(px, stride, r - 1), RowOf(px, stride, r),
                   raw[r * (stride + 1) + 1 + i], bpp, i)
    decreases r
  {
    hide *;
    var row, line, rest, more := FirstRow(prior, raw, stride, n, bpp);
    var px := row + more;
    Shifted(stride, r, |px|);
    Shifted(stride + 1, r, |raw|);
    RowBounds(stride, n, r, |px|);
    if r == 0 {
      LineShows(raw[0], prior, line, bpp, [], i);
      RowIs(px, stride, 0);
      assert px[0..stride] == row;
    } else {
      PixelsShow(row, rest, stride, n - 1, bpp, r - 1, i);
      Shifted(stride, r - 1, |px|);
      var at := (r - 1) * (stride + 1);
      assert rest[at] == raw[stride + 1 + at] && rest[at + 1 + i] == raw[stride + 1 + at + 1 + i];
      RowAfter(row, more, stride, r);
      if r > 1 { RowAfter(row, more, stride, r - 1); }
    }
  }

  /** The first row and what is left. */
  lemma {:induction false} FirstRow(prior: seq<byte>, raw: seq<byte>, stride: nat, n: nat, bpp: nat) returns (
      row: seq<byte>, line: seq<byte>, rest: seq<byte>, more: seq<byte>)
    requires |raw| == n * (stride + 1) && bpp >= 1 && n > 0 && stride > 0
    requires Png.Unfiltered(prior, raw, stride, n, bpp).Image?
    ensures |raw| > stride && raw[0] <= 4 && line == raw[1..stride + 1] && rest == raw[stride + 1..]
    ensures |rest| == (n - 1) * (stride + 1) && |row| == stride && |more| == (n - 1) * stride
    ensures row == Png.UnfilterFrom(raw[0], prior, line, bpp, [])
    ensures Png.Unfiltered(row, rest, stride, n - 1, bpp) == Png.Image(more)
    ensures Png.Unfiltered(prior, raw, stride, n, bpp) == Png.Image(row + more)
  {
    hide Png.UnfilterFrom;
    Png.LineFits(n, stride);
    line, rest := raw[1..stride + 1], raw[stride + 1..];
    row := Png.UnfilterFrom(raw[0], prior, line, bpp, []);
    more := Png.Unfiltered(row, rest, stride, n - 1, bpp).pixels;
  }

  lemma {:induction false} RowBounds(stride: nat, n: nat, r: nat, size: nat)
    requires r < n && size == stride + (n - 1) * stride
    ensures r * stride + stride <= size
  {
    Monotone(r + 1, n, stride);
  }

  lemma {:induction false} Monotone(a: nat, b: nat, k: nat)
    requires a <= b
    ensures a * k <= b * k
  {
  }

  lemma {:induction false} RowIs(px: seq<byte>, stride: nat, r: nat)
    requires r * stride + stride <= |px|
    ensures RowOf(px, stride, r) == px[r * stride..r * stride + stride]
  {
  }

  lemma {:induction false} RowAfter(row: seq<byte>, more: seq<byte>, stride: nat, r: nat)
    requires r > 0 && |row| == stride && r * stride + stride <= |row + more|
    ensures (r - 1) * stride + stride <= |more|
    ensures RowOf(row + more, stride, r) == RowOf(more, stride, r - 1)
    ensures RowOf(row + more, stride, 0) == row
  {
    Shifted(stride, r, |row + more|);
    assert 0 * stride == 0;
  }

  lemma {:induction false} Shifted(stride: nat, r: nat, n: nat)
    ensures r > 0 ==> r * stride == stride + (r - 1) * stride
    ensures (r + 1) * stride == r * stride + stride && 0 * stride == 0
  {
  }

  // ---- colors ---------------------------------------------------------------

  /** Samples of one pixel. */
  function Samples(color: byte): (n: nat)
    requires color in {0, 2, 3, 4, 6}
  {
    match color case 0 => 1 case 2 => 3 case 3 => 1 case 4 => 2 case _ => 4
  }

  /** The four bytes of a pixel from its samples: gray and RGB with an optional transparent color, palette with
      optional alphas, gray with alpha, RGBA. */
  predicate Shows(color: byte, px: seq<byte>, plte: seq<byte>, trns: seq<byte>, out: seq<byte>)
    requires color in {0, 2, 3, 4, 6} && |px| == Samples(color)
  {
    match color
    case 0 => out == [px[0], px[0], px[0], if |trns| == 2 && trns[1] == px[0] then 0 else 255]
    case 2 =>
      var clear := |trns| == 6 && trns[1] == px[0] && trns[3] == px[1] && trns[5] == px[2];
      out == px + [if clear then 0 else 255]
    case 3 =>
      var k: nat := px[0];
      3 * k + 3 <= |plte| && out == plte[3 * k..3 * k + 3] + [if k < |trns| then trns[k] else 255]
    case 4 => out == [px[0], px[0], px[0], px[1]]
    case _ => out == px
  }

  ghost predicate PixelShown(color: byte, samples: seq<byte>, plte: seq<byte>, trns: seq<byte>, i: nat, out: seq<byte>)
    requires color in {0, 2, 3, 4, 6}
  {
    var n := Samples(color);
    && i * n + n <= |samples| && 4 * i + 4 <= |out|
    && Shows(color, samples[i * n..i * n + n], plte, trns, out[4 * i..4 * i + 4])
  }

  lemma {:induction false} ExpandShows(color: byte, samples: seq<byte>, plte: seq<byte>, trns: seq<byte>, i: nat)
    requires color in {0, 2, 3, 4, 6} && Expand(color, samples, plte, trns).Some?
    requires (i + 1) * Samples(color) <= |samples|
    ensures PixelShown(color, samples, plte, trns, i, Expand(color, samples, plte, trns).value)
    decreases i
  {
    var n := Samples(color);
    assert n == Channels(color);
    SamplesAt(color, i, |samples|);
    var px, more := Colored(color, samples[..n], plte, trns), Expand(color, samples[n..], plte, trns);
    if i == 0 {
      FirstShown(color, samples, plte, trns, px.value + more.value);
    } else {
      SamplesAt(color, i - 1, |samples| - n);
      ExpandShows(color, samples[n..], plte, trns, i - 1);
      NextShown(color, samples, plte, trns, i, px.value, more.value);
    }
  }

  lemma {:induction false} SamplesAt(color: byte, i: nat, size: nat)
    requires color in {0, 2, 3, 4, 6}
    ensures (i + 1) * Samples(color) == i * Samples(color) + Samples(color)
    ensures (i + 1) * Samples(color) <= size ==> Samples(color) <= size
  {
  }

  lemma {:induction false} FirstShown(color: byte, samples: seq<byte>, plte: seq<byte>, trns: seq<byte>, out: seq<byte>)
    requires color in {0, 2, 3, 4, 6} && |samples| >= Samples(color) && Samples(color) == Channels(color)
    requires |out| >= 4 && Colored(color, samples[..Samples(color)], plte, trns) == Some(out[..4])
    ensures PixelShown(color, samples, plte, trns, 0, out)
  {
    var px := samples[..Samples(color)];
    assert samples[0 * Samples(color)..0 * Samples(color) + Samples(color)] == px;
    assert 4 * 0 == 0 && out[4 * 0..4 * 0 + 4] == out[..4];
    if color == 3 {
      var k: nat := px[0];
      assert plte[3 * k..3 * k + 3] == [plte[3 * k], plte[3 * k + 1], plte[3 * k + 2]];
    }
  }

  lemma {:induction false} NextShown(color: byte, samples: seq<byte>, plte: seq<byte>, trns: seq<byte>, i: nat,
      px: seq<byte>, more: seq<byte>)
    requires color in {0, 2, 3, 4, 6} && i > 0 && |px| == 4 && (i + 1) * Samples(color) <= |samples|
    requires Samples(color) <= |samples|
    requires PixelShown(color, samples[Samples(color)..], plte, trns, i - 1, more)
    ensures PixelShown(color, samples, plte, trns, i, px + more)
  {
    hide Shows, Samples;
    var n, j := Samples(color), i - 1;
    Shifted(n, i, 0);
    assert (px + more)[4 * i..4 * i + 4] == more[4 * j..4 * j + 4];
    assert samples[n..][j * n..j * n + n] == samples[i * n..i * n + n];
  }

  /** Every pixel of a decoded image, by its color type. */
  lemma {:induction false} ColorsShow(hdr: Header, samples: seq<byte>, plte: seq<byte>, trns: seq<byte>, i: nat)
    requires hdr.color in {0, 2, 3, 4, 6} && ToRgba(hdr, samples, plte, trns).Some?
    requires (i + 1) * Samples(hdr.color) <= |samples|
    ensures PixelShown(hdr.color, samples, plte, trns, i, ToRgba(hdr, samples, plte, trns).value)
  {
    hide PixelShown, Expand, Samples;
    ExpandShows(hdr.color, samples, plte, trns, i);
  }

  /** Coloring fails exactly for a palette that is missing or ragged, or lacks the color of some pixel. */
  lemma {:induction false} ColorsFail(hdr: Header, samples: seq<byte>, plte: seq<byte>, trns: seq<byte>)
    ensures ToRgba(hdr, samples, plte, trns).None? <==>
            && hdr.color == 3
            && (plte == [] || |plte| % 3 != 0 || exists i :: 0 <= i < |samples| && 3 * samples[i] + 3 > |plte|)
  {
    hide Expand;
    ExpandFails(hdr.color, samples, plte, trns);
  }

  lemma {:induction false} ExpandFails(color: byte, samples: seq<byte>, plte: seq<byte>, trns: seq<byte>)
    ensures Expand(color, samples, plte, trns).None? <==>
            color == 3 && exists i :: 0 <= i < |samples| && 3 * samples[i] + 3 > |plte|
    decreases |samples|
  {
    var n := Channels(color);
    if |samples| >= n {
      ExpandFails(color, samples[n..], plte, trns);
      if color == 3 {
        assert forall i :: 0 <= i < |samples| - 1 ==> samples[1..][i] == samples[i + 1];
        assert forall i :: 1 <= i < |samples| ==> samples[i] == samples[1..][i - 1];
      }
    }
  }

  // ---- header ---------------------------------------------------------------

  /** The verdict on a header, field by field, the size limit first. */
  lemma {:induction false} HeaderRead(w: nat, h: nat, depth: byte, color: byte, comp: byte, filter: byte, lace: byte)
    requires w < 0x1_0000_0000 && h < 0x1_0000_0000
    ensures ParseIhdr(Bytes4(w) + Bytes4(h) + [depth, color, comp, filter, lace]) ==
      if w == 0 || h == 0 || w * h * 4 % 0x1_0000_0000_0000_0000 > 335544320 || comp != 0 || filter != 0
      then Bad(BadHeader)
      else if depth != 8 || lace != 0 || color !in {0, 2, 3, 4, 6} then Bad(Unsupported)
      else Good(Header(w, h, color))
  {
    hide Bytes4, Zlib.BigEndian;
    var s := Bytes4(w) + Bytes4(h) + [depth, color, comp, filter, lace];
    assert s[0..4] == Bytes4(w) && s[4..8] == Bytes4(h);
  }

  lemma {:induction false} HeaderLength(s: seq<byte>)
    requires |s| != 13
    ensures ParseIhdr(s) == Bad(BadHeader)
  {
  }

  // ---- chunks ---------------------------------------------------------------

  lemma {:induction false} NumberBack(s: seq<byte>)
    requires |s| == 4
    ensures Bytes4(Zlib.BigEndian(s)) == s
  {
    var a: nat, b: nat, c: nat, d: nat := s[0], s[1], s[2], s[3];
    var n := Zlib.BigEndian(s);
    assert n == ((a * 0x100 + b) * 0x100 + c) * 0x100 + d;
    assert n / 0x100 == (a * 0x100 + b) * 0x100 + c;
    assert n / 0x1_0000 == a * 0x100 + b;
    assert n / 0x100_0000 == a;
  }

  /** A chunk that is read was written as one. */
  lemma {:induction false} ChunkBack(crc: seq<byte> -> nat, rest: seq<byte>, at: nat) returns (c: Chunk)
    requires at + 8 <= |rest| && at + 12 + Zlib.BigEndian(rest[at..at + 4]) <= |rest|
    requires var n := Zlib.BigEndian(rest[at..at + 4]);
             crc(rest[at + 4..at + 8 + n]) == Zlib.BigEndian(rest[at + 8 + n..at + 12 + n])
    ensures var n := Zlib.BigEndian(rest[at..at + 4]);
      && c == Chunk(rest[at + 4..at + 8], rest[at + 8..at + 8 + n])
      && ChunkOk(crc, c) && rest[at..at + 12 + n] == ChunkBytes(crc, c)
  {
    hide Zlib.BigEndian, Bytes4;
    var n := Zlib.BigEndian(rest[at..at + 4]);
    c := Chunk(rest[at + 4..at + 8], rest[at + 8..at + 8 + n]);
    NumberBack(rest[at..at + 4]);
    NumberBack(rest[at + 8 + n..at + 12 + n]);
    assert c.kind + c.body == rest[at + 4..at + 8 + n];
    assert rest[at..at + 12 + n] == rest[at..at + 4] + c.kind + c.body + rest[at + 8 + n..at + 12 + n];
  }

  /** The chunks before the end chunk, and the end chunk. */
  ghost predicate FileAt(crc: seq<byte> -> nat, cs: seq<Chunk>, last: Chunk, rest: seq<byte>) {
    hide ChunkOk, ChunkBytes;
    && (forall c | c in cs :: ChunkOk(crc, c) && c.kind != IEND) && ChunkOk(crc, last) && last.kind == IEND
    && FileBytes(crc, cs) + ChunkBytes(crc, last) <= rest
  }

  lemma {:induction false} ScanBack(crc: seq<byte> -> nat, rest: seq<byte>, at: nat, p: Parts) returns (cs: seq<Chunk>,
      last: Chunk)
    requires at <= |rest| && Scan(crc, rest, at, p).Chunks?
    ensures FileAt(crc, cs, last, rest[at..]) && Scan(crc, rest, at, p) == AbsorbAll(p, cs)
    decreases |rest| - at
  {
    hide ChunkOk, ChunkBytes, Zlib.BigEndian, Absorb, AbsorbAll;
    var c := ChunkBack(crc, rest, at);
    var n := 12 + |c.body|;
    assert rest[at..][..n] == rest[at..at + n];
    if c.kind == IEND {
      cs, last := [], c;
      assert FileBytes(crc, []) + ChunkBytes(crc, c) == ChunkBytes(crc, c);
      NoChunks(p);
    } else {
      var more;
      more, last := ScanBack(crc, rest, at + n, Absorb(p, c.kind, c.body).p);
      cs := [c] + more;
      assert rest[at..] == rest[at..at + n] + rest[at + n..];
      FilePush(crc, c, more, last, rest[at..at + n], rest[at + n..]);
    }
  }

  lemma {:induction false} NoChunks(p: Parts)
    ensures AbsorbAll(p, []) == Chunks(p)
  {
  }

  lemma {:induction false} FilePush(crc: seq<byte> -> nat, c: Chunk, cs: seq<Chunk>, last: Chunk, head: seq<byte>,
      rest: seq<byte>)
    requires ChunkOk(crc, c) && c.kind != IEND && head == ChunkBytes(crc, c) && FileAt(crc, cs, last, rest)
    ensures FileAt(crc, [c] + cs, last, head + rest)
    ensures forall p | Absorb(p, c.kind, c.body).Chunks? ::
              AbsorbAll(p, [c] + cs) == AbsorbAll(Absorb(p, c.kind, c.body).p, cs)
    ensures forall p | Absorb(p, c.kind, c.body).Stopped? :: AbsorbAll(p, [c] + cs) == Absorb(p, c.kind, c.body)
  {
    hide ChunkOk, ChunkBytes, Absorb;
    assert ([c] + cs)[1..] == cs;
    var more := FileBytes(crc, cs) + ChunkBytes(crc, last);
    assert FileBytes(crc, [c] + cs) + ChunkBytes(crc, last) == head + more;
    assert rest[..|more|] == more && (head + rest)[..|head + more|] == head + rest[..|more|];
  }

  /** The chunk loop succeeds on exactly the files of well-formed chunks that are absorbed in order up to an
      end chunk. */
  lemma {:induction false} ScansExactly(crc: seq<byte> -> nat, rest: seq<byte>, p: Parts, q: Parts)
    ensures Scan(crc, rest, 0, p) == Chunks(q) <==>
            exists cs, last :: FileAt(crc, cs, last, rest) && AbsorbAll(p, cs) == Chunks(q)
  {
    hide Scan, AbsorbAll, FileAt;
    assert rest[0..] == rest;
    if Scan(crc, rest, 0, p) == Chunks(q) {
      var cs, last := ScanBack(crc, rest, 0, p);
    }
    forall cs, last | FileAt(crc, cs, last, rest)
      ensures Scan(crc, rest, 0, p) == AbsorbAll(p, cs)
    {
      FileParts(crc, cs, last, rest);
      ScanReads(crc, cs, last, rest, 0, p);
    }
  }

  lemma {:induction false} FileParts(crc: seq<byte> -> nat, cs: seq<Chunk>, last: Chunk, rest: seq<byte>)
    requires FileAt(crc, cs, last, rest)
    ensures (forall c | c in cs :: ChunkOk(crc, c) && c.kind != IEND) && ChunkOk(crc, last) && last.kind == IEND
    ensures FileBytes(crc, cs) + ChunkBytes(crc, last) <= rest
  {
    hide ChunkOk, ChunkBytes;
  }

  /** Absorbed chunks lead to the place after them. */
  lemma {:induction false} ScanRuns(crc: seq<byte> -> nat, cs: seq<Chunk>, rest: seq<byte>, at: nat, p: Parts)
    requires forall c | c in cs :: ChunkOk(crc, c) && c.kind != IEND
    requires at <= |rest| && FileBytes(crc, cs) <= rest[at..] && AbsorbAll(p, cs).Chunks?
    ensures at + |FileBytes(crc, cs)| <= |rest|
    ensures Scan(crc, rest, at, p) == Scan(crc, rest, at + |FileBytes(crc, cs)|, AbsorbAll(p, cs).p)
    decreases |cs|
  {
    hide ChunkBytes, Absorb, Scan, ChunkOk;
    if cs != [] {
      var b, n := ChunkBytes(crc, cs[0]), 12 + |cs[0].body|;
      assert FileBytes(crc, cs) == b + FileBytes(crc, cs[1..]);
      assert rest[at..at + n] == rest[at..][..n] == b;
      assert rest[at + n..] == rest[at..][n..];
      ReadsChunk(crc, rest, at, cs[0], p);
      ScanRuns(crc, cs[1..], rest, at + n, Absorb(p, cs[0].kind, cs[0].body).p);
    }
  }

  /** After any absorbed chunks the loop stops: where a chunk is cut off, where its checksum is wrong, at a bad
      header, and at any other chunk before the header. */
  lemma {:induction false} ScanRefuses(crc: seq<byte> -> nat, cs: seq<Chunk>, p: Parts, c: Chunk, sum: seq<byte>,
      more: seq<byte>, k: nat)
    requires (forall c | c in cs :: ChunkOk(crc, c) && c.kind != IEND) && AbsorbAll(p, cs).Chunks?
    requires |c.kind| == 4 && |c.body| < 0x1_0000_0000 && |sum| == 4 && k < 12 + |c.body|
    ensures var q := AbsorbAll(p, cs).p;
      var chunk := Bytes4(|c.body|) + c.kind + c.body + sum;
      var r := Scan(crc, FileBytes(crc, cs) + (chunk + more), 0, p);
      && Scan(crc, FileBytes(crc, cs) + chunk[..k], 0, p) == Stopped(PngError.Truncated)
      && (crc(c.kind + c.body) != Zlib.BigEndian(sum) ==> r == Stopped(BadCrc))
      && (crc(c.kind + c.body) == Zlib.BigEndian(sum) ==>
            && (c.kind == IHDR && ParseIhdr(c.body).Bad? ==> r == Stopped(ParseIhdr(c.body).error))
            && (c.kind != IHDR && c.kind != IEND && q.hdr.None? ==> r == Stopped(BadHeader)))
  {
    hide *;
    var chunk := Bytes4(|c.body|) + c.kind + c.body + sum;
    var file := FileBytes(crc, cs);
    var whole, part := file + (chunk + more), file + chunk[..k];
    assert whole[0..] == whole && part[0..] == part;
    ScanRuns(crc, cs, whole, 0, p);
    ScanRuns(crc, cs, part, 0, p);
    CutOff(crc, file, c, sum, k, AbsorbAll(p, cs).p);
    ChunkRead(crc, file, c, sum, more, AbsorbAll(p, cs).p);
  }

  lemma {:induction false} CutOff(crc: seq<byte> -> nat, file: seq<byte>, c: Chunk, sum: seq<byte>, k: nat, p: Parts)
    requires |c.kind| == 4 && |c.body| < 0x1_0000_0000 && |sum| == 4 && k < 12 + |c.body|
    ensures var chunk := Bytes4(|c.body|) + c.kind + c.body + sum;
            Scan(crc, file + chunk[..k], |file|, p) == Stopped(PngError.Truncated)
  {
    hide Bytes4, Zlib.BigEndian, Absorb;
    var chunk := Bytes4(|c.body|) + c.kind + c.body + sum;
    var part := file + chunk[..k];
    if k >= 8 { assert part[|file|..|file| + 4] == chunk[..4] == Bytes4(|c.body|); }
  }

  lemma {:induction false} ChunkRead(crc: seq<byte> -> nat, file: seq<byte>, c: Chunk, sum: seq<byte>, more: seq<byte>,
      p: Parts)
    requires |c.kind| == 4 && |c.body| < 0x1_0000_0000 && |sum| == 4
    ensures var chunk := Bytes4(|c.body|) + c.kind + c.body + sum;
      var r := Scan(crc, file + (chunk + more), |file|, p);
      && (crc(c.kind + c.body) != Zlib.BigEndian(sum) ==> r == Stopped(BadCrc))
      && (crc(c.kind + c.body) == Zlib.BigEndian(sum) ==>
            && (c.kind == IHDR && ParseIhdr(c.body).Bad? ==> r == Stopped(ParseIhdr(c.body).error))
            && (c.kind != IHDR && c.kind != IEND && p.hdr.None? ==> r == Stopped(BadHeader)))
  {
    hide *;
    var chunk := Bytes4(|c.body|) + c.kind + c.body + sum;
    var rest, at, n := file + (chunk + more), |file|, |c.body|;
    assert rest[at..at + 12 + n] == chunk;
    Cut(rest, at, 12 + n, 0, 4);
    Cut(rest, at, 12 + n, 4, 8);
    Cut(rest, at, 12 + n, 4, 8 + n);
    Cut(rest, at, 12 + n, 8, 8 + n);
    Cut(rest, at, 12 + n, 8 + n, 12 + n);
    Pieces(Bytes4(n), c.kind, c.body, sum);
    ScanVerdict(crc, rest, at, c, sum, p);
    AbsorbVerdict(p, c);
  }

  lemma {:induction false} Pieces(a: seq<byte>, b: seq<byte>, c: seq<byte>, d: seq<byte>)
    requires |a| == 4 == |b| && |d| == 4
    ensures var s, n := a + b + c + d, |c|;
      && s[0..4] == a && s[4..8] == b && s[4..8 + n] == b + c && s[8..8 + n] == c && s[8 + n..12 + n] == d
  {
    var s, n := a + b + c + d, |c|;
    assert s[0..4] == a;
    assert s[4..8] == b;
    assert s[8..8 + n] == c;
    assert s[4..8 + n] == b + c;
    assert s[8 + n..12 + n] == d;
  }

  lemma {:induction false} ScanVerdict(crc: seq<byte> -> nat, rest: seq<byte>, at: nat, c: Chunk, sum: seq<byte>,
      p: Parts)
    requires |sum| == 4 && at + 12 + |c.body| <= |rest| && Zlib.BigEndian(rest[at..at + 4]) == |c.body|
    requires rest[at + 4..at + 8] == c.kind && rest[at + 8..at + 8 + |c.body|] == c.body
    requires rest[at + 4..at + 8 + |c.body|] == c.kind + c.body
    requires rest[at + 8 + |c.body|..at + 12 + |c.body|] == sum
    ensures crc(c.kind + c.body) != Zlib.BigEndian(sum) ==> Scan(crc, rest, at, p) == Stopped(BadCrc)
    ensures crc(c.kind + c.body) == Zlib.BigEndian(sum) && c.kind != IEND && Absorb(p, c.kind, c.body).Stopped? ==>
              Scan(crc, rest, at, p) == Absorb(p, c.kind, c.body)
  {
    hide Absorb, Zlib.BigEndian;
  }

  lemma {:induction false} AbsorbVerdict(p: Parts, c: Chunk)
    ensures c.kind == IHDR && ParseIhdr(c.body).Bad? ==>
              c.kind != IEND && Absorb(p, c.kind, c.body) == Stopped(ParseIhdr(c.body).error)
    ensures c.kind != IHDR && p.hdr.None? ==> Absorb(p, c.kind, c.body) == Stopped(BadHeader)
  {
    hide ParseIhdr;
    assert IHDR[1] != IEND[1];
  }

  lemma {:induction false} ScanCut(crc: seq<byte> -> nat, cs: seq<Chunk>, last: Chunk, rest: seq<byte>, at: nat,
      p: Parts)
    requires (forall c | c in cs :: ChunkOk(crc, c) && c.kind != IEND) && ChunkOk(crc, last) && AbsorbAll(p, cs).Chunks?
    requires at <= |rest| && rest[at..] < FileBytes(crc, cs) + ChunkBytes(crc, last)
    ensures Scan(crc, rest, at, p) == Stopped(PngError.Truncated)
    decreases |cs|
  {
    hide ChunkBytes, Absorb, Scan, ChunkOk;
    var c := if cs == [] then last else cs[0];
    var b, n := ChunkBytes(crc, c), 12 + |c.body|;
    var tail := if cs == [] then [] else FileBytes(crc, cs[1..]) + ChunkBytes(crc, last);
    assert FileBytes(crc, cs) + ChunkBytes(crc, last) == b + tail;
    var here := rest[at..];
    if |here| < n {
      assert here == b[..|here|];
      CutShort(crc, rest, at, c, p);
    } else {
      assert rest[at..at + n] == here[..n] == b;
      assert rest[at + n..] == here[n..] && here[n..] < tail;
      ReadsChunk(crc, rest, at, c, p);
      ScanCut(crc, cs[1..], last, rest, at + n, Absorb(p, c.kind, c.body).p);
    }
  }

  lemma {:induction false} CutShort(crc: seq<byte> -> nat, rest: seq<byte>, at: nat, c: Chunk, p: Parts)
    requires ChunkOk(crc, c) && at <= |rest| < at + 12 + |c.body| && rest[at..] == ChunkBytes(crc, c)[..|rest| - at]
    ensures Scan(crc, rest, at, p) == Stopped(PngError.Truncated)
  {
    hide Bytes4, Zlib.BigEndian, Absorb;
    if at + 8 <= |rest| { assert rest[at..at + 4] == rest[at..][..4] == Bytes4(|c.body|); }
  }

  /** A file cut anywhere before the end of its end chunk: no signature, or ended early. */
  lemma {:induction false} EndsEarly(crc: seq<byte> -> nat, cs: seq<Chunk>, last: Chunk, k: nat)
    requires (forall c | c in cs :: ChunkOk(crc, c) && c.kind != IEND) && ChunkOk(crc, last)
    requires AbsorbAll(Parts(None, [], [], []), cs).Chunks?
    requires k < 8 + |FileBytes(crc, cs) + ChunkBytes(crc, last)|
    ensures var file := [0x89, 0x50, 0x4E, 0x47, 0x0D, 0x0A, 0x1A, 0x0A] + (FileBytes(crc, cs) + ChunkBytes(crc, last));
            Decode(crc, file[..k]) == Failed(if k < 8 then BadSignature else PngError.Truncated)
  {
    hide FileBytes, ChunkBytes, ChunkOk, Scan, AbsorbAll;
    var body := FileBytes(crc, cs) + ChunkBytes(crc, last);
    var file := SIGNATURE + body;
    if k >= 8 {
      assert file[..k][..8] == SIGNATURE && file[..k][8..] == body[..k - 8];
      assert body[..k - 8][0..] == body[..k - 8];
      ScanCut(crc, cs, last, body[..k - 8], 0, Parts(None, [], [], []));
    }
  }

  /** Nothing is decoded without the eight bytes of the signature, or without a header chunk. */
  lemma {:induction false} NeedsSignature(crc: seq<byte> -> nat, data: seq<byte>)
    ensures Decode(crc, data) == Failed(BadSignature) <==>
            !([0x89, 0x50, 0x4E, 0x47, 0x0D, 0x0A, 0x1A, 0x0A] <= data)
  {
    hide Scan, Shown;
    if |data| >= 8 && data[..8] == SIGNATURE {
      ScanErrors(crc, data[8..], 0, Parts(None, [], [], []));
      assert Scan(crc, data[8..], 0, Parts(None, [], [], [])) != Stopped(BadSignature);
      if Scan(crc, data[8..], 0, Parts(None, [], [], [])).Chunks? {
        var q := Scan(crc, data[8..], 0, Parts(None, [], [], [])).p;
        if q.hdr.Some? { ShownErrors(q, q.hdr.value); }
      }
    }
  }

  lemma {:induction false} ShownErrors(p: Parts, h: Header)
    ensures Shown(p, h) != Failed(BadSignature)
  {
    hide Zlib.Decompressed, Png.Unfiltered, ToRgba, Stride, Expected, Reached;
  }

  lemma {:induction false} ScanErrors(crc: seq<byte> -> nat, rest: seq<byte>, at: nat, p: Parts)
    requires at <= |rest|
    ensures Scan(crc, rest, at, p) != Stopped(BadSignature)
    decreases |rest| - at
  {
    hide Zlib.BigEndian;
    if at + 8 <= |rest| && at + 12 + Zlib.BigEndian(rest[at..at + 4]) <= |rest| {
      var n := Zlib.BigEndian(rest[at..at + 4]);
      var r := Absorb(p, rest[at + 4..at + 8], rest[at + 8..at + 8 + n]);
      if r.Chunks? { ScanErrors(crc, rest, at + 12 + n, r.p); }
    }
  }

  // ---- data -----------------------------------------------------------------

  /** Unfiltering fails exactly when some scanline has an unknown filter. */
  lemma {:induction false} FiltersFail(prior: seq<byte>, raw: seq<byte>, stride: nat, n: nat, bpp: nat)
    requires |raw| == n * (stride + 1) && bpp >= 1 && stride > 0
    ensures Png.Unfiltered(prior, raw, stride, n, bpp).BadData? <==> exists r: nat :: r < n && BadFilter(raw, stride, r)
    decreases n
  {
    hide *;
    if n == 0 {
      NoLines(prior, raw, stride, bpp);
    } else {
      var row, rest := OneLine(prior, raw, stride, n, bpp);
      FiltersFail(row, rest, stride, n - 1, bpp);
      FirstFilter(raw, stride);
      if raw[0] > 4 { assert BadFilter(raw, stride, 0); }
      if r: nat :| r < n - 1 && BadFilter(rest, stride, r) {
        LaterFilter(raw, stride, r);
        assert BadFilter(raw, stride, r + 1);
      }
      if r: nat :| r < n && BadFilter(raw, stride, r) {
        if r > 0 {
          LaterFilter(raw, stride, r - 1);
          assert BadFilter(rest, stride, r - 1);
        }
      }
    }
  }

  lemma {:induction false} NoLines(prior: seq<byte>, raw: seq<byte>, stride: nat, bpp: nat)
    requires raw == [] && bpp >= 1
    ensures Png.Unfiltered(prior, raw, stride, 0, bpp) == Png.Image([])
  {
  }

  lemma {:induction false} OneLine(prior: seq<byte>, raw: seq<byte>, stride: nat, n: nat, bpp: nat) returns (
      row: seq<byte>, rest: seq<byte>)
    requires |raw| == n * (stride + 1) && bpp >= 1 && stride > 0 && n > 0
    ensures |raw| >= stride + 1 && rest == raw[stride + 1..] && |rest| == (n - 1) * (stride + 1)
    ensures Png.Unfiltered(prior, raw, stride, n, bpp).BadData? <==>
            raw[0] > 4 || Png.Unfiltered(row, rest, stride, n - 1, bpp).BadData?
  {
    hide Png.UnfilterFrom;
    Png.LineFits(n, stride);
    rest := raw[stride + 1..];
    row := if raw[0] > 4 then [] else Png.UnfilterFrom(raw[0], prior, raw[1..stride + 1], bpp, []);
  }

  lemma {:induction false} FirstFilter(raw: seq<byte>, stride: nat)
    requires raw != []
    ensures BadFilter(raw, stride, 0) <==> raw[0] > 4
  {
    assert Start(stride, 0) == 0;
  }

  lemma {:induction false} LaterFilter(raw: seq<byte>, stride: nat, r: nat)
    requires |raw| >= stride + 1
    ensures BadFilter(raw, stride, r + 1) <==> BadFilter(raw[stride + 1..], stride, r)
  {
    Shifted(stride + 1, r + 1, 0);
    assert Start(stride, r + 1) == stride + 1 + Start(stride, r);
  }

  predicate BadFilter(raw: seq<byte>, stride: nat, r: nat) {
    Start(stride, r) < |raw| && raw[Start(stride, r)] > 4
  }

  /** Where scanline `r` starts. */
  function Start(stride: nat, r: nat): nat {
    r * (stride + 1)
  }

  /** With a header whose size does not wrap, the data chunks must hold a zlib stream of exactly all
      scanlines, with known filters; anything else is bad data. */
  lemma {:induction false} DataFails(p: Parts, h: Header, stride: nat, size: nat, raw: Huffmans.Res<seq<byte>>)
    requires 0 < h.width && 0 < h.height && h.color in {0, 2, 3, 4, 6} && 4 * (h.width * h.height) <= 335544320
    requires stride == h.width * Samples(h.color) && size == h.height * (stride + 1) < 0x1_0000_0000_0000_0000
    requires raw == Zlib.Decompressed(p.idat, size)
    ensures Shown(p, h).Decoded? || Shown(p, h) == Failed(BadData)
    ensures raw.Err? || |raw.value| != size ==> Shown(p, h) == Failed(BadData)
    ensures raw.Ok? && |raw.value| == size && (exists r: nat :: r < h.height && BadFilter(raw.value, stride, r)) ==>
              Shown(p, h) == Failed(BadData)
  {
    hide *;
    SizeIs(h, stride, size);
    if raw.Ok? && |raw.value| == size {
      FiltersFail([], raw.value, stride, h.height, Samples(h.color));
      ShownIs(p, h, stride, raw.value);
    } else {
      ShownNot(p, h);
    }
  }

  /** Otherwise the image is its unfiltered scanlines, colored; only the palette can still fail. */
  lemma {:induction false} DataShows(p: Parts, h: Header, stride: nat, raw: seq<byte>, px: seq<byte>)
    requires 0 < h.width && 0 < h.height && h.color in {0, 2, 3, 4, 6} && 4 * (h.width * h.height) <= 335544320
    requires stride == h.width * Samples(h.color) && |raw| == h.height * (stride + 1) < 0x1_0000_0000_0000_0000
    requires Zlib.Decompressed(p.idat, |raw|) == Huffmans.Ok(raw)
    requires Png.Unfiltered([], raw, stride, h.height, Samples(h.color)) == Png.Image(px)
    ensures var rgba := ToRgba(h, px, p.plte, p.trns);
            Shown(p, h) == if rgba.None? then Failed(BadData) else Decoded(h.width, h.height, rgba.value)
  {
    hide *;
    SizeIs(h, stride, |raw|);
    ShownIs(p, h, stride, raw);
  }

  lemma {:induction false} SizeIs(h: Header, stride: nat, size: nat)
    requires 0 < h.width && h.color in {0, 2, 3, 4, 6}
    requires stride == h.width * Samples(h.color) && size == h.height * (stride + 1) < 0x1_0000_0000_0000_0000
    ensures Samples(h.color) == Channels(h.color) && stride == Stride(h) && stride > 0
    ensures size == RawSize(h) && size == Expected(h) && Reached(h) == h.height
  {
    ReachedFits(h);
    Sized(h);
    assert Samples(h.color) == Channels(h.color);
  }

  lemma {:induction false} ShownIs(p: Parts, h: Header, stride: nat, raw: seq<byte>)
    requires stride == Stride(h) && |raw| == RawSize(h) == Expected(h) && Reached(h) == h.height
    requires Zlib.Decompressed(p.idat, |raw|) == Huffmans.Ok(raw) && 4 * (h.width * h.height) <= 335544320
    ensures |raw| == h.height * (stride + 1)
    ensures var o := Png.Unfiltered([], raw, stride, h.height, Channels(h.color));
            Shown(p, h) ==
              if o.BadData? then Failed(BadData)
              else if ToRgba(h, o.pixels, p.plte, p.trns).None? then Failed(BadData)
              else Decoded(h.width, h.height, ToRgba(h, o.pixels, p.plte, p.trns).value)
  {
    Sized(h);
    PixelCount(h);
    hide Zlib.Decompressed, Png.Unfiltered, ToRgba, Expected, Reached, RawSize, Stride, Channels;
    assert raw[..|raw|] == raw;
  }

  lemma {:induction false} ShownNot(p: Parts, h: Header)
    requires Zlib.Decompressed(p.idat, Expected(h)).Err?
             || |Zlib.Decompressed(p.idat, Expected(h)).value| != Expected(h)
    ensures Shown(p, h) == Failed(BadData)
  {
    hide Zlib.Decompressed, Png.Unfiltered, ToRgba, Expected, Reached, Stride;
  }
}
