// Pixels of crates/posh-term/src/graphics.rs: blending, and rectangles composed in place onto a canvas.
module Pixels {
  import opened Utf8

  datatype Format = RawRgb | RawRgba | FromPng

  /** Bytes per pixel as stored. */
  function Bpp(f: Format): nat {
    if f.RawRgb? then 3 else 4
  }

  // ---- blending -------------------------------------------------------------

  /** Output alpha, scaled by 255. */
  function OutAlpha(da: nat, sa: nat): nat
    requires sa <= 255
  {
    sa * 255 + da * (255 - sa)
  }

  function Channel(d: nat, da: nat, s: nat, sa: nat): int
    requires sa <= 255 && OutAlpha(da, sa) > 0
  {
    (s * sa * 255 + d * da * (255 - sa)) / OutAlpha(da, sa)
  }

  lemma {:induction false} DivBounds(a: nat, b: nat, lo: nat, hi: nat)
    requires b > 0 && lo * b <= a <= hi * b
    ensures lo <= a / b <= hi
  {
    if a / b < lo { Products(a / b + 1, lo, b); }
    if a / b > hi { Products(hi + 1, a / b, b); }
  }

  lemma {:induction false} Products(x: nat, y: nat, b: nat)
    requires x <= y
    ensures x * b <= y * b
  {
  }

  /** A weighted mean. */
  lemma {:induction false} MeanBounds(s: nat, p: nat, d: nat, q: nat, lo: nat, hi: nat)
    requires lo <= s <= hi && lo <= d <= hi
    ensures lo * (p + q) <= s * p + d * q <= hi * (p + q)
  {
    Products(lo, s, p);
    Products(lo, d, q);
    Products(s, hi, p);
    Products(d, hi, q);
    assert lo * (p + q) == lo * p + lo * q && hi * (p + q) == hi * p + hi * q;
  }

  /** A blended channel lies between the two it blends. */
  lemma {:induction false} ChannelBetween(d: nat, da: nat, s: nat, sa: nat, lo: nat, hi: nat)
    requires sa <= 255 && OutAlpha(da, sa) > 0 && lo <= s <= hi && lo <= d <= hi
    ensures lo <= Channel(d, da, s, sa) <= hi
  {
    var p, q := ChannelIs(d, da, s, sa);
    hide Channel, OutAlpha;
    MeanBetween(s, p, d, q, lo, hi);
  }

  lemma {:induction false} MeanBetween(s: nat, p: nat, d: nat, q: nat, lo: nat, hi: nat)
    requires lo <= s <= hi && lo <= d <= hi && p + q > 0
    ensures lo <= (s * p + d * q) / (p + q) <= hi
  {
    MeanBounds(s, p, d, q, lo, hi);
    DivBounds(s * p + d * q, p + q, lo, hi);
  }

  lemma {:induction false} ChannelIs(d: nat, da: nat, s: nat, sa: nat) returns (p: nat, q: nat)
    requires sa <= 255 && OutAlpha(da, sa) > 0
    ensures p + q > 0 && Channel(d, da, s, sa) == (s * p + d * q) / (p + q)
  {
    p, q := sa * 255, da * (255 - sa);
    Associates(s, sa, 255);
    Associates(d, da, 255 - sa);
  }

  lemma {:induction false} Associates(a: nat, b: nat, c: nat)
    ensures a * b * c == a * (b * c)
  {
  }

  lemma {:induction false} AlphaBounds(da: nat, sa: nat)
    requires da <= 255 && sa <= 255
    ensures sa <= OutAlpha(da, sa) / 255 <= 255
  {
    Products(da, 255, 255 - sa);
    assert 255 * (255 - sa) == 255 * 255 - 255 * sa;
  }

  /** `blend_px`. */
  function Blend(d: seq<byte>, s: seq<byte>): (r: seq<byte>)
    requires |d| == 4 && |s| == 4
    ensures |r| == 4
  {
    if s[3] == 255 then s
    else if OutAlpha(d[3], s[3]) == 0 then [0, 0, 0, 0]
    else
      ChannelBetween(d[0], d[3], s[0], s[3], 0, 255);
      ChannelBetween(d[1], d[3], s[1], s[3], 0, 255);
      ChannelBetween(d[2], d[3], s[2], s[3], 0, 255);
      AlphaBounds(d[3], s[3]);
      [Channel(d[0], d[3], s[0], s[3]), Channel(d[1], d[3], s[1], s[3]), Channel(d[2], d[3], s[2], s[3]),
       OutAlpha(d[3], s[3]) / 255]
  }

  function Lower(a: byte, b: byte): byte {
    if a < b then a else b
  }

  function Upper(a: byte, b: byte): byte {
    if a > b then a else b
  }

  /** Opaque source: the source. Clear source: no change, unless both are clear. Otherwise every color
      lies between the two blended, and the result is at least as opaque as the source. */
  lemma {:induction false} BlendMeans(d: seq<byte>, s: seq<byte>)
    requires |d| == 4 && |s| == 4
    ensures s[3] == 255 ==> Blend(d, s) == s
    ensures s[3] == 0 && d[3] > 0 ==> Blend(d, s) == d
    ensures s[3] == 0 && d[3] == 0 ==> Blend(d, s) == [0, 0, 0, 0]
    ensures s[3] > 0 ==> forall c | 0 <= c < 3 :: Lower(d[c], s[c]) <= Blend(d, s)[c] <= Upper(d[c], s[c])
    ensures Blend(d, s)[3] >= s[3]
  {
    var da, sa: nat := d[3], s[3];
    AlphaBounds(da, sa);
    if sa != 255 && OutAlpha(da, sa) != 0 {
      forall c | 0 <= c < 3
        ensures Lower(d[c], s[c]) <= Blend(d, s)[c] <= Upper(d[c], s[c])
      {
        ChannelBetween(d[c], da, s[c], sa, Lower(d[c], s[c]), Upper(d[c], s[c]));
      }
      if sa == 0 {
        forall c | 0 <= c < 3
          ensures Channel(d[c], da, s[c], 0) == d[c]
        {
          Cancel(d[c], da);
        }
        assert Blend(d, s) == d;
      }
    }
  }

  /** A blended color is, rounded down, the mean of the two weighted by what each contributes to the
      opacity: the source its own, the destination what the source leaves of its. */
  lemma {:induction false} BlendOver(d: seq<byte>, s: seq<byte>, c: nat)
    requires |d| == 4 && |s| == 4 && c < 3 && s[3] != 255
    ensures Rounded(Blend(d, s)[3], 255, OutAlpha(d[3], s[3]))
    ensures OutAlpha(d[3], s[3]) > 0 ==> Rounded(Blend(d, s)[c], OutAlpha(d[3], s[3]), Weighted(d[c], d[3], s[c], s[3]))
  {
    hide *;
    var sa: nat, da: nat, sc: nat, dc: nat := s[3], d[3], s[c], d[c];
    BlendIs(d, s, c);
    Floors(OutAlpha(da, sa), 255);
    if OutAlpha(da, sa) > 0 {
      ChannelParts(dc, da, sc, sa);
      Floors(Weighted(dc, da, sc, sa), OutAlpha(da, sa));
    }
  }

  function Weighted(d: nat, da: nat, s: nat, sa: nat): nat
    requires sa <= 255
  {
    s * (sa * 255) + d * (da * (255 - sa))
  }

  /** `r` is `n` divided by `b`, rounded down. */
  predicate Rounded(r: nat, b: nat, n: nat) {
    r * b <= n < r * b + b
  }

  lemma {:induction false} BlendIs(d: seq<byte>, s: seq<byte>, c: nat)
    requires |d| == 4 && |s| == 4 && c < 3 && s[3] != 255
    ensures Blend(d, s)[3] == OutAlpha(d[3], s[3]) / 255
    ensures OutAlpha(d[3], s[3]) > 0 ==> Blend(d, s)[c] == Channel(d[c], d[3], s[c], s[3])
  {
    AlphaBounds(d[3], s[3]);
    hide Channel;
  }

  lemma {:induction false} ChannelParts(d: nat, da: nat, s: nat, sa: nat)
    requires sa <= 255 && OutAlpha(da, sa) > 0
    ensures Channel(d, da, s, sa) == Weighted(d, da, s, sa) / OutAlpha(da, sa)
  {
    Associates(s, sa, 255);
    Associates(d, da, 255 - sa);
  }

  lemma {:induction false} Floors(a: nat, b: nat)
    requires b > 0
    ensures Rounded(a / b, b, a)
  {
  }

  lemma {:induction false} Cancel(d: nat, da: nat)
    requires da > 0
    ensures OutAlpha(da, 0) == da * 255 && (d * da * 255) / (da * 255) == d
  {
    assert d * da * 255 == d * (da * 255);
    DivBounds(d * (da * 255), da * 255, d, d);
  }

  // ---- canvases -------------------------------------------------------------

  /** Byte offset of a pixel. */
  function At(w: nat, x: nat, y: nat): nat {
    4 * (y * w + x)
  }

  lemma {:induction false} AtRange(w: nat, h: nat, x: nat, y: nat)
    requires x < w && y < h
    ensures At(w, x, y) + 4 <= 4 * (w * h)
  {
    Products(y + 1, h, w);
    assert (y + 1) * w == y * w + w;
    assert h * w == w * h;
  }

  /** Different pixels do not overlap. */
  lemma {:induction false} AtApart(w: nat, x: nat, y: nat, x': nat, y': nat)
    requires x < w && x' < w && (x != x' || y != y')
    ensures At(w, x, y) + 4 <= At(w, x', y') || At(w, x', y') + 4 <= At(w, x, y)
  {
    if y < y' {
      Products(y + 1, y', w);
      assert (y + 1) * w == y * w + w;
    } else if y' < y {
      Products(y' + 1, y, w);
      assert (y' + 1) * w == y' * w + w;
    }
  }

  function Pixel(data: seq<byte>, w: nat, x: nat, y: nat): seq<byte>
    requires At(w, x, y) + 4 <= |data|
  {
    data[At(w, x, y)..At(w, x, y) + 4]
  }

  function Put(data: seq<byte>, at: nat, px: seq<byte>): (r: seq<byte>)
    requires at + 4 <= |data| && |px| == 4
    ensures |r| == |data|
  {
    data[at := px[0]][at + 1 := px[1]][at + 2 := px[2]][at + 3 := px[3]]
  }

  function Mixed(d: seq<byte>, s: seq<byte>, replace: bool): (r: seq<byte>)
    requires |d| == 4 && |s| == 4
    ensures |r| == 4
  {
    if replace then s else Blend(d, s)
  }

  /** Columns `col` to `w` of one row. */
  function RectRow(dst: seq<byte>, src: seq<byte>, sAt: nat, dAt: nat, w: nat, col: nat, replace: bool): (r: seq<byte>)
    requires col <= w && (w > 0 ==> sAt + 4 * w <= |src| && dAt + 4 * w <= |dst|)
    ensures |r| == |dst|
    decreases w - col
  {
    if col == w then dst
    else
      var s, d := sAt + 4 * col, dAt + 4 * col;
      RectRow(Put(dst, d, Mixed(dst[d..d + 4], src[s..s + 4], replace)), src, sAt, dAt, w, col + 1, replace)
  }

  /** A rectangle within two images: its size, and where it lies in each. */
  datatype Box = Box(sx: nat, sy: nat, dx: nat, dy: nat, w: nat, h: nat)

  ghost predicate Inside(b: Box, dw: nat, dh: nat, sw: nat, sh: nat) {
    (b.w > 0 ==> b.sx + b.w <= sw && b.dx + b.w <= dw) && (b.h > 0 ==> b.sy + b.h <= sh && b.dy + b.h <= dh)
  }

  function Least(a: nat, b: nat, c: nat): (m: nat)
    ensures m <= a && m <= b && m <= c
  {
    if a <= b && a <= c then a else if b <= c then b else c
  }

  /** Saturating subtraction. */
  function Over(a: nat, b: nat): nat {
    if a >= b then a - b else 0
  }

  function Clipped(b: Box, dw: nat, dh: nat, sw: nat, sh: nat): (r: Box)
    ensures Inside(r, dw, dh, sw, sh)
  {
    b.(w := Least(b.w, Over(sw, b.sx), Over(dw, b.dx)), h := Least(b.h, Over(sh, b.sy), Over(dh, b.dy)))
  }

  lemma {:induction false} RowRange(w: nat, h: nat, x: nat, y: nat, n: nat)
    requires n > 0 && x + n <= w && y < h
    ensures At(w, x, y) + 4 * n <= 4 * (w * h)
  {
    AtRange(w, h, x + n - 1, y);
  }

  function RectRows(dst: seq<byte>, dw: nat, dh: nat, src: seq<byte>, sw: nat, sh: nat, b: Box, row: nat,
      replace: bool): (r: seq<byte>)
    requires Inside(b, dw, dh, sw, sh) && row <= b.h && |dst| == 4 * (dw * dh) && |src| == 4 * (sw * sh)
    ensures |r| == |dst|
    decreases b.h - row
  {
    if row == b.h then dst
    else
      var s, d := At(sw, b.sx, b.sy + row), At(dw, b.dx, b.dy + row);
      if b.w > 0 then
        RowRange(sw, sh, b.sx, b.sy + row, b.w);
        RowRange(dw, dh, b.dx, b.dy + row, b.w);
        RectRows(RectRow(dst, src, s, d, b.w, 0, replace), dw, dh, src, sw, sh, b, row + 1, replace)
      else RectRows(dst, dw, dh, src, sw, sh, b, row + 1, replace)
  }

  /** `compose_rect`. */
  function ComposeRect(dst: seq<byte>, dw: nat, dh: nat, src: seq<byte>, sw: nat, sh: nat, b: Box,
      replace: bool): (r: seq<byte>)
    requires |dst| == 4 * (dw * dh) && |src| == 4 * (sw * sh)
    ensures |r| == |dst|
  {
    RectRows(dst, dw, dh, src, sw, sh, Clipped(b, dw, dh, sw, sh), 0, replace)
  }

  // ---- what a composition does to each pixel --------------------------------

  lemma {:induction false} PutAt(data: seq<byte>, at: nat, px: seq<byte>, other: nat)
    requires at + 4 <= |data| && |px| == 4 && other + 4 <= |data|
    ensures other == at ==> Put(data, at, px)[other..other + 4] == px
    ensures other + 4 <= at || at + 4 <= other ==> Put(data, at, px)[other..other + 4] == data[other..other + 4]
  {
  }

  /** One row touches its own pixels, each once, and nothing else. */
  lemma {:induction false} RowPixel(dst: seq<byte>, src: seq<byte>, sAt: nat, dAt: nat, w: nat, col: nat, replace: bool,
      other: nat)
    requires col <= w && (w > 0 ==> sAt + 4 * w <= |src| && dAt + 4 * w <= |dst|) && other + 4 <= |dst|
    ensures var r := RectRow(dst, src, sAt, dAt, w, col, replace);
      && (forall k | col <= k < w && other == dAt + 4 * k ::
           r[other..other + 4] == Mixed(dst[other..other + 4], src[sAt + 4 * k..sAt + 4 * k + 4], replace))
      && (other + 4 <= dAt + 4 * col || dAt + 4 * w <= other ==> r[other..other + 4] == dst[other..other + 4])
    decreases w - col
  {
    hide Put, Mixed;
    if col < w {
      var s, d := sAt + 4 * col, dAt + 4 * col;
      var px := Mixed(dst[d..d + 4], src[s..s + 4], replace);
      PutAt(dst, d, px, other);
      RowPixel(Put(dst, d, px), src, sAt, dAt, w, col + 1, replace, other);
    }
  }

  lemma {:induction false} RowHit(dst: seq<byte>, src: seq<byte>, sAt: nat, dAt: nat, w: nat, replace: bool, k: nat)
    requires k < w && sAt + 4 * w <= |src| && dAt + 4 * w <= |dst|
    ensures var r, o, i := RectRow(dst, src, sAt, dAt, w, 0, replace), dAt + 4 * k, sAt + 4 * k;
      r[o..o + 4] == Mixed(dst[o..o + 4], src[i..i + 4], replace)
  {
    hide Mixed, RectRow;
    RowPixel(dst, src, sAt, dAt, w, 0, replace, dAt + 4 * k);
  }

  lemma {:induction false} RowSame(w: nat, x: nat, y: nat, dx: nat, n: nat)
    requires n > 0 && dx + n <= w && x < w
    ensures dx <= x < dx + n ==> At(w, x, y) == At(w, dx, y) + 4 * (x - dx)
    ensures x < dx ==> At(w, x, y) + 4 <= At(w, dx, y)
    ensures x >= dx + n ==> At(w, dx, y) + 4 * n <= At(w, x, y)
  {
  }

  lemma {:induction false} RowOther(w: nat, x: nat, y: nat, dx: nat, y': nat, n: nat)
    requires n > 0 && dx + n <= w && x < w && y != y'
    ensures At(w, x, y) + 4 <= At(w, dx, y') || At(w, dx, y') + 4 * n <= At(w, x, y)
  {
    AtApart(w, x, y, dx, y');
    AtApart(w, x, y, dx + n - 1, y');
    if y < y' {
      Products(y + 1, y', w);
      assert (y + 1) * w == y * w + w;
    } else {
      Products(y' + 1, y, w);
      assert (y' + 1) * w == y' * w + w;
    }
  }

  /** One row of the rectangle, pixel by pixel of the canvas. */
  lemma {:induction false} RowDone(dst: seq<byte>, dw: nat, dh: nat, src: seq<byte>, sw: nat, sh: nat, b: Box, row: nat,
      replace: bool, x: nat, y: nat)
    requires Inside(b, dw, dh, sw, sh) && row < b.h && b.w > 0 && |dst| == 4 * (dw * dh) && |src| == 4 * (sw * sh)
             && x < dw && y < dh
    ensures At(dw, x, y) + 4 <= |dst| && At(sw, b.sx, b.sy + row) + 4 * b.w <= |src|
            && At(dw, b.dx, b.dy + row) + 4 * b.w <= |dst|
    ensures var r := RectRow(dst, src, At(sw, b.sx, b.sy + row), At(dw, b.dx, b.dy + row), b.w, 0, replace);
      if b.dx <= x < b.dx + b.w && y == b.dy + row then
        At(sw, x - b.dx + b.sx, b.sy + row) + 4 <= |src| &&
        Pixel(r, dw, x, y) == Mixed(Pixel(dst, dw, x, y), Pixel(src, sw, x - b.dx + b.sx, b.sy + row), replace)
      else Pixel(r, dw, x, y) == Pixel(dst, dw, x, y)
  {
    hide RectRow, Mixed, At;
    AtRange(dw, dh, x, y);
    RowRange(sw, sh, b.sx, b.sy + row, b.w);
    RowRange(dw, dh, b.dx, b.dy + row, b.w);
    if y == b.dy + row && b.dx <= x < b.dx + b.w {
      AtRange(sw, sh, x - b.dx + b.sx, b.sy + row);
      RowSame(dw, x, y, b.dx, b.w);
      RowSame(sw, x - b.dx + b.sx, b.sy + row, b.sx, b.w);
      RowHit(dst, src, At(sw, b.sx, b.sy + row), At(dw, b.dx, b.dy + row), b.w, replace, x - b.dx);
    } else {
      if y == b.dy + row { RowSame(dw, x, y, b.dx, b.w); } else { RowOther(dw, x, y, b.dx, b.dy + row, b.w); }
      RowPixel(dst, src, At(sw, b.sx, b.sy + row), At(dw, b.dx, b.dy + row), b.w, 0, replace, At(dw, x, y));
    }
  }

  lemma {:induction false} RowsPixel(dst: seq<byte>, dw: nat, dh: nat, src: seq<byte>, sw: nat, sh: nat, b: Box,
      row: nat, replace: bool, x: nat, y: nat)
    requires Inside(b, dw, dh, sw, sh) && row <= b.h && |dst| == 4 * (dw * dh) && |src| == 4 * (sw * sh) && x < dw
             && y < dh
    ensures At(dw, x, y) + 4 <= |dst|
    ensures var r := RectRows(dst, dw, dh, src, sw, sh, b, row, replace);
      if b.dx <= x < b.dx + b.w && b.dy + row <= y < b.dy + b.h then
        At(sw, x - b.dx + b.sx, y - b.dy + b.sy) + 4 <= |src| &&
        Pixel(r, dw, x, y) == Mixed(Pixel(dst, dw, x, y), Pixel(src, sw, x - b.dx + b.sx, y - b.dy + b.sy), replace)
      else Pixel(r, dw, x, y) == Pixel(dst, dw, x, y)
    decreases b.h - row
  {
    hide RectRow, Mixed, At, Pixel;
    AtRange(dw, dh, x, y);
    if row < b.h {
      if b.w > 0 {
        RowDone(dst, dw, dh, src, sw, sh, b, row, replace, x, y);
        var next := RectRow(dst, src, At(sw, b.sx, b.sy + row), At(dw, b.dx, b.dy + row), b.w, 0, replace);
        RowsPixel(next, dw, dh, src, sw, sh, b, row + 1, replace, x, y);
      } else {
        RowsPixel(dst, dw, dh, src, sw, sh, b, row + 1, replace, x, y);
      }
    }
  }

  /** Composition mixes each pixel of the clipped rectangle with the source pixel over it, once, and
      leaves every other pixel alone. */
  lemma {:induction false} ComposedPixel(dst: seq<byte>, dw: nat, dh: nat, src: seq<byte>, sw: nat, sh: nat, b: Box,
      replace: bool, x: nat, y: nat)
    requires |dst| == 4 * (dw * dh) && |src| == 4 * (sw * sh) && x < dw && y < dh
    ensures At(dw, x, y) + 4 <= |dst|
    ensures var r := ComposeRect(dst, dw, dh, src, sw, sh, b, replace);
      if b.dx <= x < b.dx + b.w && b.dy <= y < b.dy + b.h && x - b.dx + b.sx < sw && y - b.dy + b.sy < sh then
        At(sw, x - b.dx + b.sx, y - b.dy + b.sy) + 4 <= |src| &&
        Pixel(r, dw, x, y) == Mixed(Pixel(dst, dw, x, y), Pixel(src, sw, x - b.dx + b.sx, y - b.dy + b.sy), replace)
      else Pixel(r, dw, x, y) == Pixel(dst, dw, x, y)
  {
    hide Mixed, Pixel, At, RectRows;
    RowsPixel(dst, dw, dh, src, sw, sh, Clipped(b, dw, dh, sw, sh), 0, replace, x, y);
  }

  // ---- in place -------------------------------------------------------------

  method BlendInto(dst: array<byte>, at: nat, s: seq<byte>)
    requires at + 4 <= dst.Length && |s| == 4
    modifies dst
    ensures dst[..] == Put(old(dst[..]), at, Blend(old(dst[at..at + 4]), s))
  {
    ghost var was, d := dst[..], dst[at..at + 4];
    var sa: nat := s[3];
    if sa == 255 {
      dst[at], dst[at + 1], dst[at + 2], dst[at + 3] := s[0], s[1], s[2], s[3];
      return;
    }
    var da: nat := dst[at + 3];
    var oa := sa * 255 + da * (255 - sa);
    if oa == 0 {
      dst[at], dst[at + 1], dst[at + 2], dst[at + 3] := 0, 0, 0, 0;
      return;
    }
    ghost var want := Blend(d, s);
    assert want == [Channel(d[0], da, s[0], sa), Channel(d[1], da, s[1], sa),
      Channel(d[2], da, s[2], sa), OutAlpha(da, sa) / 255];
    for c := 0 to 3
      invariant |want| == 4 && want == Blend(d, s) && |was| == dst.Length && d == was[at..at + 4] && |d| == 4
      invariant da == d[3] && oa == OutAlpha(da, sa) && oa > 0
      invariant want == [Channel(d[0], da, s[0], sa), Channel(d[1], da, s[1], sa),
                  Channel(d[2], da, s[2], sa), OutAlpha(da, sa) / 255]
      invariant forall k | 0 <= k < dst.Length :: dst[k] == if at <= k < at + c then want[k - at] else was[k]
    {
      hide Channel, Blend;
      var before := dst[at + c];
      assert before == d[c];
      MixOne(d[c], da, s[c], sa);
      var sc := s[c] * sa * 255;
      var dc := before * da * (255 - sa);
      dst[at + c] := (sc + dc) / oa;
    }
    AlphaBounds(da, sa);
    dst[at + 3] := oa / 255;
    assert dst[..] == Put(was, at, want);
  }

  lemma {:induction false} MixOne(d: byte, da: nat, s: byte, sa: nat)
    requires sa <= 255 && OutAlpha(da, sa) > 0
    ensures Channel(d, da, s, sa) == (s * sa * 255 + d * da * (255 - sa)) / OutAlpha(da, sa)
    ensures 0 <= Channel(d, da, s, sa) <= 255
  {
    ChannelBetween(d, da, s, sa, 0, 255);
  }

  method ComposeInPlace(dst: array<byte>, dw: nat, dh: nat, src: seq<byte>, sw: nat, sh: nat, b: Box, replace: bool)
    requires dst.Length == 4 * (dw * dh) && |src| == 4 * (sw * sh)
    modifies dst
    ensures dst[..] == ComposeRect(old(dst[..]), dw, dh, src, sw, sh, b, replace)
  {
    hide Put, Blend, At;
    var c := Clipped(b, dw, dh, sw, sh);
    ghost var was := dst[..];
    var row := 0;
    while row < c.h
      invariant row <= c.h && c == Clipped(b, dw, dh, sw, sh)
      invariant RectRows(dst[..], dw, dh, src, sw, sh, c, row, replace) ==
                RectRows(was, dw, dh, src, sw, sh, c, 0, replace)
    {
      if c.w > 0 {
        RowRange(sw, sh, c.sx, c.sy + row, c.w);
        RowRange(dw, dh, c.dx, c.dy + row, c.w);
      }
      var s, d := At(sw, c.sx, c.sy + row), At(dw, c.dx, c.dy + row);
      MixRow(dst, src, s, d, c.w, replace);
      row := row + 1;
    }
  }

  method MixPixel(dst: array<byte>, at: nat, s: seq<byte>, replace: bool)
    requires at + 4 <= dst.Length && |s| == 4
    modifies dst
    ensures dst[..] == Put(old(dst[..]), at, Mixed(old(dst[..])[at..at + 4], s, replace))
  {
    hide Blend;
    assert dst[..][at..at + 4] == dst[at..at + 4];
    if replace {
      dst[at], dst[at + 1], dst[at + 2], dst[at + 3] := s[0], s[1], s[2], s[3];
    } else {
      BlendInto(dst, at, s);
    }
  }

  method MixRow(dst: array<byte>, src: seq<byte>, sAt: nat, dAt: nat, w: nat, replace: bool)
    requires w > 0 ==> sAt + 4 * w <= |src| && dAt + 4 * w <= dst.Length
    modifies dst
    ensures dst[..] == RectRow(old(dst[..]), src, sAt, dAt, w, 0, replace)
  {
    hide Put, Mixed;
    ghost var was := dst[..];
    var col := 0;
    while col < w
      invariant col <= w
      invariant RectRow(dst[..], src, sAt, dAt, w, col, replace) == RectRow(was, src, sAt, dAt, w, 0, replace)
    {
      MixPixel(dst, dAt + 4 * col, src[sAt + 4 * col..sAt + 4 * col + 4], replace);
      col := col + 1;
    }
  }

  // ---- formats --------------------------------------------------------------

  /** `as_rgba`: RGB gains an opaque alpha. */
  function FromRgb(data: seq<byte>): (r: seq<byte>)
    ensures 3 * |r| == 4 * (|data| - |data| % 3)
  {
    if |data| < 3 then [] else [data[0], data[1], data[2], 255] + FromRgb(data[3..])
  }

  function AsRgba(f: Format, data: seq<byte>): seq<byte> {
    if f.RawRgb? then FromRgb(data) else data
  }

  lemma {:induction false} RgbaSize(f: Format, data: seq<byte>, w: nat, h: nat)
    requires |data| == Bpp(f) * (w * h)
    ensures |AsRgba(f, data)| == 4 * (w * h)
  {
  }

  method ToRgba(f: Format, data: seq<byte>) returns (out: seq<byte>)
    ensures out == AsRgba(f, data)
  {
    if !f.RawRgb? { return data; }
    out := [];
    var i := 0;
    while i + 3 <= |data|
      invariant i <= |data| && out + FromRgb(data[i..]) == FromRgb(data)
    {
      assert data[i..][3..] == data[i + 3..];
      assert out + ([data[i], data[i + 1], data[i + 2], 255] + FromRgb(data[i + 3..])) ==
        out + [data[i], data[i + 1], data[i + 2], 255] + FromRgb(data[i + 3..]);
      out := out + [data[i], data[i + 1], data[i + 2], 255];
      i := i + 3;
    }
    assert FromRgb(data[i..]) == [];
  }
}
