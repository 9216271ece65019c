// crates/posh-term/src/inflate.rs: the bit reader, one compressed block, and whole DEFLATE streams.
// The functions say what is read from which position; class `BitReader` advances its position.
module Inflate {
  import opened Utf8
  import opened Sequences
  import opened Huffmans

  /** Code 257 + i: the least length it stands for, and how many bits are added to it. */
  function LengthBase(i: nat): (v: nat)
    requires i < 29
    ensures v >= 3
  {
    [3, 4, 5, 6, 7, 8, 9, 10, 11, 13, 15, 17, 19, 23, 27, 31,
      35, 43, 51, 59, 67, 83, 99, 115, 131, 163, 195, 227, 258][i]
  }

  function LengthExtra(i: nat): nat
    requires i < 29
  {
    [0, 0, 0, 0, 0, 0, 0, 0, 1, 1, 1, 1, 2, 2, 2, 2, 3, 3, 3, 3, 4, 4, 4, 4, 5, 5, 5, 5, 0][i]
  }

  /** Code i: the least distance it stands for, and how many bits are added to it. */
  function DistBase(i: nat): (v: nat)
    requires i < 30
    ensures v >= 1
  {
    [1, 2, 3, 4, 5, 7, 9, 13, 17, 25, 33, 49, 65, 97, 129, 193, 257, 385, 513, 769, 1025, 1537,
     2049, 3073, 4097, 6145, 8193, 12289, 16385, 24577][i]
  }

  function DistExtra(i: nat): nat
    requires i < 30
  {
    [0, 0, 0, 0, 1, 1, 2, 2, 3, 3, 4, 4, 5, 5, 6, 6, 7, 7, 8, 8, 9, 9, 10, 10, 11, 11, 12, 12, 13, 13][i]
  }

  /** The order of the code-length code lengths. */
  function ClenOrder(i: nat): (v: nat)
    requires i < 19
    ensures v < 19
  {
    [16, 17, 18, 0, 8, 7, 9, 6, 10, 5, 11, 4, 12, 3, 13, 2, 14, 1, 15][i]
  }

  // ---- reading --------------------------------------------------------------

  /** Bits come from the least significant end of each byte. */
  function Bit(data: seq<byte>, pos: nat): (b: nat)
    requires pos < 8 * |data|
    ensures b <= 1
  {
    data[pos / 8] / Pow2(pos % 8) % 2
  }

  function BitsValue(data: seq<byte>, pos: nat, n: nat): (v: nat)
    requires pos + n <= 8 * |data|
    ensures v < Pow2(n)
  {
    if n == 0 then 0 else BitsValue(data, pos, n - 1) + Bit(data, pos + n - 1) * Pow2(n - 1)
  }

  function ReadBits(data: seq<byte>, pos: nat, n: nat): (r: Res<nat>)
    ensures r.Ok? ==> r.value < Pow2(n) && (n > 0 ==> pos + n <= 8 * |data|)
  {
    if n > 0 && pos + n > 8 * |data| then Err(TruncatedInput) else if n == 0 then Ok(0) else Ok(BitsValue(data, pos, n))
  }

  lemma {:induction false} OneBit(data: seq<byte>, pos: nat)
    requires pos < 8 * |data|
    ensures ReadBits(data, pos, 1) == Ok(Bit(data, pos))
  {
    assert BitsValue(data, pos, 1) == BitsValue(data, pos, 0) + Bit(data, pos) * Pow2(0);
  }

  /** Bit by bit: is the code so far one of the codes of this length? */
  function Walk(h: Huffman, data: seq<byte>, pos: nat, len: nat, code: nat, first: nat): (r: Res<(nat, nat)>)
    requires HuffOk(h) && 1 <= len <= 16 && first <= code
    ensures r.Ok? ==> pos < r.value.1 <= 8 * |data|
    decreases 16 - len
  {
    if len == 16 then Err(BadSymbol)
    else if pos >= 8 * |data| then Err(TruncatedInput)
    else
      var code := code + Bit(data, pos);
      var count := h.counts[len];
      if code < first + count then
        TotalGrows(h.counts, len);
        Ok((h.symbols[Total(h.counts, len) + code - first], pos + 1))
      else Walk(h, data, pos + 1, len + 1, 2 * code, 2 * (first + count))
  }

  lemma {:induction false} WalkStep(h: Huffman, data: seq<byte>, pos: nat, len: nat, code: nat, first: nat)
    requires HuffOk(h) && |h.counts| == 16 && 1 <= len <= 15 && first <= code && pos < 8 * |data|
    ensures var c, count := code + Bit(data, pos), h.counts[len];
            if c < first + count then
              Total(h.counts, len) + c - first < |h.symbols|
              && Walk(h, data, pos, len, code, first) == Ok((h.symbols[Total(h.counts, len) + c - first], pos + 1))
            else Walk(h, data, pos, len, code, first) == Walk(h, data, pos + 1, len + 1, 2 * c, 2 * (first + count))
  {
    TotalGrows(h.counts, len);
  }

  lemma {:induction false} WalkEnds(h: Huffman, data: seq<byte>, pos: nat, len: nat, code: nat, first: nat)
    requires HuffOk(h) && 1 <= len <= 16 && first <= code && (len == 16 || pos >= 8 * |data|)
    ensures |h.counts| == 16
    ensures Walk(h, data, pos, len, code, first) == if len == 16 then Err(BadSymbol) else Err(TruncatedInput)
  {
  }

  /** The symbol at `pos` and the position after it. */
  function Decode(h: Huffman, data: seq<byte>, pos: nat): (r: Res<(nat, nat)>)
    requires HuffOk(h)
    ensures r.Ok? ==> pos < r.value.1 <= 8 * |data|
  {
    Walk(h, data, pos, 1, 0, 0)
  }

  // ---- back references ------------------------------------------------------

  /** Byte by byte: what has just been copied can be copied again. */
  function Copy(out: seq<byte>, d: nat, n: nat): (r: seq<byte>)
    requires 1 <= d <= |out|
    ensures |r| == |out| + n && out <= r
    decreases n
  {
    if n == 0 then out else Copy(out + [out[|out| - d]], d, n - 1)
  }

  /** A length and distance pair: the position after it, the length and the distance. */
  function ReadMatch(sym: nat, dist: Huffman, data: seq<byte>, pos: nat): (r: Res<(nat, nat, nat)>)
    requires HuffOk(dist) && 257 <= sym <= 285
    ensures r.Ok? ==> pos < r.value.0 <= 8 * |data| && 3 <= r.value.1 && 1 <= r.value.2
  {
    hide LengthBase, LengthExtra, DistBase, DistExtra;
    var idx := sym - 257;
    var le := ReadBits(data, pos, LengthExtra(idx));
    if le.Err? then Err(le.error)
    else
      var ds := Decode(dist, data, pos + LengthExtra(idx));
      if ds.Err? then Err(ds.error)
      else if ds.value.0 >= 30 then Err(BadSymbol)
      else
        var dsym, at := ds.value.0, ds.value.1;
        var de := ReadBits(data, at, DistExtra(dsym));
        if de.Err? then Err(de.error)
        else Ok((at + DistExtra(dsym), LengthBase(idx) + le.value, DistBase(dsym) + de.value))
  }

  /** One compressed block: the output so far grown by it, and the position after end-of-block. */
  function Block(lit: Huffman, dist: Huffman, data: seq<byte>, pos: nat, out: seq<byte>,
      limit: nat): (r: Res<(seq<byte>, nat)>)
    requires HuffOk(lit) && HuffOk(dist)
    ensures r.Ok? && |out| <= limit ==> |r.value.0| <= limit
    ensures r.Ok? ==> out <= r.value.0 && pos < r.value.1 <= 8 * |data|
    decreases 8 * |data| - pos
  {
    var s := Decode(lit, data, pos);
    if s.Err? then Err(s.error)
    else
      var sym, at := s.value.0, s.value.1;
      if sym <= 255 then
        if |out| >= limit then Err(TooLarge) else Block(lit, dist, data, at, out + [sym as byte], limit)
      else if sym == 256 then Ok((out, at))
      else if sym > 285 then Err(BadSymbol)
      else
        var m := ReadMatch(sym, dist, data, at);
        if m.Err? then Err(m.error)
        else
          var (next, len, d) := m.value;
          if d > |out| then Err(BadDistance)
          else if |out| + len > limit then Err(TooLarge)
          else Block(lit, dist, data, next, Copy(out, d, len), limit)
  }

  // ---- dynamic tables -------------------------------------------------------

  function Repeat(v: nat, n: nat): (s: seq<nat>)
    ensures |s| == n && forall i | 0 <= i < n :: s[i] == v
  {
    seq(n, i => v)
  }

  /** Code lengths `i..n` of the code-length code, three bits each, in their fixed order. */
  function ClenLengths(data: seq<byte>, pos: nat, i: nat, n: nat, ls: seq<nat>): (r: Res<seq<nat>>)
    requires i <= n <= 19 && |ls| == 19
    ensures r.Ok? ==> |r.value| == 19
    decreases n - i
  {
    if i == n then Ok(ls)
    else
      var v := ReadBits(data, pos + 3 * i, 3);
      if v.Err? then Err(v.error) else ClenLengths(data, pos, i + 1, n, ls[ClenOrder(i) := v.value])
  }

  /** What one step of the run-length code adds. */
  datatype Lengths = Lengths(add: seq<nat>, at: nat)

  function ClenStep(clen: Huffman, data: seq<byte>, pos: nat, ls: seq<nat>): (r: Res<Lengths>)
    requires HuffOk(clen)
    ensures r.Ok? ==> |r.value.add| > 0 && pos < r.value.at <= 8 * |data|
  {
    var d := Decode(clen, data, pos);
    if d.Err? then Err(d.error)
    else
      var (sym, at) := d.value;
      if sym <= 15 then Ok(Lengths([sym], at))
      else if sym > 18 || (sym == 16 && ls == []) then Err(BadHuffman)
      else
        var bits := if sym == 16 then 2 else if sym == 17 then 3 else 7;
        var n := ReadBits(data, at, bits);
        if n.Err? then Err(n.error)
        else Ok(Lengths(Repeat(if sym == 16 then ls[|ls| - 1] else 0, (if sym == 18 then 11 else 3) + n.value),
          at + bits))
  }

  /** Steps until there are `n` lengths; a step must not overshoot. */
  function CodeLengths(clen: Huffman, data: seq<byte>, pos: nat, ls: seq<nat>, n: nat): (r: Res<Lengths>)
    requires HuffOk(clen) && |ls| <= n
    ensures r.Ok? ==> |r.value.add| == n && pos <= r.value.at && (pos <= 8 * |data| ==> r.value.at <= 8 * |data|)
    decreases n - |ls|
  {
    if |ls| == n then Ok(Lengths(ls, pos))
    else
      var s := ClenStep(clen, data, pos, ls);
      if s.Err? then Err(s.error)
      else if |ls| + |s.value.add| > n then Err(BadHuffman)
      else CodeLengths(clen, data, s.value.at, ls + s.value.add, n)
  }

  datatype Tables = Tables(lit: Huffman, dist: Huffman, at: nat)

  function TablesOf(ls: seq<nat>, hlit: nat, at: nat): (r: Res<Tables>)
    requires 257 <= hlit <= |ls|
    ensures r.Ok? ==> HuffOk(r.value.lit) && HuffOk(r.value.dist) && r.value.at == at
  {
    if ls[256] == 0 then Err(BadHuffman)
    else
      var lit, dist := NewOf(ls[..hlit]), NewOf(ls[hlit..]);
      if lit.Err? then Err(lit.error)
      else if dist.Err? then Err(dist.error)
      else Ok(Tables(lit.value, dist.value, at))
  }

  /** `dynamic_tables`. */
  function DynamicTables(data: seq<byte>, pos: nat): (r: Res<Tables>)
    ensures r.Ok? ==> HuffOk(r.value.lit) && HuffOk(r.value.dist) && pos < r.value.at <= 8 * |data|
  {
    var a, b, c := ReadBits(data, pos, 5), ReadBits(data, pos + 5, 5), ReadBits(data, pos + 10, 4);
    if a.Err? then Err(a.error) else if b.Err? then Err(b.error) else if c.Err? then Err(c.error)
    else
      assert Pow2(4) == 16;
      var hlit, hdist, hclen := a.value + 257, b.value + 1, c.value + 4;
      var cl := ClenLengths(data, pos + 14, 0, hclen, Repeat(0, 19));
      if cl.Err? then Err(cl.error)
      else
        var clen := NewOf(cl.value);
        if clen.Err? then Err(clen.error)
        else
          var ls := CodeLengths(clen.value, data, pos + 14 + 3 * hclen, [], hlit + hdist);
          if ls.Err? then Err(ls.error) else TablesOf(ls.value.add, hlit, ls.value.at)
  }

  // ---- streams --------------------------------------------------------------

  function FixedLengths(): (ls: seq<nat>)
    ensures |ls| == 288
  {
    Repeat(8, 144) + Repeat(9, 112) + Repeat(7, 24) + Repeat(8, 8)
  }

  function Align(pos: nat): (p: nat)
    ensures pos <= p < pos + 8 && p % 8 == 0
  {
    (pos + 7) / 8 * 8
  }

  /** A stored block: a length, its complement, and that many bytes. */
  function StoredBlock(data: seq<byte>, pos: nat, out: seq<byte>, limit: nat): (r: Res<(seq<byte>, nat)>)
    ensures r.Ok? ==> |r.value.0| <= limit && out <= r.value.0 && pos < r.value.1 <= 8 * |data|
  {
    var p := Align(pos);
    var len, nlen := ReadBits(data, p, 16), ReadBits(data, p + 16, 16);
    if len.Err? then Err(len.error)
    else if nlen.Err? then Err(nlen.error)
    else if len.value + nlen.value != 0xFFFF then Err(BadStoredLength)
    else if |out| + len.value > limit then Err(TooLarge)
    else
      var start := (p + 32) / 8;
      if start + len.value > |data| then Err(TruncatedInput)
      else Ok((out + data[start..start + len.value], p + 32 + 8 * len.value))
  }

  function CompressedBlock(kind: nat, data: seq<byte>, pos: nat, out: seq<byte>, limit: nat): (r: Res<(seq<byte>, nat)>)
    ensures r.Ok? && |out| <= limit ==> |r.value.0| <= limit
    ensures r.Ok? ==> out <= r.value.0 && pos < r.value.1 <= 8 * |data|
  {
    if kind == 0 then StoredBlock(data, pos, out, limit)
    else if kind == 1 then Block(HuffmanOf(FixedLengths()), HuffmanOf(Repeat(5, 30)), data, pos, out, limit)
    else if kind == 2 then
      var t := DynamicTables(data, pos);
      if t.Err? then Err(t.error) else Block(t.value.lit, t.value.dist, data, t.value.at, out, limit)
    else Err(BadBlockType)
  }

  /** Blocks until the one marked final: the output and the bytes consumed. */
  function Stream(data: seq<byte>, pos: nat, out: seq<byte>, limit: nat): (r: Res<(seq<byte>, nat)>)
    requires |out| <= limit
    ensures r.Ok? ==> |r.value.0| <= limit && r.value.1 <= |data|
    decreases 8 * |data| - pos
  {
    var final, kind := ReadBits(data, pos, 1), ReadBits(data, pos + 1, 2);
    if final.Err? then Err(final.error)
    else if kind.Err? then Err(kind.error)
    else
      var b := CompressedBlock(kind.value, data, pos + 3, out, limit);
      if b.Err? then Err(b.error)
      else if final.value == 1 then Ok((b.value.0, (b.value.1 + 7) / 8))
      else Stream(data, b.value.1, b.value.0, limit)
  }

  // ---- the class ------------------------------------------------------------

  class BitReader {
    const data: seq<byte>
    var pos: nat

    constructor (data: seq<byte>)
      ensures this.data == data && pos == 0
    {
      this.data, pos := data, 0;
    }

    method Bits(n: nat) returns (r: Res<nat>)
      modifies this
      ensures r == ReadBits(data, old(pos), n)
      ensures r.Ok? ==> pos == old(pos) + n
    {
      var out, i := 0, 0;
      while i < n
        invariant i <= n && pos == old(pos) + i && (i > 0 ==> pos <= 8 * |data|)
        invariant out == if i == 0 then 0 else BitsValue(data, old(pos), i)
      {
        if pos / 8 >= |data| { return Err(TruncatedInput); }
        assert BitsValue(data, old(pos), i + 1) == BitsValue(data, old(pos), i) + Bit(data, pos) * Pow2(i);
        out := out + data[pos / 8] / Pow2(pos % 8) % 2 * Pow2(i);
        pos, i := pos + 1, i + 1;
      }
      return Ok(out);
    }

    method DecodeSymbol(h: Huffman) returns (r: Res<nat>)
      requires HuffOk(h)
      modifies this
      ensures var d := Decode(h, data, old(pos));
              if d.Ok? then r == Ok(d.value.0) && pos == d.value.1 else r == Err(d.error)
    {
      hide Walk, Bit, ReadBits, BitsValue;
      var code: nat, first: nat, index: nat, len: nat := 0, 0, 0, 1;
      while len <= 15
        invariant 1 <= len <= 16 == |h.counts| && first <= code && index == Total(h.counts, len)
        invariant Walk(h, data, pos, len, code, first) == Decode(h, data, old(pos))
      {
        if pos >= 8 * |data| {
          WalkEnds(h, data, pos, len, code, first);
          return Err(TruncatedInput);
        }
        WalkStep(h, data, pos, len, code, first);
        OneBit(data, pos);
        var bit := Bits(1);
        code := code + bit.value;
        var count := h.counts[len];
        if code < first + count { return Ok(h.symbols[index + code - first]); }
        index := index + count;
        first := 2 * (first + count);
        code := 2 * code;
        len := len + 1;
      }
      WalkEnds(h, data, pos, len, code, first);
      return Err(BadSymbol);
    }

    /** `inflate_compressed`. */
    method InflateCompressed(lit: Huffman, dist: Huffman, before: seq<byte>, limit: nat) returns (r: Res<seq<byte>>)
      requires HuffOk(lit) && HuffOk(dist)
      modifies this
      ensures var b := Block(lit, dist, data, old(pos), before, limit);
              if b.Ok? then r == Ok(b.value.0) && pos == b.value.1 else r == Err(b.error)
    {
      hide Decode, ReadBits, LengthBase, LengthExtra, DistBase, DistExtra;
      var out := before;
      while true
        invariant Block(lit, dist, data, pos, out, limit) == Block(lit, dist, data, old(pos), before, limit)
        decreases 8 * |data| - pos
      {
        var s := DecodeSymbol(lit);
        if s.Err? { return Err(s.error); }
        var sym := s.value;
        if sym <= 255 {
          if |out| >= limit { return Err(TooLarge); }
          out := out + [sym as byte];
        } else if sym == 256 {
          return Ok(out);
        } else if sym <= 285 {
          var idx := sym - 257;
          var le := Bits(LengthExtra(idx));
          if le.Err? { return Err(le.error); }
          var len := LengthBase(idx) + le.value;
          var ds := DecodeSymbol(dist);
          if ds.Err? { return Err(ds.error); }
          var dsym := ds.value;
          if dsym >= 30 { return Err(BadSymbol); }
          var de := Bits(DistExtra(dsym));
          if de.Err? { return Err(de.error); }
          var d := DistBase(dsym) + de.value;
          if d > |out| { return Err(BadDistance); }
          if |out| + len > limit { return Err(TooLarge); }
          out := CopyBytes(out, d, len);
        } else {
          return Err(BadSymbol);
        }
      }
    }

    method ReadClenLengths(n: nat) returns (r: Res<seq<nat>>)
      requires n <= 19
      modifies this
      ensures r == ClenLengths(data, old(pos), 0, n, Repeat(0, 19))
      ensures r.Ok? ==> pos == old(pos) + 3 * n
    {
      hide ReadBits, ClenOrder;
      var ls: seq<nat> := Repeat(0, 19);
      for i := 0 to n
        invariant |ls| == 19 && pos == old(pos) + 3 * i
        invariant ClenLengths(data, old(pos), i, n, ls) == ClenLengths(data, old(pos), 0, n, Repeat(0, 19))
      {
        var v := Bits(3);
        if v.Err? { return Err(v.error); }
        ls := ls[ClenOrder(i) := v.value];
      }
      return Ok(ls);
    }

    /** The run-length coded lengths of both alphabets. */
    method ReadCodeLengths(clen: Huffman, n: nat) returns (r: Res<seq<nat>>)
      requires HuffOk(clen)
      modifies this
      ensures var c := CodeLengths(clen, data, old(pos), [], n);
              if c.Ok? then r == Ok(c.value.add) && pos == c.value.at else r == Err(c.error)
    {
      hide Decode, ReadBits;
      var ls: seq<nat> := [];
      while |ls| < n
        invariant |ls| <= n && CodeLengths(clen, data, pos, ls, n) == CodeLengths(clen, data, old(pos), [], n)
      {
        var d := DecodeSymbol(clen);
        if d.Err? { return Err(d.error); }
        var sym: nat := d.value;
        var add: seq<nat>;
        if sym <= 15 {
          add := [sym];
        } else if sym == 16 {
          if ls == [] { return Err(BadHuffman); }
          var k := Bits(2);
          if k.Err? { return Err(k.error); }
          add := Repeat(ls[|ls| - 1], 3 + k.value);
        } else if sym == 17 {
          var k := Bits(3);
          if k.Err? { return Err(k.error); }
          add := Repeat(0, 3 + k.value);
        } else if sym == 18 {
          var k := Bits(7);
          if k.Err? { return Err(k.error); }
          add := Repeat(0, 11 + k.value);
        } else {
          return Err(BadHuffman);
        }
        if |ls| + |add| > n { return Err(BadHuffman); }
        ls := ls + add;
      }
      return Ok(ls);
    }

    method ReadTables() returns (r: Res<Tables>)
      modifies this
      ensures r == DynamicTables(data, old(pos))
      ensures r.Ok? ==> pos == r.value.at
    {
      hide ReadBits, ClenLengths, CodeLengths, NewOf;
      var a := Bits(5);
      if a.Err? { return Err(a.error); }
      var b := Bits(5);
      if b.Err? { return Err(b.error); }
      var c := Bits(4);
      if c.Err? { return Err(c.error); }
      assert Pow2(4) == 16;
      var hlit, hdist, hclen := a.value + 257, b.value + 1, c.value + 4;
      var cl := ReadClenLengths(hclen);
      if cl.Err? { return Err(cl.error); }
      var clen := New(cl.value);
      if clen.Err? { return Err(clen.error); }
      var ls := ReadCodeLengths(clen.value, hlit + hdist);
      if ls.Err? { return Err(ls.error); }
      if ls.value[256] == 0 { return Err(BadHuffman); }
      var lit := New(ls.value[..hlit]);
      if lit.Err? { return Err(lit.error); }
      var dist := New(ls.value[hlit..]);
      if dist.Err? { return Err(dist.error); }
      return Ok(Tables(lit.value, dist.value, pos));
    }

    method ReadStored(before: seq<byte>, limit: nat) returns (r: Res<seq<byte>>)
      modifies this
      ensures var b := StoredBlock(data, old(pos), before, limit);
              if b.Ok? then r == Ok(b.value.0) && pos == b.value.1 else r == Err(b.error)
    {
      hide ReadBits;
      pos := (pos + 7) / 8 * 8;
      var len := Bits(16);
      if len.Err? { return Err(len.error); }
      var nlen := Bits(16);
      if nlen.Err? { return Err(nlen.error); }
      if len.value + nlen.value != 0xFFFF { return Err(BadStoredLength); }
      if |before| + len.value > limit { return Err(TooLarge); }
      var start := pos / 8;
      if start + len.value > |data| { return Err(TruncatedInput); }
      pos := pos + 8 * len.value;
      return Ok(before + data[start..start + len.value]);
    }
  
    /** One block of the given type. */
    method ReadBlock(kind: nat, before: seq<byte>, limit: nat) returns (r: Res<seq<byte>>)
      modifies this
      ensures var b := CompressedBlock(kind, data, old(pos), before, limit);
              if b.Ok? then r == Ok(b.value.0) && pos == b.value.1 else r == Err(b.error)
    {
      hide Block, StoredBlock, DynamicTables, HuffmanOf, FixedLengths, Repeat, NewOf;
      if kind == 0 {
        r := ReadStored(before, limit);
      } else if kind == 1 {
        FixedFits();
        var lit := New(FixedLengths());
        var dist := New(Repeat(5, 30));
        r := InflateCompressed(lit.value, dist.value, before, limit);
      } else if kind == 2 {
        var t := ReadTables();
        if t.Err? { return Err(t.error); }
        r := InflateCompressed(t.value.lit, t.value.dist, before, limit);
      } else {
        r := Err(BadBlockType);
      }
    }
  }

  method CopyBytes(before: seq<byte>, d: nat, n: nat) returns (out: seq<byte>)
    requires 1 <= d <= |before|
    ensures out == Copy(before, d, n)
  {
    out := before;
    for i := 0 to n
      invariant |out| == |before| + i && Copy(out, d, n - i) == Copy(before, d, n)
    {
      out := out + [out[|out| - d]];
    }
  }

  /** Decompresses a raw DEFLATE stream; never more than `limit` bytes come out. */
  method Inflate(data: seq<byte>, limit: nat) returns (r: Res<(seq<byte>, nat)>)
    ensures r == Stream(data, 0, [], limit)
    ensures r.Ok? ==> |r.value.0| <= limit && r.value.1 <= |data|
  {
    hide CompressedBlock, ReadBits;
    var reader := new BitReader(data);
    var out: seq<byte> := [];
    while true
      invariant reader.data == data && |out| <= limit
                && Stream(data, reader.pos, out, limit) == Stream(data, 0, [], limit)
      decreases 8 * |data| - reader.pos
    {
      var final := reader.Bits(1);
      if final.Err? { return Err(final.error); }
      var kind := reader.Bits(2);
      if kind.Err? { return Err(kind.error); }
      var b := reader.ReadBlock(kind.value, out, limit);
      if b.Err? { return Err(b.error); }
      out := b.value;
      if final.value == 1 { return Ok((out, (reader.pos + 7) / 8)); }
    }
  }

  /** The fixed codes are valid: building them cannot fail. */
  lemma {:induction false} FixedFits()
    ensures NewOf(FixedLengths()) == Ok(HuffmanOf(FixedLengths()))
            && NewOf(Repeat(5, 30)) == Ok(HuffmanOf(Repeat(5, 30)))
  {
    FixedShares();
    Powers();
    hide HuffmanOf, Kraft, Share, Pow2;
    assert LengthsOk(FixedLengths()) && LengthsOk(Repeat(5, 30));
  }

  lemma {:induction false} FixedShares()
    ensures Kraft(FixedLengths()) == 144 * Share(8) + 112 * Share(9) + 24 * Share(7) + 8 * Share(8)
    ensures Kraft(Repeat(5, 30)) == 30 * Share(5)
  {
    KraftNone();
    hide Kraft, Share, Repeat;
    var e: seq<nat> := [];
    KraftRepeat(e, 8, 144);
    KraftRepeat(e, 5, 30);
    assert e + Repeat(8, 144) == Repeat(8, 144) && e + Repeat(5, 30) == Repeat(5, 30);
    KraftRepeat(Repeat(8, 144), 9, 112);
    KraftRepeat(Repeat(8, 144) + Repeat(9, 112), 7, 24);
    KraftRepeat(Repeat(8, 144) + Repeat(9, 112) + Repeat(7, 24), 8, 8);
  }

  lemma {:induction false} KraftNone()
    ensures Kraft([]) == 0
  {
  }

  lemma {:induction false} Powers()
    ensures Share(5) == 1024 && Share(7) == 256 && Share(8) == 128 && Share(9) == 64 && Pow2(MAX_LEN) == 32768
  {
    assert Pow2(6) == 64;
    assert Pow2(7) == 128;
    assert Pow2(8) == 256;
    assert Pow2(10) == 4 * Pow2(8);
    assert Pow2(15) == 32 * Pow2(10);
  }

  lemma {:induction false} KraftRepeat(ls: seq<nat>, v: nat, n: nat)
    ensures Kraft(ls + Repeat(v, n)) == Kraft(ls) + n * Share(v)
    decreases n
  {
    if n == 0 {
      assert ls + Repeat(v, 0) == ls;
    } else {
      assert ls + Repeat(v, n) == ls + Repeat(v, n - 1) + [v];
      KraftRepeat(ls, v, n - 1);
      hide *;
      KraftPush(ls + Repeat(v, n - 1), v);
      Times(n, Share(v));
    }
  }

  lemma {:induction false} KraftPush(ls: seq<nat>, v: nat)
    ensures Kraft(ls + [v]) == Kraft(ls) + Share(v)
  {
    hide Share;
    var t := ls + [v];
    assert t[..|t| - 1] == ls;
  }

  lemma {:induction false} Times(n: nat, x: nat)
    requires n > 0
    ensures n * x == (n - 1) * x + x
  {
  }
}
