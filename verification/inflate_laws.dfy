// The tables of RFC 1951 in closed form, what `inflate` says of input that ends early, and where it
// refuses a stream.
module InflateLaws {
  import opened Utf8
  import opened Sequences
  import opened Huffmans
  import opened Inflate
  import opened InflateProofs
  import opened InflateStreams
  import opened InflateExact

  // ---- tables ---------------------------------------------------------------

  /** Section 3.2.5: the ranges of the length codes adjoin from 3 on and grow twofold every four codes;
      the last code is 258 alone. */
  lemma {:induction false} LengthTable(i: nat)
    requires i < 29
    ensures LengthExtra(i) == if i < 4 || i == 28 then 0 else i / 4 - 1
    ensures LengthBase(i) == if i < 4 then 3 + i else if i == 28 then 258 else 3 + (4 + i % 4) * Pow2(i / 4 - 1)
    ensures i < 27 ==> LengthBase(i + 1) == LengthBase(i) + Pow2(LengthExtra(i))
  {
    hide *;
    LengthBaseIs(i);
    LengthExtraIs(i);
    if i < 27 {
      LengthBaseIs(i + 1);
      One();
      if 4 <= i { NextRange(4, i % 4, i / 4 - 1); }
    }
  }

  lemma {:induction false} One()
    ensures Pow2(0) == 1
  {
  }

  /** Ranges of `m + r` times a power of two. */
  lemma {:induction false} NextRange(m: nat, r: nat, q: nat)
    requires r < m
    ensures (m + r) * Pow2(q) + Pow2(q) == if r == m - 1 then m * Pow2(q + 1) else (m + (r + 1)) * Pow2(q)
  {
  }

  lemma {:induction false} LengthExtraIs(i: nat)
    requires i < 29
    ensures LengthExtra(i) == if i < 4 || i == 28 then 0 else i / 4 - 1
  {
  }

  lemma {:induction false} DistExtraIs(i: nat)
    requires i < 30
    ensures DistExtra(i) == if i < 2 then 0 else i / 2 - 1
  {
  }

  lemma {:induction false} LengthBaseIs(i: nat)
    requires i < 29
    ensures LengthBase(i) == if i < 4 then 3 + i else if i == 28 then 258 else 3 + (4 + i % 4) * Pow2(i / 4 - 1)
  {
    SmallPowers();
    hide Pow2;
    if i < 8 {
    } else if i < 12 {
    } else if i < 16 {
    } else if i < 20 {
    } else if i < 24 {
    }
  }

  /** The ranges of the distance codes adjoin from 1 to 32768 and grow twofold every two codes. */
  lemma {:induction false} DistTable(i: nat)
    requires i < 30
    ensures DistExtra(i) == if i < 2 then 0 else i / 2 - 1
    ensures DistBase(i) == if i < 2 then 1 + i else 1 + (2 + i % 2) * Pow2(i / 2 - 1)
    ensures DistBase(i) + Pow2(DistExtra(i)) == if i < 29 then DistBase(i + 1) else 32769
  {
    hide *;
    DistBaseIs(i);
    DistExtraIs(i);
    SmallPowers();
    if i < 29 { DistBaseIs(i + 1); }
    if 2 <= i { NextRange(2, i % 2, i / 2 - 1); }
  }

  lemma {:induction false} DistBaseIs(i: nat)
    requires i < 30
    ensures DistBase(i) == if i < 2 then 1 + i else 1 + (2 + i % 2) * Pow2(i / 2 - 1)
  {
    SmallPowers();
    hide Pow2;
    if i < 6 {
    } else if i < 10 {
    } else if i < 14 {
    } else if i < 18 {
    } else if i < 22 {
    } else if i < 26 {
    }
  }

  lemma {:induction false} SmallPowers()
    ensures Pow2(0) == 1 && Pow2(1) == 2 && Pow2(2) == 4 && Pow2(3) == 8 && Pow2(4) == 16 && Pow2(5) == 32
    ensures Pow2(6) == 64 && Pow2(7) == 128 && Pow2(8) == 256 && Pow2(9) == 512 && Pow2(10) == 1024
    ensures Pow2(11) == 2048 && Pow2(12) == 4096 && Pow2(13) == 8192
  {
    assert Pow2(4) == 16;
    assert Pow2(8) == 16 * Pow2(4);
    assert Pow2(12) == 16 * Pow2(8);
  }

  /** Every length from 3 to 258 and every distance from 1 to 32768 has a code. */
  lemma {:induction false} EveryMatch(len: nat, d: nat)
    requires 3 <= len <= 258 && 1 <= d <= 32768
    ensures exists i, x :: MeansLength(i, x, len)
    ensures exists j, y :: MeansDistance(j, y, d)
  {
    LengthEnds();
    DistTable(29);
    hide *;
    var i, x := LengthCode(len, 28);
    var j, y := DistCode(d, 29);
  }

  /** Code 257 + `i` with extra bits `x` stands for `len`. */
  predicate MeansLength(i: nat, x: nat, len: nat) {
    i < 29 && x < Pow2(LengthExtra(i)) && LengthBase(i) + x == len
  }

  predicate MeansDistance(j: nat, y: nat, d: nat) {
    j < 30 && y < Pow2(DistExtra(j)) && DistBase(j) + y == d
  }

  lemma {:induction false} LengthCode(len: nat, k: nat) returns (i: nat, x: nat)
    requires k < 29 && 3 <= len && len < LengthBase(k) + Pow2(LengthExtra(k))
    ensures MeansLength(i, x, len)
  {
    LengthEnds();
    hide LengthBase, LengthExtra, Pow2;
    if LengthBase(k) <= len {
      i, x := k, len - LengthBase(k);
    } else {
      if k < 28 { LengthTable(k - 1); }
      i, x := LengthCode(len, k - 1);
    }
  }

  lemma {:induction false} LengthEnds()
    ensures LengthBase(0) == 3 && LengthBase(28) == 258 && Pow2(LengthExtra(28)) == 1
    ensures LengthBase(27) + Pow2(LengthExtra(27)) == 259
  {
    SmallPowers();
    hide Pow2;
  }

  lemma {:induction false} DistCode(d: nat, k: nat) returns (j: nat, y: nat)
    requires k < 30 && 1 <= d < DistBase(k) + Pow2(DistExtra(k))
    ensures MeansDistance(j, y, d)
  {
    assert DistBase(0) == 1;
    hide DistBase, DistExtra, Pow2;
    if DistBase(k) <= d {
      j, y := k, d - DistBase(k);
    } else {
      DistTable(k - 1);
      j, y := DistCode(d, k - 1);
    }
  }

  /** Section 3.2.7: the repeat codes, zero, then the lengths from 8 outwards. */
  lemma {:induction false} OrderIs(i: nat)
    requires i < 19
    ensures ClenOrder(i) == if i < 3 then 16 + i else if i == 3 then 0 else if i % 2 == 0 then 6 + i / 2 else 9 - i / 2
  {
  }

  /** Section 3.2.6: the fixed codes. */
  lemma {:induction false} FixedCodes(s: nat)
    requires s < 288
    ensures FixedLengths()[s] == if s < 144 then 8 else if s < 256 then 9 else if s < 280 then 7 else 8
    ensures Code(FixedLengths(), s) ==
      if s < 144 then 0x30 + s
      else if s < 256 then 0x190 + (s - 144)
      else if s < 280 then s - 256
      else 0xC0 + (s - 280)
  {
    var ls := FixedLengths();
    forall l | 1 <= l < 7
      ensures Count(ls[..288], l) == 0
    {
      CountFixed(288, l);
    }
    CountFixed(288, 7);
    CountFixed(288, 8);
    CountFixed(288, 9);
    CountFixed(s, ls[s]);
    assert ls[..288] == ls;
    FixedFirst(ls);
    hide FixedLengths, Count, First;
  }

  lemma {:induction false} CountFixed(n: nat, l: nat)
    requires n <= 288
    ensures Count(FixedLengths()[..n], l) ==
      if l == 8 then (if n < 144 then n else if n < 280 then 144 else n - 136)
      else if l == 9 then (if n < 144 then 0 else if n < 256 then n - 144 else 112)
      else if l == 7 then (if n < 256 then 0 else if n < 280 then n - 256 else 24)
      else 0
    decreases n
  {
    if n > 0 {
      CountFixed(n - 1, l);
      var s := FixedLengths()[..n];
      assert s[..n - 1] == FixedLengths()[..n - 1] && s[n - 1] == FixedLengths()[n - 1];
    }
  }

  lemma {:induction false} FixedFirst(ls: seq<nat>)
    requires forall l | 1 <= l < 7 :: Count(ls, l) == 0
    requires Count(ls, 7) == 24 && Count(ls, 8) == 152
    ensures First(ls, 7) == 0 && First(ls, 8) == 0x30 && First(ls, 9) == 0x190
  {
    hide Count;
    assert First(ls, 2) == 0;
    assert First(ls, 3) == 0;
    assert First(ls, 4) == 0;
    assert First(ls, 5) == 0;
    assert First(ls, 6) == 0;
  }

  /** Distance codes of fixed blocks are their own five bits. */
  lemma {:induction false} FixedDistances(d: nat)
    requires d < 30
    ensures Repeat(5, 30)[d] == 5 && Code(Repeat(5, 30), d) == d
  {
    var ls := Repeat(5, 30);
    CountFives(d);
    NoneShorter(ls, 1);
    NoneShorter(ls, 2);
    NoneShorter(ls, 3);
    NoneShorter(ls, 4);
    hide Count, Repeat;
    assert First(ls, 3) == 0;
  }

  lemma {:induction false} CountFives(n: nat)
    requires n <= 30
    ensures Count(Repeat(5, 30)[..n], 5) == n
  {
    if n > 0 {
      CountFives(n - 1);
      assert Repeat(5, 30)[..n][..n - 1] == Repeat(5, 30)[..n - 1];
    }
  }

  lemma {:induction false} NoneShorter(ls: seq<nat>, l: nat)
    requires forall i | 0 <= i < |ls| :: ls[i] != l
    ensures Count(ls, l) == 0
    decreases |ls|
  {
    if ls != [] { NoneShorter(ls[..|ls| - 1], l); }
  }

  // ---- input that ends early ------------------------------------------------

  predicate Alike<T(==)>(part: Res<T>, whole: Res<T>) {
    part == whole || part == Err(TruncatedInput)
  }

  lemma {:induction false} BitAlike(data: seq<byte>, more: seq<byte>, pos: nat)
    requires pos < 8 * |data|
    ensures Bit(data + more, pos) == Bit(data, pos)
  {
    assert (data + more)[pos / 8] == data[pos / 8];
  }

  lemma {:induction false} ValueAlike(data: seq<byte>, more: seq<byte>, pos: nat, n: nat)
    requires pos + n <= 8 * |data|
    ensures BitsValue(data + more, pos, n) == BitsValue(data, pos, n)
    decreases n
  {
    hide Bit;
    if n > 0 {
      BitAlike(data, more, pos + n - 1);
      ValueAlike(data, more, pos, n - 1);
    }
  }

  lemma {:induction false} ReadAlike(data: seq<byte>, more: seq<byte>, pos: nat, n: nat)
    ensures Alike(ReadBits(data, pos, n), ReadBits(data + more, pos, n))
  {
    hide BitsValue;
    if pos + n <= 8 * |data| { ValueAlike(data, more, pos, n); }
  }

  lemma {:induction false} WalkAlike(h: Huffman, data: seq<byte>, more: seq<byte>, pos: nat, len: nat, code: nat,
      first: nat)
    requires HuffOk(h) && 1 <= len <= 16 && first <= code
    ensures Alike(Walk(h, data, pos, len, code, first), Walk(h, data + more, pos, len, code, first))
    decreases 16 - len
  {
    hide *;
    if len == 16 || pos >= 8 * |data| {
      WalkEnds(h, data, pos, len, code, first);
      if len == 16 { WalkEnds(h, data + more, pos, len, code, first); }
      AlikeMeans(Walk(h, data, pos, len, code, first), Walk(h, data + more, pos, len, code, first));
    } else {
      WalkEnds(h, data, pos, 16, code, first);
      BitAlike(data, more, pos);
      WalkStep(h, data, pos, len, code, first);
      WalkStep(h, data + more, pos, len, code, first);
      var c, count := code + Bit(data, pos), h.counts[len];
      if c >= first + count { WalkAlike(h, data, more, pos + 1, len + 1, 2 * c, 2 * (first + count)); }
      AlikeMeans(Walk(h, data, pos, len, code, first), Walk(h, data + more, pos, len, code, first));
    }
  }

  lemma {:induction false} AlikeMeans<T>(part: Res<T>, whole: Res<T>)
    ensures Alike(part, whole) <==> part == whole || part == Err(TruncatedInput)
  {
  }

  lemma {:induction false} DecodeAlike(h: Huffman, data: seq<byte>, more: seq<byte>, pos: nat)
    requires HuffOk(h)
    ensures Alike(Decode(h, data, pos), Decode(h, data + more, pos))
  {
    hide Walk, HuffOk, Alike;
    WalkAlike(h, data, more, pos, 1, 0, 0);
  }

  lemma {:induction false} MatchAlike(sym: nat, dist: Huffman, data: seq<byte>, more: seq<byte>, pos: nat)
    requires HuffOk(dist) && 257 <= sym <= 285
    ensures Alike(ReadMatch(sym, dist, data, pos), ReadMatch(sym, dist, data + more, pos))
  {
    hide LengthBase, LengthExtra, DistBase, DistExtra, Decode, ReadBits, HuffOk;
    var at := pos + LengthExtra(sym - 257);
    ReadAlike(data, more, pos, LengthExtra(sym - 257));
    DecodeAlike(dist, data, more, at);
    var ds := Decode(dist, data, at);
    if ds.Ok? && ds.value.0 < 30 { ReadAlike(data, more, ds.value.1, DistExtra(ds.value.0)); }
  }

  lemma {:induction false} BlockAlike(lit: Huffman, dist: Huffman, data: seq<byte>, more: seq<byte>, pos: nat,
      out: seq<byte>, limit: nat)
    requires HuffOk(lit) && HuffOk(dist)
    ensures Alike(Block(lit, dist, data, pos, out, limit), Block(lit, dist, data + more, pos, out, limit))
    decreases 8 * |data| - pos
  {
    hide Decode, ReadMatch, HuffOk, Copy;
    DecodeAlike(lit, data, more, pos);
    var s := Decode(lit, data, pos);
    if s.Ok? {
      var sym, at := s.value.0, s.value.1;
      if sym <= 255 {
        if |out| < limit { BlockAlike(lit, dist, data, more, at, out + [sym as byte], limit); }
      } else if 256 < sym <= 285 {
        MatchAlike(sym, dist, data, more, at);
        var m := ReadMatch(sym, dist, data, at);
        if m.Ok? && m.value.2 <= |out| && |out| + m.value.1 <= limit {
          BlockAlike(lit, dist, data, more, m.value.0, Copy(out, m.value.2, m.value.1), limit);
        }
      }
    }
  }

  lemma {:induction false} ClensAlike(data: seq<byte>, more: seq<byte>, pos: nat, i: nat, n: nat, ls: seq<nat>)
    requires i <= n <= 19 && |ls| == 19
    ensures Alike(ClenLengths(data, pos, i, n, ls), ClenLengths(data + more, pos, i, n, ls))
    decreases n - i
  {
    hide ReadBits, ClenOrder;
    if i < n {
      ReadAlike(data, more, pos + 3 * i, 3);
      var v := ReadBits(data, pos + 3 * i, 3);
      if v.Ok? { ClensAlike(data, more, pos, i + 1, n, ls[ClenOrder(i) := v.value]); }
    }
  }

  lemma {:induction false} OpAlike(clen: Huffman, data: seq<byte>, more: seq<byte>, pos: nat, ls: seq<nat>)
    requires HuffOk(clen)
    ensures Alike(ClenStep(clen, data, pos, ls), ClenStep(clen, data + more, pos, ls))
  {
    hide ReadBits, Decode, HuffOk, Repeat;
    DecodeAlike(clen, data, more, pos);
    var d := Decode(clen, data, pos);
    if d.Ok? { ReadAlike(data, more, d.value.1, if d.value.0 == 16 then 2 else if d.value.0 == 17 then 3 else 7); }
  }

  lemma {:induction false} OpsAlike(clen: Huffman, data: seq<byte>, more: seq<byte>, pos: nat, ls: seq<nat>, n: nat)
    requires HuffOk(clen) && |ls| <= n
    ensures Alike(CodeLengths(clen, data, pos, ls, n), CodeLengths(clen, data + more, pos, ls, n))
    decreases n - |ls|
  {
    hide ClenStep, HuffOk;
    if |ls| < n {
      OpAlike(clen, data, more, pos, ls);
      var s := ClenStep(clen, data, pos, ls);
      if s.Ok? && |ls| + |s.value.add| <= n { OpsAlike(clen, data, more, s.value.at, ls + s.value.add, n); }
    }
  }

  lemma {:induction false} SizesAlike(data: seq<byte>, more: seq<byte>, pos: nat)
    ensures Alike(ReadBits(data, pos, 5), ReadBits(data + more, pos, 5))
    ensures Alike(ReadBits(data, pos + 5, 5), ReadBits(data + more, pos + 5, 5))
    ensures Alike(ReadBits(data, pos + 10, 4), ReadBits(data + more, pos + 10, 4))
    ensures ReadBits(data, pos + 10, 4).Ok? ==> ReadBits(data, pos + 10, 4).value < 16
  {
    hide *;
    ReadAlike(data, more, pos, 5);
    ReadAlike(data, more, pos + 5, 5);
    ReadAlike(data, more, pos + 10, 4);
    Sixteen();
  }

  lemma {:induction false} Sixteen()
    ensures Pow2(4) == 16
  {
  }

  lemma {:induction false} HeaderAlike(data: seq<byte>, more: seq<byte>, pos: nat)
    ensures Alike(DynamicTables(data, pos), DynamicTables(data + more, pos))
  {
    SizesAlike(data, more, pos);
    hide ReadBits, ClenLengths, NewOf, CodeLengths, TablesOf, Repeat, HuffOk, Pow2;
    var a, b, c := ReadBits(data, pos, 5), ReadBits(data, pos + 5, 5), ReadBits(data, pos + 10, 4);
    if a.Ok? && b.Ok? && c.Ok? {
      var hclen := c.value + 4;
      assert |Repeat(0, 19)| == 19;
      ClensAlike(data, more, pos + 14, 0, hclen, Repeat(0, 19));
      var cl := ClenLengths(data, pos + 14, 0, hclen, Repeat(0, 19));
      if cl.Ok? && NewOf(cl.value).Ok? {
        OpsAlike(NewOf(cl.value).value, data, more, pos + 14 + 3 * hclen, [], a.value + 257 + (b.value + 1));
      }
    }
  }

  lemma {:induction false} StoredAlike(data: seq<byte>, more: seq<byte>, pos: nat, out: seq<byte>, limit: nat)
    ensures Alike(StoredBlock(data, pos, out, limit), StoredBlock(data + more, pos, out, limit))
  {
    hide ReadBits;
    var p := Align(pos);
    ReadAlike(data, more, p, 16);
    ReadAlike(data, more, p + 16, 16);
    var len := ReadBits(data, p, 16);
    if len.Ok? {
      var start := (p + 32) / 8;
      if start + len.value <= |data| {
        assert (data + more)[start..start + len.value] == data[start..start + len.value];
      }
    }
  }

  lemma {:induction false} SpecAlike(kind: nat, data: seq<byte>, more: seq<byte>, pos: nat, out: seq<byte>, limit: nat)
    ensures Alike(CompressedBlock(kind, data, pos, out, limit), CompressedBlock(kind, data + more, pos, out, limit))
  {
    hide StoredBlock, Block, DynamicTables, HuffmanOf, HuffOk, FixedLengths, Repeat;
    StoredAlike(data, more, pos, out, limit);
    BlockAlike(HuffmanOf(FixedLengths()), HuffmanOf(Repeat(5, 30)), data, more, pos, out, limit);
    HeaderAlike(data, more, pos);
    var t := DynamicTables(data, pos);
    if t.Ok? { BlockAlike(t.value.lit, t.value.dist, data, more, t.value.at, out, limit); }
  }

  lemma {:induction false} StreamAlike(data: seq<byte>, more: seq<byte>, pos: nat, out: seq<byte>, limit: nat)
    requires |out| <= limit
    ensures Alike(Stream(data, pos, out, limit), Stream(data + more, pos, out, limit))
    decreases 8 * |data| - pos
  {
    hide ReadBits, CompressedBlock;
    ReadAlike(data, more, pos, 1);
    ReadAlike(data, more, pos + 1, 2);
    var kind := ReadBits(data, pos + 1, 2);
    if ReadBits(data, pos, 1).Ok? && kind.Ok? {
      SpecAlike(kind.value, data, more, pos + 3, out, limit);
      var b := CompressedBlock(kind.value, data, pos + 3, out, limit);
      if b.Ok? { StreamAlike(data, more, b.value.1, b.value.0, limit); }
    }
  }

  /** Any answer but "the input ends early" stands whatever bytes follow. */
  lemma {:induction false} Decided(data: seq<byte>, more: seq<byte>, limit: nat)
    requires Stream(data, 0, [], limit) != Err(TruncatedInput)
    ensures Stream(data + more, 0, [], limit) == Stream(data, 0, [], limit)
  {
    hide Stream;
    StreamAlike(data, more, 0, [], limit);
  }

  /** A stream cut anywhere before its end is reported as ending early, and nothing past its end matters. */
  lemma {:induction false} EndsEarly(data: seq<byte>, limit: nat, k: nat)
    requires Stream(data, 0, [], limit).Ok? && k <= |data|
    ensures Stream(data[..k], 0, [], limit) ==
      if k < Stream(data, 0, [], limit).value.1 then Err(TruncatedInput) else Stream(data, 0, [], limit)
  {
    hide StreamOk, StreamBits, StreamOutput, StreamAt, Stream;
    assert data[..k] + data[k..] == data;
    StreamAlike(data[..k], data[k..], 0, [], limit);
    var bs := StreamBack(data, 0, [], limit);
    StreamInflates(bs, data, 0, [], limit);
    var bits := StreamBits(bs, 0, [], limit);
    if (|bits| + 7) / 8 <= k {
      Shorter(data, k, bits);
      StreamInflates(bs, data[..k], 0, [], limit);
    }
  }

  lemma {:induction false} Shorter(data: seq<byte>, k: nat, bits: seq<nat>)
    requires StreamAt(data, 0, bits) && |bits| <= 8 * k <= 8 * |data|
    ensures StreamAt(data[..k], 0, bits)
  {
    hide Bit;
    assert data[..k] + data[k..] == data;
    forall i | 0 <= i < |bits|
      ensures Bit(data[..k], 0 + i) == bits[i]
    {
      BitAlike(data[..k], data[k..], i);
      assert Bit(data, 0 + i) == bits[i];
    }
  }

  // ---- refusals -------------------------------------------------------------

  /** Tokens of a block that goes on. */
  function TokensBits(lits: seq<nat>, dists: seq<nat>, ts: seq<Token>): seq<nat>
    requires forall t <- ts :: TokenOk(lits, dists, t)
    decreases |ts|
  {
    if ts == [] then [] else TokenBits(lits, dists, ts[0]) + TokensBits(lits, dists, ts[1..])
  }

  lemma {:induction false} BlockRuns(lit: Huffman, dist: Huffman, lits: seq<nat>, dists: seq<nat>, data: seq<byte>,
      pos: nat, out: seq<byte>, ts: seq<Token>, limit: nat)
    requires Accepted(lit, lits) && Accepted(dist, dists) && forall t <- ts :: TokenOk(lits, dists, t)
    requires StreamAt(data, pos, TokensBits(lits, dists, ts)) && Expandable(out, ts, limit)
    ensures HuffOk(lit) && HuffOk(dist)
    ensures Block(lit, dist, data, pos, out, limit) ==
            Block(lit, dist, data, pos + |TokensBits(lits, dists, ts)|, Expand(out, ts, limit), limit)
    decreases |ts|
  {
    hide *;
    TablesOk(lit, lits);
    TablesOk(dist, dists);
    ExpandIs(out, ts, limit);
    TokensBitsIs(lits, dists, ts);
    if ts != [] {
      var head, rest := TokenBits(lits, dists, ts[0]), TokensBits(lits, dists, ts[1..]);
      StreamSplit(data, pos, head, rest);
      TokenExpands(lit, dist, lits, dists, data, pos, out, ts[0], limit);
      BlockRuns(lit, dist, lits, dists, data, pos + |head|, Apply(out, ts[0]), ts[1..], limit);
    }
  }

  lemma {:induction false} TokensBitsIs(lits: seq<nat>, dists: seq<nat>, ts: seq<Token>)
    requires forall t <- ts :: TokenOk(lits, dists, t)
    ensures TokensBits(lits, dists, ts) ==
            if ts == [] then [] else TokenBits(lits, dists, ts[0]) + TokensBits(lits, dists, ts[1..])
  {
  }

  /** After any valid tokens a block is refused: at a literal or length code that has no meaning, at a match
      that reaches before the start, and at a token whose output passes the limit. */
  lemma {:induction false} BlockRefuses(lit: Huffman, dist: Huffman, lits: seq<nat>, dists: seq<nat>, data: seq<byte>,
      pos: nat, out: seq<byte>, ts: seq<Token>, limit: nat, t: Token, s: nat)
    requires Accepted(lit, lits) && Accepted(dist, dists) && HuffOk(lit) && HuffOk(dist)
    requires (forall t <- ts :: TokenOk(lits, dists, t)) && StreamAt(data, pos, TokensBits(lits, dists, ts))
    requires Expandable(out, ts, limit)
    ensures var at, o := pos + |TokensBits(lits, dists, ts)|, Expand(out, ts, limit);
      var r := Block(lit, dist, data, pos, out, limit);
      && (Codable(lits, s) && s > 285 && StreamAt(data, at, SymbolBits(lits, s)) ==> r == Err(BadSymbol))
      && (TokenOk(lits, dists, t) && StreamAt(data, at, TokenBits(lits, dists, t)) ==>
            && (t.Match? && |o| < DistBase(t.dist) + t.distExtra ==> r == Err(BadDistance))
            && (Reaches(o, t) && |Apply(o, t)| > limit ==> r == Err(TooLarge)))
  {
    hide *;
    BlockRuns(lit, dist, lits, dists, data, pos, out, ts, limit);
    var at, o := pos + |TokensBits(lits, dists, ts)|, Expand(out, ts, limit);
    if Codable(lits, s) && s > 285 { CodeRefused(lit, dist, lits, data, at, o, s, limit); }
    if TokenOk(lits, dists, t) { TokenRefused(lit, dist, lits, dists, data, at, o, t, limit); }
  }

  lemma {:induction false} CodeRefused(lit: Huffman, dist: Huffman, lits: seq<nat>, data: seq<byte>, pos: nat,
      out: seq<byte>, s: nat, limit: nat)
    requires Accepted(lit, lits) && HuffOk(lit) && HuffOk(dist) && Codable(lits, s) && s > 285
    ensures StreamAt(data, pos, SymbolBits(lits, s)) ==> Block(lit, dist, data, pos, out, limit) == Err(BadSymbol)
  {
    hide Decode, StreamAt, Table, LengthsOk, OverSubscribed, CodeBits, Code;
    if StreamAt(data, pos, SymbolBits(lits, s)) { DecodesCode(lit, lits, data, pos, s); }
  }

  lemma {:induction false} TokenRefused(lit: Huffman, dist: Huffman, lits: seq<nat>, dists: seq<nat>, data: seq<byte>,
      pos: nat, out: seq<byte>, t: Token, limit: nat)
    requires Accepted(lit, lits) && Accepted(dist, dists) && HuffOk(lit) && HuffOk(dist) && TokenOk(lits, dists, t)
    ensures StreamAt(data, pos, TokenBits(lits, dists, t)) ==>
              && (t.Match? && |out| < DistBase(t.dist) + t.distExtra ==>
                    Block(lit, dist, data, pos, out, limit) == Err(BadDistance))
              && (Reaches(out, t) && |Apply(out, t)| > limit ==>
                    Block(lit, dist, data, pos, out, limit) == Err(TooLarge))
  {
    hide Decode, ReadBits, StreamAt, NumberBits, CodeBits, Code, Table, LengthsOk, OverSubscribed, ReadMatch, HuffOk,
         LengthBase, LengthExtra, DistBase, DistExtra, Copy;
    if StreamAt(data, pos, TokenBits(lits, dists, t)) {
      if t.Literal? {
        DecodesCode(lit, lits, data, pos, t.b);
      } else {
        var sym := SymbolBits(lits, t.len);
        var more := NumberBits(t.lenExtra, LengthExtra(t.len - 257))
          + (SymbolBits(dists, t.dist) + NumberBits(t.distExtra, DistExtra(t.dist)));
        StreamSplit(data, pos, sym, more);
        DecodesCode(lit, lits, data, pos, t.len);
        ReadsMatch(dist, dists, data, pos + |sym|, lits, t);
      }
    }
  }

  /** A distance code of 30 or more has no meaning either. */
  lemma {:induction false} DistanceRefused(lit: Huffman, dist: Huffman, lits: seq<nat>, dists: seq<nat>,
      data: seq<byte>, pos: nat, out: seq<byte>, len: nat, x: nat, d: nat, limit: nat)
    requires Accepted(lit, lits) && Accepted(dist, dists) && HuffOk(lit) && HuffOk(dist)
    requires 257 <= len <= 285 && Codable(lits, len) && Codable(dists, d) && d >= 30
    requires x < Pow2(LengthExtra(len - 257))
    requires StreamAt(data, pos,
               SymbolBits(lits, len) + (NumberBits(x, LengthExtra(len - 257)) + SymbolBits(dists, d)))
    ensures Block(lit, dist, data, pos, out, limit) == Err(BadSymbol)
  {
    hide Decode, ReadBits, StreamAt, NumberBits, CodeBits, Code, Table, LengthsOk, OverSubscribed, HuffOk,
         LengthBase, LengthExtra, DistBase, DistExtra, Copy;
    var sym, extra := SymbolBits(lits, len), NumberBits(x, LengthExtra(len - 257));
    StreamSplit(data, pos, sym, extra + SymbolBits(dists, d));
    StreamSplit(data, pos + |sym|, extra, SymbolBits(dists, d));
    DecodesCode(lit, lits, data, pos, len);
    ReadsNumber(data, pos + |sym|, x, LengthExtra(len - 257));
    DecodesCode(dist, dists, data, pos + |sym| + |extra|, d);
  }

  /** Blocks before the last one. */
  ghost predicate BlocksOk(bs: seq<BlockSpec>, out: seq<byte>, limit: nat)
    decreases |bs|
  {
    bs == [] || (SpecOk(bs[0], out, limit) && BlocksOk(bs[1..], Output(bs[0], out, limit), limit))
  }

  ghost function BlocksBits(bs: seq<BlockSpec>, pos: nat, out: seq<byte>, limit: nat): seq<nat>
    requires BlocksOk(bs, out, limit)
    decreases |bs|
  {
    if bs == [] then []
    else
      var block := Intro(false, bs[0]) + SpecBits(bs[0], pos + 3, out, limit);
      block + BlocksBits(bs[1..], pos + |block|, Output(bs[0], out, limit), limit)
  }

  ghost function BlocksOutput(bs: seq<BlockSpec>, out: seq<byte>, limit: nat): seq<byte>
    requires BlocksOk(bs, out, limit)
    decreases |bs|
  {
    if bs == [] then out else BlocksOutput(bs[1..], Output(bs[0], out, limit), limit)
  }

  lemma {:induction false} StreamRuns(bs: seq<BlockSpec>, data: seq<byte>, pos: nat, out: seq<byte>, limit: nat)
    requires BlocksOk(bs, out, limit) && |out| <= limit && StreamAt(data, pos, BlocksBits(bs, pos, out, limit))
    ensures |BlocksOutput(bs, out, limit)| <= limit
    ensures Stream(data, pos, out, limit) ==
            Stream(data, pos + |BlocksBits(bs, pos, out, limit)|, BlocksOutput(bs, out, limit), limit)
    decreases |bs|
  {
    hide SpecOk, Output, SpecBits, StreamAt, CompressedBlock, ReadBits, NumberBits, Kind, Stream;
    if bs != [] {
      var b := bs[0];
      var intro, bits := Intro(false, b), SpecBits(b, pos + 3, out, limit);
      var next := Output(b, out, limit);
      WithinLimit(b, out, limit);
      StreamSplit(data, pos, intro + bits, BlocksBits(bs[1..], pos + 3 + |bits|, next, limit));
      StreamSplit(data, pos, intro, bits);
      ReadsIntro(data, pos, false, b);
      ReadsSpec(b, data, pos + 3, out, limit);
      StreamStep(data, pos, false, b, out, next, pos + 3 + |bits|, limit);
      StreamRuns(bs[1..], data, pos + 3 + |bits|, next, limit);
    }
  }

  /** After any blocks a stream is refused: at type 3, at a stored block whose length and complement do not
      match, at one whose bytes pass the limit, and where a fixed block is. */
  lemma {:induction false} StreamRefuses(bs: seq<BlockSpec>, data: seq<byte>, pos: nat, out: seq<byte>, limit: nat,
      last: nat, kind: nat, len: nat, nlen: nat)
    requires BlocksOk(bs, out, limit) && |out| <= limit && StreamAt(data, pos, BlocksBits(bs, pos, out, limit))
    requires last < 2 && kind < 4 && len <= 0xFFFF && nlen <= 0xFFFF
    requires StreamAt(data, pos + |BlocksBits(bs, pos, out, limit)|, NumberBits(last, 1) + NumberBits(kind, 2))
    ensures var at, o := pos + |BlocksBits(bs, pos, out, limit)|, BlocksOutput(bs, out, limit);
      var r := Stream(data, pos, out, limit);
      && (kind == 3 ==> r == Err(BadBlockType))
      && (kind == 0 && StreamAt(data, Align(at + 3), NumberBits(len, 16) + NumberBits(nlen, 16)) ==>
            && (len + nlen != 0xFFFF ==> r == Err(BadStoredLength))
            && (len + nlen == 0xFFFF && |o| + len > limit ==> r == Err(TooLarge)))
      && (kind == 1 ==> FixedBlock(data, at + 3, o, limit).Err? ==> r == Err(FixedBlock(data, at + 3, o, limit).error))
  {
    hide *;
    StreamRuns(bs, data, pos, out, limit);
    var at, o := pos + |BlocksBits(bs, pos, out, limit)|, BlocksOutput(bs, out, limit);
    ReadsKind(data, at, last, kind);
    if kind == 0 && StreamAt(data, Align(at + 3), NumberBits(len, 16) + NumberBits(nlen, 16)) {
      ReadsLengths(data, Align(at + 3), len, nlen);
      LengthsRefused(data, at + 3, o, limit, len, nlen);
    }
    FixedIs(data, at + 3, o, limit);
    KindRefused(data, at, o, limit, last, kind);
  }

  function FixedBlock(data: seq<byte>, pos: nat, out: seq<byte>, limit: nat): Res<(seq<byte>, nat)> {
    Block(HuffmanOf(FixedLengths()), HuffmanOf(Repeat(5, 30)), data, pos, out, limit)
  }

  lemma {:induction false} FixedIs(data: seq<byte>, pos: nat, out: seq<byte>, limit: nat)
    ensures CompressedBlock(1, data, pos, out, limit) == FixedBlock(data, pos, out, limit)
    ensures CompressedBlock(3, data, pos, out, limit) == Err(BadBlockType)
    ensures CompressedBlock(0, data, pos, out, limit) == StoredBlock(data, pos, out, limit)
  {
    hide Block, StoredBlock, HuffmanOf, FixedLengths, Repeat;
  }

  lemma {:induction false} ReadsKind(data: seq<byte>, pos: nat, last: nat, kind: nat)
    requires last < 2 && kind < 4 && StreamAt(data, pos, NumberBits(last, 1) + NumberBits(kind, 2))
    ensures ReadBits(data, pos, 1) == Ok(last) && ReadBits(data, pos + 1, 2) == Ok(kind)
  {
    SmallPowers();
    hide StreamAt, NumberBits, ReadBits, Pow2;
    StreamSplit(data, pos, NumberBits(last, 1), NumberBits(kind, 2));
    ReadsNumber(data, pos, last, 1);
    ReadsNumber(data, pos + 1, kind, 2);
  }

  lemma {:induction false} ReadsLengths(data: seq<byte>, p: nat, len: nat, nlen: nat)
    requires len <= 0xFFFF && nlen <= 0xFFFF && StreamAt(data, p, NumberBits(len, 16) + NumberBits(nlen, 16))
    ensures ReadBits(data, p, 16) == Ok(len) && ReadBits(data, p + 16, 16) == Ok(nlen)
  {
    Pow16();
    hide StreamAt, NumberBits, ReadBits, Pow2;
    StreamSplit(data, p, NumberBits(len, 16), NumberBits(nlen, 16));
    ReadsNumber(data, p, len, 16);
    ReadsNumber(data, p + 16, nlen, 16);
  }

  lemma {:induction false} LengthsRefused(data: seq<byte>, pos: nat, out: seq<byte>, limit: nat, len: nat, nlen: nat)
    requires ReadBits(data, Align(pos), 16) == Ok(len) && ReadBits(data, Align(pos) + 16, 16) == Ok(nlen)
    ensures len + nlen != 0xFFFF ==> StoredBlock(data, pos, out, limit) == Err(BadStoredLength)
    ensures len + nlen == 0xFFFF && |out| + len > limit ==> StoredBlock(data, pos, out, limit) == Err(TooLarge)
  {
    hide ReadBits, Align;
  }

  lemma {:induction false} KindRefused(data: seq<byte>, pos: nat, out: seq<byte>, limit: nat, last: nat, kind: nat)
    requires |out| <= limit && ReadBits(data, pos, 1) == Ok(last) && ReadBits(data, pos + 1, 2) == Ok(kind)
    ensures var b := CompressedBlock(kind, data, pos + 3, out, limit);
            b.Err? ==> Stream(data, pos, out, limit) == Err(b.error)
  {
    hide ReadBits, CompressedBlock;
  }
}
