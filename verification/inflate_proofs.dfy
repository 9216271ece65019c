// Decompression against compression: bits written as RFC 1951 prescribes are read back, canonical
// codes decode to their symbols, and a compressed block yields the LZ77 expansion of its tokens.
module InflateProofs {
  import opened Utf8
  import opened Sequences
  import opened Huffmans
  import opened Inflate

  // ---- bits in a stream -----------------------------------------------------

  /** The bits from `pos` on begin with `bits`. */
  ghost predicate StreamAt(data: seq<byte>, pos: nat, bits: seq<nat>) {
    pos + |bits| <= 8 * |data| && forall i | 0 <= i < |bits| :: Bit(data, pos + i) == bits[i]
  }

  lemma {:induction false} StreamSplit(data: seq<byte>, pos: nat, a: seq<nat>, b: seq<nat>)
    requires StreamAt(data, pos, a + b)
    ensures StreamAt(data, pos, a) && StreamAt(data, pos + |a|, b)
  {
    hide Bit;
    forall i | 0 <= i < |a|
      ensures Bit(data, pos + i) == a[i]
    {
      assert (a + b)[i] == a[i];
    }
    forall i | 0 <= i < |b|
      ensures Bit(data, pos + |a| + i) == b[i]
    {
      assert (a + b)[|a| + i] == b[i];
      assert pos + |a| + i == pos + (|a| + i);
    }
  }

  /** Numbers other than codes are packed starting with their least significant bit. */
  function NumberBits(v: nat, n: nat): (s: seq<nat>)
    ensures |s| == n
  {
    if n == 0 then [] else NumberBits(v, n - 1) + [v / Pow2(n - 1) % 2]
  }

  lemma {:induction false} ModStep(v: nat, p: nat)
    requires p > 0
    ensures v % (2 * p) == v % p + v / p % 2 * p
  {
    var q, r := v / p, v % p;
    var a, b := q / 2, q % 2;
    assert v == p * q + r && q == 2 * a + b;
    assert p * q == 2 * p * a + p * b by { Expands(p, a, b); }
    Remainder(v, 2 * p, a, p * b + r);
  }

  lemma {:induction false} Expands(p: nat, a: nat, b: nat)
    ensures p * (2 * a + b) == 2 * p * a + p * b
  {
  }

  lemma {:induction false} Remainder(v: nat, m: nat, q: nat, r: nat)
    requires m > 0 && v == m * q + r && r < m
    ensures v % m == r
  {
    var q2, r2 := v / m, v % m;
    assert v == m * q2 + r2;
    if q < q2 { Apart(m, q, q2); } else if q2 < q { Apart(m, q2, q); }
  }

  lemma {:induction false} Apart(m: nat, a: nat, b: nat)
    requires a < b
    ensures m * b >= m * a + m
    decreases b
  {
    assert m * b == m * (b - 1) + m;
    if a + 1 < b { Apart(m, a, b - 1); }
  }

  lemma {:induction false} ReadsNumber(data: seq<byte>, pos: nat, v: nat, n: nat)
    requires v < Pow2(n) && StreamAt(data, pos, NumberBits(v, n))
    ensures ReadBits(data, pos, n) == Ok(v)
  {
    if n > 0 {
      ValueReads(data, pos, v, n);
      Remainder(v, Pow2(n), 0, v);
    }
  }

  lemma {:induction false} FirstBit(data: seq<byte>, pos: nat, b: nat)
    requires StreamAt(data, pos, [b])
    ensures pos < 8 * |data| && Bit(data, pos) == b
  {
    hide Bit;
    assert Bit(data, pos + 0) == [b][0];
  }

  lemma {:induction false} ValueReads(data: seq<byte>, pos: nat, v: nat, n: nat)
    requires StreamAt(data, pos, NumberBits(v, n))
    ensures BitsValue(data, pos, n) == v % Pow2(n)
    decreases n
  {
    if n > 0 {
      var top := v / Pow2(n - 1) % 2;
      StreamSplit(data, pos, NumberBits(v, n - 1), [top]);
      ValueReads(data, pos, v, n - 1);
      FirstBit(data, pos + (n - 1), top);
      ModStep(v, Pow2(n - 1));
    }
  }

  // ---- canonical codes ------------------------------------------------------

  /** The first `k` of the `n` bits of code `c`, as a number. */
  function Prefix(c: nat, n: nat, k: nat): nat
    requires k <= n
    decreases n - k
  {
    if k == n then c else Prefix(c, n, k + 1) / 2
  }

  /** Codes are packed starting with their most significant bit. */
  function CodeBits(c: nat, n: nat): (s: seq<nat>)
    ensures |s| == n
  {
    seq(n, i requires 0 <= i < n => Prefix(c, n, i + 1) % 2)
  }

  lemma {:induction false} PrefixBelow(c: nat, n: nat, k: nat)
    requires k <= n && c < Pow2(n)
    ensures Prefix(c, n, k) < Pow2(k)
    decreases n - k
  {
    if k < n { PrefixBelow(c, n, k + 1); }
  }

  /** Codes of a table that is not over-subscribed fit their lengths. */
  lemma {:induction false} CodeFits(ls: seq<nat>, s: nat)
    requires s < |ls| && 0 < ls[s] && LengthsOk(ls) && !OverSubscribed(ls)
    ensures Code(ls, s) < Pow2(ls[s])
  {
    RankBelow(ls, s);
    LeftIs(ls, ls[s]);
    if Left(ls, ls[s]) < 0 { LeftDecides(ls, ls[s]); }
  }

  /** Longer codes lie above all shorter ones. */
  lemma {:induction false} PrefixAbove(ls: seq<nat>, c: nat, n: nat, k: nat)
    requires 1 <= k <= n && c >= First(ls, n)
    ensures Prefix(c, n, k) >= First(ls, k)
    ensures k < n ==> Prefix(c, n, k) >= First(ls, k) + Count(ls, k)
    decreases n - k
  {
    if k < n { PrefixAbove(ls, c, n, k + 1); }
  }

  /** Walking the bits of a symbol's code stops at that symbol, not earlier. */
  lemma {:induction false} WalkFinds(h: Huffman, ls: seq<nat>, data: seq<byte>, pos: nat, s: nat, k: nat)
    requires s < |ls| && LengthsOk(ls) && !OverSubscribed(ls) && h == HuffmanOf(ls) && 1 <= k <= ls[s]
    requires StreamAt(data, pos, CodeBits(Code(ls, s), ls[s]))
    requires First(ls, k) <= 2 * Prefix(Code(ls, s), ls[s], k - 1)
    ensures Walk(h, data, pos + k - 1, k, 2 * Prefix(Code(ls, s), ls[s], k - 1), First(ls, k)) == Ok((s, pos + ls[s]))
    decreases ls[s] - k
  {
    hide *;
    var c, n := Code(ls, s), ls[s];
    CodeIs(ls, s);
    NextBit(data, pos, c, n, k);
    PrefixAbove(ls, c, n, k);
    TableCount(h, ls, k);
    RankBelow(ls, s);
    WalkStep(h, data, pos + k - 1, k, 2 * Prefix(c, n, k - 1), First(ls, k));
    if k < n {
      FirstNext(ls, k);
      WalkFinds(h, ls, data, pos, s, k + 1);
    } else {
      OneSlot(ls, s);
      SlotIsOffset(ls, s);
    }
  }

  lemma {:induction false} CodeIs(ls: seq<nat>, s: nat)
    requires s < |ls|
    ensures Code(ls, s) == First(ls, ls[s]) + Rank(ls, s) && Prefix(Code(ls, s), ls[s], ls[s]) == Code(ls, s)
    ensures LengthsOk(ls) ==> ls[s] <= 15
  {
  }

  lemma {:induction false} SlotIsOffset(ls: seq<nat>, s: nat)
    requires s < |ls|
    ensures Slot(ls, s) == Offset(ls, ls[s]) + Rank(ls, s)
  {
  }

  lemma {:induction false} FirstNext(ls: seq<nat>, k: nat)
    requires k >= 1
    ensures First(ls, k + 1) == 2 * (First(ls, k) + Count(ls, k))
  {
  }

  lemma {:induction false} TableCount(h: Huffman, ls: seq<nat>, k: nat)
    requires h == HuffmanOf(ls) && 1 <= k <= 15
    ensures HuffOk(h) && |h.counts| == 16 && |h.symbols| == Offset(ls, 16)
    ensures h.counts[k] == Count(ls, k) && Total(h.counts, k) == Offset(ls, k)
  {
    TotalIs(h.counts, ls, k);
  }

  /** Bit `k` of a code in the stream completes the prefix of length `k`. */
  lemma {:induction false} NextBit(data: seq<byte>, pos: nat, c: nat, n: nat, k: nat)
    requires 1 <= k <= n && StreamAt(data, pos, CodeBits(c, n))
    ensures pos + k - 1 < 8 * |data| && 2 * Prefix(c, n, k - 1) + Bit(data, pos + k - 1) == Prefix(c, n, k)
  {
    hide Bit;
    assert Bit(data, pos + (k - 1)) == CodeBits(c, n)[k - 1];
  }

  lemma {:induction false} OneSlot(ls: seq<nat>, s: nat)
    requires s < |ls| && LengthsOk(ls) && 0 < ls[s]
    ensures Slot(ls, s) < Offset(ls, 16) && HuffmanOf(ls).symbols[Slot(ls, s)] == s
  {
    SlotInside(ls, s);
    var t := SymbolAt(ls, Slot(ls, s), MAX_LEN);
    if t < s { SlotsDiffer(ls, t, s); } else if s < t { SlotsDiffer(ls, s, t); }
  }

  /** In every accepted table the canonical code of a symbol decodes to it, consuming exactly its
      length, wherever it stands in the stream and whatever follows. */
  lemma {:induction false} DecodesCode(h: Huffman, ls: seq<nat>, data: seq<byte>, pos: nat, s: nat)
    requires Table(h, ls) && LengthsOk(ls) && !OverSubscribed(ls) && s < |ls| && ls[s] > 0
    requires StreamAt(data, pos, CodeBits(Code(ls, s), ls[s]))
    ensures HuffOk(h) && Decode(h, data, pos) == Ok((s, pos + ls[s]))
  {
    hide *;
    OneTable(h, ls);
    CodeFits(ls, s);
    CodeIs(ls, s);
    PrefixBelow(Code(ls, s), ls[s], 0);
    TableCount(h, ls, 1);
    Begin(h, ls, data, pos);
    WalkFinds(h, ls, data, pos, s, 1);
  }

  lemma {:induction false} Begin(h: Huffman, ls: seq<nat>, data: seq<byte>, pos: nat)
    requires HuffOk(h)
    ensures Pow2(0) == 1 && First(ls, 1) == 0 && Decode(h, data, pos) == Walk(h, data, pos, 1, 0, 0)
  {
  }

  // ---- back references ------------------------------------------------------

  /** A copy repeats the last `d` bytes, however often the length goes round. */
  lemma {:induction false} CopyRepeats(out: seq<byte>, d: nat, n: nat, i: nat)
    requires 1 <= d <= |out| && i < n
    ensures Copy(out, d, n)[|out| + i] == out[|out| - d + i % d]
    decreases n
  {
    var next := out + [out[|out| - d]];
    assert Copy(out, d, n) == Copy(next, d, n - 1);
    if i == 0 {
      assert next <= Copy(next, d, n - 1);
    } else {
      CopyRepeats(next, d, n - 1, i - 1);
      assert |out| + i == |next| + (i - 1);
      RoundTrip(i, d);
    }
  }

  lemma {:induction false} RoundTrip(i: nat, d: nat)
    requires i >= 1 && d >= 1
    ensures i % d == if (i - 1) % d == d - 1 then 0 else (i - 1) % d + 1
  {
    var q, r := (i - 1) / d, (i - 1) % d;
    if r == d - 1 {
      assert i == d * (q + 1) + 0;
      Remainder(i, d, q + 1, 0);
    } else {
      Remainder(i, d, q, r + 1);
    }
  }

  // ---- a compressed block ---------------------------------------------------

  /** A literal, or a length symbol and a distance symbol with the values of their extra bits. */
  datatype Token = Literal(b: byte) | Match(len: nat, lenExtra: nat, dist: nat, distExtra: nat)

  predicate Codable(ls: seq<nat>, s: nat) {
    s < |ls| && ls[s] > 0
  }

  ghost predicate Accepted(h: Huffman, ls: seq<nat>) {
    Table(h, ls) && LengthsOk(ls) && !OverSubscribed(ls)
  }

  ghost predicate TokenOk(lits: seq<nat>, dists: seq<nat>, t: Token) {
    match t
    case Literal(b) => Codable(lits, b)
    case Match(l, lx, d, dx) =>
      257 <= l <= 285 && d < 30 && Codable(lits, l) && Codable(dists, d)
      && lx < Pow2(LengthExtra(l - 257)) && dx < Pow2(DistExtra(d))
  }

  function SymbolBits(ls: seq<nat>, s: nat): seq<nat>
    requires s < |ls|
  {
    CodeBits(Code(ls, s), ls[s])
  }

  function TokenBits(lits: seq<nat>, dists: seq<nat>, t: Token): seq<nat>
    requires TokenOk(lits, dists, t)
  {
    match t
    case Literal(b) => SymbolBits(lits, b)
    case Match(l, lx, d, dx) =>
      SymbolBits(lits, l) + (NumberBits(lx, LengthExtra(l - 257))
        + (SymbolBits(dists, d) + NumberBits(dx, DistExtra(d))))
  }

  /** Section 3.2.3 of RFC 1951: the tokens, then end-of-block. */
  function BlockBits(lits: seq<nat>, dists: seq<nat>, ts: seq<Token>): seq<nat>
    requires Codable(lits, 256) && forall t <- ts :: TokenOk(lits, dists, t)
    decreases |ts|
  {
    if ts == [] then SymbolBits(lits, 256) else TokenBits(lits, dists, ts[0]) + BlockBits(lits, dists, ts[1..])
  }

  /** A match does not reach before the start. */
  predicate Reaches(out: seq<byte>, t: Token) {
    t.Match? ==> 257 <= t.len <= 285 && t.dist < 30 && DistBase(t.dist) + t.distExtra <= |out|
  }

  /** The LZ77 expansion of one token. */
  function Apply(out: seq<byte>, t: Token): seq<byte>
    requires Reaches(out, t)
  {
    match t
    case Literal(b) => out + [b]
    case Match(l, lx, d, dx) => Copy(out, DistBase(d) + dx, LengthBase(l - 257) + lx)
  }

  /** All matches stay inside the output so far, and the output within the limit. */
  predicate Expandable(out: seq<byte>, ts: seq<Token>, limit: nat)
    decreases |ts|
  {
    ts == [] || (Reaches(out, ts[0]) && |Apply(out, ts[0])| <= limit && Expandable(Apply(out, ts[0]), ts[1..], limit))
  }

  function Expand(out: seq<byte>, ts: seq<Token>, limit: nat): seq<byte>
    requires Expandable(out, ts, limit)
    decreases |ts|
  {
    if ts == [] then out else Expand(Apply(out, ts[0]), ts[1..], limit)
  }

  lemma {:induction false} ReadsMatch(dist: Huffman, dists: seq<nat>, data: seq<byte>, pos: nat, lits: seq<nat>,
      t: Token)
    requires t.Match? && Accepted(dist, dists) && TokenOk(lits, dists, t)
    requires StreamAt(data, pos,
               NumberBits(t.lenExtra, LengthExtra(t.len - 257))
                 + (SymbolBits(dists, t.dist) + NumberBits(t.distExtra, DistExtra(t.dist))))
    ensures HuffOk(dist)
    ensures ReadMatch(t.len, dist, data, pos) ==
            Ok((pos + LengthExtra(t.len - 257) + dists[t.dist] + DistExtra(t.dist),
                LengthBase(t.len - 257) + t.lenExtra, DistBase(t.dist) + t.distExtra))
  {
    hide LengthBase, LengthExtra, DistBase, DistExtra, StreamAt, NumberBits,
      CodeBits, Code, Table, LengthsOk, OverSubscribed, Decode, ReadBits;
    var lx, sym, dx := NumberBits(t.lenExtra, LengthExtra(t.len - 257)),
      SymbolBits(dists, t.dist), NumberBits(t.distExtra, DistExtra(t.dist));
    StreamSplit(data, pos, lx, sym + dx);
    StreamSplit(data, pos + |lx|, sym, dx);
    ReadsNumber(data, pos, t.lenExtra, LengthExtra(t.len - 257));
    DecodesCode(dist, dists, data, pos + |lx|, t.dist);
    ReadsNumber(data, pos + |lx| + |sym|, t.distExtra, DistExtra(t.dist));
  }

  /** `inflate_compressed` on the canonical encoding of any valid token list gives its LZ77 expansion
      and stops right after end-of-block, for any accepted pair of tables. */
  lemma {:induction false} BlockExpands(lit: Huffman, dist: Huffman, lits: seq<nat>, dists: seq<nat>, data: seq<byte>,
      pos: nat, out: seq<byte>, ts: seq<Token>, limit: nat)
    requires Accepted(lit, lits) && Accepted(dist, dists) && Codable(lits, 256)
             && forall t <- ts :: TokenOk(lits, dists, t)
    requires StreamAt(data, pos, BlockBits(lits, dists, ts)) && Expandable(out, ts, limit)
    ensures HuffOk(lit) && HuffOk(dist)
    ensures Block(lit, dist, data, pos, out, limit) == Ok((Expand(out, ts, limit), pos + |BlockBits(lits, dists, ts)|))
    decreases |ts|
  {
    hide *;
    TablesOk(lit, lits);
    TablesOk(dist, dists);
    BlockBitsIs(lits, dists, ts);
    ExpandIs(out, ts, limit);
    if ts == [] {
      DecodesCode(lit, lits, data, pos, 256);
      BlockEnds(lit, dist, lits, data, pos, out, limit);
    } else {
      var t := ts[0];
      var head, rest := TokenBits(lits, dists, t), BlockBits(lits, dists, ts[1..]);
      StreamSplit(data, pos, head, rest);
      TokenExpands(lit, dist, lits, dists, data, pos, out, t, limit);
      BlockExpands(lit, dist, lits, dists, data, pos + |head|, Apply(out, t), ts[1..], limit);
    }
  }

  lemma {:induction false} TablesOk(h: Huffman, ls: seq<nat>)
    requires Accepted(h, ls)
    ensures HuffOk(h) && Table(h, ls) && LengthsOk(ls) && !OverSubscribed(ls)
  {
    OneTable(h, ls);
  }

  lemma {:induction false} BlockBitsIs(lits: seq<nat>, dists: seq<nat>, ts: seq<Token>)
    requires Codable(lits, 256) && forall t <- ts :: TokenOk(lits, dists, t)
    ensures 256 < |lits| && lits[256] > 0
    ensures ts == [] ==> BlockBits(lits, dists, ts) == CodeBits(Code(lits, 256), lits[256])
    ensures ts != [] ==> BlockBits(lits, dists, ts) == TokenBits(lits, dists, ts[0]) + BlockBits(lits, dists, ts[1..])
  {
    hide CodeBits, Code;
  }

  lemma {:induction false} ExpandIs(out: seq<byte>, ts: seq<Token>, limit: nat)
    requires Expandable(out, ts, limit)
    ensures ts == [] ==> Expand(out, ts, limit) == out
    ensures ts != [] ==>
              && Reaches(out, ts[0]) && |Apply(out, ts[0])| <= limit
              && Expandable(Apply(out, ts[0]), ts[1..], limit)
              && Expand(out, ts, limit) == Expand(Apply(out, ts[0]), ts[1..], limit)
  {
    hide Apply, Reaches;
  }

  lemma {:induction false} BlockEnds(lit: Huffman, dist: Huffman, lits: seq<nat>, data: seq<byte>, pos: nat,
      out: seq<byte>, limit: nat)
    requires HuffOk(lit) && HuffOk(dist) && 256 < |lits| && Decode(lit, data, pos) == Ok((256, pos + lits[256]))
    ensures Block(lit, dist, data, pos, out, limit) == Ok((out, pos + lits[256]))
    ensures |CodeBits(Code(lits, 256), lits[256])| == lits[256]
  {
    hide Decode, Code;
  }

  /** One token of a block. */
  lemma {:induction false} TokenExpands(lit: Huffman, dist: Huffman, lits: seq<nat>, dists: seq<nat>, data: seq<byte>,
      pos: nat, out: seq<byte>, t: Token, limit: nat)
    requires Accepted(lit, lits) && Accepted(dist, dists) && TokenOk(lits, dists, t)
    requires StreamAt(data, pos, TokenBits(lits, dists, t)) && Reaches(out, t) && |Apply(out, t)| <= limit
    ensures HuffOk(lit) && HuffOk(dist)
    ensures Block(lit, dist, data, pos, out, limit) ==
            Block(lit, dist, data, pos + |TokenBits(lits, dists, t)|, Apply(out, t), limit)
  {
    hide Decode, ReadBits, StreamAt, NumberBits, CodeBits, Code, Table, LengthsOk, OverSubscribed, ReadMatch, HuffOk,
         LengthBase, LengthExtra, DistBase, DistExtra, Copy;
    TablesOk(lit, lits);
    TablesOk(dist, dists);
    if t.Literal? {
      DecodesCode(lit, lits, data, pos, t.b);
    } else {
      var sym := SymbolBits(lits, t.len);
      var lx, ds, dx := NumberBits(t.lenExtra, LengthExtra(t.len - 257)),
        SymbolBits(dists, t.dist), NumberBits(t.distExtra, DistExtra(t.dist));
      StreamSplit(data, pos, sym, lx + (ds + dx));
      DecodesCode(lit, lits, data, pos, t.len);
      ReadsMatch(dist, dists, data, pos + |sym|, lits, t);
    }
  }
}
