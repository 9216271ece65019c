// What `inflate` accepts is exactly what RFC 1951 calls a stream of blocks: everything that is read
// back was written by some encoder.
module InflateExact {
  import opened Utf8
  import opened Sequences
  import opened Huffmans
  import opened Inflate
  import opened InflateProofs
  import opened InflateStreams

  // ---- numbers --------------------------------------------------------------

  lemma {:induction false} StreamJoin(data: seq<byte>, pos: nat, a: seq<nat>, b: seq<nat>)
    requires StreamAt(data, pos, a) && StreamAt(data, pos + |a|, b)
    ensures StreamAt(data, pos, a + b)
  {
    hide Bit;
    forall i | 0 <= i < |a + b|
      ensures Bit(data, pos + i) == (a + b)[i]
    {
      if i < |a| { assert Bit(data, pos + i) == a[i]; } else { assert Bit(data, pos + |a| + (i - |a|)) == b[i - |a|]; }
    }
  }

  lemma {:induction false} NumberLow(v: nat, b: nat, m: nat, n: nat)
    requires n <= m
    ensures NumberBits(v + b * Pow2(m), n) == NumberBits(v, n)
    decreases n
  {
    if n > 0 {
      NumberLow(v, b, m, n - 1);
      var c := b * Pow2(m - n);
      PowSum(n, m - n);
      Regroup(b, Pow2(m - n), Pow2(n - 1));
      HigherBit(v, c, Pow2(n - 1));
    }
  }

  lemma {:induction false} PowSum(a: nat, b: nat)
    ensures Pow2(a + b) == Pow2(a) * Pow2(b)
    decreases a
  {
    if a > 0 { PowSum(a - 1, b); }
  }

  lemma {:induction false} Regroup(b: nat, p: nat, q: nat)
    ensures b * (2 * q * p) == 2 * (b * p) * q
  {
  }

  lemma {:induction false} HigherBit(v: nat, c: nat, q: nat)
    requires q > 0
    ensures (v + 2 * c * q) / q % 2 == v / q % 2
  {
    var d, r := v / q, v % q;
    Expands(q, c, d % 2);
    Quotient(v + 2 * c * q, q, d + 2 * c, r);
  }

  lemma {:induction false} Quotient(x: nat, q: nat, d: nat, r: nat)
    requires q > 0 && x == q * d + r && r < q
    ensures x / q == d
  {
    var e := x / q;
    if e < d { Apart(q, e, d); } else if d < e { Apart(q, d, e); }
  }

  /** What is read as a number was written as that number. */
  lemma {:induction false} NumberBack(data: seq<byte>, pos: nat, n: nat)
    requires pos + n <= 8 * |data|
    ensures StreamAt(data, pos, NumberBits(BitsValue(data, pos, n), n))
    decreases n
  {
    hide *;
    NumberEnds(data, pos, n);
    if n > 0 {
      var low, b := BitsValue(data, pos, n - 1), Bit(data, pos + (n - 1));
      NumberBack(data, pos, n - 1);
      NumberLow(low, b, n - 1, n - 1);
      OneBack(data, pos + (n - 1));
      StreamJoin(data, pos, NumberBits(low, n - 1), [b]);
    }
  }

  lemma {:induction false} NumberEnds(data: seq<byte>, pos: nat, n: nat)
    requires pos + n <= 8 * |data|
    ensures n == 0 ==> StreamAt(data, pos, NumberBits(BitsValue(data, pos, n), n))
    ensures n > 0 ==>
              var low, b := BitsValue(data, pos, n - 1), Bit(data, pos + (n - 1));
              && BitsValue(data, pos, n) == low + b * Pow2(n - 1)
              && NumberBits(low + b * Pow2(n - 1), n) == NumberBits(low + b * Pow2(n - 1), n - 1) + [b]
  {
    hide Bit;
    if n > 0 {
      var low, b := BitsValue(data, pos, n - 1), Bit(data, pos + (n - 1));
      Quotient(low + b * Pow2(n - 1), Pow2(n - 1), b, low);
    }
  }

  lemma {:induction false} OneBack(data: seq<byte>, pos: nat)
    requires pos < 8 * |data|
    ensures StreamAt(data, pos, [Bit(data, pos)])
  {
  }

  lemma {:induction false} BitsBack(data: seq<byte>, pos: nat, n: nat)
    requires ReadBits(data, pos, n).Ok? && pos <= 8 * |data|
    ensures StreamAt(data, pos, NumberBits(ReadBits(data, pos, n).value, n)) && pos + n <= 8 * |data|
  {
    NumberBack(data, pos, n);
  }

  // ---- codes ----------------------------------------------------------------

  lemma {:induction false} PrefixPush(c: nat, b: nat, n: nat, k: nat)
    requires b <= 1 && k <= n
    ensures Prefix(2 * c + b, n + 1, k) == Prefix(c, n, k)
    decreases n - k
  {
    if k < n { PrefixPush(c, b, n, k + 1); }
  }

  lemma {:induction false} CodePush(c: nat, b: nat, n: nat)
    requires b <= 1
    ensures CodeBits(2 * c + b, n + 1) == CodeBits(c, n) + [b]
  {
    forall i | 0 <= i < n
      ensures CodeBits(2 * c + b, n + 1)[i] == CodeBits(c, n)[i]
    {
      PrefixPush(c, b, n, i + 1);
    }
  }

  /** The slots of the symbols of one length. */
  lemma {:induction false} LengthOfSlot(ls: seq<nat>, s: nat, k: nat)
    requires s < |ls| && 0 < ls[s] && 1 <= k && Offset(ls, k) <= Slot(ls, s) < Offset(ls, k + 1)
    ensures ls[s] == k
  {
    RankBelow(ls, s);
    if ls[s] < k { OffsetGrows(ls, ls[s], k); } else if ls[s] > k { OffsetGrows(ls, k, ls[s]); }
  }

  /** The symbol was found after the bits of its code. */
  ghost predicate Stands(ls: seq<nat>, data: seq<byte>, pos: nat, s: nat, at: nat) {
    Codable(ls, s) && at == pos + ls[s] && StreamAt(data, pos, SymbolBits(ls, s))
  }

  lemma {:induction false} WalkBack(h: Huffman, ls: seq<nat>, data: seq<byte>, pos: nat, k: nat, c: nat)
    requires h == HuffmanOf(ls) && 1 <= k <= 16 && StreamAt(data, pos, CodeBits(c, k - 1)) && First(ls, k) <= 2 * c
    requires Walk(h, data, pos + k - 1, k, 2 * c, First(ls, k)).Ok?
    ensures var r := Walk(h, data, pos + k - 1, k, 2 * c, First(ls, k)).value; Stands(ls, data, pos, r.0, r.1)
    decreases 16 - k
  {
    hide *;
    WalkLimits(h, ls, data, pos + k - 1, k, 2 * c);
    var next := 2 * c + Bit(data, pos + k - 1);
    TableCount(h, ls, k);
    WalkStep(h, data, pos + k - 1, k, 2 * c, First(ls, k));
    FirstNext(ls, k);
    BitBelow(data, pos + k - 1);
    CodePush(c, Bit(data, pos + k - 1), k - 1);
    OneBack(data, pos + k - 1);
    CodeLength(c, k - 1);
    StreamJoin(data, pos, CodeBits(c, k - 1), [Bit(data, pos + k - 1)]);
    if next < First(ls, k) + h.counts[k] {
      FoundAt(ls, k, next);
      var s := h.symbols[Offset(ls, k) + next - First(ls, k)];
      Standing(ls, data, pos, s, k, next);
    } else {
      WalkBack(h, ls, data, pos, k + 1, next);
    }
  }

  lemma {:induction false} Standing(ls: seq<nat>, data: seq<byte>, pos: nat, s: nat, k: nat, c: nat)
    requires s < |ls| && ls[s] == k && k >= 1 && Code(ls, s) == c && StreamAt(data, pos, CodeBits(c, k))
    ensures Stands(ls, data, pos, s, pos + k)
  {
  }

  lemma {:induction false} CodeLength(c: nat, n: nat)
    ensures |CodeBits(c, n)| == n
  {
  }

  lemma {:induction false} BitBelow(data: seq<byte>, pos: nat)
    requires pos < 8 * |data|
    ensures Bit(data, pos) <= 1
  {
  }

  lemma {:induction false} WalkLimits(h: Huffman, ls: seq<nat>, data: seq<byte>, pos: nat, len: nat, code: nat)
    requires h == HuffmanOf(ls) && 1 <= len <= 16 && First(ls, len) <= code
    requires HuffOk(h) && Walk(h, data, pos, len, code, First(ls, len)).Ok?
    ensures len <= 15 && pos < 8 * |data| && |h.counts| == 16
  {
  }

  /** Code `c` of length `k` belongs to the symbol in its slot. */
  lemma {:induction false} FoundAt(ls: seq<nat>, k: nat, c: nat)
    requires 1 <= k <= 15 && First(ls, k) <= c < First(ls, k) + Count(ls, k)
    ensures var i := Offset(ls, k) + c - First(ls, k);
            && i < |HuffmanOf(ls).symbols|
            && var s := HuffmanOf(ls).symbols[i]; s < |ls| && ls[s] == k && Code(ls, s) == c
  {
    var i := Offset(ls, k) + c - First(ls, k);
    OffsetGrows(ls, k, 16);
    assert Offset(ls, k + 1) == Offset(ls, k) + Count(ls, k);
    var s := SymbolAt(ls, i, MAX_LEN);
    LengthOfSlot(ls, s, k);
  }

  /** What decodes to a symbol is that symbol's canonical code. */
  lemma {:induction false} DecodeBack(h: Huffman, ls: seq<nat>, data: seq<byte>, pos: nat)
    requires Accepted(h, ls) && HuffOk(h) && Decode(h, data, pos).Ok?
    ensures Stands(ls, data, pos, Decode(h, data, pos).value.0, Decode(h, data, pos).value.1)
  {
    hide *;
    TablesOk(h, ls);
    OneTable(h, ls);
    Begin(h, ls, data, pos);
    DecodeInside(h, data, pos);
    NoCode(data, pos);
    WalkBack(h, ls, data, pos, 1, 0);
  }

  lemma {:induction false} DecodeInside(h: Huffman, data: seq<byte>, pos: nat)
    requires HuffOk(h) && Decode(h, data, pos).Ok?
    ensures pos < 8 * |data|
  {
  }

  lemma {:induction false} NoCode(data: seq<byte>, pos: nat)
    requires pos < 8 * |data|
    ensures StreamAt(data, pos, CodeBits(0, 0))
  {
  }

  // ---- compressed blocks ----------------------------------------------------

  lemma {:induction false} MatchBack(sym: nat, dist: Huffman, dists: seq<nat>, data: seq<byte>,
      pos: nat) returns (t: Token)
    requires Accepted(dist, dists) && HuffOk(dist) && 257 <= sym <= 285 && pos <= 8 * |data|
    requires ReadMatch(sym, dist, data, pos).Ok?
    ensures t.Match? && t.len == sym && t.dist < 30 && Codable(dists, t.dist)
    ensures t.lenExtra < Pow2(LengthExtra(sym - 257)) && t.distExtra < Pow2(DistExtra(t.dist))
    ensures StreamAt(data, pos, NumberBits(t.lenExtra, LengthExtra(sym - 257))
                                + (SymbolBits(dists, t.dist) + NumberBits(t.distExtra, DistExtra(t.dist))))
    ensures ReadMatch(sym, dist, data, pos).value.1 == LengthBase(sym - 257) + t.lenExtra
    ensures ReadMatch(sym, dist, data, pos).value.2 == DistBase(t.dist) + t.distExtra
  {
    hide LengthBase, LengthExtra, DistBase, DistExtra, StreamAt, NumberBits, CodeBits, Code, Table, LengthsOk,
         OverSubscribed, Decode, ReadBits, HuffOk;
    var le := LengthExtra(sym - 257);
    BitsBack(data, pos, le);
    var ds := Decode(dist, data, pos + le).value;
    DecodeBack(dist, dists, data, pos + le);
    BitsBack(data, ds.1, DistExtra(ds.0));
    t := Match(sym, ReadBits(data, pos, le).value, ds.0, ReadBits(data, ds.1, DistExtra(ds.0)).value);
    StreamJoin(data, pos + le, SymbolBits(dists, t.dist), NumberBits(t.distExtra, DistExtra(t.dist)));
    StreamJoin(data, pos, NumberBits(t.lenExtra, le),
      SymbolBits(dists, t.dist) + NumberBits(t.distExtra, DistExtra(t.dist)));
  }

  lemma {:induction false} TokenBack(lit: Huffman, dist: Huffman, lits: seq<nat>, dists: seq<nat>, data: seq<byte>,
      pos: nat, out: seq<byte>, limit: nat) returns (t: Token)
    requires Accepted(lit, lits) && Accepted(dist, dists) && HuffOk(lit) && HuffOk(dist)
    requires Block(lit, dist, data, pos, out, limit).Ok? && Decode(lit, data, pos).value.0 != 256
    ensures TokenOk(lits, dists, t) && StreamAt(data, pos, TokenBits(lits, dists, t))
    ensures Reaches(out, t) && |Apply(out, t)| <= limit && |TokenBits(lits, dists, t)| > 0
    ensures Block(lit, dist, data, pos, out, limit) ==
            Block(lit, dist, data, pos + |TokenBits(lits, dists, t)|, Apply(out, t), limit)
  {
    hide LengthBase, LengthExtra, DistBase, DistExtra, StreamAt, NumberBits, CodeBits, Code, Table, LengthsOk,
         OverSubscribed, Decode, ReadBits, HuffOk, ReadMatch, Copy;
    DecodeBack(lit, lits, data, pos);
    var s := Decode(lit, data, pos).value;
    if s.0 <= 255 {
      t := Literal(s.0 as byte);
    } else {
      t := MatchBack(s.0, dist, dists, data, s.1);
      StreamJoin(data, pos, SymbolBits(lits, t.len), NumberBits(t.lenExtra, LengthExtra(t.len - 257))
        + (SymbolBits(dists, t.dist) + NumberBits(t.distExtra, DistExtra(t.dist))));
    }
    TokenExpands(lit, dist, lits, dists, data, pos, out, t, limit);
  }

  /** A block that is accepted is the canonical encoding of some tokens. */
  lemma {:induction false} BlockBack(lit: Huffman, dist: Huffman, lits: seq<nat>, dists: seq<nat>, data: seq<byte>,
      pos: nat, out: seq<byte>, limit: nat) returns (ts: seq<Token>)
    requires Accepted(lit, lits) && Accepted(dist, dists) && HuffOk(lit) && HuffOk(dist)
    requires Block(lit, dist, data, pos, out, limit).Ok?
    ensures TokensOk(lits, dists, ts) && StreamAt(data, pos, BlockBits(lits, dists, ts)) && Expandable(out, ts, limit)
    ensures Block(lit, dist, data, pos, out, limit)
            == Ok((Expand(out, ts, limit), pos + |BlockBits(lits, dists, ts)|))
    decreases 8 * |data| - pos
  {
    hide *;
    BlockDecodes(lit, dist, data, pos, out, limit);
    DecodeBack(lit, lits, data, pos);
    EndMeans(lits, data, pos, Decode(lit, data, pos).value.0, Decode(lit, data, pos).value.1);
    if Decode(lit, data, pos).value.0 == 256 {
      ts := [];
      NoTokens(lits, dists, out, limit);
      BlockExpands(lit, dist, lits, dists, data, pos, out, ts, limit);
    } else {
      var t := TokenBack(lit, dist, lits, dists, data, pos, out, limit);
      var more := BlockBack(lit, dist, lits, dists, data, pos + |TokenBits(lits, dists, t)|, Apply(out, t), limit);
      ts := [t] + more;
      MoreTokens(lits, dists, t, more, out, limit);
      StreamJoin(data, pos, TokenBits(lits, dists, t), BlockBits(lits, dists, more));
    }
  }

  lemma {:induction false} BlockDecodes(lit: Huffman, dist: Huffman, data: seq<byte>, pos: nat, out: seq<byte>,
      limit: nat)
    requires HuffOk(lit) && HuffOk(dist) && Block(lit, dist, data, pos, out, limit).Ok?
    ensures Decode(lit, data, pos).Ok? && pos < 8 * |data|
  {
    hide Decode;
  }

  lemma {:induction false} EndMeans(lits: seq<nat>, data: seq<byte>, pos: nat, s: nat, at: nat)
    requires Stands(lits, data, pos, s, at)
    ensures s == 256 ==> Codable(lits, 256) && |lits| > 256 && StreamAt(data, pos, SymbolBits(lits, 256))
  {
    hide StreamAt;
  }

  lemma {:induction false} NoTokens(lits: seq<nat>, dists: seq<nat>, out: seq<byte>, limit: nat)
    requires Codable(lits, 256)
    ensures |lits| > 256 && TokensOk(lits, dists, []) && BlockBits(lits, dists, []) == SymbolBits(lits, 256)
    ensures forall t <- [] :: TokenOk(lits, dists, t)
    ensures Expandable(out, [], limit) && Expand(out, [], limit) == out
  {
  }

  lemma {:induction false} MoreTokens(lits: seq<nat>, dists: seq<nat>, t: Token, more: seq<Token>, out: seq<byte>,
      limit: nat)
    requires TokenOk(lits, dists, t) && TokensOk(lits, dists, more) && Reaches(out, t) && |Apply(out, t)| <= limit
    requires Expandable(Apply(out, t), more, limit)
    ensures Codable(lits, 256) && (forall u <- more :: TokenOk(lits, dists, u)) && TokensOk(lits, dists, [t] + more)
    ensures forall u <- [t] + more :: TokenOk(lits, dists, u)
    ensures BlockBits(lits, dists, [t] + more) == TokenBits(lits, dists, t) + BlockBits(lits, dists, more)
    ensures Expandable(out, [t] + more, limit)
            && Expand(out, [t] + more, limit) == Expand(Apply(out, t), more, limit)
  {
    hide TokenOk, Reaches, Apply, TokenBits;
    assert ([t] + more)[1..] == more;
  }

  // ---- dynamic tables -------------------------------------------------------

  lemma {:induction false} OpBack(clen: Huffman, clens: seq<nat>, data: seq<byte>, pos: nat, ls: seq<nat>)
      returns (op: Op)
    requires Accepted(clen, clens) && HuffOk(clen) && ClenStep(clen, data, pos, ls).Ok?
    ensures OpOk(clens, ls, op) && StreamAt(data, pos, OpBits(clens, op))
    ensures ClenStep(clen, data, pos, ls) == Ok(Lengths(OpAdds(ls, op), pos + |OpBits(clens, op)|))
  {
    hide StreamAt, NumberBits, CodeBits, Code, Decode, ReadBits, Table, LengthsOk, OverSubscribed, HuffOk;
    DecodeBack(clen, clens, data, pos);
    var d := Decode(clen, data, pos).value;
    ReadsNothing(data, d.1);
    BitsBack(data, d.1, OpExtra(d.0));
    op := Op(d.0, ReadBits(data, d.1, OpExtra(d.0)).value);
    StreamJoin(data, pos, SymbolBits(clens, op.sym), NumberBits(op.extra, OpExtra(op.sym)));
    ReadsOp(clen, clens, data, pos, ls, op);
  }

  lemma {:induction false} ReadsNothing(data: seq<byte>, pos: nat)
    ensures ReadBits(data, pos, 0) == Ok(0)
  {
  }

  lemma {:induction false} OpsBack(clen: Huffman, clens: seq<nat>, data: seq<byte>, pos: nat, ls: seq<nat>,
      n: nat) returns (ops: seq<Op>)
    requires Accepted(clen, clens) && HuffOk(clen) && |ls| <= n && pos <= 8 * |data|
    requires CodeLengths(clen, data, pos, ls, n).Ok?
    ensures OpsOk(clens, ls, ops) && StreamAt(data, pos, OpsBits(clens, ls, ops))
    ensures |OpsLengths(clens, ls, ops)| == n
    ensures CodeLengths(clen, data, pos, ls, n)
            == Ok(Lengths(OpsLengths(clens, ls, ops), pos + |OpsBits(clens, ls, ops)|))
    decreases n - |ls|
  {
    hide StreamAt, OpBits, ClenStep, Accepted, HuffOk, OpAdds, OpOk;
    if |ls| == n {
      ops := [];
      NoBits(data, pos);
    } else {
      var op := OpBack(clen, clens, data, pos, ls);
      OpMeans(clens, ls, op);
      var add := OpAdds(ls, op);
      var more := OpsBack(clen, clens, data, pos + |OpBits(clens, op)|, ls + add, n);
      ops := [op] + more;
      assert ops[1..] == more;
      StreamJoin(data, pos, OpBits(clens, op), OpsBits(clens, ls + add, more));
    }
  }

  lemma {:induction false} OpMeans(clens: seq<nat>, ls: seq<nat>, op: Op)
    requires OpOk(clens, ls, op)
    ensures op.sym <= 18 && (op.sym == 16 ==> ls != []) && |OpAdds(ls, op)| > 0 && Codable(clens, op.sym)
  {
  }

  lemma {:induction false} NoBits(data: seq<byte>, pos: nat)
    requires pos <= 8 * |data|
    ensures StreamAt(data, pos, [])
  {
  }

  /** Slots that stand at `i` or later. */
  ghost predicate KeptBefore(ls: seq<nat>, r: seq<nat>, i: nat, n: nat)
  {
    && |ls| == 19 == |r| && i <= n <= 19
    && (forall j | 0 <= j < 19 && !(i <= ClenPlace(j) < n) :: r[j] == ls[j])
    && (forall j | 0 <= j < 19 && i <= ClenPlace(j) < n :: r[j] < 8)
  }

  lemma {:induction false} ClensBack(data: seq<byte>, pos: nat, i: nat, n: nat, ls: seq<nat>)
    requires i <= n <= 19 == |ls| && ClenLengths(data, pos, i, n, ls).Ok? && pos + 3 * i <= 8 * |data|
    ensures var r := ClenLengths(data, pos, i, n, ls).value;
            |r| == 19 && KeptBefore(ls, r, i, n) && StreamAt(data, pos + 3 * i, ClenBits(r, i, n))
    decreases n - i
  {
    hide *;
    ClensStep(data, pos, i, n, ls);
    if i == n {
      NoBits(data, pos + 3 * i);
    } else {
      BitsBack(data, pos + 3 * i, 3);
      var v := ReadBits(data, pos + 3 * i, 3).value;
      var next := ls[ClenOrder(i) := v];
      ClensBack(data, pos, i + 1, n, next);
      var r := ClenLengths(data, pos, i + 1, n, next).value;
      SlotSet(ls, v, r, i, n);
      assert |NumberBits(v, 3)| == 3;
      StreamJoin(data, pos + 3 * i, NumberBits(v, 3), ClenBits(r, i + 1, n));
      assert pos + 3 * i + 3 == pos + 3 * (i + 1);
    }
  }

  lemma {:induction false} ClensStep(data: seq<byte>, pos: nat, i: nat, n: nat, ls: seq<nat>)
    requires i <= n <= 19 == |ls| && ClenLengths(data, pos, i, n, ls).Ok? && pos + 3 * i <= 8 * |data|
    ensures var r := ClenLengths(data, pos, i, n, ls).value;
            && (i == n ==> r == ls && KeptBefore(ls, r, i, n) && ClenBits(r, i, n) == [])
            && (i < n ==>
                  && ReadBits(data, pos + 3 * i, 3).Ok? && pos + 3 * i + 3 <= 8 * |data|
                  && ReadBits(data, pos + 3 * i, 3).value < 8
                  && ClenLengths(data, pos, i, n, ls)
                     == ClenLengths(data, pos, i + 1, n, ls[ClenOrder(i) := ReadBits(data, pos + 3 * i, 3).value]))
  {
    hide ClenOrder, ClenPlace;
    assert Pow2(3) == 8;
  }

  lemma {:induction false} SlotSet(ls: seq<nat>, v: nat, r: seq<nat>, i: nat, n: nat)
    requires i < n <= 19 == |ls| && v < 8 && KeptBefore(ls[ClenOrder(i) := v], r, i + 1, n)
    ensures |r| == 19 && KeptBefore(ls, r, i, n) && ClenBits(r, i, n) == NumberBits(v, 3) + ClenBits(r, i + 1, n)
  {
    PlaceIsOrder(i);
    forall j | 0 <= j < 19 && j != ClenOrder(i)
      ensures ClenPlace(j) != i
    {
      assert ClenOrder(ClenPlace(j)) == j;
    }
    hide ClenOrder, ClenPlace, NumberBits;
  }

  /** Tables that are accepted were written by some header. */
  lemma {:induction false} HeaderBack(data: seq<byte>, pos: nat) returns (h: Header)
    requires DynamicTables(data, pos).Ok? && pos <= 8 * |data|
    ensures HeaderOk(h) && StreamAt(data, pos, HeaderBits(h))
    ensures DynamicTables(data, pos) ==
            Ok(Tables(HuffmanOf(LitLengths(h)), HuffmanOf(DistLengths(h)), pos + |HeaderBits(h)|))
  {
    hide *;
    var hlit, hdist, hclen, clens, ls := HeaderParts(data, pos);
    BitsBack(data, pos, 5);
    BitsBack(data, pos + 5, 5);
    BitsBack(data, pos + 10, 4);
    NumberWide(hlit - 257, 5);
    NumberWide(hdist - 1, 5);
    NumberWide(hclen - 4, 4);
    StreamJoin(data, pos + 5, NumberBits(hdist - 1, 5), NumberBits(hclen - 4, 4));
    StreamJoin(data, pos, NumberBits(hlit - 257, 5), NumberBits(hdist - 1, 5) + NumberBits(hclen - 4, 4));
    ClensBack(data, pos + 14, 0, hclen, Repeat(0, 19));
    ClensFit(clens, hclen);
    NewMeans(clens);
    AcceptedOf(clens);
    TablesOk(HuffmanOf(clens), clens);
    ClensInside(data, pos + 14, 0, hclen, Repeat(0, 19));
    var ops := OpsBack(HuffmanOf(clens), clens, data, pos + 14 + 3 * hclen, [], hlit + hdist);
    h := Header(hlit, hdist, hclen, clens, ops);
    PartsFit(h, ls);
    StreamJoin(data, pos + 14, ClenBits(clens, 0, hclen), OpsBits(clens, [], ops));
    StreamJoin(data, pos, SizeBits(h), ClenBits(clens, 0, hclen) + OpsBits(clens, [], ops));
    ReadsHeader(h, data, pos);
  }

  lemma {:induction false} NumberWide(v: nat, n: nat)
    ensures |NumberBits(v, n)| == n
  {
  }

  lemma {:induction false} SizesRead(data: seq<byte>, pos: nat)
    requires DynamicTables(data, pos).Ok?
    ensures ReadBits(data, pos, 5).Ok? && ReadBits(data, pos + 5, 5).Ok? && ReadBits(data, pos + 10, 4).Ok?
    ensures ReadBits(data, pos, 5).value < 32 && ReadBits(data, pos + 5, 5).value < 32
    ensures ReadBits(data, pos + 10, 4).value < 16 && pos + 14 <= 8 * |data|
  {
    assert Pow2(4) == 16;
    assert Pow2(5) == 32;
    hide ClenLengths, CodeLengths, NewOf, TablesOf, BitsValue;
  }

  lemma {:induction false} HeaderParts(data: seq<byte>, pos: nat) returns (hlit: nat, hdist: nat, hclen: nat,
      clens: seq<nat>, ls: seq<nat>)
    requires DynamicTables(data, pos).Ok?
    ensures 257 <= hlit < 289 && 1 <= hdist < 33 && 4 <= hclen <= 19 && |clens| == 19
    ensures ReadBits(data, pos, 5) == Ok(hlit - 257) && ReadBits(data, pos + 5, 5) == Ok(hdist - 1)
    ensures ReadBits(data, pos + 10, 4) == Ok(hclen - 4) && pos + 14 <= 8 * |data|
    ensures ClenLengths(data, pos + 14, 0, hclen, Repeat(0, 19)) == Ok(clens) && NewOf(clens) == Ok(HuffmanOf(clens))
    ensures HuffOk(HuffmanOf(clens)) && |ls| == hlit + hdist
    ensures CodeLengths(HuffmanOf(clens), data, pos + 14 + 3 * hclen, [], hlit + hdist).Ok?
    ensures CodeLengths(HuffmanOf(clens), data, pos + 14 + 3 * hclen, [], hlit + hdist).value.add == ls
    ensures ls[256] > 0 && NewOf(ls[..hlit]).Ok? && NewOf(ls[hlit..]).Ok?
  {
    hide *;
    SizesRead(data, pos);
    hlit := ReadBits(data, pos, 5).value + 257;
    hdist := ReadBits(data, pos + 5, 5).value + 1;
    hclen := ReadBits(data, pos + 10, 4).value + 4;
    ClensRead(data, pos, hclen);
    clens := ClenLengths(data, pos + 14, 0, hclen, Repeat(0, 19)).value;
    NewIs(clens);
    LengthsRead(data, pos, hlit, hdist, hclen, HuffmanOf(clens));
    var r := CodeLengths(HuffmanOf(clens), data, pos + 14 + 3 * hclen, [], hlit + hdist).value;
    ls := r.add;
    TablesNeed(ls, hlit, r.at);
  }

  lemma {:induction false} ClensRead(data: seq<byte>, pos: nat, hclen: nat)
    requires DynamicTables(data, pos).Ok? && ReadBits(data, pos + 10, 4) == Ok(hclen - 4) && 4 <= hclen <= 19
    ensures ClenLengths(data, pos + 14, 0, hclen, Repeat(0, 19)).Ok?
    ensures |ClenLengths(data, pos + 14, 0, hclen, Repeat(0, 19)).value| == 19
    ensures NewOf(ClenLengths(data, pos + 14, 0, hclen, Repeat(0, 19)).value).Ok?
  {
    hide ReadBits, ClenLengths, CodeLengths, NewOf, TablesOf, Repeat, Pow2;
    assert |Repeat(0, 19)| == 19;
  }

  lemma {:induction false} LengthsRead(data: seq<byte>, pos: nat, hlit: nat, hdist: nat, hclen: nat, clen: Huffman)
    requires DynamicTables(data, pos).Ok? && 257 <= hlit < 289 && 1 <= hdist < 33 && 4 <= hclen <= 19 && HuffOk(clen)
    requires ReadBits(data, pos, 5) == Ok(hlit - 257) && ReadBits(data, pos + 5, 5) == Ok(hdist - 1)
    requires ReadBits(data, pos + 10, 4) == Ok(hclen - 4)
    requires ClenLengths(data, pos + 14, 0, hclen, Repeat(0, 19)).Ok?
    requires NewOf(ClenLengths(data, pos + 14, 0, hclen, Repeat(0, 19)).value) == Ok(clen)
    ensures var ls := CodeLengths(clen, data, pos + 14 + 3 * hclen, [], hlit + hdist);
            ls.Ok? && |ls.value.add| == hlit + hdist && TablesOf(ls.value.add, hlit, ls.value.at).Ok?
  {
    hide ReadBits, ClenLengths, CodeLengths, NewOf, TablesOf, Repeat, Pow2, HuffOk;
  }

  lemma {:induction false} NewIs(ls: seq<nat>)
    requires NewOf(ls).Ok?
    ensures NewOf(ls) == Ok(HuffmanOf(ls)) && HuffOk(HuffmanOf(ls))
  {
  }

  lemma {:induction false} TablesNeed(ls: seq<nat>, hlit: nat, at: nat)
    requires 257 <= hlit <= |ls| && TablesOf(ls, hlit, at).Ok?
    ensures ls[256] > 0 && NewOf(ls[..hlit]).Ok? && NewOf(ls[hlit..]).Ok?
  {
    hide NewOf;
  }

  lemma {:induction false} ClensFit(clens: seq<nat>, hclen: nat)
    requires |clens| == 19 && 4 <= hclen && KeptBefore(Repeat(0, 19), clens, 0, hclen)
    ensures forall j | 0 <= j < 19 :: clens[j] < 8
    ensures forall i | hclen <= i < 19 :: clens[ClenOrder(i)] == 0
    ensures LengthsOk(clens)
  {
    forall i | hclen <= i < 19
      ensures clens[ClenOrder(i)] == 0
    {
      PlaceIsOrder(i);
    }
  }

  lemma {:induction false} ClensInside(data: seq<byte>, pos: nat, i: nat, n: nat, ls: seq<nat>)
    requires i <= n <= 19 == |ls| && ClenLengths(data, pos, i, n, ls).Ok? && pos + 3 * i <= 8 * |data|
    ensures pos + 3 * n <= 8 * |data|
    decreases n - i
  {
    hide ClenOrder;
    if i < n { ClensInside(data, pos, i + 1, n, ls[ClenOrder(i) := ReadBits(data, pos + 3 * i, 3).value]); }
  }

  lemma {:induction false} PartsFit(h: Header, ls: seq<nat>)
    requires 257 <= h.hlit < 289 && 1 <= h.hdist < 33 && 4 <= h.hclen <= 19 && |h.clens| == 19
    requires (forall j | 0 <= j < 19 :: h.clens[j] < 8) && NewOf(h.clens).Ok?
    requires forall i | h.hclen <= i < 19 :: h.clens[ClenOrder(i)] == 0
    requires OpsOk(h.clens, [], h.ops) && OpsLengths(h.clens, [], h.ops) == ls && |ls| == h.hlit + h.hdist
    requires ls[256] > 0 && NewOf(ls[..h.hlit]).Ok? && NewOf(ls[h.hlit..]).Ok?
    ensures HeaderOk(h)
    ensures HeaderBits(h) == SizeBits(h) + (ClenBits(h.clens, 0, h.hclen) + OpsBits(h.clens, [], h.ops))
    ensures SizeBits(h) == NumberBits(h.hlit - 257, 5) + (NumberBits(h.hdist - 1, 5) + NumberBits(h.hclen - 4, 4))
    ensures |SizeBits(h)| == 14 && |ClenBits(h.clens, 0, h.hclen)| == 3 * h.hclen
  {
    hide OpsOk, OpsLengths, OpsBits, ClenBits, NumberBits, ClenOrder, OverSubscribed, LengthsOk;
    NewMeans(h.clens);
  }

  // ---- stored blocks --------------------------------------------------------

  lemma {:induction false} BytesBack(data: seq<byte>, k: nat, n: nat)
    requires k + n <= |data|
    ensures StreamAt(data, 8 * k, ByteBits(data[k..k + n]))
    decreases n
  {
    hide StreamAt, NumberBits, BitsValue;
    if n == 0 {
      NoBits(data, 8 * k);
    } else {
      var s := data[k..k + n];
      assert s[1..] == data[k + 1..k + 1 + (n - 1)];
      NumberBack(data, 8 * k, 8);
      WholeByte(data, k);
      BytesBack(data, k + 1, n - 1);
      assert 8 * k + 8 == 8 * (k + 1);
      StreamJoin(data, 8 * k, NumberBits(s[0], 8), ByteBits(s[1..]));
    }
  }

  lemma {:induction false} StoredBack(data: seq<byte>, pos: nat, out: seq<byte>, limit: nat) returns (b: BlockSpec)
    requires StoredBlock(data, pos, out, limit).Ok? && pos <= 8 * |data|
    ensures b.Stored? && SpecOk(b, out, limit) && StreamAt(data, pos, StoredBits(b.bytes, b.pad, pos))
    ensures StoredBlock(data, pos, out, limit)
            == Ok((out + b.bytes, pos + |StoredBits(b.bytes, b.pad, pos)|))
  {
    Pow16();
    hide StreamAt, NumberBits, Pow2, ByteBits, BitsValue;
    var p := Align(pos);
    var n := ReadBits(data, p, 16).value;
    NumberBack(data, pos, p - pos);
    NumberBack(data, p, 16);
    NumberBack(data, p + 16, 16);
    var start := (p + 32) / 8;
    BytesBack(data, start, n);
    assert 8 * start == p + 32;
    b := Stored(data[start..start + n], BitsValue(data, pos, p - pos));
    StreamJoin(data, p + 16, NumberBits(0xFFFF - n, 16), ByteBits(b.bytes));
    StreamJoin(data, p, NumberBits(n, 16), NumberBits(0xFFFF - n, 16) + ByteBits(b.bytes));
    StreamJoin(data, pos, NumberBits(b.pad, p - pos),
      NumberBits(n, 16) + (NumberBits(0xFFFF - n, 16) + ByteBits(b.bytes)));
  }

  // ---- streams --------------------------------------------------------------

  lemma {:induction false} SpecBack(kind: nat, data: seq<byte>, pos: nat, out: seq<byte>,
      limit: nat) returns (b: BlockSpec)
    requires CompressedBlock(kind, data, pos, out, limit).Ok? && pos <= 8 * |data|
    ensures Kind(b) == kind && SpecOk(b, out, limit) && StreamAt(data, pos, SpecBits(b, pos, out, limit))
  {
    hide *;
    BlockKinds(kind, data, pos, out, limit);
    if kind == 0 {
      b := StoredBack(data, pos, out, limit);
      StoredMeans(b, pos, out, limit);
    } else if kind == 1 {
      FixedAccepted();
      TablesOk(HuffmanOf(FixedLengths()), FixedLengths());
      TablesOk(HuffmanOf(Repeat(5, 30)), Repeat(5, 30));
      var ts := BlockBack(HuffmanOf(FixedLengths()), HuffmanOf(Repeat(5, 30)), FixedLengths(), Repeat(5, 30), data, pos,
                          out, limit);
      b := Fixed(ts);
      FixedMeans(ts, pos, out, limit);
    } else {
      var h := HeaderBack(data, pos);
      HeaderMeans(h);
      HeaderTables(h);
      var lits, dists, at := LitLengths(h), DistLengths(h), pos + |HeaderBits(h)|;
      TablesOk(HuffmanOf(lits), lits);
      TablesOk(HuffmanOf(dists), dists);
      var ts := BlockBack(HuffmanOf(lits), HuffmanOf(dists), lits, dists, data, at, out, limit);
      b := Dynamic(h, ts);
      TokensMean(lits, dists, ts);
      WritesDynamic(h, ts, pos, out, limit);
      StreamJoin(data, pos, HeaderBits(h), BlockBits(lits, dists, ts));
    }
  }

  lemma {:induction false} BlockKinds(kind: nat, data: seq<byte>, pos: nat, out: seq<byte>, limit: nat)
    requires CompressedBlock(kind, data, pos, out, limit).Ok?
    ensures kind < 3 && (kind == 0 ==> StoredBlock(data, pos, out, limit).Ok?)
    ensures HuffOk(HuffmanOf(FixedLengths())) && HuffOk(HuffmanOf(Repeat(5, 30)))
    ensures kind == 1 ==> Block(HuffmanOf(FixedLengths()), HuffmanOf(Repeat(5, 30)), data, pos, out, limit).Ok?
    ensures kind == 2 ==>
              && DynamicTables(data, pos).Ok?
              && var t := DynamicTables(data, pos).value; Block(t.lit, t.dist, data, t.at, out, limit).Ok?
  {
    hide StoredBlock, Block, DynamicTables, HuffmanOf, FixedLengths, Repeat;
  }

  lemma {:induction false} StoredMeans(b: BlockSpec, pos: nat, out: seq<byte>, limit: nat)
    requires b.Stored? && SpecOk(b, out, limit)
    ensures Kind(b) == 0 && |b.bytes| <= 0xFFFF && SpecBits(b, pos, out, limit) == StoredBits(b.bytes, b.pad, pos)
  {
    hide StoredBits;
  }

  lemma {:induction false} FixedMeans(ts: seq<Token>, pos: nat, out: seq<byte>, limit: nat)
    requires TokensOk(FixedLengths(), Repeat(5, 30), ts) && Expandable(out, ts, limit)
    ensures var b := Fixed(ts);
      && Kind(b) == 1 && SpecOk(b, out, limit)
      && Codable(FixedLengths(), 256) && (forall t <- ts :: TokenOk(FixedLengths(), Repeat(5, 30), t))
      && SpecBits(b, pos, out, limit) == BlockBits(FixedLengths(), Repeat(5, 30), ts)
  {
    hide BlockBits, FixedLengths, Repeat, TokenOk, Expandable;
  }

  lemma {:induction false} WritesDynamic(h: Header, ts: seq<Token>, pos: nat, out: seq<byte>, limit: nat)
    requires HeaderOk(h) && OpsOk(h.clens, [], h.ops) && |OpsLengths(h.clens, [], h.ops)| == h.hlit + h.hdist
    requires TokensOk(LitLengths(h), DistLengths(h), ts) && Expandable(out, ts, limit)
    ensures var b := Dynamic(h, ts);
      && Kind(b) == 2 && SpecOk(b, out, limit)
      && Codable(LitLengths(h), 256) && (forall t <- ts :: TokenOk(LitLengths(h), DistLengths(h), t))
      && SpecBits(b, pos, out, limit) == HeaderBits(h) + BlockBits(LitLengths(h), DistLengths(h), ts)
  {
    hide BlockBits, HeaderBits, LitLengths, DistLengths, TokenOk, Expandable, HeaderOk, OpsOk, OpsLengths;
  }

  lemma {:induction false} TokensMean(lits: seq<nat>, dists: seq<nat>, ts: seq<Token>)
    requires TokensOk(lits, dists, ts)
    ensures Codable(lits, 256) && forall t <- ts :: TokenOk(lits, dists, t)
  {
  }

  lemma {:induction false} StreamBack(data: seq<byte>, pos: nat, out: seq<byte>, limit: nat)
      returns (bs: seq<BlockSpec>)
    requires |out| <= limit && pos <= 8 * |data| && Stream(data, pos, out, limit).Ok?
    ensures StreamOk(bs, out, limit) && StreamAt(data, pos, StreamBits(bs, pos, out, limit))
    decreases 8 * |data| - pos
  {
    hide *;
    var last, kind := IntroBack(data, pos, out, limit);
    var b := SpecBack(kind, data, pos + 3, out, limit);
    var bits := Intro(last, b) + SpecBits(b, pos + 3, out, limit);
    IntroIs(last, b);
    BlockInside(kind, data, pos + 3, out, limit);
    ReadsSpec(b, data, pos + 3, out, limit);
    StreamJoin(data, pos, Intro(last, b), SpecBits(b, pos + 3, out, limit));
    if last {
      bs := [b];
      OneBlock(b, pos, out, limit);
    } else {
      var next := Output(b, out, limit);
      var more := StreamBack(data, pos + |bits|, next, limit);
      bs := [b] + more;
      MoreBlocks(b, more, pos, out, limit);
      StreamJoin(data, pos, bits, StreamBits(more, pos + |bits|, next, limit));
    }
  }

  lemma {:induction false} IntroBack(data: seq<byte>, pos: nat, out: seq<byte>, limit: nat) returns (last: bool,
      kind: nat)
    requires |out| <= limit && pos <= 8 * |data| && Stream(data, pos, out, limit).Ok?
    ensures kind < 4 && pos + 3 <= 8 * |data| && CompressedBlock(kind, data, pos + 3, out, limit).Ok?
    ensures StreamAt(data, pos, NumberBits(if last then 1 else 0, 1) + NumberBits(kind, 2))
    ensures !last ==>
              var r := CompressedBlock(kind, data, pos + 3, out, limit).value;
              |r.0| <= limit && Stream(data, r.1, r.0, limit).Ok?
  {
    hide *;
    last, kind := StreamReads(data, pos, out, limit);
    BitsBack(data, pos, 1);
    BitsBack(data, pos + 1, 2);
    NumberWide(if last then 1 else 0, 1);
    StreamJoin(data, pos, NumberBits(if last then 1 else 0, 1), NumberBits(kind, 2));
  }

  lemma {:induction false} StreamReads(data: seq<byte>, pos: nat, out: seq<byte>, limit: nat) returns (last: bool,
      kind: nat)
    requires |out| <= limit && Stream(data, pos, out, limit).Ok?
    ensures ReadBits(data, pos, 1) == Ok(if last then 1 else 0) && ReadBits(data, pos + 1, 2) == Ok(kind)
    ensures kind < 4 && pos + 3 <= 8 * |data| && CompressedBlock(kind, data, pos + 3, out, limit).Ok?
    ensures !last ==>
              var r := CompressedBlock(kind, data, pos + 3, out, limit).value;
              |r.0| <= limit && Stream(data, r.1, r.0, limit).Ok?
  {
    hide *;
    StreamGoes(data, pos, out, limit);
    BitsInside(data, pos, 1);
    BitsInside(data, pos + 1, 2);
    last, kind := ReadBits(data, pos, 1).value == 1, ReadBits(data, pos + 1, 2).value;
  }

  lemma {:induction false} StreamGoes(data: seq<byte>, pos: nat, out: seq<byte>, limit: nat)
    requires |out| <= limit && Stream(data, pos, out, limit).Ok?
    ensures ReadBits(data, pos, 1).Ok? && ReadBits(data, pos + 1, 2).Ok?
    ensures CompressedBlock(ReadBits(data, pos + 1, 2).value, data, pos + 3, out, limit).Ok?
    ensures var r := CompressedBlock(ReadBits(data, pos + 1, 2).value, data, pos + 3, out, limit).value;
            |r.0| <= limit && (ReadBits(data, pos, 1).value != 1 ==> Stream(data, r.1, r.0, limit).Ok?)
  {
    hide ReadBits, CompressedBlock;
  }

  lemma {:induction false} BitsInside(data: seq<byte>, pos: nat, n: nat)
    requires 1 <= n <= 2 && ReadBits(data, pos, n).Ok?
    ensures pos + n <= 8 * |data| && ReadBits(data, pos, n).value < if n == 1 then 2 else 4
  {
    assert Pow2(1) == 2 && Pow2(2) == 4;
    hide Bit;
  }

  lemma {:induction false} IntroIs(last: bool, b: BlockSpec)
    ensures Intro(last, b) == NumberBits(if last then 1 else 0, 1) + NumberBits(Kind(b), 2) && |Intro(last, b)| == 3
  {
  }

  lemma {:induction false} BlockInside(kind: nat, data: seq<byte>, pos: nat, out: seq<byte>, limit: nat)
    requires CompressedBlock(kind, data, pos, out, limit).Ok?
    ensures pos < CompressedBlock(kind, data, pos, out, limit).value.1 <= 8 * |data|
  {
  }

  lemma {:induction false} OneBlock(b: BlockSpec, pos: nat, out: seq<byte>, limit: nat)
    requires SpecOk(b, out, limit)
    ensures StreamOk([b], out, limit)
            && StreamBits([b], pos, out, limit) == Intro(true, b) + SpecBits(b, pos + 3, out, limit)
  {
    hide SpecOk, SpecBits, Intro;
  }

  lemma {:induction false} MoreBlocks(b: BlockSpec, more: seq<BlockSpec>, pos: nat, out: seq<byte>, limit: nat)
    requires SpecOk(b, out, limit) && StreamOk(more, Output(b, out, limit), limit)
    ensures StreamOk([b] + more, out, limit)
    ensures var bits := Intro(false, b) + SpecBits(b, pos + 3, out, limit);
            StreamBits([b] + more, pos, out, limit)
            == bits + StreamBits(more, pos + |bits|, Output(b, out, limit), limit)
  {
    hide SpecOk, SpecBits, Intro, Output;
    assert ([b] + more)[1..] == more;
  }

  /** `inflate` succeeds on exactly the streams of blocks: with output `o` after `n` bytes if and only if
      some blocks that stand for `o` were written there, in `n` bytes. */
  lemma {:induction false} InflatesExactly(data: seq<byte>, limit: nat, o: seq<byte>, n: nat)
    ensures Stream(data, 0, [], limit) == Ok((o, n)) <==>
            exists bs ::
              && StreamOk(bs, [], limit) && StreamAt(data, 0, StreamBits(bs, 0, [], limit))
              && StreamOutput(bs, [], limit) == o && (|StreamBits(bs, 0, [], limit)| + 7) / 8 == n
  {
    hide *;
    if Stream(data, 0, [], limit) == Ok((o, n)) {
      var bs := StreamBack(data, 0, [], limit);
      StreamInflates(bs, data, 0, [], limit);
    }
    if bs :| StreamOk(bs, [], limit) && StreamAt(data, 0, StreamBits(bs, 0, [], limit))
             && StreamOutput(bs, [], limit) == o && (|StreamBits(bs, 0, [], limit)| + 7) / 8 == n {
      StreamInflates(bs, data, 0, [], limit);
    }
  }
}
