// Whole DEFLATE streams: dynamic-table headers are read back as the code lengths they were written
// from, and a stream of stored, fixed and dynamic blocks yields everything its blocks stand for.
module InflateStreams {
  import opened Utf8
  import opened Sequences
  import opened Huffmans
  import opened Inflate
  import opened InflateProofs

  // ---- headers --------------------------------------------------------------

  /** A symbol of the code-length alphabet with the value of its extra bits. */
  datatype Op = Op(sym: nat, extra: nat)

  /** Section 3.2.7 of RFC 1951: alphabet sizes, code-length code, run-length coded lengths. */
  datatype Header = Header(hlit: nat, hdist: nat, hclen: nat, clens: seq<nat>, ops: seq<Op>)

  function OpExtra(sym: nat): nat {
    if sym <= 15 then 0 else if sym == 16 then 2 else if sym == 17 then 3 else 7
  }

  predicate OpOk(clens: seq<nat>, ls: seq<nat>, op: Op) {
    Codable(clens, op.sym) && op.sym <= 18 && op.extra < Pow2(OpExtra(op.sym)) && (op.sym == 16 ==> ls != [])
  }

  /** The lengths an operation adds. */
  function OpAdds(ls: seq<nat>, op: Op): (s: seq<nat>)
    requires op.sym <= 18 && (op.sym == 16 ==> ls != [])
    ensures |s| > 0
  {
    if op.sym <= 15 then [op.sym]
    else if op.sym == 16 then Repeat(ls[|ls| - 1], 3 + op.extra)
    else if op.sym == 17 then Repeat(0, 3 + op.extra)
    else Repeat(0, 11 + op.extra)
  }

  predicate OpsOk(clens: seq<nat>, ls: seq<nat>, ops: seq<Op>)
    decreases |ops|
  {
    ops == [] || (OpOk(clens, ls, ops[0]) && OpsOk(clens, ls + OpAdds(ls, ops[0]), ops[1..]))
  }

  function OpsLengths(clens: seq<nat>, ls: seq<nat>, ops: seq<Op>): (r: seq<nat>)
    requires OpsOk(clens, ls, ops)
    ensures |ls| <= |r| && (ops != [] ==> |ls| < |r|)
    decreases |ops|
  {
    if ops == [] then ls else OpsLengths(clens, ls + OpAdds(ls, ops[0]), ops[1..])
  }

  function OpBits(clens: seq<nat>, op: Op): seq<nat>
    requires Codable(clens, op.sym)
  {
    SymbolBits(clens, op.sym) + NumberBits(op.extra, OpExtra(op.sym))
  }

  function OpsBits(clens: seq<nat>, ls: seq<nat>, ops: seq<Op>): seq<nat>
    requires OpsOk(clens, ls, ops)
    decreases |ops|
  {
    if ops == [] then [] else OpBits(clens, ops[0]) + OpsBits(clens, ls + OpAdds(ls, ops[0]), ops[1..])
  }

  predicate ClensOk(h: Header) {
    && 4 <= h.hclen <= 19 && |h.clens| == 19 && (forall j | 0 <= j < 19 :: h.clens[j] < 8)
    && (forall i | h.hclen <= i < 19 :: h.clens[ClenOrder(i)] == 0)
    && !OverSubscribed(h.clens)
  }

  ghost predicate HeaderOk(h: Header) {
    && 257 <= h.hlit < 289 && 1 <= h.hdist < 33 && ClensOk(h)
    && OpsOk(h.clens, [], h.ops) && |OpsLengths(h.clens, [], h.ops)| == h.hlit + h.hdist
    && OpsLengths(h.clens, [], h.ops)[256] > 0
    && NewOf(LitLengths(h)).Ok? && NewOf(DistLengths(h)).Ok?
  }

  function LitLengths(h: Header): seq<nat>
    requires OpsOk(h.clens, [], h.ops) && |OpsLengths(h.clens, [], h.ops)| == h.hlit + h.hdist
  {
    OpsLengths(h.clens, [], h.ops)[..h.hlit]
  }

  function DistLengths(h: Header): seq<nat>
    requires OpsOk(h.clens, [], h.ops) && |OpsLengths(h.clens, [], h.ops)| == h.hlit + h.hdist
  {
    OpsLengths(h.clens, [], h.ops)[h.hlit..]
  }

  function ClenBits(clens: seq<nat>, i: nat, n: nat): (s: seq<nat>)
    requires i <= n <= 19 == |clens|
    ensures |s| == 3 * (n - i)
    decreases n - i
  {
    if i == n then [] else NumberBits(clens[ClenOrder(i)], 3) + ClenBits(clens, i + 1, n)
  }

  function SizeBits(h: Header): (s: seq<nat>)
    requires 257 <= h.hlit && 1 <= h.hdist && 4 <= h.hclen
    ensures |s| == 14
  {
    NumberBits(h.hlit - 257, 5) + (NumberBits(h.hdist - 1, 5) + NumberBits(h.hclen - 4, 4))
  }

  ghost function HeaderBits(h: Header): seq<nat>
    requires HeaderOk(h)
  {
    SizeBits(h) + (ClenBits(h.clens, 0, h.hclen) + OpsBits(h.clens, [], h.ops))
  }

  /** The place of slot `j` in the fixed order. */
  function ClenPlace(j: nat): (i: nat)
    requires j < 19
    ensures i < 19 && ClenOrder(i) == j
  {
    [3, 17, 15, 13, 11, 9, 7, 5, 4, 6, 8, 10, 12, 14, 16, 18, 0, 1, 2][j]
  }

  /** Slots that have been read hold their lengths, the others nothing. */
  ghost predicate ReadSoFar(clens: seq<nat>, ls: seq<nat>, i: nat)
    requires |clens| == 19 && i <= 19
  {
    |ls| == 19 && forall j | 0 <= j < 19 :: ls[j] == if ClenPlace(j) < i then clens[j] else 0
  }

  lemma {:induction false} PlaceIsOrder(i: nat)
    requires i < 19
    ensures ClenPlace(ClenOrder(i)) == i
  {
  }

  lemma {:induction false} ReadMore(clens: seq<nat>, ls: seq<nat>, i: nat)
    requires |clens| == 19 && i < 19 && ReadSoFar(clens, ls, i)
    ensures ReadSoFar(clens, ls[ClenOrder(i) := clens[ClenOrder(i)]], i + 1)
  {
    PlaceIsOrder(i);
    hide ClenOrder, ClenPlace;
    forall j | 0 <= j < 19 && j != ClenOrder(i)
      ensures ClenPlace(j) != i
    {
    }
  }

  lemma {:induction false} ReadsClens(data: seq<byte>, pos: nat, clens: seq<nat>, i: nat, n: nat, ls: seq<nat>)
    requires i <= n <= 19 == |clens| && (forall j | 0 <= j < 19 :: clens[j] < 8) && ReadSoFar(clens, ls, i)
    requires StreamAt(data, pos + 3 * i, ClenBits(clens, i, n))
    ensures ClenLengths(data, pos, i, n, ls).Ok? && ReadSoFar(clens, ClenLengths(data, pos, i, n, ls).value, n)
    decreases n - i
  {
    hide ClenOrder, ReadSoFar, StreamAt, ReadBits, NumberBits;
    if i < n {
      var v := clens[ClenOrder(i)];
      StreamSplit(data, pos + 3 * i, NumberBits(v, 3), ClenBits(clens, i + 1, n));
      assert Pow2(3) == 8;
      ReadsNumber(data, pos + 3 * i, v, 3);
      SlotCount(clens, ls, i);
      ReadMore(clens, ls, i);
      ReadsClens(data, pos, clens, i + 1, n, ls[ClenOrder(i) := v]);
    }
  }

  lemma {:induction false} SlotCount(clens: seq<nat>, ls: seq<nat>, i: nat)
    requires |clens| == 19 && i <= 19 && ReadSoFar(clens, ls, i)
    ensures |ls| == 19
  {
  }

  lemma {:induction false} AllRead(h: Header, ls: seq<nat>)
    requires ClensOk(h) && ReadSoFar(h.clens, ls, h.hclen)
    ensures ls == h.clens
  {
    hide ClenOrder, ClenPlace;
    forall j | 0 <= j < 19
      ensures ls[j] == h.clens[j]
    {
      assert ClenOrder(ClenPlace(j)) == j;
    }
  }

  lemma {:induction false} AcceptedOf(ls: seq<nat>)
    requires LengthsOk(ls) && !OverSubscribed(ls)
    ensures Accepted(HuffmanOf(ls), ls) && NewOf(ls) == Ok(HuffmanOf(ls))
  {
    forall s | 0 <= s < |ls| && ls[s] > 0
      ensures Slot(ls, s) < |HuffmanOf(ls).symbols| && HuffmanOf(ls).symbols[Slot(ls, s)] == s
    {
      OneSlot(ls, s);
    }
    hide Slot, OverSubscribed, Count, Offset;
  }

  lemma {:induction false} ReadsOp(clen: Huffman, clens: seq<nat>, data: seq<byte>, pos: nat, ls: seq<nat>, op: Op)
    requires Accepted(clen, clens) && OpOk(clens, ls, op) && StreamAt(data, pos, OpBits(clens, op))
    ensures HuffOk(clen) && ClenStep(clen, data, pos, ls) == Ok(Lengths(OpAdds(ls, op), pos + |OpBits(clens, op)|))
  {
    hide StreamAt, NumberBits, CodeBits, Code, Decode, ReadBits, Table, LengthsOk, OverSubscribed, HuffOk;
    TablesOk(clen, clens);
    StreamSplit(data, pos, SymbolBits(clens, op.sym), NumberBits(op.extra, OpExtra(op.sym)));
    DecodesCode(clen, clens, data, pos, op.sym);
    if op.sym > 15 { ReadsNumber(data, pos + clens[op.sym], op.extra, OpExtra(op.sym)); }
  }

  lemma {:induction false} ReadsOps(clen: Huffman, clens: seq<nat>, data: seq<byte>, pos: nat, ls: seq<nat>,
      ops: seq<Op>, n: nat)
    requires Accepted(clen, clens) && OpsOk(clens, ls, ops) && |OpsLengths(clens, ls, ops)| == n
    requires StreamAt(data, pos, OpsBits(clens, ls, ops))
    ensures HuffOk(clen)
    ensures CodeLengths(clen, data, pos, ls, n) ==
            Ok(Lengths(OpsLengths(clens, ls, ops), pos + |OpsBits(clens, ls, ops)|))
    decreases |ops|
  {
    hide StreamAt, OpBits, ClenStep, Accepted, HuffOk, OpAdds;
    TablesOk(clen, clens);
    if ops != [] {
      var more := ls + OpAdds(ls, ops[0]);
      StreamSplit(data, pos, OpBits(clens, ops[0]), OpsBits(clens, more, ops[1..]));
      ReadsOp(clen, clens, data, pos, ls, ops[0]);
      ReadsOps(clen, clens, data, pos + |OpBits(clens, ops[0])|, more, ops[1..], n);
    }
  }

  /** `dynamic_tables` reads back exactly the tables a header was written for. */
  lemma {:induction false} ReadsHeader(h: Header, data: seq<byte>, pos: nat)
    requires HeaderOk(h) && StreamAt(data, pos, HeaderBits(h))
    ensures DynamicTables(data, pos) ==
            Ok(Tables(HuffmanOf(LitLengths(h)), HuffmanOf(DistLengths(h)), pos + |HeaderBits(h)|))
  {
    hide *;
    HeaderMeans(h);
    var sizes, cbits, obits := SizeBits(h), ClenBits(h.clens, 0, h.hclen), OpsBits(h.clens, [], h.ops);
    StreamSplit(data, pos, sizes, cbits + obits);
    StreamSplit(data, pos + 14, cbits, obits);
    ReadsSizes(h, data, pos);
    NothingRead(h.clens);
    ReadsClens(data, pos + 14, h.clens, 0, h.hclen, Repeat(0, 19));
    AllRead(h, ClenLengths(data, pos + 14, 0, h.hclen, Repeat(0, 19)).value);
    AcceptedOf(h.clens);
    TablesOk(HuffmanOf(h.clens), h.clens);
    ReadsOps(HuffmanOf(h.clens), h.clens, data, pos + 14 + 3 * h.hclen, [], h.ops, h.hlit + h.hdist);
    TablesAre(h, data, pos);
  }

  lemma {:induction false} NothingRead(clens: seq<nat>)
    requires |clens| == 19
    ensures ReadSoFar(clens, Repeat(0, 19), 0)
  {
  }

  lemma {:induction false} HeaderMeans(h: Header)
    requires HeaderOk(h)
    ensures ClensOk(h) && 4 <= h.hclen <= 19 && |h.clens| == 19 && (forall j | 0 <= j < 19 :: h.clens[j] < 8)
    ensures 257 <= h.hlit < 289 && 1 <= h.hdist < 33 && OpsOk(h.clens, [], h.ops)
    ensures |OpsLengths(h.clens, [], h.ops)| == h.hlit + h.hdist
    ensures LengthsOk(h.clens) && !OverSubscribed(h.clens)
    ensures HeaderBits(h) == SizeBits(h) + (ClenBits(h.clens, 0, h.hclen) + OpsBits(h.clens, [], h.ops))
  {
    hide OverSubscribed, ClenBits, OpsBits, SizeBits;
  }

  lemma {:induction false} ReadsSizes(h: Header, data: seq<byte>, pos: nat)
    requires 257 <= h.hlit < 289 && 1 <= h.hdist < 33 && 4 <= h.hclen <= 19 && StreamAt(data, pos, SizeBits(h))
    ensures ReadBits(data, pos, 5) == Ok(h.hlit - 257) && ReadBits(data, pos + 5, 5) == Ok(h.hdist - 1)
    ensures ReadBits(data, pos + 10, 4) == Ok(h.hclen - 4)
  {
    assert Pow2(4) == 16;
    assert Pow2(5) == 32;
    hide StreamAt, NumberBits, ReadBits, Pow2;
    var a, b, c := NumberBits(h.hlit - 257, 5), NumberBits(h.hdist - 1, 5), NumberBits(h.hclen - 4, 4);
    StreamSplit(data, pos, a, b + c);
    StreamSplit(data, pos + 5, b, c);
    ReadsNumber(data, pos, h.hlit - 257, 5);
    ReadsNumber(data, pos + 5, h.hdist - 1, 5);
    ReadsNumber(data, pos + 10, h.hclen - 4, 4);
  }

  lemma {:induction false} TablesAre(h: Header, data: seq<byte>, pos: nat)
    requires HeaderOk(h)
    requires ReadBits(data, pos, 5) == Ok(h.hlit - 257) && ReadBits(data, pos + 5, 5) == Ok(h.hdist - 1)
    requires ReadBits(data, pos + 10, 4) == Ok(h.hclen - 4)
    requires ClenLengths(data, pos + 14, 0, h.hclen, Repeat(0, 19)) == Ok(h.clens)
             && NewOf(h.clens) == Ok(HuffmanOf(h.clens))
    requires CodeLengths(HuffmanOf(h.clens), data, pos + 14 + 3 * h.hclen, [], h.hlit + h.hdist)
             == Ok(Lengths(OpsLengths(h.clens, [], h.ops), pos + 14 + 3 * h.hclen + |OpsBits(h.clens, [], h.ops)|))
    ensures DynamicTables(data, pos) ==
            Ok(Tables(HuffmanOf(LitLengths(h)), HuffmanOf(DistLengths(h)), pos + |HeaderBits(h)|))
  {
    hide ReadBits, ClenLengths, CodeLengths, OpsLengths, OpsBits,
      ClenBits, HuffmanOf, ClensOk, OverSubscribed, LengthsOk;
  }

  // ---- stored blocks --------------------------------------------------------

  function ByteBits(bytes: seq<byte>): (s: seq<nat>)
    ensures |s| == 8 * |bytes|
  {
    if bytes == [] then [] else NumberBits(bytes[0], 8) + ByteBits(bytes[1..])
  }

  /** Eight bits from a byte boundary are that byte. */
  lemma {:induction false} WholeByte(data: seq<byte>, k: nat)
    requires k < |data|
    ensures BitsValue(data, 8 * k, 8) == data[k]
  {
    ByteSum(data, k, 8);
    assert Pow2(8) == 256;
  }

  lemma {:induction false} ByteSum(data: seq<byte>, k: nat, n: nat)
    requires k < |data| && n <= 8
    ensures BitsValue(data, 8 * k, n) == data[k] % Pow2(n)
    decreases n
  {
    if n > 0 {
      ByteSum(data, k, n - 1);
      ModStep(data[k], Pow2(n - 1));
      assert (8 * k + n - 1) / 8 == k && (8 * k + n - 1) % 8 == n - 1;
    }
  }

  lemma {:induction false} ReadsBytes(data: seq<byte>, k: nat, bytes: seq<byte>)
    requires StreamAt(data, 8 * k, ByteBits(bytes))
    ensures k + |bytes| <= |data| && data[k..k + |bytes|] == bytes
    decreases |bytes|
  {
    hide StreamAt, NumberBits, BitsValue;
    InStream(data, 8 * k, ByteBits(bytes));
    if bytes != [] {
      StreamSplit(data, 8 * k, NumberBits(bytes[0], 8), ByteBits(bytes[1..]));
      assert Pow2(8) == 256;
      ValueReads(data, 8 * k, bytes[0], 8);
      WholeByte(data, k);
      ReadsBytes(data, k + 1, bytes[1..]);
      assert data[k..k + |bytes|] == [data[k]] + data[k + 1..k + 1 + |bytes[1..]|];
    }
  }

  lemma {:induction false} InStream(data: seq<byte>, pos: nat, bits: seq<nat>)
    requires StreamAt(data, pos, bits)
    ensures pos + |bits| <= 8 * |data|
  {
  }

  /** Whatever is left of the current byte is `pad`. */
  function StoredBits(bytes: seq<byte>, pad: nat, pos: nat): (s: seq<nat>)
    requires |bytes| <= 0xFFFF
    ensures |s| == Align(pos) - pos + 32 + 8 * |bytes|
  {
    NumberBits(pad, Align(pos) - pos) + (NumberBits(|bytes|, 16) + (NumberBits(0xFFFF - |bytes|, 16) + ByteBits(bytes)))
  }

  lemma {:induction false} ReadsStored(data: seq<byte>, pos: nat, bytes: seq<byte>, pad: nat, out: seq<byte>,
      limit: nat)
    requires |bytes| <= 0xFFFF && |out| + |bytes| <= limit && StreamAt(data, pos, StoredBits(bytes, pad, pos))
    ensures StoredBlock(data, pos, out, limit) == Ok((out + bytes, pos + |StoredBits(bytes, pad, pos)|))
  {
    var p := Align(pos);
    Pow16();
    hide StreamAt, NumberBits, ReadBits, Pow2, ByteBits;
    var fill, len, nlen := NumberBits(pad, p - pos), NumberBits(|bytes|, 16), NumberBits(0xFFFF - |bytes|, 16);
    StreamSplit(data, pos, fill, len + (nlen + ByteBits(bytes)));
    StreamSplit(data, p, len, nlen + ByteBits(bytes));
    StreamSplit(data, p + 16, nlen, ByteBits(bytes));
    ReadsNumber(data, p, |bytes|, 16);
    ReadsNumber(data, p + 16, 0xFFFF - |bytes|, 16);
    assert p + 32 == 8 * ((p + 32) / 8);
    ReadsBytes(data, (p + 32) / 8, bytes);
  }

  lemma {:induction false} Pow16()
    ensures Pow2(16) == 0x1_0000
  {
    assert Pow2(8) == 256;
    assert Pow2(12) == 16 * Pow2(8);
    assert Pow2(16) == 16 * Pow2(12);
  }

  // ---- streams --------------------------------------------------------------

  datatype BlockSpec = Stored(bytes: seq<byte>, pad: nat) | Fixed(ts: seq<Token>) | Dynamic(h: Header, ts: seq<Token>)

  ghost predicate TokensOk(lits: seq<nat>, dists: seq<nat>, ts: seq<Token>) {
    Codable(lits, 256) && forall t <- ts :: TokenOk(lits, dists, t)
  }

  /** The block can be written, and its output stays inside the limit. */
  ghost predicate SpecOk(b: BlockSpec, out: seq<byte>, limit: nat) {
    match b
    case Stored(bytes, _) => |bytes| <= 0xFFFF && |out| + |bytes| <= limit
    case Fixed(ts) => TokensOk(FixedLengths(), Repeat(5, 30), ts) && Expandable(out, ts, limit)
    case Dynamic(h, ts) => HeaderOk(h) && TokensOk(LitLengths(h), DistLengths(h), ts) && Expandable(out, ts, limit)
  }

  ghost function Output(b: BlockSpec, out: seq<byte>, limit: nat): seq<byte>
    requires SpecOk(b, out, limit)
  {
    match b
    case Stored(bytes, _) => out + bytes
    case Fixed(ts) => Expand(out, ts, limit)
    case Dynamic(_, ts) => Expand(out, ts, limit)
  }

  function Kind(b: BlockSpec): (k: nat)
    ensures k < 4
  {
    match b case Stored(_, _) => 0 case Fixed(_) => 1 case Dynamic(_, _) => 2
  }

  ghost function SpecBits(b: BlockSpec, pos: nat, out: seq<byte>, limit: nat): seq<nat>
    requires SpecOk(b, out, limit)
  {
    match b
    case Stored(bytes, pad) => StoredBits(bytes, pad, pos)
    case Fixed(ts) => BlockBits(FixedLengths(), Repeat(5, 30), ts)
    case Dynamic(h, ts) => HeaderBits(h) + BlockBits(LitLengths(h), DistLengths(h), ts)
  }

  /** Block header: final flag and type. */
  function Intro(last: bool, b: BlockSpec): (s: seq<nat>)
    ensures |s| == 3
  {
    NumberBits(if last then 1 else 0, 1) + NumberBits(Kind(b), 2)
  }

  ghost predicate StreamOk(bs: seq<BlockSpec>, out: seq<byte>, limit: nat)
    decreases |bs|
  {
    bs != [] && SpecOk(bs[0], out, limit) && (|bs| > 1 ==> StreamOk(bs[1..], Output(bs[0], out, limit), limit))
  }

  ghost function StreamBits(bs: seq<BlockSpec>, pos: nat, out: seq<byte>, limit: nat): seq<nat>
    requires StreamOk(bs, out, limit)
    decreases |bs|
  {
    var block := Intro(|bs| == 1, bs[0]) + SpecBits(bs[0], pos + 3, out, limit);
    if |bs| == 1 then block else block + StreamBits(bs[1..], pos + |block|, Output(bs[0], out, limit), limit)
  }

  ghost function StreamOutput(bs: seq<BlockSpec>, out: seq<byte>, limit: nat): seq<byte>
    requires StreamOk(bs, out, limit)
    decreases |bs|
  {
    if |bs| == 1 then Output(bs[0], out, limit) else StreamOutput(bs[1..], Output(bs[0], out, limit), limit)
  }

  lemma {:induction false} FixedAccepted()
    ensures Accepted(HuffmanOf(FixedLengths()), FixedLengths()) && Accepted(HuffmanOf(Repeat(5, 30)), Repeat(5, 30))
  {
    hide *;
    FixedFits();
    NewMeans(FixedLengths());
    NewMeans(Repeat(5, 30));
    AcceptedOf(FixedLengths());
    AcceptedOf(Repeat(5, 30));
  }

  lemma {:induction false} NewMeans(ls: seq<nat>)
    ensures NewOf(ls).Ok? <==> LengthsOk(ls) && !OverSubscribed(ls)
  {
  }

  lemma {:induction false} ReadsSpec(b: BlockSpec, data: seq<byte>, pos: nat, out: seq<byte>, limit: nat)
    requires SpecOk(b, out, limit) && StreamAt(data, pos, SpecBits(b, pos, out, limit))
    ensures CompressedBlock(Kind(b), data, pos, out, limit) ==
            Ok((Output(b, out, limit), pos + |SpecBits(b, pos, out, limit)|))
  {
    if b.Stored? {
      ReadsStored(data, pos, b.bytes, b.pad, out, limit);
    } else if b.Fixed? {
      ReadsFixed(b, data, pos, out, limit);
    } else {
      ReadsDynamic(b, data, pos, out, limit);
    }
    hide HeaderOk, TokensOk, Expandable, Expand, StoredBits, StoredBlock,
      BlockBits, HeaderBits, CompressedBlock, StreamAt, FixedLengths;
  }

  lemma {:induction false} ReadsFixed(b: BlockSpec, data: seq<byte>, pos: nat, out: seq<byte>, limit: nat)
    requires b.Fixed? && SpecOk(b, out, limit) && StreamAt(data, pos, SpecBits(b, pos, out, limit))
    ensures CompressedBlock(Kind(b), data, pos, out, limit) ==
            Ok((Output(b, out, limit), pos + |SpecBits(b, pos, out, limit)|))
  {
    hide TokenOk, Expandable, Expand, BlockBits, Block, StreamAt, FixedLengths, Repeat, HuffmanOf, Accepted;
    FixedAccepted();
    BlockExpands(HuffmanOf(FixedLengths()), HuffmanOf(Repeat(5, 30)),
      FixedLengths(), Repeat(5, 30), data, pos, out, b.ts, limit);
  }

  lemma {:induction false} ReadsDynamic(b: BlockSpec, data: seq<byte>, pos: nat, out: seq<byte>, limit: nat)
    requires b.Dynamic? && SpecOk(b, out, limit) && StreamAt(data, pos, SpecBits(b, pos, out, limit))
    ensures CompressedBlock(Kind(b), data, pos, out, limit) ==
            Ok((Output(b, out, limit), pos + |SpecBits(b, pos, out, limit)|))
  {
    hide *;
    DynamicMeans(b, pos, out, limit);
    var lits, dists := LitLengths(b.h), DistLengths(b.h);
    StreamSplit(data, pos, HeaderBits(b.h), BlockBits(lits, dists, b.ts));
    ReadsHeader(b.h, data, pos);
    HeaderTables(b.h);
    BlockExpands(HuffmanOf(lits), HuffmanOf(dists), lits, dists, data, pos + |HeaderBits(b.h)|, out, b.ts, limit);
    DynamicBlock(data, pos, HuffmanOf(lits), HuffmanOf(dists), pos + |HeaderBits(b.h)|, out, limit);
  }

  lemma {:induction false} DynamicMeans(b: BlockSpec, pos: nat, out: seq<byte>, limit: nat)
    requires b.Dynamic? && SpecOk(b, out, limit)
    ensures HeaderOk(b.h) && 257 <= b.h.hlit < 289 && 1 <= b.h.hdist < 33 && OpsOk(b.h.clens, [], b.h.ops)
    ensures |OpsLengths(b.h.clens, [], b.h.ops)| == b.h.hlit + b.h.hdist && Kind(b) == 2
    ensures var lits, dists := LitLengths(b.h), DistLengths(b.h);
      && Codable(lits, 256) && (forall t <- b.ts :: TokenOk(lits, dists, t)) && Expandable(out, b.ts, limit)
      && SpecBits(b, pos, out, limit) == HeaderBits(b.h) + BlockBits(lits, dists, b.ts)
      && Output(b, out, limit) == Expand(out, b.ts, limit)
  {
    hide HeaderOk, TokenOk, Expandable, Expand, BlockBits, HeaderBits, LitLengths, DistLengths;
    HeaderMeans(b.h);
  }

  lemma {:induction false} DynamicBlock(data: seq<byte>, pos: nat, lit: Huffman, dist: Huffman, at: nat, out: seq<byte>,
      limit: nat)
    requires DynamicTables(data, pos) == Ok(Tables(lit, dist, at)) && HuffOk(lit) && HuffOk(dist)
    ensures CompressedBlock(2, data, pos, out, limit) == Block(lit, dist, data, at, out, limit)
  {
    hide DynamicTables, Block;
  }

  lemma {:induction false} HeaderTables(h: Header)
    requires HeaderOk(h)
    ensures Accepted(HuffmanOf(LitLengths(h)), LitLengths(h)) && Accepted(HuffmanOf(DistLengths(h)), DistLengths(h))
  {
    hide Accepted, LengthsOk, OverSubscribed, HuffmanOf, OpsLengths, OpsOk, ClensOk;
    NewMeans(LitLengths(h));
    NewMeans(DistLengths(h));
    AcceptedOf(LitLengths(h));
    AcceptedOf(DistLengths(h));
  }

  lemma {:induction false} WithinLimit(b: BlockSpec, out: seq<byte>, limit: nat)
    requires SpecOk(b, out, limit) && |out| <= limit
    ensures |Output(b, out, limit)| <= limit
  {
    hide TokensOk, HeaderOk;
    if !b.Stored? { ExpandWithin(out, b.ts, limit); }
  }

  lemma {:induction false} ExpandWithin(out: seq<byte>, ts: seq<Token>, limit: nat)
    requires Expandable(out, ts, limit) && |out| <= limit
    ensures |Expand(out, ts, limit)| <= limit
    decreases |ts|
  {
    hide Apply, Reaches;
    if ts != [] { ExpandWithin(Apply(out, ts[0]), ts[1..], limit); }
  }

  /** `inflate` of any well-formed stream, in any mixture of block types, whatever follows it: the
      output its blocks stand for, and exactly its bytes consumed. */
  lemma {:induction false} StreamInflates(bs: seq<BlockSpec>, data: seq<byte>, pos: nat, out: seq<byte>, limit: nat)
    requires StreamOk(bs, out, limit) && |out| <= limit && StreamAt(data, pos, StreamBits(bs, pos, out, limit))
    ensures Stream(data, pos, out, limit) ==
            Ok((StreamOutput(bs, out, limit), (pos + |StreamBits(bs, pos, out, limit)| + 7) / 8))
    decreases |bs|
  {
    hide SpecOk, Output, SpecBits, StreamAt, CompressedBlock, ReadBits, NumberBits, Kind;
    var b, last := bs[0], |bs| == 1;
    var intro, bits := Intro(last, b), SpecBits(b, pos + 3, out, limit);
    var next := Output(b, out, limit);
    WithinLimit(b, out, limit);
    if !last { StreamSplit(data, pos, intro + bits, StreamBits(bs[1..], pos + 3 + |bits|, next, limit)); }
    StreamSplit(data, pos, intro, bits);
    ReadsIntro(data, pos, last, b);
    ReadsSpec(b, data, pos + 3, out, limit);
    StreamStep(data, pos, last, b, out, next, pos + 3 + |bits|, limit);
    if !last { StreamInflates(bs[1..], data, pos + 3 + |bits|, next, limit); }
  }

  lemma {:induction false} ReadsIntro(data: seq<byte>, pos: nat, last: bool, b: BlockSpec)
    requires StreamAt(data, pos, Intro(last, b))
    ensures ReadBits(data, pos, 1) == Ok(if last then 1 else 0) && ReadBits(data, pos + 1, 2) == Ok(Kind(b))
  {
    assert Pow2(1) == 2;
    assert Pow2(2) == 4;
    hide StreamAt, NumberBits, ReadBits, Pow2, Kind;
    StreamSplit(data, pos, NumberBits(if last then 1 else 0, 1), NumberBits(Kind(b), 2));
    ReadsNumber(data, pos, if last then 1 else 0, 1);
    ReadsNumber(data, pos + 1, Kind(b), 2);
  }

  lemma {:induction false} StreamStep(data: seq<byte>, pos: nat, last: bool, b: BlockSpec, out: seq<byte>,
      next: seq<byte>, at: nat, limit: nat)
    requires |out| <= limit && |next| <= limit
    requires ReadBits(data, pos, 1) == Ok(if last then 1 else 0) && ReadBits(data, pos + 1, 2) == Ok(Kind(b))
    requires CompressedBlock(Kind(b), data, pos + 3, out, limit) == Ok((next, at))
    ensures Stream(data, pos, out, limit) == if last then Ok((next, (at + 7) / 8)) else Stream(data, at, next, limit)
  {
    hide ReadBits, CompressedBlock, Kind;
  }
}
