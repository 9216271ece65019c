// The canonical Huffman tables of crates/posh-term/src/inflate.rs: building one from code lengths and
// walking it bit by bit, against the code assignment of section 3.2.2 of RFC 1951.
module Huffmans {
  import opened Sequences

  const MAX_LEN := 15

  datatype InflateError =
    | TruncatedInput | BadHeader | BadBlockType | BadStoredLength | BadHuffman | BadSymbol | BadDistance | BadChecksum
      | TooLarge

  datatype Res<+T> = Ok(value: T) | Err(error: InflateError)

  /** Symbol counts per code length, and the symbols ordered by length and then by number. */
  datatype Huffman = Huffman(counts: seq<nat>, symbols: seq<nat>)

  // ---- the code of RFC 1951 -------------------------------------------------

  function Count(ls: seq<nat>, l: nat): (n: nat)
    ensures n <= |ls|
  {
    if ls == [] then 0 else Count(ls[..|ls| - 1], l) + (if ls[|ls| - 1] == l then 1 else 0)
  }

  /** The smallest code of length `k`. */
  function First(ls: seq<nat>, k: nat): nat {
    if k <= 1 then 0 else 2 * (First(ls, k - 1) + Count(ls, k - 1))
  }

  /** The number of symbols with codes shorter than `k`. */
  function Offset(ls: seq<nat>, k: nat): nat {
    if k <= 1 then 0 else Offset(ls, k - 1) + Count(ls, k - 1)
  }

  /** Codes of one length are given out in symbol order. */
  function Rank(ls: seq<nat>, s: nat): nat
    requires s < |ls|
  {
    Count(ls[..s], ls[s])
  }

  function Code(ls: seq<nat>, s: nat): nat
    requires s < |ls|
  {
    First(ls, ls[s]) + Rank(ls, s)
  }

  function Share(l: nat): nat {
    if 0 < l <= MAX_LEN then Pow2(MAX_LEN - l) else 0
  }

  /** The share of the code space the lengths use, in units of 2^-15. */
  function Kraft(ls: seq<nat>): nat {
    if ls == [] then 0 else Kraft(ls[..|ls| - 1]) + Share(ls[|ls| - 1])
  }

  predicate LengthsOk(ls: seq<nat>) {
    forall i | 0 <= i < |ls| :: ls[i] <= MAX_LEN
  }

  predicate OverSubscribed(ls: seq<nat>) {
    Kraft(ls) > Pow2(MAX_LEN)
  }

  /** Where symbol `s` stands among the symbols ordered by length and number. */
  function Slot(ls: seq<nat>, s: nat): nat
    requires s < |ls|
  {
    Offset(ls, ls[s]) + Rank(ls, s)
  }

  ghost predicate Placed(ls: seq<nat>, symbols: seq<nat>, n: nat)
    requires n <= |ls|
  {
    forall s | 0 <= s < n && ls[s] > 0 :: Slot(ls, s) < |symbols| && symbols[Slot(ls, s)] == s
  }

  /** The table of the lengths `ls`. */
  ghost predicate Table(h: Huffman, ls: seq<nat>) {
    && |h.counts| == 16 && h.counts[0] == 0 && (forall l | 1 <= l <= MAX_LEN :: h.counts[l] == Count(ls, l))
    && |h.symbols| == Offset(ls, 16)
    && Placed(ls, h.symbols, |ls|)
  }

  /** The symbol of length `l` that comes `r`th. */
  function NthOf(ls: seq<nat>, l: nat, r: nat): (s: nat)
    requires r < Count(ls, l)
    ensures s < |ls| && ls[s] == l && Rank(ls, s) == r
  {
    var n := |ls| - 1;
    if ls[n] == l && Count(ls[..n], l) == r then n
    else
      var s := NthOf(ls[..n], l, r);
      assert ls[..n][..s] == ls[..s];
      s
  }

  /** The symbol in slot `i`, whose length is at most `k`. */
  function SymbolAt(ls: seq<nat>, i: nat, k: nat): (s: nat)
    requires 1 <= k <= MAX_LEN && i < Offset(ls, k + 1)
    ensures s < |ls| && 0 < ls[s] <= k && Slot(ls, s) == i
  {
    if i >= Offset(ls, k) then NthOf(ls, k, i - Offset(ls, k)) else SymbolAt(ls, i, k - 1)
  }

  /** Symbols with codes shorter than `k`. */
  function Total(counts: seq<nat>, k: nat): nat
    requires k <= |counts|
  {
    if k <= 1 then 0 else Total(counts, k - 1) + counts[k - 1]
  }

  /** The counts account for every symbol, so an index into the symbols is never out of range. */
  ghost predicate HuffOk(h: Huffman) {
    |h.counts| == 16 && |h.symbols| == Total(h.counts, 16)
  }

  lemma {:induction false} TotalGrows(counts: seq<nat>, k: nat)
    requires 1 <= k < 16 == |counts|
    ensures Total(counts, k) + counts[k] <= Total(counts, 16)
    decreases 16 - k
  {
    if k < 15 { TotalGrows(counts, k + 1); }
  }

  lemma {:induction false} TotalIs(counts: seq<nat>, ls: seq<nat>, k: nat)
    requires 1 <= k <= 16 == |counts| && forall l | 1 <= l < 16 :: counts[l] == Count(ls, l)
    ensures Total(counts, k) == Offset(ls, k)
    decreases k
  {
    if k > 1 { TotalIs(counts, ls, k - 1); }
  }

  /** The table of the lengths `ls`. */
  function HuffmanOf(ls: seq<nat>): (h: Huffman)
    ensures HuffOk(h)
  {
    var counts := seq(16, l requires 0 <= l < 16 => if l == 0 then 0 else Count(ls, l));
    TotalIs(counts, ls, 16);
    Huffman(counts, seq(Offset(ls, 16), i requires 0 <= i < Offset(ls, 16) => SymbolAt(ls, i, MAX_LEN)))
  }

  /** There is only one table: every slot belongs to a symbol. */
  lemma {:induction false} OneTable(h: Huffman, ls: seq<nat>)
    requires Table(h, ls)
    ensures h == HuffmanOf(ls)
  {
    hide Count, Slot, Offset;
    var t := HuffmanOf(ls);
    assert h.counts == t.counts;
    forall i | 0 <= i < |h.symbols|
      ensures h.symbols[i] == t.symbols[i]
    {
      var s := SymbolAt(ls, i, MAX_LEN);
      assert Slot(ls, s) == i;
    }
  }

  /** `Huffman::new`. */
  function NewOf(ls: seq<nat>): (r: Res<Huffman>)
    ensures r.Ok? ==> HuffOk(r.value)
  {
    if LengthsOk(ls) && !OverSubscribed(ls) then Ok(HuffmanOf(ls)) else Err(BadHuffman)
  }

  // ---- building -------------------------------------------------------------

  /** Space left below codes of length `k`, as the loop computes it. */
  function Left(ls: seq<nat>, k: nat): int {
    if k == 0 then 1 else 2 * Left(ls, k - 1) - Count(ls, k)
  }

  method CountLengths(ls: seq<nat>) returns (counts: seq<nat>, ok: bool)
    ensures ok <==> LengthsOk(ls)
    ensures ok ==> |counts| == 16 && counts[0] == 0 && forall l | 1 <= l <= MAX_LEN :: counts[l] == Count(ls, l)
  {
    counts := seq(16, i => 0);
    ok := true;
    for i := 0 to |ls|
      invariant |counts| == 16 && LengthsOk(ls[..i]) && forall l | 0 <= l <= MAX_LEN :: counts[l] == Count(ls[..i], l)
    {
      assert ls[..i + 1][..i] == ls[..i];
      if ls[i] > MAX_LEN { ok := false; return; }
      counts := counts[ls[i] := counts[ls[i]] + 1];
    }
    assert ls[..|ls|] == ls;
    counts := counts[0 := 0];
  }

  /** Fails as soon as the space runs out. */
  method SpaceLeft(counts: seq<nat>, ghost ls: seq<nat>) returns (ok: bool)
    requires LengthsOk(ls) && |counts| == 16 && forall l | 1 <= l <= MAX_LEN :: counts[l] == Count(ls, l)
    ensures ok <==> !OverSubscribed(ls)
  {
    var left: int := 1;
    for len := 1 to 16
      invariant left == Left(ls, len - 1) && left >= 0
    {
      left := 2 * left - counts[len];
      if left < 0 {
        LeftDecides(ls, len);
        return false;
      }
    }
    LeftDecides(ls, 15);
    return true;
  }

  method PlaceSymbols(counts: seq<nat>, ls: seq<nat>) returns (symbols: seq<nat>)
    requires LengthsOk(ls) && |counts| == 16 && forall l | 1 <= l <= MAX_LEN :: counts[l] == Count(ls, l)
    ensures |symbols| == Offset(ls, 16) && Placed(ls, symbols, |ls|)
  {
    hide Count, Slot;
    var offsets: seq<nat> := seq(16, i => 0);
    for len := 1 to 15
      invariant |offsets| == 16 && forall l | 1 <= l <= len :: offsets[l] == Offset(ls, l)
    {
      offsets := offsets[len + 1 := offsets[len] + counts[len]];
    }
    NoneBefore(ls, offsets);
    symbols := seq(Offset(ls, 16), i => 0);
    hide Offset;
    for s := 0 to |ls|
      invariant |symbols| == Offset(ls, 16) && NextSlots(ls, offsets, s) && Placed(ls, symbols, s)
    {
      SlotIs(ls, offsets, s);
      if ls[s] != 0 {
        SlotInside(ls, s);
        PlaceMore(ls, symbols, s);
        symbols := symbols[offsets[ls[s]] := s];
        offsets := offsets[ls[s] := offsets[ls[s]] + 1];
      }
    }
  }

  /** `offsets[l]` is where the next symbol of length `l` goes, the first `s` symbols being placed. */
  ghost predicate NextSlots(ls: seq<nat>, offsets: seq<nat>, s: nat)
    requires s <= |ls|
  {
    |offsets| == 16 && forall l | 1 <= l <= MAX_LEN :: offsets[l] == Offset(ls, l) + Count(ls[..s], l)
  }

  lemma {:induction false} NoneBefore(ls: seq<nat>, offsets: seq<nat>)
    requires |offsets| == 16 && forall l | 1 <= l <= MAX_LEN :: offsets[l] == Offset(ls, l)
    ensures NextSlots(ls, offsets, 0)
  {
  }

  lemma {:induction false} SlotIs(ls: seq<nat>, offsets: seq<nat>, s: nat)
    requires LengthsOk(ls) && s < |ls| && NextSlots(ls, offsets, s)
    ensures ls[s] != 0 ==> offsets[ls[s]] == Slot(ls, s)
    ensures NextSlots(ls, if ls[s] == 0 then offsets else offsets[ls[s] := offsets[ls[s]] + 1], s + 1)
  {
    hide Offset;
    assert ls[..s + 1][..s] == ls[..s];
  }

  lemma {:induction false} PlaceMore(ls: seq<nat>, symbols: seq<nat>, s: nat)
    requires s < |ls| && ls[s] > 0 && Placed(ls, symbols, s) && Slot(ls, s) < |symbols|
    ensures Placed(ls, symbols[Slot(ls, s) := s], s + 1)
  {
    forall t | 0 <= t < s && ls[t] > 0
      ensures Slot(ls, t) != Slot(ls, s)
    {
      SlotsDiffer(ls, t, s);
    }
    hide Slot;
  }

  /** `Huffman::new` rejects exactly lengths above fifteen and over-subscribed codes. */
  method New(ls: seq<nat>) returns (r: Res<Huffman>)
    ensures r.Ok? <==> LengthsOk(ls) && !OverSubscribed(ls)
    ensures r.Ok? ==> Table(r.value, ls)
    ensures r == NewOf(ls)
  {
    var counts, ok := CountLengths(ls);
    if !ok { return Err(BadHuffman); }
    ok := SpaceLeft(counts, ls);
    if !ok { return Err(BadHuffman); }
    var symbols := PlaceSymbols(counts, ls);
    OneTable(Huffman(counts, symbols), ls);
    return Ok(Huffman(counts, symbols));
  }

  // ---- lemmas ---------------------------------------------------------------

  lemma {:induction false} CountSplit(a: seq<nat>, b: seq<nat>, l: nat)
    ensures Count(a + b, l) == Count(a, l) + Count(b, l)
    decreases |b|
  {
    if b == [] {
      assert a + b == a;
    } else {
      assert (a + b)[..|a + b| - 1] == a + b[..|b| - 1];
      CountSplit(a, b[..|b| - 1], l);
    }
  }

  lemma {:induction false} RankBelow(ls: seq<nat>, s: nat)
    requires s < |ls|
    ensures Rank(ls, s) < Count(ls, ls[s])
  {
    CountSplit(ls[..s + 1], ls[s + 1..], ls[s]);
    assert ls == ls[..s + 1] + ls[s + 1..];
    assert ls[..s + 1][..s] == ls[..s];
  }

  lemma {:induction false} RanksDiffer(ls: seq<nat>, t: nat, s: nat)
    requires t < s < |ls| && ls[t] == ls[s]
    ensures Rank(ls, t) < Rank(ls, s)
  {
    assert ls[..s][..t] == ls[..t];
    RankBelow(ls[..s], t);
  }

  lemma {:induction false} OffsetGrows(ls: seq<nat>, k: nat, m: nat)
    requires 1 <= k < m
    ensures Offset(ls, k) + Count(ls, k) <= Offset(ls, m)
    decreases m
  {
    if k + 1 < m { OffsetGrows(ls, k, m - 1); }
  }

  lemma {:induction false} SlotInside(ls: seq<nat>, s: nat)
    requires s < |ls| && 0 < ls[s] <= MAX_LEN
    ensures Slot(ls, s) < Offset(ls, 16)
  {
    RankBelow(ls, s);
    OffsetGrows(ls, ls[s], 16);
  }

  lemma {:induction false} SlotsDiffer(ls: seq<nat>, t: nat, s: nat)
    requires t < s < |ls| && 0 < ls[t] && 0 < ls[s]
    ensures Slot(ls, t) != Slot(ls, s)
  {
    if ls[t] == ls[s] {
      RanksDiffer(ls, t, s);
    } else {
      RankBelow(ls, t);
      RankBelow(ls, s);
      if ls[t] < ls[s] { OffsetGrows(ls, ls[t], ls[s]); } else { OffsetGrows(ls, ls[s], ls[t]); }
    }
  }

  /** What the loop keeps is the space below the largest code so far. */
  lemma {:induction false} LeftIs(ls: seq<nat>, k: nat)
    requires k >= 1
    ensures Left(ls, k) == Pow2(k) - (First(ls, k) + Count(ls, k))
    decreases k
  {
    if k > 1 { LeftIs(ls, k - 1); } else { assert Left(ls, 0) == 1; }
  }

  /** Space used by codes of length at most `k`. */
  function Used(ls: seq<nat>, k: nat): nat
    requires k <= MAX_LEN
  {
    if k == 0 then 0 else Used(ls, k - 1) + Count(ls, k) * Pow2(MAX_LEN - k)
  }

  lemma {:induction false} PowSplit(a: nat)
    requires a < MAX_LEN
    ensures Pow2(MAX_LEN - a) == 2 * Pow2(MAX_LEN - a - 1)
  {
  }

  lemma {:induction false} LeftUsed(ls: seq<nat>, k: nat)
    requires k <= MAX_LEN
    ensures Left(ls, k) * Pow2(MAX_LEN - k) == Pow2(MAX_LEN) - Used(ls, k)
    decreases k
  {
    hide Pow2;
    if k > 0 {
      LeftUsed(ls, k - 1);
      PowSplit(k - 1);
      Spread(Left(ls, k - 1), Count(ls, k), Pow2(MAX_LEN - k));
    }
  }

  lemma {:induction false} Spread(l: int, c: int, p: int)
    ensures (2 * l - c) * p == l * (2 * p) - c * p
  {
  }

  lemma {:induction false} UsedGrows(ls: seq<nat>, k: nat, m: nat)
    requires k <= m <= MAX_LEN
    ensures Used(ls, k) <= Used(ls, m)
    decreases m
  {
    if k < m {
      UsedGrows(ls, k, m - 1);
      NotNegative(Count(ls, m), Pow2(MAX_LEN - m));
      hide Pow2, Count;
    }
  }

  lemma {:induction false} NotNegative(a: nat, b: nat)
    ensures a * b >= 0
  {
  }

  lemma {:induction false} UsedPush(ls: seq<nat>, l: nat, k: nat)
    requires k <= MAX_LEN
    ensures Used(ls + [l], k) == Used(ls, k) + (if l <= k then Share(l) else 0)
    decreases k
  {
    hide Pow2;
    if k > 0 {
      UsedPush(ls, l, k - 1);
      assert (ls + [l])[..|ls|] == ls;
      var p := Pow2(MAX_LEN - k);
      assert (Count(ls, k) + 1) * p == Count(ls, k) * p + p;
    }
  }

  lemma {:induction false} UsedIsKraft(ls: seq<nat>)
    ensures Used(ls, MAX_LEN) == Kraft(ls)
    decreases |ls|
  {
    hide Pow2;
    if ls == [] {
      UsedNone(MAX_LEN);
    } else {
      var init := ls[..|ls| - 1];
      UsedIsKraft(init);
      UsedPush(init, ls[|ls| - 1], MAX_LEN);
      assert ls == init + [ls[|ls| - 1]];
    }
  }

  lemma {:induction false} UsedNone(k: nat)
    requires k <= MAX_LEN
    ensures Used([], k) == 0
    decreases k
  {
    if k > 0 { UsedNone(k - 1); }
  }

  /** Running out of space at some length is running out of space altogether. */
  lemma {:induction false} LeftDecides(ls: seq<nat>, k: nat)
    requires k <= MAX_LEN
    ensures Left(ls, k) < 0 ==> OverSubscribed(ls)
    ensures k == MAX_LEN && Left(ls, k) >= 0 ==> !OverSubscribed(ls)
  {
    LeftUsed(ls, k);
    UsedGrows(ls, k, MAX_LEN);
    UsedIsKraft(ls);
    var p := Pow2(MAX_LEN - k);
    hide Left, Used, Kraft;
    if Left(ls, k) < 0 { NegativeTimes(Left(ls, k), p); }
    if k == MAX_LEN { assert p == 1; }
  }

  lemma {:induction false} NegativeTimes(a: int, p: int)
    requires a < 0 < p
    ensures a * p < 0
  {
  }
}
