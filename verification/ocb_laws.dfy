// OCB bit by bit and block by block: the doubling, the padding and the nonce spelled out, and every block
// in closed form, with offsets that follow the Gray code.
module OcbLaws {
  import opened Ocb

  // ---- bits -----------------------------------------------------------------

  /** Doubling is a shift by one bit, with 135 = 2^7 + 2^2 + 2 + 1 added when a bit falls out. */
  lemma {:induction false} DoubleBits(s: Block, i: nat)
    requires i < 128
    ensures Double(s)[i] == ((i < 127 && s[i + 1]) != (s[0] && (i == 120 || i == 125 || i == 126 || i == 127)))
  {
  }

  lemma {:induction false} DoubleLinear(a: Block, b: Block)
    ensures Double(Xor(a, b)) == Xor(Double(a), Double(b))
  {
    forall i | 0 <= i < 128
      ensures Double(Xor(a, b))[i] == Xor(Double(a), Double(b))[i]
    {
      DoubleBits(Xor(a, b), i);
      DoubleBits(a, i);
      DoubleBits(b, i);
    }
  }

  /** No two blocks double to the same. */
  lemma {:induction false} DoubleInjective(a: Block, b: Block)
    requires Double(a) == Double(b)
    ensures a == b
  {
    hide Double;
    DoubleBits(a, 127);
    DoubleBits(b, 127);
    forall i | 1 <= i < 128
      ensures a[i] == b[i]
    {
      DoubleBits(a, i - 1);
      DoubleBits(b, i - 1);
    }
  }

  /** A partial block is padded with a one and zeros, so that no two of them become the same block. */
  lemma {:induction false} PaddedBits(s: seq<bool>, i: nat)
    requires |s| < 128 && i < 128
    ensures Padded(s)[i] == if i < |s| then s[i] else i == |s|
  {
  }

  lemma {:induction false} PaddedInjective(s: seq<bool>, t: seq<bool>)
    requires |s| < 128 && |t| < 128 && Padded(s) == Padded(t)
    ensures s == t
  {
    hide Padded;
    PaddedBits(s, |s|);
    PaddedBits(t, |s|);
    PaddedBits(s, |t|);
    PaddedBits(t, |t|);
    if |s| == |t| {
      forall i | 0 <= i < |s|
        ensures s[i] == t[i]
      {
        PaddedBits(s, i);
        PaddedBits(t, i);
      }
    }
  }

  /** The block encrypted for a nonce: 31 zeros, a one, and the nonce with its last six bits cleared. */
  lemma {:induction false} TopBits(nonce: Nonce, i: nat)
    requires i < 128
    ensures Top(nonce)[i] == if i < 31 then false else if i == 31 then true else i < 122 && nonce[i - 32]
  {
  }

  lemma {:induction false} BottomIs(nonce: Nonce)
    ensures Bottom(nonce) == Weight(nonce[90], 32) + Weight(nonce[91], 16) + Weight(nonce[92], 8)
                             + Weight(nonce[93], 4) + Weight(nonce[94], 2) + Weight(nonce[95], 1)
  {
    assert Formatted(nonce)[122..] == nonce[90..];
    SixBits(nonce[90..]);
  }

  lemma {:induction false} SixBits(s: seq<bool>)
    requires |s| == 6
    ensures Value(s) == Weight(s[0], 32) + Weight(s[1], 16) + Weight(s[2], 8)
                        + Weight(s[3], 4) + Weight(s[4], 2) + Weight(s[5], 1)
  {
    hide Value;
    NoBits();
    assert s[..6] == s;
    assert s[..1][..0] == [];
    assert s[..2][..1] == s[..1];
    assert s[..3][..2] == s[..2];
    assert s[..4][..3] == s[..3];
    assert s[..5][..4] == s[..4];
    Grows(s[..1]);
    Grows(s[..2]);
    Grows(s[..3]);
    Grows(s[..4]);
    Grows(s[..5]);
    Grows(s);
  }

  function Weight(b: bool, w: nat): nat {
    if b then w else 0
  }

  lemma {:induction false} Grows(s: seq<bool>)
    requires s != []
    ensures Value(s) == 2 * Value(s[..|s| - 1]) + Weight(s[|s| - 1], 1)
  {
  }

  lemma {:induction false} NoBits()
    ensures Value([]) == 0
  {
  }

  /** The first offset: 128 bits of the encrypted block, from bit `Bottom` on, continued by its exclusive or
      with itself eight bits later. */
  lemma {:induction false} OffsetBits(k: Cipher, nonce: Nonce, i: nat)
    requires i < 128
    ensures var kt, j := k.E(Top(nonce)), Bottom(nonce) + i;
            Offset0(k, nonce)[i] == if j < 128 then kt[j] else kt[j - 128] != kt[j - 120]
  {
    hide Top, Bottom;
    var kt, b := k.E(Top(nonce)), Bottom(nonce);
    StretchBits(kt, b + i);
    hide Stretch;
    assert Stretch(kt)[b..b + 128][i] == Stretch(kt)[b + i];
  }

  lemma {:induction false} StretchBits(kt: Block, j: nat)
    requires j < 192
    ensures Stretch(kt)[j] == if j < 128 then kt[j] else kt[j - 128] != kt[j - 120]
  {
  }

  // ---- offsets --------------------------------------------------------------

  /** The Gray code: bit t of the result tells whether bits t and t + 1 of `i` differ. */
  function Gray(i: nat): nat {
    if i == 0 then 0 else 2 * Gray(i / 2) + Weight(i % 2 != i / 2 % 2, 1)
  }

  lemma {:induction false} GrayIs(i: nat)
    ensures Gray(i) == 2 * Gray(i / 2) + Weight(i % 2 != i / 2 % 2, 1)
  {
    if i == 0 { assert Gray(0) == 0; }
  }

  lemma {:induction false} GrayInjective(a: nat, b: nat)
    requires Gray(a) == Gray(b)
    ensures a == b
    decreases a + b
  {
    GrayIs(a);
    GrayIs(b);
    hide Gray;
    if a > 0 || b > 0 { GrayInjective(a / 2, b / 2); }
  }

  /** The sum of the L values of the bits that are set, from L_j on. */
  function Mask(k: Cipher, g: nat, j: nat): Block {
    if g == 0 then Zero() else Xor(if g % 2 == 1 then L(k, j) else Zero(), Mask(k, g / 2, j + 1))
  }

  lemma {:induction false} XorZero(a: Block)
    ensures Xor(a, Zero()) == a && Xor(Zero(), a) == a && Xor(a, a) == Zero()
  {
  }

  lemma {:induction false} XorAssoc(a: Block, b: Block, c: Block)
    ensures Xor(Xor(a, b), c) == Xor(a, Xor(b, c)) && Xor(Xor(a, b), c) == Xor(Xor(a, c), b)
  {
  }

  lemma {:induction false} MaskIs(k: Cipher, h: nat, b: bool, j: nat)
    ensures Mask(k, 2 * h + Weight(b, 1), j) == Xor(if b then L(k, j) else Zero(), Mask(k, h, j + 1))
  {
    XorZero(Zero());
    hide Xor, Zero, L;
    if h == 0 && !b { assert Mask(k, 0, j + 1) == Zero(); }
  }

  /** The next code differs in one bit: the number of trailing zeros of its index. */
  lemma {:induction false} MaskSteps(k: Cipher, n: nat, j: nat)
    ensures Mask(k, Gray(n + 1), j) == Xor(Mask(k, Gray(n), j), L(k, j + Ntz(n + 1)))
    decreases n
  {
    hide *;
    GrayIs(n);
    GrayIs(n + 1);
    var h := n / 2;
    MaskIs(k, Gray(n / 2), n % 2 != n / 2 % 2, j);
    MaskIs(k, Gray((n + 1) / 2), (n + 1) % 2 != (n + 1) / 2 % 2, j);
    NtzIs(n + 1);
    var m := Mask(k, Gray(h), j + 1);
    if n % 2 == 0 {
      FlipsLow(L(k, j), m);
    } else {
      MaskSteps(k, h, j + 1);
      XorAssoc(if n % 2 != n / 2 % 2 then L(k, j) else Zero(), m, L(k, j + 1 + Ntz(h + 1)));
    }
  }

  lemma {:induction false} NtzIs(n: nat)
    requires n > 0
    ensures n % 2 == 1 ==> Ntz(n) == 0
    ensures n % 2 == 0 ==> n / 2 > 0 && Ntz(n) == 1 + Ntz(n / 2)
  {
  }

  lemma {:induction false} FlipsLow(l: Block, m: Block)
    ensures Xor(l, m) == Xor(Xor(Zero(), m), l) && Xor(Zero(), m) == Xor(Xor(l, m), l)
  {
  }

  /** The offset of block `i`, counted from 1, after `first`. */
  function OffsetAt(k: Cipher, first: Block, i: nat): Block {
    Xor(first, Mask(k, Gray(i), 0))
  }

  lemma {:induction false} OffsetStep(k: Cipher, first: Block, i: nat)
    ensures OffsetAt(k, first, 0) == first
    ensures OffsetAt(k, first, i + 1) == Xor(OffsetAt(k, first, i), L(k, Ntz(i + 1)))
  {
    hide *;
    MaskSteps(k, i, 0);
    XorAssoc(first, Mask(k, Gray(i), 0), L(k, Ntz(i + 1)));
    NoMask(k);
    XorZero(first);
    OffsetIs(k, first, 0);
    OffsetIs(k, first, i);
    OffsetIs(k, first, i + 1);
  }

  lemma {:induction false} OffsetIs(k: Cipher, first: Block, i: nat)
    ensures OffsetAt(k, first, i) == Xor(first, Mask(k, Gray(i), 0))
  {
  }

  lemma {:induction false} NoMask(k: Cipher)
    ensures Mask(k, Gray(0), 0) == Zero()
  {
  }

  // ---- blocks in closed form ------------------------------------------------

  function BlockOf(s: seq<bool>, i: nat): Block
    requires 128 * i + 128 <= |s|
  {
    s[128 * i..128 * i + 128]
  }

  /** The exclusive or of the first `n` blocks. */
  function SumOf(s: seq<bool>, n: nat): Block
    requires 128 * n <= |s|
  {
    if n == 0 then Zero() else Xor(SumOf(s, n - 1), BlockOf(s, n - 1))
  }

  /** The state after `n` whole blocks of `p`. */
  ghost predicate After(k: Cipher, first: Block, p: seq<bool>, n: nat, m: Run) {
    128 * n <= |p| && m == Run(n, OffsetAt(k, first, n), SumOf(p, n))
  }

  ghost predicate Sealed(k: Cipher, first: Block, p: seq<bool>, c: seq<bool>, i: nat) {
    128 * i + 128 <= |p| && |p| == |c|
    && BlockOf(c, i) == Xor(OffsetAt(k, first, i + 1), k.E(Xor(BlockOf(p, i), OffsetAt(k, first, i + 1))))
  }

  lemma {:induction false} SealsFrom(k: Cipher, first: Block, p: seq<bool>, n: nat, m: Run)
    requires Whole(p) && After(k, first, p, n, m)
    ensures Whole(p[128 * n..])
    ensures var (e, c) := SealAll(k, m, p[128 * n..]);
      && After(k, first, p, |p| / 128, e)
      && forall i | 0 <= i < |p| / 128 - n ::
           && 128 * i + 128 <= |c|
           && BlockOf(c, i) == Xor(OffsetAt(k, first, n + i + 1),
                                   k.E(Xor(BlockOf(p, n + i), OffsetAt(k, first, n + i + 1))))
    decreases |p| / 128 - n
  {
    hide *;
    AfterMeans(k, first, p, n, m);
    Left(p, n);
    var rest := p[128 * n..];
    SealStep(k, m, rest);
    if 128 * n < |p| {
      var b := BlockOf(p, n);
      OneIs(p, n);
      OffsetStep(k, first, n);
      Absorbed(k, first, p, n, m);
      var m' := Absorb(k, m, b);
      assert rest[..128] == b && rest[128..] == p[128 * (n + 1)..];
      SealsFrom(k, first, p, n + 1, m');
      var (e, c) := SealAll(k, m, rest);
      var (e', c') := SealAll(k, m', rest[128..]);
      assert c == Seal(k, m, b) + c';
      forall i | 0 <= i < |p| / 128 - n
        ensures 128 * i + 128 <= |c|
        ensures BlockOf(c, i) == Xor(OffsetAt(k, first, n + i + 1),
                                     k.E(Xor(BlockOf(p, n + i), OffsetAt(k, first, n + i + 1))))
      {
        Tail(Seal(k, m, b), c', c, i);
        if i > 0 { assert n + 1 + (i - 1) == n + i; }
      }
    }
  }

  lemma {:induction false} Left(p: seq<bool>, n: nat)
    requires Whole(p) && 128 * n <= |p|
    ensures Whole(p[128 * n..]) && |p| == 128 * (|p| / 128) && (128 * n < |p| ==> 128 * n + 128 <= |p|)
    ensures 128 * n == |p| ==> n == |p| / 128 && p[128 * n..] == []
    ensures 128 * n < |p| ==> n < |p| / 128
  {
  }

  lemma {:induction false} OneIs(p: seq<bool>, n: nat)
    requires 128 * n + 128 <= |p|
    ensures BlockOf(p, n) == p[128 * n..128 * n + 128] == p[128 * n..][..128]
  {
  }

  lemma {:induction false} AfterMeans(k: Cipher, first: Block, p: seq<bool>, n: nat, m: Run)
    ensures After(k, first, p, n, m) <==> 128 * n <= |p| && m == Run(n, OffsetAt(k, first, n), SumOf(p, n))
  {
  }

  lemma {:induction false} SealStep(k: Cipher, m: Run, p: seq<bool>)
    requires Whole(p)
    ensures p == [] ==> SealAll(k, m, p) == (m, [])
    ensures p != [] ==>
              && |p| >= 128 && Whole(p[128..])
              && var (n, rest) := SealAll(k, Absorb(k, m, p[..128]), p[128..]);
                 SealAll(k, m, p) == (n, Seal(k, m, p[..128]) + rest)
  {
    hide Absorb, Seal;
  }

  lemma {:induction false} Absorbed(k: Cipher, first: Block, p: seq<bool>, n: nat, m: Run)
    requires After(k, first, p, n, m) && 128 * n + 128 <= |p|
    requires OffsetAt(k, first, n + 1) == Xor(OffsetAt(k, first, n), L(k, Ntz(n + 1)))
    ensures After(k, first, p, n + 1, Absorb(k, m, BlockOf(p, n)))
    ensures Seal(k, m, BlockOf(p, n)) ==
            Xor(OffsetAt(k, first, n + 1), k.E(Xor(BlockOf(p, n), OffsetAt(k, first, n + 1))))
  {
    hide OffsetAt, L, Ntz, Xor, BlockOf;
    assert SumOf(p, n + 1) == Xor(SumOf(p, n), BlockOf(p, n));
  }

  lemma {:induction false} Tail(b: Block, rest: seq<bool>, c: seq<bool>, i: nat)
    requires c == b + rest
    ensures 128 <= |c| && BlockOf(c, 0) == b
    ensures i > 0 && 128 * (i - 1) + 128 <= |rest| ==> 128 * i + 128 <= |c| && BlockOf(c, i) == BlockOf(rest, i - 1)
  {
    assert c[128 * 0..128 * 0 + 128] == b;
    if i > 0 && 128 * (i - 1) + 128 <= |rest| {
      assert c[128 * i..128 * i + 128] == rest[128 * (i - 1)..128 * (i - 1) + 128];
    }
  }

  lemma {:induction false} HashesFrom(k: Cipher, a: seq<bool>, n: nat, m: Run)
    requires Whole(a) && 128 * n <= |a| && m == Run(n, OffsetAt(k, Zero(), n), HashSum(k, a, n))
    ensures Whole(a[128 * n..])
    ensures HashAll(k, m, a[128 * n..]) == Run(|a| / 128, OffsetAt(k, Zero(), |a| / 128), HashSum(k, a, |a| / 128))
    decreases |a| / 128 - n
  {
    hide *;
    Left(a, n);
    var rest := a[128 * n..];
    HashStep(k, m, rest);
    if 128 * n < |a| {
      OneIs(a, n);
      OffsetStep(k, Zero(), n);
      Hashed(k, a, n, m);
      assert rest[..128] == BlockOf(a, n) && rest[128..] == a[128 * (n + 1)..];
      HashesFrom(k, a, n + 1, HashBlock(k, m, BlockOf(a, n)));
    }
  }

  /** The sum over the first `n` blocks of associated data. */
  function HashSum(k: Cipher, a: seq<bool>, n: nat): Block
    requires 128 * n <= |a|
  {
    if n == 0 then Zero()
    else Xor(HashSum(k, a, n - 1), k.E(Xor(OffsetAt(k, Zero(), n), BlockOf(a, n - 1))))
  }

  lemma {:induction false} HashStep(k: Cipher, m: Run, a: seq<bool>)
    requires Whole(a)
    ensures a == [] ==> HashAll(k, m, a) == m
    ensures a != [] ==>
              |a| >= 128 && Whole(a[128..]) && HashAll(k, m, a) == HashAll(k, HashBlock(k, m, a[..128]), a[128..])
  {
    hide HashBlock;
  }

  lemma {:induction false} Hashed(k: Cipher, a: seq<bool>, n: nat, m: Run)
    requires 128 * n + 128 <= |a| && m == Run(n, OffsetAt(k, Zero(), n), HashSum(k, a, n))
    requires OffsetAt(k, Zero(), n + 1) == Xor(OffsetAt(k, Zero(), n), L(k, Ntz(n + 1)))
    ensures HashBlock(k, m, BlockOf(a, n)) == Run(n + 1, OffsetAt(k, Zero(), n + 1), HashSum(k, a, n + 1))
  {
    hide OffsetAt, L, Ntz, Xor, BlockOf;
  }

  /** The hash of associated data in closed form: each block is encrypted under the Gray-code offset of its
      index, a partial one padded and under L_* more, and all are added. */
  lemma {:induction false} HashIs(k: Cipher, a: seq<bool>)
    ensures var n := |a| / 128;
      var part := a[128 * n..];
      && 128 * n <= |a| && |part| < 128
      && Hash(k, a) ==
         if part == [] then HashSum(k, a, n)
         else Xor(HashSum(k, a, n), k.E(Xor(Xor(OffsetAt(k, Zero(), n), k.E(Zero())), Padded(part))))
  {
    hide *;
    var n := |a| / 128;
    CutIs(a);
    OffsetStep(k, Zero(), 0);
    Nothing(k, a[..128 * n]);
    assert a[..128 * n][128 * 0..] == a[..128 * n];
    HashesFrom(k, a[..128 * n], 0, Run(0, Zero(), Zero()));
    HashSumPart(k, a, a[..128 * n], n);
    HashEnds(k, a, n, Run(n, OffsetAt(k, Zero(), n), HashSum(k, a, n)));
  }

  lemma {:induction false} CutIs(s: seq<bool>)
    ensures var n := |s| / 128;
            Cut(s) == 128 * n <= |s| && |s| - 128 * n < 128 && Whole(s[..128 * n]) && |s[..128 * n]| / 128 == n
  {
  }

  lemma {:induction false} Nothing(k: Cipher, a: seq<bool>)
    ensures HashSum(k, a, 0) == Zero() && SumOf(a, 0) == Zero()
  {
  }

  lemma {:induction false} HashSumPart(k: Cipher, a: seq<bool>, part: seq<bool>, n: nat)
    requires 128 * n <= |part| <= |a| && part == a[..|part|]
    ensures HashSum(k, part, n) == HashSum(k, a, n) && SumOf(part, n) == SumOf(a, n)
    decreases n
  {
    hide OffsetAt, Xor;
    if n > 0 {
      HashSumPart(k, a, part, n - 1);
      assert part[128 * (n - 1)..128 * n] == a[128 * (n - 1)..128 * n];
    }
  }

  lemma {:induction false} HashEnds(k: Cipher, a: seq<bool>, n: nat, m: Run)
    requires n == |a| / 128 && Cut(a) == 128 * n <= |a| && |a| - 128 * n < 128 && Whole(a[..128 * n])
    requires HashAll(k, Run(0, Zero(), Zero()), a[..128 * n]) == m
    ensures var part := a[128 * n..];
            Hash(k, a) == if part == [] then m.checksum
                          else Xor(m.checksum, k.E(Xor(Xor(m.offset, k.E(Zero())), Padded(part))))
  {
    hide HashAll, Xor, Zero, Padded;
  }

  /** OCB-ENCRYPT in closed form: every whole block is sealed under the Gray-code offset of its index, the
      rest is masked by the offset with L_* added, and the tag is the sum of all blocks and the padded rest,
      encrypted under that offset with 2 L_* added, and the hash of the associated data. */
  lemma {:induction false} EncryptsAs(k: Cipher, nonce: Nonce, a: seq<bool>, p: seq<bool>)
    ensures var n := |p| / 128;
      var (c, tag) := Encrypt(k, nonce, a, p);
      var first, part, ls := Offset0(k, nonce), p[128 * n..], k.E(Zero());
      var last := OffsetAt(k, first, n);
      && |c| == |p| && 128 * n <= |p| && |part| < 128
      && (forall i | 0 <= i < n :: Sealed(k, first, p, c, i))
      && (part == [] ==> tag == Xor(k.E(Xor(Xor(last, Double(ls)), SumOf(p, n))), Hash(k, a)))
      && (part != [] ==>
            && (forall j | 0 <= j < |part| :: c[128 * n + j] == (part[j] != k.E(Xor(last, ls))[j]))
            && tag == Xor(k.E(Xor(Xor(Xor(last, ls), Double(ls)), Xor(SumOf(p, n), Padded(part)))), Hash(k, a)))
  {
    hide *;
    var n, first := |p| / 128, Offset0(k, nonce);
    CutIs(p);
    var whole, part := p[..128 * n], p[128 * n..];
    OffsetStep(k, first, 0);
    Nothing(k, whole);
    AfterMeans(k, first, whole, 0, Run(0, first, Zero()));
    assert whole[128 * 0..] == whole;
    SealsFrom(k, first, whole, 0, Run(0, first, Zero()));
    HashSumPart(k, p, whole, n);
    var (m, head) := SealAll(k, Run(0, first, Zero()), whole);
    AfterMeans(k, first, whole, n, m);
    EncryptParts(k, nonce, a, p, n, m, head);
    EndIs(k, m, part, Hash(k, a));
    var (c, tag) := Encrypt(k, nonce, a, p);
    forall i | 0 <= i < n
      ensures Sealed(k, first, p, c, i)
    {
      assert 0 + i == i;
      Inside(p, whole, n, i);
      Inside(c, head, n, i);
      SealedMeans(k, first, p, c, i);
    }
  }

  lemma {:induction false} SealedMeans(k: Cipher, first: Block, p: seq<bool>, c: seq<bool>, i: nat)
    requires 128 * i + 128 <= |p| && |p| == |c|
    ensures Sealed(k, first, p, c, i) <==>
            BlockOf(c, i) == Xor(OffsetAt(k, first, i + 1), k.E(Xor(BlockOf(p, i), OffsetAt(k, first, i + 1))))
  {
    hide OffsetAt, Xor, BlockOf;
  }

  lemma {:induction false} Inside(s: seq<bool>, whole: seq<bool>, n: nat, i: nat)
    requires i < n && 128 * n <= |s| && whole == s[..128 * n]
    ensures 128 * i + 128 <= |whole| && BlockOf(whole, i) == BlockOf(s, i)
  {
  }

  lemma {:induction false} EncryptParts(k: Cipher, nonce: Nonce, a: seq<bool>, p: seq<bool>, n: nat, m: Run,
      head: seq<bool>)
    requires n == |p| / 128 && Cut(p) == 128 * n <= |p| && |p| - 128 * n < 128 && Whole(p[..128 * n])
    requires SealAll(k, Run(0, Offset0(k, nonce), Zero()), p[..128 * n]) == (m, head)
    ensures var (c, tag) := Encrypt(k, nonce, a, p);
      var (tail, t) := SealEnd(k, m, p[128 * n..], Hash(k, a));
      |head| == 128 * n && c == head + tail && tag == t && c[..128 * n] == head && c[128 * n..] == tail
  {
    hide SealAll, SealEnd, Hash, Zero, Offset0;
  }

  lemma {:induction false} EndIs(k: Cipher, m: Run, part: seq<bool>, hash: Block)
    requires |part| < 128
    ensures var (tail, tag) := SealEnd(k, m, part, hash);
      var ls := k.E(Zero());
      && (part == [] ==> tag == Xor(k.E(Xor(Xor(m.offset, Double(ls)), m.checksum)), hash))
      && (part != [] ==>
            && |tail| == |part|
            && (forall j | 0 <= j < |part| :: tail[j] == (part[j] != k.E(Xor(m.offset, ls))[j]))
            && tag == Xor(k.E(Xor(Xor(Xor(m.offset, ls), Double(ls)), Xor(m.checksum, Padded(part)))), hash))
  {
    hide Xor, Zero, Double, Padded;
  }
}
