// zz-mosh/src/crypto/ocb_internal.cc: the OCB context with its L table, the cached nonce block, and
// encryption and decryption in batches of four blocks, in place where the caller wants it.
module OcbContext {
  import opened Ocb
  import opened Sequences
  import opened OcbProofs

  const TABLE := 16
  const LIMIT := 0x1_0000

  // ---- value computations ---------------------------------------------------

  type Word = w: seq<bool> | |w| == 64 witness seq(64, i => false)

  function Shl(x: Word, n: nat): Word
    requires n <= 64
  {
    x[n..] + Zeros(n)
  }

  function Shr(x: Word, n: nat): Word
    requires n <= 64
  {
    Zeros(n) + x[..64 - n]
  }

  function Or(x: Word, y: Word): Word {
    seq(64, i requires 0 <= i < 64 => x[i] || y[i])
  }

  /** The signed shift by 63: the top bit everywhere. */
  function SignMask(x: Word): Word {
    seq(64, i => x[0])
  }

  function And135(x: Word): Word {
    Zeros(56) + [x[56], false, false, false, false, x[61], x[62], x[63]]
  }

  /** `double_block` on the two words of a block; a word plus itself is a shift by one. */
  function DoubleWords(l: Word, r: Word): Block {
    XorBits(Shl(l, 1), Shr(r, 63)) + XorBits(Shl(r, 1), And135(SignMask(l)))
  }

  /** `gen_offset`: 128 bits out of three words. */
  function GenOffset(k0: Word, k1: Word, k2: Word, bot: nat): Block
    requires bot < 64
  {
    if bot != 0 then Or(Shl(k0, bot), Shr(k1, 64 - bot)) + Or(Shl(k1, bot), Shr(k2, 64 - bot)) else k0 + k1
  }

  /** The two-word doubling is double(S) of RFC 7253. */
  lemma {:induction false} DoubleIs(b: Block)
    ensures DoubleWords(b[..64], b[64..]) == Double(b)
  {
    var d, e := DoubleWords(b[..64], b[64..]), Double(b);
    var l, r: Word := b[..64], b[64..];
    assert Shr(r, 63) == Zeros(63) + [r[0]];
    forall i | 0 <= i < 128
      ensures d[i] == e[i]
    {
      if i < 64 {
        assert d[i] == (Shl(l, 1)[i] != Shr(r, 63)[i]);
      } else {
        assert d[i] == (Shl(r, 1)[i - 64] != And135(SignMask(l))[i - 64]);
      }
    }
  }

  /** `gen_offset` cuts the right window out of the stretch. */
  lemma {:induction false} WindowIs(ktop: Block, k2: Word, bot: nat)
    requires bot < 64 && k2 == Stretch(ktop)[128..]
    ensures GenOffset(ktop[..64], ktop[64..], k2, bot) == Stretch(ktop)[bot..bot + 128]
  {
    var k0, k1: Word := ktop[..64], ktop[64..];
    var s, g := Stretch(ktop), GenOffset(k0, k1, k2, bot);
    if bot != 0 {
      OrJoins(k0, k1, bot);
      OrJoins(k1, k2, bot);
      assert s[..64] == k0 && s[64..128] == k1;
      assert s[bot..bot + 128] == (k0[bot..] + k1[..bot]) + (k1[bot..] + k2[..bot]);
    }
  }

  lemma {:induction false} OrJoins(a: Word, b: Word, n: nat)
    requires n <= 64
    ensures Or(Shl(a, n), Shr(b, 64 - n)) == a[n..] + b[..n]
  {
  }

  /** The third word of the stretch as the code computes it. */
  lemma {:induction false} ThirdWord(k0: Word, k1: Word)
    ensures XorBits(XorBits(k0, Shl(k0, 8)), Shr(k1, 56)) == Stretch(k0 + k1)[128..]
  {
    var ktop: Block := k0 + k1;
    assert ktop[..64] == k0 && ktop[8..72] == k0[8..] + k1[..8];
  }

  /** The null nonce continues a message; a negative length keeps the last associated data. */
  datatype NonceArg = NoNonce | Given(nonce: Nonce)
  datatype AdArg = SameAd | Data(bits: seq<bool>)
  datatype TagArg = Bundled | Separate(tag: Block)

  // ---- the context ----------------------------------------------------------

  /** The L values, each doubled from the one before. */
  method Doublings(k: Cipher, first: Block) returns (table: seq<Block>)
    requires first == LDollar(k)
    ensures |table| == TABLE && forall i | 0 <= i < TABLE :: table[i] == L(k, i)
  {
    hide DoubleWords, Double, LDollar;
    DoubleIs(first);
    var tmp := DoubleWords(first[..64], first[64..]);
    table := [tmp];
    for i := 1 to TABLE
      invariant |table| == i && tmp == L(k, i - 1) && forall j | 0 <= j < i :: table[j] == L(k, j)
    {
      DoubleIs(tmp);
      tmp := DoubleWords(tmp[..64], tmp[64..]);
      table := table + [tmp];
    }
  }

  class Context {
    const key: Cipher
    var offset: Block
    var checksum: Block
    var lStar: Block
    var lDollar: Block
    var table: seq<Block>
    var adChecksum: Block
    var adOffset: Block
    var cachedTop: Block
    var k0: Word
    var k1: Word
    var k2: Word
    var adBlocks: nat
    var blocks: nat

    /** The L values are right, and so is the cached stretch unless nothing is cached yet. */
    ghost predicate Valid()
      reads this
    {
      && |table| == TABLE && (forall i | 0 <= i < TABLE :: table[i] == L(key, i))
      && lStar == LStar(key) && lDollar == LDollar(key)
      && (cachedTop != Zero() ==> k0 + k1 == key.E(cachedTop) && k2 == Stretch(key.E(cachedTop))[128..])
    }

    function Msg(): Run
      reads this
    {
      Run(blocks, offset, checksum)
    }

    function Ad(): Run
      reads this
    {
      Run(adBlocks, adOffset, adChecksum)
    }

    /** `ae_init`. */
    constructor (key: Cipher)
      ensures Valid() && this.key == key && cachedTop == Zero()
    {
      this.key := key;
      cachedTop, adChecksum := Zero(), Zero();
      adBlocks, blocks := 0, 0;
      offset, checksum, adOffset := Zero(), Zero(), Zero();
      k0, k1, k2 := Zeros(64), Zeros(64), Zeros(64);
      lStar := key.E(Zero());
      new;
      hide DoubleWords, Double, Stretch, Zero, Zeros, L;
      DoubleIs(lStar);
      lDollar := DoubleWords(lStar[..64], lStar[64..]);
      table := Doublings(key, lDollar);
    }

    /** The stretch is computed only when all but the last six bits of the nonce have changed. */
    method OffsetFromNonce(nonce: Nonce) returns (o: Block)
      requires Valid()
      modifies this`cachedTop, this`k0, this`k1, this`k2
      ensures Valid() && o == Offset0(key, nonce) && cachedTop == Top(nonce)
    {
      var tmp: Block := Zeros(31) + [true] + nonce;
      var idx := Value(tmp[122..]);
      tmp := tmp[..122] + Zeros(6);
      assert tmp == Top(nonce) && tmp[31] && idx == Bottom(nonce);
      assert tmp != Zero() by { assert !Zero()[31]; }
      if tmp != cachedTop {
        cachedTop := tmp;
        var ktop := key.E(tmp);
        k0, k1 := ktop[..64], ktop[64..];
        k2 := XorBits(XorBits(k0, Shl(k0, 8)), Shr(k1, 56));
        ThirdWord(k0, k1);
        assert k0 + k1 == ktop;
      }
      WindowIs(key.E(tmp), k2, idx);
      assert (k0 + k1)[..64] == k0 && (k0 + k1)[64..] == k1;
      o := GenOffset(k0, k1, k2, idx);
    }

    // ---- associated data ----------------------------------------------------

    /** Four blocks at once, the third offset straight from the first one. */
    method AdBatch(m: Run, a: seq<bool>) returns (n: Run)
      requires Valid() && m.num % 4 == 0 && |a| == 512 && m.num + 4 < LIMIT
      ensures n == HashAll(key, m, a) && n.num == m.num + 4
    {
      hide Ntz, L, HashAll, Xor;
      var a0: Block, a1: Block, a2: Block, a3: Block := a[..128], a[128..256], a[256..384], a[384..];
      HashBatch(key, m, a0, a1, a2, a3);
      assert a == a0 + a1 + a2 + a3;
      TableSuffices(m.num + 4);
      var oa0 := Xor(m.offset, table[0]);
      var oa1 := Xor(oa0, table[1]);
      var oa2 := Xor(m.offset, table[1]);
      var oa3 := Xor(oa2, table[Ntz(m.num + 4)]);
      var sum := Xor(m.checksum, key.E(Xor(oa0, a0)));
      sum := Xor(sum, key.E(Xor(oa1, a1)));
      sum := Xor(sum, key.E(Xor(oa2, a2)));
      sum := Xor(sum, key.E(Xor(oa3, a3)));
      n := Run(m.num + 4, oa3, sum);
    }

    /** Up to three whole blocks, offset and ready to be encrypted. */
    method CollectAd(m: Run, a: seq<bool>) returns (ta: seq<Block>, off: Block, k: nat)
      requires Valid() && m.num % 4 == 0 && |a| < 512
      ensures 128 * k <= |a| < 128 * k + 128 && Tracks(key, m, a, k, off, ta)
    {
      hide Ntz, L, Xor, Tracks;
      off, ta, k := m.offset, [], 0;
      var remaining := |a|;
      TrackNone(key, m, a);
      BatchIndices(m.num);
      if remaining >= 256 {
        TrackBlock(key, m, a, 0, off, ta);
        off := Xor(off, table[0]);
        ta := ta + [Xor(off, a[..128])];
        TrackBlock(key, m, a, 1, off, ta);
        off := Xor(off, table[1]);
        ta := ta + [Xor(off, a[128..256])];
        remaining, k := remaining - 256, 2;
      }
      if remaining >= 128 {
        TrackBlock(key, m, a, k, off, ta);
        off := Xor(off, table[0]);
        ta := ta + [Xor(off, a[128 * k..128 * k + 128])];
        k := k + 1;
      }
    }

    /** The rest of the data: whole blocks and a padded one, summed last to first. */
    method AdRest(m: Run, a: seq<bool>) returns (sum: Block)
      requires Valid() && m.num % 4 == 0 && |a| < 512
      ensures sum == HashEnd(key, HashAll(key, m, a[..Cut(a)]), a[Cut(a)..])
    {
      assert lStar == LStar(key);
      hide *;
      var ta, off, k := CollectAd(m, a);
      TrackEnd(key, m, a, k, off, ta);
      if 128 * k < |a| { ta := ta + [Xor(Xor(off, lStar), Padded(a[128 * k..]))]; }
      sum := SumBack(m.checksum, ta);
    }

    method SumBack(s: Block, ta: seq<Block>) returns (sum: Block)
      ensures sum == SumAll(key, s, ta)
    {
      hide Xor;
      sum := s;
      var k := |ta|;
      assert ta[..k] == ta;
      while k > 0
        invariant 0 <= k <= |ta| && SumAll(key, sum, ta[..k]) == SumAll(key, s, ta)
      {
        k := k - 1;
        SumFirst(key, sum, ta[..k], ta[k]);
        assert ta[..k + 1] == ta[..k] + [ta[k]];
        sum := Xor(sum, key.E(ta[k]));
      }
    }

    /** Whole batches always; the rest only in the final call. */
    method ProcessAd(ad: seq<bool>, final: bool)
      requires Valid() && adBlocks % 4 == 0 && adBlocks + |ad| / 128 < LIMIT
      modifies this`adOffset, this`adChecksum, this`adBlocks
      ensures Valid()
      ensures final ==> adChecksum == HashEnd(key, HashAll(key, old(Ad()), ad[..Cut(ad)]), ad[Cut(ad)..])
      ensures !final ==> Ad() == HashAll(key, old(Ad()), ad[..Batches(ad)])
    {
      hide Ntz, L, HashAll, HashEnd;
      var at, now := 0, Ad();
      HashNothing(key, now, ad);
      while at + 512 <= |ad|
        invariant 0 <= at <= |ad| && at % 512 == 0 && now.num == adBlocks + at / 128 && now.num % 4 == 0
        invariant now == HashAll(key, Ad(), ad[..at]) && Ad() == old(Ad()) && Valid()
      {
        HashAppend(key, Ad(), ad[..at], ad[at..at + 512]);
        assert ad[..at] + ad[at..at + 512] == ad[..at + 512];
        now := AdBatch(now, ad[at..at + 512]);
        at := at + 512;
      }
      HashSplit(key, Ad(), ad, at);
      adOffset, adChecksum, adBlocks := now.offset, now.checksum, now.num;
      if final { adChecksum := AdRest(now, ad[at..]); }
    }

    // ---- the message --------------------------------------------------------

    method SealBatch(m: Run, p: seq<bool>) returns (n: Run, c: seq<bool>)
      requires Valid() && m.num % 4 == 0 && |p| == 512 && m.num + 4 < LIMIT
      ensures (n, c) == SealAll(key, m, p) && n.num == m.num + 4
    {
      hide Ntz, L, SealAll, Xor;
      var p0: Block, p1: Block, p2: Block, p3: Block := p[..128], p[128..256], p[256..384], p[384..];
      SealFour(key, m, p0, p1, p2, p3);
      assert p == p0 + p1 + p2 + p3;
      TableSuffices(m.num + 4);
      var oa0 := Xor(m.offset, table[0]);
      var oa1 := Xor(oa0, table[1]);
      var oa2 := Xor(oa1, table[0]);
      var oa3 := Xor(oa2, table[Ntz(m.num + 4)]);
      BatchOffsets(key, m.offset, m.num, oa0, oa1, oa2, oa3);
      var sum := Xor(Xor(Xor(Xor(m.checksum, p0), p1), p2), p3);
      XorSwap(key.E(Xor(oa0, p0)), oa0);
      XorSwap(key.E(Xor(oa1, p1)), oa1);
      XorSwap(key.E(Xor(oa2, p2)), oa2);
      XorSwap(key.E(Xor(oa3, p3)), oa3);
      XorSwap(oa0, p0);
      XorSwap(oa1, p1);
      XorSwap(oa2, p2);
      XorSwap(oa3, p3);
      c := Xor(key.E(Xor(oa0, p0)), oa0) + Xor(key.E(Xor(oa1, p1)), oa1) + Xor(key.E(Xor(oa2, p2)), oa2)
        + Xor(key.E(Xor(oa3, p3)), oa3);
      n := Run(m.num + 4, oa3, sum);
    }

    method OpenBatch(m: Run, c: seq<bool>) returns (n: Run, p: seq<bool>)
      requires Valid() && m.num % 4 == 0 && |c| == 512 && m.num + 4 < LIMIT
      ensures (n, p) == OpenAll(key, m, c) && n.num == m.num + 4
    {
      hide Ntz, L, OpenAll, Xor;
      var c0: Block, c1: Block, c2: Block, c3: Block := c[..128], c[128..256], c[256..384], c[384..];
      OpenFour(key, m, c0, c1, c2, c3);
      assert c == c0 + c1 + c2 + c3;
      TableSuffices(m.num + 4);
      var oa0 := Xor(m.offset, table[0]);
      var oa1 := Xor(oa0, table[1]);
      var oa2 := Xor(oa1, table[0]);
      var oa3 := Xor(oa2, table[Ntz(m.num + 4)]);
      BatchOffsets(key, m.offset, m.num, oa0, oa1, oa2, oa3);
      var p0, p1 := Xor(key.D(Xor(oa0, c0)), oa0), Xor(key.D(Xor(oa1, c1)), oa1);
      var p2, p3 := Xor(key.D(Xor(oa2, c2)), oa2), Xor(key.D(Xor(oa3, c3)), oa3);
      XorSwap(key.D(Xor(oa0, c0)), oa0);
      XorSwap(key.D(Xor(oa1, c1)), oa1);
      XorSwap(key.D(Xor(oa2, c2)), oa2);
      XorSwap(key.D(Xor(oa3, c3)), oa3);
      XorSwap(oa0, c0);
      XorSwap(oa1, c1);
      XorSwap(oa2, c2);
      XorSwap(oa3, c3);
      p := p0;
      p := p + p1 + p2 + p3;
      n := Run(m.num + 4, oa3, Xor(Xor(Xor(Xor(m.checksum, p0), p1), p2), p3));
    }

    /** The checksum of the associated data after a final call that begins in `m`. */
    static function HashOf(k: Cipher, m: Run, ad: seq<bool>): Block {
      HashEnd(k, HashAll(k, m, ad[..Cut(ad)]), ad[Cut(ad)..])
    }

    /** Empty associated data is not processed at all. */
    method AddAd(ad: seq<bool>, final: bool)
      requires Valid() && adBlocks % 4 == 0 && adBlocks + |ad| / 128 < LIMIT
      modifies this`adOffset, this`adChecksum, this`adBlocks
      ensures Valid()
      ensures final ==> adChecksum == HashOf(key, old(Ad()), ad)
      ensures !final ==> Ad() == HashAll(key, old(Ad()), ad[..Batches(ad)])
    {
      hide HashAll, HashEnd;
      if |ad| > 0 { ProcessAd(ad, final); } else { EmptyHash(key, Ad(), ad); }
    }

    method Restart(nonce: Nonce, newAd: bool)
      requires Valid()
      modifies this
      ensures Valid() && Msg() == Start(key, nonce)
      ensures Ad() == Run(0, Zero(), if newAd then Zero() else old(adChecksum))
    {
      hide Offset0, L;
      offset := OffsetFromNonce(nonce);
      adOffset, checksum := Zero(), Zero();
      adBlocks, blocks := 0, 0;
      if newAd { adChecksum := Zero(); }
    }

    /** Encrypts whole batches of `pt[..n]` into `ct`, which may be the same buffer. */
    method SealStep(m: Run, pt: array<bool>, at: nat, ct: array<bool>) returns (n: Run, out: seq<bool>)
      requires Valid() && m.num % 4 == 0 && m.num + 4 < LIMIT && at + 512 <= pt.Length && at + 512 <= ct.Length
      modifies ct
      ensures (n, out) == SealAll(key, m, old(pt[at..at + 512])) && n.num == m.num + 4 && |out| == 512
      ensures ct[..] == old(ct[..])[..at] + out + old(ct[..])[at + 512..]
      ensures pt[..][at + 512..] == old(pt[..])[at + 512..]
    {
      hide *;
      n, out := SealBatch(m, pt[at..at + 512]);
      ghost var was := ct[..];
      WriteAt(ct, at, out);
      Replaced(was, ct[..], at, out);
    }

    method SealBatches(pt: array<bool>, n: nat, ct: array<bool>) returns (at: nat)
      requires Valid() && n <= pt.Length && n <= ct.Length && blocks % 4 == 0 && blocks + n / 128 < LIMIT
      modifies this`offset, this`checksum, this`blocks, ct
      ensures Valid() && at <= n < at + 512 && at % 512 == 0 && blocks % 4 == 0
      ensures Whole(old(pt[..])[..at]) && (Msg(), ct[..][..at]) == SealAll(key, old(Msg()), old(pt[..])[..at])
      ensures ct[..][at..] == old(ct[..])[at..] && pt[..][at..] == old(pt[..])[at..]
    {
      hide *;
      at := 0;
      var now := Msg();
      ghost var m, s0, d0, done: seq<bool> := Msg(), pt[..], ct[..], [];
      MsgIs();
      MidStart(key, m, true, s0, d0);
      while at + 512 <= n
        invariant at <= n && Valid() && Midway(key, m, true, at, now, done, pt[..], s0, ct[..], d0)
      {
        ghost var s1, d1, was := pt[..], ct[..], now;
        MidReady(key, m, true, at, now, done, s1, s0, d1, d0, n);
        var out;
        now, out := SealStep(now, pt, at, ct);
        assert SealAll(key, was, s1[at..at + 512]) == (now, out);
        MidNext(key, m, true, at, was, done, s1, s0, d1, d0, now, out, pt[..], ct[..]);
        done := done + out;
        at := at + 512;
      }
      MidStop(key, m, true, at, now, done, pt[..], s0, ct[..], d0);
      Commit(now);
      MsgIs();
    }

    method Commit(now: Run)
      requires Valid()
      modifies this`offset, this`checksum, this`blocks
      ensures Valid() && Msg() == now
    {
      offset, checksum, blocks := now.offset, now.checksum, now.num;
    }

    lemma {:induction false} MsgIs()
      ensures Msg().num == blocks
    {
    }

    lemma {:induction false} ReadyMeans(nonce: NonceArg, n: nat, ad: AdArg)
      requires Ready(nonce, n, ad)
      ensures From(nonce).num % 4 == 0 && From(nonce).num + n / 128 < LIMIT
      ensures nonce.Given? ==> From(nonce) == Start(key, nonce.nonce) && AdFrom(nonce) == Run(0, Zero(), Zero())
    {
    }

    /** Up to three whole blocks with their offsets, and the checksum over them. */
    method CollectSeal(m: Run, p: seq<bool>) returns (ta: seq<Block>, oa: seq<Block>, n: Run)
      requires Valid() && m.num % 4 == 0 && |p| < 512
      ensures 128 * |ta| <= |p| < 128 * |ta| + 128 && SealTracks(key, m, p, |ta|, n, ta, oa)
    {
      hide Ntz, L, Xor, SealTracks;
      ta, oa, n := [], [], m;
      var remaining, k := |p|, 0;
      SealTrackNone(key, m, p);
      BatchIndices(m.num);
      if remaining >= 256 {
        SealTrackBlock(key, m, p, 0, n, ta, oa);
        var o := Xor(n.offset, table[0]);
        ta, oa, n := ta + [Xor(o, p[..128])], oa + [o], Run(n.num + 1, o, Xor(n.checksum, p[..128]));
        SealTrackBlock(key, m, p, 1, n, ta, oa);
        o := Xor(n.offset, table[1]);
        ta, oa, n := ta + [Xor(o, p[128..256])], oa + [o], Run(n.num + 1, o, Xor(n.checksum, p[128..256]));
        remaining, k := remaining - 256, 2;
      }
      if remaining >= 128 {
        SealTrackBlock(key, m, p, k, n, ta, oa);
        var o := Xor(n.offset, table[0]);
        var b := p[128 * k..128 * k + 128];
        ta, oa, n := ta + [Xor(o, b)], oa + [o], Run(n.num + 1, o, Xor(n.checksum, b));
      }
    }

    /** What is left after the batches: blocks to encrypt, their offsets, the partial block, the tag. */
    method SealLast(p: seq<bool>) returns (ta: seq<Block>, oa: seq<Block>, tail: seq<bool>, tag: Block)
      requires Valid() && |p| < 512 && blocks % 4 == 0
      ensures |ta| == |oa| && 128 * |ta| + |tail| == |p|
      ensures (Outs(key.E, ta, oa), tail, tag) == LastSealed(key, Msg(), p, adChecksum)
    {
      assert lStar == LStar(key) && lDollar == LDollar(key);
      hide *;
      var r;
      ta, oa, r := CollectSeal(Msg(), p);
      var k, off, sum := |ta|, r.offset, r.checksum;
      SealTrackEnd(key, Msg(), p, k, r, ta, oa, adChecksum);
      LastSealedIs(key, Msg(), p, adChecksum);
      tail := [];
      if 128 * k < |p| {
        var tmp := Padded(p[128 * k..]);
        sum := Xor(sum, tmp);
        off := Xor(off, lStar);
        tail := Xor(tmp, key.E(off))[..|p| - 128 * k];
      }
      off := Xor(off, lDollar);
      tag := Xor(key.E(Xor(off, sum)), adChecksum);
    }

    /** The partial block is written first, then the whole blocks from the last to the first. */
    method SealRest(pt: array<bool>, at: nat, n: nat, ct: array<bool>) returns (tag: Block)
      requires Valid() && at <= n <= pt.Length && n <= ct.Length && n - at < 512 && blocks % 4 == 0
      modifies ct
      ensures var (c, t, tg) := LastSealed(key, Msg(), old(pt[at..n]), adChecksum);
              ct[..] == old(ct[..at]) + (c + t) + old(ct[n..]) && tag == tg
    {
      hide *;
      var ta, oa, tail;
      ta, oa, tail, tag := SealLast(pt[at..n]);
      ghost var c0 := ct[..];
      WriteAt(ct, at + 128 * |ta|, tail);
      ghost var c1 := ct[..];
      Spliced(c0, c1, at, Outs(key.E, ta, oa), tail, n);
      PutBack(key.E, ct, at, ta, oa);
    }

    /** Where a call begins: a nonce starts a message, otherwise the message goes on. */
    function From(nonce: NonceArg): Run
      reads this
    {
      if nonce.Given? then Start(key, nonce.nonce) else Msg()
    }

    function AdFrom(nonce: NonceArg): Run
      reads this
    {
      if nonce.Given? then Run(0, Zero(), Zero()) else Ad()
    }

    /** Between calls: portions end on batch boundaries. */
    ghost predicate Ready(nonce: NonceArg, n: nat, ad: AdArg)
      reads this
    {
      && Valid() && From(nonce).num % 4 == 0 && From(nonce).num + n / 128 < LIMIT
      && AdFrom(nonce).num % 4 == 0 && (ad.Data? ==> AdFrom(nonce).num + |ad.bits| / 128 < LIMIT)
    }

    /** Per-message values and associated data; without any, the last message's checksum stays. */
    method Begin(nonce: NonceArg, n: nat, ad: AdArg, final: bool)
      requires Ready(nonce, n, ad)
      modifies this
      ensures Valid() && Msg() == old(From(nonce))
      ensures ad.SameAd? ==> adChecksum == old(adChecksum)
      ensures ad.Data? ==> if final then adChecksum == HashOf(key, old(AdFrom(nonce)), ad.bits)
                           else Ad() == HashAll(key, old(AdFrom(nonce)), ad.bits[..Batches(ad.bits)])
    {
      hide HashAll, HashOf, Offset0, Valid;
      if nonce.Given? { Restart(nonce.nonce, ad.Data?); }
      if ad.Data? { AddAd(ad.bits, final); }
    }

    /** `ae_encrypt`. A final call ends the message with its tag, bundled behind the ciphertext if
        the caller passes none; the buffers may be the same. */
    method Encrypt(nonce: NonceArg, pt: array<bool>, n: nat, ad: AdArg, ct: array<bool>,
                   final: bool, bundled: bool) returns (tag: Block)
      requires Ready(nonce, n, ad) && n <= pt.Length && n + (if final && bundled then 128 else 0) <= ct.Length
      modifies this, ct
      ensures Valid()
      ensures final && ad.Data? ==> adChecksum == HashOf(key, old(AdFrom(nonce)), ad.bits)
      ensures ad.SameAd? ==> adChecksum == old(adChecksum)
      ensures final ==> var (c, t, tg) := LastSealed(key, old(From(nonce)), old(pt[..n]), adChecksum);
                        ct[..n] == c + t && tag == tg
      ensures final && bundled ==> ct[n..n + 128] == tag && ct[n + 128..] == old(ct[n + 128..])
      ensures final && !bundled ==> ct[n..] == old(ct[n..])
      ensures !final ==> var b := Batches(old(pt[..n]));
                         (Msg(), ct[..b]) == SealAll(key, old(From(nonce)), old(pt[..b])) && ct[b..] == old(ct[b..])
      ensures final && nonce.Given? && ad.Data? ==>
        (ct[..n], tag) == Ocb.Encrypt(key, nonce.nonce, ad.bits, old(pt[..n]))
    {
      hide *;
      ghost var m, p, pt0, ct0 := From(nonce), pt[..n], pt[..], ct[..];
      ReadyMeans(nonce, n, ad);
      Begin(nonce, n, ad, final);
      MsgIs();
      var at := SealBatches(pt, n, ct);
      FrontIs(pt0, p, at, n);
      BatchesIs(p, at);
      tag := Zero();
      if final {
        ghost var pt1, ct1, mm := pt[..], ct[..], Msg();
        RestIs(pt0, pt1, at, n);
        tag := SealRest(pt, at, n, ct);
        SealJoin(key, m, p, at, adChecksum);
        ghost var (c, t, tg) := LastSealed(key, mm, p[at..], adChecksum);
        Landed(ct0, ct1, ct[..], at, n, c, t);
        if bundled {
          ghost var ct2 := ct[..];
          WriteAt(ct, n, tag);
          TagLands(ct2, ct[..], n, tag);
        }
        if nonce.Given? && ad.Data? { OneShot(key, nonce.nonce, ad.bits, p); }
      }
    }

    // ---- decryption ---------------------------------------------------------

    method OpenStep(m: Run, ct: array<bool>, at: nat, pt: array<bool>) returns (n: Run, out: seq<bool>)
      requires Valid() && m.num % 4 == 0 && m.num + 4 < LIMIT && at + 512 <= ct.Length && at + 512 <= pt.Length
      modifies pt
      ensures (n, out) == OpenAll(key, m, old(ct[at..at + 512])) && n.num == m.num + 4 && |out| == 512
      ensures pt[..] == old(pt[..])[..at] + out + old(pt[..])[at + 512..]
      ensures ct[..][at + 512..] == old(ct[..])[at + 512..]
    {
      hide *;
      n, out := OpenBatch(m, ct[at..at + 512]);
      ghost var was := pt[..];
      WriteAt(pt, at, out);
      Replaced(was, pt[..], at, out);
    }

    method OpenBatches(ct: array<bool>, n: nat, pt: array<bool>) returns (at: nat)
      requires Valid() && n <= ct.Length && n <= pt.Length && blocks % 4 == 0 && blocks + n / 128 < LIMIT
      modifies this`offset, this`checksum, this`blocks, pt
      ensures Valid() && at <= n < at + 512 && at % 512 == 0 && blocks % 4 == 0
      ensures Whole(old(ct[..])[..at]) && (Msg(), pt[..][..at]) == OpenAll(key, old(Msg()), old(ct[..])[..at])
      ensures pt[..][at..] == old(pt[..])[at..] && ct[..][at..] == old(ct[..])[at..]
    {
      hide *;
      at := 0;
      var now := Msg();
      ghost var m, s0, d0, done: seq<bool> := Msg(), ct[..], pt[..], [];
      MsgIs();
      MidStart(key, m, false, s0, d0);
      while at + 512 <= n
        invariant at <= n && Valid() && Midway(key, m, false, at, now, done, ct[..], s0, pt[..], d0)
      {
        ghost var s1, d1, was := ct[..], pt[..], now;
        MidReady(key, m, false, at, now, done, s1, s0, d1, d0, n);
        var out;
        now, out := OpenStep(now, ct, at, pt);
        assert OpenAll(key, was, s1[at..at + 512]) == (now, out);
        MidNext(key, m, false, at, was, done, s1, s0, d1, d0, now, out, ct[..], pt[..]);
        done := done + out;
        at := at + 512;
      }
      MidStop(key, m, false, at, now, done, ct[..], s0, pt[..], d0);
      Commit(now);
      MsgIs();
    }

    /** Up to three whole blocks with their offsets; what they decrypt to is not known yet. */
    method CollectOpen(m: Run, c: seq<bool>) returns (ta: seq<Block>, oa: seq<Block>, off: Block)
      requires Valid() && m.num % 4 == 0 && |c| < 512
      ensures 128 * |ta| <= |c| < 128 * |ta| + 128 && OpenTracks(key, m, c, |ta|, off, ta, oa)
    {
      hide Ntz, L, Xor, OpenTracks;
      ta, oa, off := [], [], m.offset;
      var remaining, k := |c|, 0;
      OpenTrackNone(key, m, c);
      BatchIndices(m.num);
      if remaining >= 256 {
        OpenTrackBlock(key, m, c, 0, off, ta, oa);
        off := Xor(off, table[0]);
        ta, oa := ta + [Xor(off, c[..128])], oa + [off];
        OpenTrackBlock(key, m, c, 1, off, ta, oa);
        off := Xor(off, table[1]);
        ta, oa := ta + [Xor(off, c[128..256])], oa + [off];
        remaining, k := remaining - 256, 2;
      }
      if remaining >= 128 {
        OpenTrackBlock(key, m, c, k, off, ta, oa);
        off := Xor(off, table[0]);
        ta, oa := ta + [Xor(off, c[128 * k..128 * k + 128])], oa + [off];
      }
    }

    /** The partial block joins the checksum first, the whole blocks from the last to the first. */
    method OpenLast(c: seq<bool>) returns (ta: seq<Block>, oa: seq<Block>, tail: seq<bool>, tag: Block)
      requires Valid() && |c| < 512 && blocks % 4 == 0
      ensures |ta| == |oa| && 128 * |ta| + |tail| == |c|
      ensures (Outs(key.D, ta, oa), tail, tag) == LastOpened(key, Msg(), c, adChecksum)
    {
      assert lStar == LStar(key) && lDollar == LDollar(key);
      ghost var m := Msg();
      var sum := checksum;
      hide *;
      var off;
      ta, oa, off := CollectOpen(Msg(), c);
      var k := |ta|;
      OpenTrackEnd(key, m, c, k, off, ta, oa, adChecksum);
      LastOpenedIs(key, m, c, adChecksum);
      tail := [];
      if 128 * k < |c| {
        off := Xor(off, lStar);
        var pad := key.E(off);
        tail := Xor(c[128 * k..] + pad[|c| - 128 * k..], pad)[..|c| - 128 * k];
        TailIs(c[128 * k..], pad);
        sum := Xor(sum, Padded(tail));
      }
      sum := SumOutsBack(key.D, sum, ta, oa);
      off := Xor(off, lDollar);
      tag := Xor(key.E(Xor(off, sum)), adChecksum);
    }

    method OpenRest(ct: array<bool>, at: nat, n: nat, pt: array<bool>) returns (tag: Block)
      requires Valid() && at <= n <= ct.Length && n <= pt.Length && n - at < 512 && blocks % 4 == 0
      modifies pt
      ensures var (p, t, tg) := LastOpened(key, Msg(), old(ct[at..n]), adChecksum);
              pt[..] == old(pt[..at]) + (p + t) + old(pt[n..]) && tag == tg
    {
      hide *;
      var ta, oa, tail;
      ta, oa, tail, tag := OpenLast(ct[at..n]);
      ghost var p0 := pt[..];
      WriteAt(pt, at + 128 * |ta|, tail);
      ghost var p1 := pt[..];
      Spliced(p0, p1, at, Outs(key.D, ta, oa), tail, n);
      PutBack(key.D, pt, at, ta, oa);
    }

    /** `ae_decrypt`. `total` counts a tag bundled behind the ciphertext. The plaintext is written in
        any case; a final call succeeds exactly if the tag is the one computed here. */
    method Decrypt(nonce: NonceArg, ct: array<bool>, total: nat, ad: AdArg, pt: array<bool>, tag: TagArg, final: bool)
      returns (ok: bool, n: nat)
      requires final && tag.Bundled? ==> total >= 128
      requires var n := if final && tag.Bundled? then total - 128 else total;
               Ready(nonce, n, ad) && total <= ct.Length && n <= pt.Length
      modifies this, pt
      ensures Valid() && n == if final && tag.Bundled? then total - 128 else total
      ensures final && ad.Data? ==> adChecksum == HashOf(key, old(AdFrom(nonce)), ad.bits)
      ensures ad.SameAd? ==> adChecksum == old(adChecksum)
      ensures final ==> var (p, t, tg) := LastOpened(key, old(From(nonce)), old(ct[..n]), adChecksum);
                        pt[..n] == p + t && (ok <==> tg == if tag.Bundled? then old(ct[n..n + 128]) else tag.tag)
      ensures final ==> pt[n..] == old(pt[n..])
      ensures !final ==> var b := Batches(old(ct[..n]));
                         ok && (Msg(), pt[..b]) == OpenAll(key, old(From(nonce)), old(ct[..b]))
                           && pt[b..] == old(pt[b..])
      ensures final && nonce.Given? && ad.Data? ==>
        var (p, tg) := Ocb.Decrypt(key, nonce.nonce, ad.bits, old(ct[..n]));
        pt[..n] == p && (ok <==> tg == if tag.Bundled? then old(ct[n..n + 128]) else tag.tag)
    {
      hide *;
      n := if final && tag.Bundled? then total - 128 else total;
      ghost var m, c, ct0, pt0 := From(nonce), ct[..n], ct[..], pt[..];
      ReadyMeans(nonce, n, ad);
      Begin(nonce, n, ad, final);
      MsgIs();
      var at := OpenBatches(ct, n, pt);
      FrontIs(ct0, c, at, n);
      BatchesIs(c, at);
      ok := true;
      if final {
        ghost var ct1, pt1, mm := ct[..], pt[..], Msg();
        RestIs(ct0, ct1, at, n);
        var expected := OpenRest(ct, at, n, pt);
        OpenJoin(key, m, c, at, adChecksum);
        ghost var (p, t, tg) := LastOpened(key, mm, c[at..], adChecksum);
        Landed(pt0, pt1, pt[..], at, n, p, t);
        if nonce.Given? && ad.Data? { OneShotOpen(key, nonce.nonce, ad.bits, c); }
        if tag.Bundled? {
          TagKept(ct0, if ct == pt then pt[..] else ct1, at, n);
          ok := ct[n..n + 128] == expected;
        } else {
          ok := tag.tag == expected;
        }
      }
    }
  }

  // ---- the middle of a pass -------------------------------------------------

  function Through(k: Cipher, m: Run, s: seq<bool>, seal: bool): (r: (Run, seq<bool>))
    requires Whole(s)
  {
    if seal then SealAll(k, m, s) else OpenAll(k, m, s)
  }

  /** Whole batches of `src` up to `at` have gone to `dst`, which may be the same buffer. */
  ghost predicate Midway(k: Cipher, m: Run, seal: bool, at: nat, now: Run, done: seq<bool>,
                         src: seq<bool>, src0: seq<bool>, dst: seq<bool>, dst0: seq<bool>) {
    && at % 512 == 0 && at <= |src0| == |src| && at == |done| <= |dst0| == |dst|
    && now.num == m.num + at / 128 && now.num % 4 == 0
    && Whole(src0[..at]) && Through(k, m, src0[..at], seal) == (now, done)
    && dst == done + dst0[at..] && src[at..] == src0[at..]
  }

  lemma {:induction false} MidStart(k: Cipher, m: Run, seal: bool, src: seq<bool>, dst: seq<bool>)
    requires m.num % 4 == 0
    ensures Midway(k, m, seal, 0, m, [], src, src, dst, dst)
  {
    assert src[..0] == [];
  }

  lemma {:induction false} MidReady(k: Cipher, m: Run, seal: bool, at: nat, now: Run, done: seq<bool>,
                                    src: seq<bool>, src0: seq<bool>, dst: seq<bool>, dst0: seq<bool>, n: nat)
    requires Midway(k, m, seal, at, now, done, src, src0, dst, dst0) && at + 512 <= n && m.num + n / 128 < LIMIT
    ensures now.num % 4 == 0 && now.num + 4 < LIMIT
    ensures at + 512 <= |src| ==> Whole(src[at..at + 512])
  {
    hide Through;
    assert 512 % 128 == 0;
  }

  lemma {:induction false} MidNext(k: Cipher, m: Run, seal: bool, at: nat, now: Run, done: seq<bool>,
                                   src: seq<bool>, src0: seq<bool>, dst: seq<bool>, dst0: seq<bool>,
                                   next: Run, out: seq<bool>, src': seq<bool>, dst': seq<bool>)
    requires Midway(k, m, seal, at, now, done, src, src0, dst, dst0) && at + 512 <= |src| && at + 512 <= |dst|
    requires Whole(src[at..at + 512]) && |out| == 512 && next.num == now.num + 4
    requires (if seal then SealAll(k, now, src[at..at + 512]) else OpenAll(k, now, src[at..at + 512])) == (next, out)
    requires |src'| == |src| && src'[at + 512..] == src[at + 512..] && dst' == dst[..at] + out + dst[at + 512..]
    ensures Midway(k, m, seal, at + 512, next, done + out, src', src0, dst', dst0)
  {
    hide SealAll, OpenAll;
    var a, b := src0[..at], src0[at..at + 512];
    assert src[at..at + 512] == src[at..][..512] == src0[at..][..512] == b;
    assert a + b == src0[..at + 512];
    ThroughAppend(k, m, a, b, seal);
    assert src'[at + 512..] == src[at..][512..] == src0[at..][512..] == src0[at + 512..];
    Extends(dst, done, dst0, at, out);
  }

  lemma {:induction false} MidStop(k: Cipher, m: Run, seal: bool, at: nat, now: Run, done: seq<bool>,
                                   src: seq<bool>, src0: seq<bool>, dst: seq<bool>, dst0: seq<bool>)
    requires Midway(k, m, seal, at, now, done, src, src0, dst, dst0)
    ensures at % 512 == 0 && now.num % 4 == 0 && at <= |src0| == |src| && at <= |dst0| == |dst| && Whole(src0[..at])
    ensures (if seal then SealAll(k, m, src0[..at]) else OpenAll(k, m, src0[..at])) == (now, dst[..at])
    ensures dst[at..] == dst0[at..] && src[at..] == src0[at..]
  {
    hide SealAll, OpenAll;
    Parts(dst, done, dst0[at..]);
  }

  lemma {:induction false} Replaced(was: seq<bool>, now: seq<bool>, at: nat, out: seq<bool>)
    requires at + |out| <= |was| && now == was[..at] + out + was[at + |out|..]
    ensures now[at + |out|..] == was[at + |out|..]
  {
  }

  lemma {:induction false} FrontIs(whole: seq<bool>, p: seq<bool>, at: nat, n: nat)
    requires at <= n <= |whole| && p == whole[..n]
    ensures whole[..at] == p[..at]
  {
  }

  lemma {:induction false} RestIs(was: seq<bool>, now: seq<bool>, at: nat, n: nat)
    requires at <= n <= |was| == |now| && now[at..] == was[at..]
    ensures now[at..n] == was[..n][at..]
  {
    assert now[at..n] == now[at..][..n - at];
    assert was[..n][at..] == was[at..][..n - at];
  }

  /** The end of a message in its place, whatever lay there before. */
  lemma {:induction false} Landed(d0: seq<bool>, d1: seq<bool>, d2: seq<bool>, at: nat, n: nat, c: seq<bool>,
      t: seq<bool>)
    requires at <= n <= |d0| == |d1| == |d2| && d1[at..] == d0[at..] && d2 == d1[..at] + (c + t) + d1[n..]
    ensures d2[..n] == (d1[..at] + c) + t && d2[n..] == d0[n..]
  {
    assert |c + t| == n - at;
    assert d1[n..] == d1[at..][n - at..] && d0[n..] == d0[at..][n - at..];
    Assoc(d1[..at], c, t);
  }

  lemma {:induction false} TagLands(d2: seq<bool>, d3: seq<bool>, n: nat, tag: seq<bool>)
    requires n + |tag| <= |d2| && d3 == d2[..n] + tag + d2[n + |tag|..]
    ensures d3[..n] == d2[..n] && d3[n..n + |tag|] == tag && d3[n + |tag|..] == d2[n..][|tag|..]
  {
  }

  lemma {:induction false} TagKept(c0: seq<bool>, c2: seq<bool>, at: nat, n: nat)
    requires at <= n && n + 128 <= |c0| == |c2| && (c2[n..] == c0[n..] || c2[at..] == c0[at..])
    ensures c2[n..n + 128] == c0[n..n + 128]
  {
    assert c2[at..] == c0[at..] ==> c2[at..][n - at..] == c2[n..] && c0[at..][n - at..] == c0[n..];
    assert c2[n..n + 128] == c2[n..][..128] && c0[n..n + 128] == c0[n..][..128];
  }

  lemma {:induction false} HashSplit(k: Cipher, m: Run, a: seq<bool>, at: nat)
    requires at <= |a| && at % 512 == 0 && |a| - at < 512
    ensures at == Batches(a)
    ensures var rest := a[at..];
            HashEnd(k, HashAll(k, m, a[..Cut(a)]), a[Cut(a)..])
            == HashEnd(k, HashAll(k, HashAll(k, m, a[..at]), rest[..Cut(rest)]), rest[Cut(rest)..])
  {
    hide HashAll, HashEnd, Batches;
    var rest := a[at..];
    BatchesIs(a, at);
    FourBlocks(at);
    CutSum(at / 128, |rest|);
    assert Cut(a) == at + Cut(rest);
    assert a[..Cut(a)] == a[..at] + rest[..Cut(rest)] && a[Cut(a)..] == rest[Cut(rest)..];
    hide Cut;
    HashAppend(k, m, a[..at], rest[..Cut(rest)]);
  }

  lemma {:induction false} EmptyHash(k: Cipher, m: Run, a: seq<bool>)
    requires a == []
    ensures HashEnd(k, HashAll(k, m, a[..Cut(a)]), a[Cut(a)..]) == m.checksum && HashAll(k, m, a[..Batches(a)]) == m
  {
  }

  lemma {:induction false} HashNothing(k: Cipher, m: Run, a: seq<bool>)
    ensures HashAll(k, m, a[..0]) == m
  {
  }

  /** The bits handled in batches of four blocks. */
  function Batches(s: seq<bool>): (n: nat)
    ensures n <= |s| && n % 512 == 0 && n % 128 == 0 && |s| - n < 512
  {
    var n := |s| / 512 * 512;
    FourBlocks(n);
    n
  }

  lemma {:induction false} FourBlocks(n: nat)
    requires n % 512 == 0
    ensures n % 128 == 0 && n == 128 * (n / 128)
  {
    Multiple(n / 512 * 4);
    assert n == 128 * (n / 512 * 4);
  }

  lemma {:induction false} Multiple(k: nat)
    ensures 128 * k % 128 == 0 && 128 * k / 128 == k
  {
  }

  lemma {:induction false} Parts(s: seq<bool>, a: seq<bool>, b: seq<bool>)
    requires s == a + b
    ensures s[..|a|] == a && s[|a|..] == b
  {
  }

  lemma {:induction false} Extends(s: seq<bool>, done: seq<bool>, s0: seq<bool>, at: nat, c: seq<bool>)
    requires |done| == at && at + |c| <= |s0| && s == done + s0[at..]
    ensures s[..at] + c + s[at + |c|..] == done + c + s0[at + |c|..]
  {
  }

  method WriteAt(a: array<bool>, at: nat, s: seq<bool>)
    requires at + |s| <= a.Length
    modifies a
    ensures a[..] == old(a[..at]) + s + old(a[at + |s|..])
  {
    for i := 0 to |s|
      invariant a[..] == old(a[..at]) + s[..i] + old(a[at + i..])
    {
      a[at + i] := s[i];
    }
  }

  /** Whole blocks, partial block and tag at the end of a message. */
  function LastSealed(k: Cipher, m: Run, p: seq<bool>, hash: Block): (seq<bool>, seq<bool>, Block) {
    var (n, c) := SealAll(k, m, p[..Cut(p)]);
    var (t, tag) := SealEnd(k, n, p[Cut(p)..], hash);
    (c, t, tag)
  }

  lemma {:induction false} LastSealedIs(k: Cipher, m: Run, p: seq<bool>, hash: Block)
    ensures var (n, c) := SealAll(k, m, p[..Cut(p)]);
            var (t, tag) := SealEnd(k, n, p[Cut(p)..], hash);
            LastSealed(k, m, p, hash) == (c, t, tag)
  {
    hide SealAll, SealEnd;
  }

  function LastOpened(k: Cipher, m: Run, c: seq<bool>, hash: Block): (seq<bool>, seq<bool>, Block) {
    var (n, p) := OpenAll(k, m, c[..Cut(c)]);
    var (t, tag) := OpenEnd(k, n, c[Cut(c)..], hash);
    (p, t, tag)
  }

  lemma {:induction false} LastOpenedIs(k: Cipher, m: Run, c: seq<bool>, hash: Block)
    ensures var (n, p) := OpenAll(k, m, c[..Cut(c)]);
            var (t, tag) := OpenEnd(k, n, c[Cut(c)..], hash);
            LastOpened(k, m, c, hash) == (p, t, tag)
  {
    hide OpenAll, OpenEnd;
  }

  /** Filling the block up with the pad itself leaves the padded plaintext after the xor. */
  lemma {:induction false} TailIs(c: seq<bool>, pad: Block)
    requires 0 < |c| < 128
    ensures |c + pad[|c|..]| == 128 && Xor(c + pad[|c|..], pad)[..|c|] == XorPart(c, pad)
  {
  }

  lemma {:induction false} SumOutsNone(f: Block -> Block, s: Block, ta: seq<Block>, oa: seq<Block>)
    requires ta == [] && oa == []
    ensures SumOuts(f, s, ta, oa) == s
  {
  }

  /** Sums decrypted blocks from the last to the first. */
  method SumOutsBack(f: Block -> Block, s: Block, ta: seq<Block>, oa: seq<Block>) returns (sum: Block)
    requires |ta| == |oa|
    ensures sum == SumOuts(f, s, ta, oa)
  {
    hide Xor, SumOuts;
    sum := s;
    var k := |ta|;
    assert ta[..k] == ta && oa[..k] == oa;
    while k > 0
      invariant 0 <= k <= |ta| && SumOuts(f, sum, ta[..k], oa[..k]) == SumOuts(f, s, ta, oa)
    {
      k := k - 1;
      SumOutsFirst(f, sum, ta[..k], oa[..k], ta[k], oa[k]);
      assert ta[..k + 1] == ta[..k] + [ta[k]] && oa[..k + 1] == oa[..k] + [oa[k]];
      sum := Xor(sum, Xor(f(ta[k]), oa[k]));
    }
    SumOutsNone(f, sum, ta[..0], oa[..0]);
  }

  lemma {:induction false} BatchesIs(p: seq<bool>, at: nat)
    requires at <= |p| < at + 512 && at % 512 == 0
    ensures at == Batches(p)
  {
  }

  /** The end of a message after its batches is the end of the message. */
  lemma {:induction false} SealJoin(k: Cipher, m: Run, p: seq<bool>, at: nat, hash: Block)
    requires at == Batches(p)
    ensures var (mm, c0) := SealAll(k, m, p[..at]);
            var (c, t, tag) := LastSealed(k, mm, p[at..], hash);
            LastSealed(k, m, p, hash) == (c0 + c, t, tag)
  {
    hide *;
    var rest := p[at..];
    CutRest(p, at);
    SealAppend(k, m, p[..at], rest[..Cut(rest)]);
    LastSealedIs(k, m, p, hash);
    LastSealedIs(k, SealAll(k, m, p[..at]).0, rest, hash);
  }

  lemma {:induction false} OpenJoin(k: Cipher, m: Run, c: seq<bool>, at: nat, hash: Block)
    requires at == Batches(c)
    ensures var (mm, p0) := OpenAll(k, m, c[..at]);
            var (p, t, tag) := LastOpened(k, mm, c[at..], hash);
            LastOpened(k, m, c, hash) == (p0 + p, t, tag)
  {
    hide *;
    var rest := c[at..];
    CutRest(c, at);
    OpenAppend(k, m, c[..at], rest[..Cut(rest)]);
    LastOpenedIs(k, m, c, hash);
    LastOpenedIs(k, OpenAll(k, m, c[..at]).0, rest, hash);
  }

  lemma {:induction false} OneShotOpen(k: Cipher, nonce: Nonce, a: seq<bool>, c: seq<bool>)
    ensures var (p, t, tag) := LastOpened(k, Start(k, nonce), c, Context.HashOf(k, Run(0, Zero(), Zero()), a));
            Ocb.Decrypt(k, nonce, a, c) == (p + t, tag)
  {
    hide OpenAll, OpenEnd, HashAll, HashEnd;
  }

  lemma {:induction false} CutRest(p: seq<bool>, at: nat)
    requires at == Batches(p)
    ensures at <= |p| && Whole(p[..at]) && Whole(p[at..][..Cut(p[at..])])
    ensures var rest := p[at..]; p[..Cut(p)] == p[..at] + rest[..Cut(rest)] && p[Cut(p)..] == rest[Cut(rest)..]
  {
    var rest := p[at..];
    CutSum(at / 128, |rest|);
    assert Cut(p) == at + Cut(rest);
    hide Cut;
  }

  lemma {:induction false} CutSum(a: nat, r: nat)
    ensures (128 * a + r) / 128 * 128 == 128 * a + r / 128 * 128
  {
  }

  lemma {:induction false} OneShot(k: Cipher, nonce: Nonce, a: seq<bool>, p: seq<bool>)
    ensures var (c, t, tag) := LastSealed(k, Start(k, nonce), p, Context.HashOf(k, Run(0, Zero(), Zero()), a));
            Ocb.Encrypt(k, nonce, a, p) == (c + t, tag)
  {
    hide SealAll, SealEnd, HashAll, HashEnd;
  }

  /** A tail written behind a gap and the gap filled afterwards. */
  lemma {:induction false} Spliced(c0: seq<bool>, c1: seq<bool>, at: nat, c: seq<bool>, tail: seq<bool>, n: nat)
    requires n == at + |c| + |tail| <= |c0|
    requires c1 == c0[..at + |c|] + tail + c0[n..]
    ensures |c1| == |c0| && c1[..at] + c + c1[at + |c|..] == c0[..at] + (c + tail) + c0[n..]
  {
  }

  /** Writes `f(ta[i])` plus `oa[i]` for every block, the last block first. */
  method PutBack(f: Block -> Block, a: array<bool>, at: nat, ta: seq<Block>, oa: seq<Block>)
    requires |ta| == |oa| && at + 128 * |ta| <= a.Length
    modifies a
    ensures a[..] == old(a[..at]) + Outs(f, ta, oa) + old(a[at + 128 * |ta|..])
  {
    hide Xor, Outs;
    var i := |ta|;
    ghost var pre := a[..];
    OutsNone(f, ta[i..], oa[i..]);
    assert a[..] == pre[..at + 128 * i] + [] + pre[at + 128 * i..];
    while i > 0
      invariant 0 <= i <= |ta| && |pre| == a.Length
      invariant a[..] == pre[..at + 128 * i] + Outs(f, ta[i..], oa[i..]) + pre[at + 128 * |ta|..]
    {
      i := i - 1;
      var b := Xor(f(ta[i]), oa[i]);
      ghost var was := a[..];
      WriteAt(a, at + 128 * i, b);
      OutsNext(f, ta, oa, i);
      Spread(pre, was, at + 128 * i, b, Outs(f, ta[i + 1..], oa[i + 1..]), pre[at + 128 * |ta|..]);
    }
    assert pre[..at + 128 * 0] == pre[..at] && ta[0..] == ta && oa[0..] == oa;
  }

  lemma {:induction false} OutsNone(f: Block -> Block, ta: seq<Block>, oa: seq<Block>)
    requires ta == [] && oa == []
    ensures Outs(f, ta, oa) == []
  {
  }

  lemma {:induction false} OutsNext(f: Block -> Block, ta: seq<Block>, oa: seq<Block>, i: nat)
    requires |ta| == |oa| && i < |ta|
    ensures Outs(f, ta[i..], oa[i..]) == Xor(f(ta[i]), oa[i]) + Outs(f, ta[i + 1..], oa[i + 1..])
  {
    hide Xor;
    assert ta[i..][1..] == ta[i + 1..] && oa[i..][1..] == oa[i + 1..];
  }

  lemma {:induction false} Spread(pre: seq<bool>, was: seq<bool>, at: nat, b: Block, outs: seq<bool>, post: seq<bool>)
    requires at + 128 <= |pre| && was == pre[..at + 128] + outs + post
    ensures was[..at] + b + was[at + 128..] == pre[..at] + (b + outs) + post
  {
  }

  // ---- the incremental interface --------------------------------------------

  function Flatten(parts: seq<seq<bool>>): seq<bool> {
    if parts == [] then [] else parts[0] + Flatten(parts[1..])
  }

  ghost predicate AllBatches(parts: seq<seq<bool>>) {
    forall i | 0 <= i < |parts| :: |parts[i]| % 512 == 0 && Whole(parts[i])
  }

  /** Successive non-final calls, all sealing or all opening. */
  ghost function InParts(k: Cipher, m: Run, parts: seq<seq<bool>>, seal: bool): (Run, seq<bool>)
    requires AllBatches(parts)
    decreases |parts|
  {
    if parts == [] then (m, [])
    else
      var (n, c) := Through(k, m, parts[0], seal);
      var (o, d) := InParts(k, n, parts[1..], seal);
      (o, c + d)
  }

  lemma {:induction false} PartsAreWhole(k: Cipher, m: Run, parts: seq<seq<bool>>, seal: bool)
    requires AllBatches(parts)
    ensures |Flatten(parts)| % 512 == 0 && Whole(Flatten(parts))
    ensures InParts(k, m, parts, seal) == Through(k, m, Flatten(parts), seal)
    decreases |parts|
  {
    hide *;
    if parts == [] {
      PartsNone(k, m, parts, seal);
    } else {
      var p, rest := parts[0], Flatten(parts[1..]);
      PartsSome(k, m, parts, seal);
      PartsAreWhole(k, Through(k, m, p, seal).0, parts[1..], seal);
      WholeSum(p, rest);
      ThroughAppend(k, m, p, rest, seal);
    }
  }

  lemma {:induction false} ThroughAppend(k: Cipher, m: Run, a: seq<bool>, b: seq<bool>, seal: bool)
    requires Whole(a) && Whole(b)
    ensures Whole(a + b)
    ensures var (n, c) := Through(k, m, a, seal);
            var (o, d) := Through(k, n, b, seal);
            Through(k, m, a + b, seal) == (o, c + d)
  {
    hide SealAll, OpenAll;
    if seal { SealAppend(k, m, a, b); } else { OpenAppend(k, m, a, b); }
  }

  lemma {:induction false} PartsNone(k: Cipher, m: Run, parts: seq<seq<bool>>, seal: bool)
    requires parts == [] && AllBatches(parts)
    ensures Flatten(parts) == [] && Whole([]) && InParts(k, m, parts, seal) == (m, []) == Through(k, m, [], seal)
  {
  }

  lemma {:induction false} PartsSome(k: Cipher, m: Run, parts: seq<seq<bool>>, seal: bool)
    requires parts != [] && AllBatches(parts)
    ensures AllBatches(parts[1..]) && |parts[0]| % 512 == 0 && Whole(parts[0])
    ensures Flatten(parts) == parts[0] + Flatten(parts[1..])
    ensures var (n, c) := Through(k, m, parts[0], seal);
            var (o, d) := InParts(k, n, parts[1..], seal);
            InParts(k, m, parts, seal) == (o, c + d)
  {
    WholeSum(parts[0], []);
    hide Through, Whole;
  }

  lemma {:induction false} WholeSum(a: seq<bool>, b: seq<bool>)
    ensures |a| % 512 == 0 ==> Whole(a)
    ensures |a| % 512 == 0 && |b| % 512 == 0 ==> |a + b| % 512 == 0 && Whole(a) && Whole(b) && Whole(a + b)
  {
    if |a + b| % 512 == 0 { FourBlocks(|a + b|); }
    if |a| % 512 == 0 { FourBlocks(|a|); }
    if |b| % 512 == 0 { FourBlocks(|b|); }
  }

  /** A message sealed in portions of whole batches and one final call is the message sealed at once. */
  lemma {:induction false} Incremental(k: Cipher, nonce: Nonce, a: seq<bool>, parts: seq<seq<bool>>, last: seq<bool>)
    requires AllBatches(parts)
    ensures var (m, c) := InParts(k, Start(k, nonce), parts, true);
            var (d, t, tag) := LastSealed(k, m, last, Hash(k, a));
            Ocb.Encrypt(k, nonce, a, Flatten(parts) + last) == (c + (d + t), tag)
  {
    hide *;
    var m0, whole := Start(k, nonce), Flatten(parts);
    PartsAreWhole(k, m0, parts, true);
    var (m, c) := InParts(k, m0, parts, true);
    var (d, t, tag) := LastSealed(k, m, last, Hash(k, a));
    ThroughIs(k, m0, whole);
    WholeThen(k, m0, whole, last, Hash(k, a));
    EncryptIs(k, nonce, a, whole + last);
    Assoc(c, d, t);
  }

  /** A message opened in portions of whole batches and one final call is the message opened at once:
      the same plaintext, and the same tag to compare with the one received. */
  lemma {:induction false} IncrementalBack(k: Cipher, nonce: Nonce, a: seq<bool>, parts: seq<seq<bool>>,
      last: seq<bool>)
    requires AllBatches(parts)
    ensures var (m, p) := InParts(k, Start(k, nonce), parts, false);
            var (d, t, tag) := LastOpened(k, m, last, Hash(k, a));
            Ocb.Decrypt(k, nonce, a, Flatten(parts) + last) == (p + (d + t), tag)
  {
    hide *;
    var m0, whole := Start(k, nonce), Flatten(parts);
    PartsAreWhole(k, m0, parts, false);
    var (m, p) := InParts(k, m0, parts, false);
    var (d, t, tag) := LastOpened(k, m, last, Hash(k, a));
    ThroughIs(k, m0, whole);
    OpenedThen(k, m0, whole, last, Hash(k, a));
    DecryptIs(k, nonce, a, whole + last);
    Assoc(p, d, t);
  }

  lemma {:induction false} ThroughIs(k: Cipher, m: Run, s: seq<bool>)
    requires Whole(s)
    ensures Through(k, m, s, true) == SealAll(k, m, s) && Through(k, m, s, false) == OpenAll(k, m, s)
  {
  }

  lemma {:induction false} DecryptIs(k: Cipher, nonce: Nonce, a: seq<bool>, c: seq<bool>)
    ensures var (p, t, tag) := LastOpened(k, Start(k, nonce), c, Hash(k, a));
            Ocb.Decrypt(k, nonce, a, c) == (p + t, tag)
  {
    hide OpenAll, OpenEnd, Hash;
  }

  lemma {:induction false} EncryptIs(k: Cipher, nonce: Nonce, a: seq<bool>, p: seq<bool>)
    ensures var (c, t, tag) := LastSealed(k, Start(k, nonce), p, Hash(k, a));
            Ocb.Encrypt(k, nonce, a, p) == (c + t, tag)
  {
    hide SealAll, SealEnd, Hash;
  }

  lemma {:induction false} WholeThen(k: Cipher, m: Run, p: seq<bool>, q: seq<bool>, hash: Block)
    requires |p| % 512 == 0
    ensures Whole(p)
    ensures var (n, c0) := SealAll(k, m, p);
            var (c, t, tag) := LastSealed(k, n, q, hash);
            LastSealed(k, m, p + q, hash) == (c0 + c, t, tag)
  {
    FourBlocks(|p|);
    CutSum(|p| / 128, |q|);
    assert Cut(p + q) == |p| + Cut(q);
    hide *;
    assert (p + q)[..Cut(p + q)] == p + q[..Cut(q)] && (p + q)[Cut(p + q)..] == q[Cut(q)..];
    SealAppend(k, m, p, q[..Cut(q)]);
    LastSealedIs(k, m, p + q, hash);
    LastSealedIs(k, SealAll(k, m, p).0, q, hash);
  }

  lemma {:induction false} OpenedThen(k: Cipher, m: Run, c: seq<bool>, q: seq<bool>, hash: Block)
    requires |c| % 512 == 0
    ensures Whole(c)
    ensures var (n, p0) := OpenAll(k, m, c);
            var (p, t, tag) := LastOpened(k, n, q, hash);
            LastOpened(k, m, c + q, hash) == (p0 + p, t, tag)
  {
    FourBlocks(|c|);
    CutSum(|c| / 128, |q|);
    assert Cut(c + q) == |c| + Cut(q);
    hide *;
    assert (c + q)[..Cut(c + q)] == c + q[..Cut(q)] && (c + q)[Cut(c + q)..] == q[Cut(q)..];
    OpenAppend(k, m, c, q[..Cut(q)]);
    LastOpenedIs(k, m, c + q, hash);
    LastOpenedIs(k, OpenAll(k, m, c).0, q, hash);
  }
}
