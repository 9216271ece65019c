// OCB as section 4 of RFC 7253 defines it: one block at a time, over an abstract block cipher, on
// strings of bits (most significant bit of each byte first).
module Ocb {
  import opened Sequences

  type Block = b: seq<bool> | |b| == 128 witness seq(128, i => false)

  /** A keyed permutation with its inverse; AES is one. */
  datatype Cipher = Cipher(E: Block -> Block, D: Block -> Block)

  ghost predicate Permutation(k: Cipher) {
    forall b: Block :: k.D(k.E(b)) == b
  }

  function Zeros(n: nat): (s: seq<bool>)
    ensures |s| == n && forall i | 0 <= i < n :: !s[i]
  {
    seq(n, i => false)
  }

  function Zero(): Block {
    Zeros(128)
  }

  /** Bitwise exclusive or of strings of one length. */
  function XorBits(a: seq<bool>, b: seq<bool>): (r: seq<bool>)
    requires |a| == |b|
    ensures |r| == |a| && forall i | 0 <= i < |a| :: r[i] == (a[i] != b[i])
  {
    seq(|a|, i requires 0 <= i < |a| => a[i] != b[i])
  }

  function Xor(a: Block, b: Block): Block {
    XorBits(a, b)
  }

  // ---- doubling and the L values --------------------------------------------

  /** double(S) of section 2 of RFC 7253. */
  function Double(s: Block): Block {
    var shifted: Block := s[1..] + [false];
    if !s[0] then shifted else Xor(shifted, Zeros(120) + [true, false, false, false, false, true, true, true])
  }

  function LStar(k: Cipher): Block {
    k.E(Zero())
  }

  function LDollar(k: Cipher): Block {
    Double(LStar(k))
  }

  function L(k: Cipher, i: nat): Block {
    if i == 0 then Double(LDollar(k)) else Double(L(k, i - 1))
  }

  /** Trailing zero bits. */
  function Ntz(n: nat): (z: nat)
    requires n > 0
  {
    if n % 2 == 1 then 0 else 1 + Ntz(n / 2)
  }

  // ---- the nonce ------------------------------------------------------------

  type Nonce = n: seq<bool> | |n| == 96 witness seq(96, i => false)

  /** The formatted nonce of section 4.2: a 12-byte nonce and a 16-byte tag. */
  function Formatted(nonce: Nonce): Block {
    Zeros(31) + [true] + nonce
  }

  /** The number a bit string denotes. */
  function Value(s: seq<bool>): (v: nat)
    ensures v < Pow2(|s|)
  {
    if s == [] then 0 else 2 * Value(s[..|s| - 1]) + (if s[|s| - 1] then 1 else 0)
  }

  function Bottom(nonce: Nonce): (b: nat)
    ensures b < 64
  {
    assert Pow2(6) == 64;
    Value(Formatted(nonce)[122..])
  }

  /** The formatted nonce with its last six bits cleared. */
  function Top(nonce: Nonce): Block {
    Formatted(nonce)[..122] + Zeros(6)
  }

  /** Ktop followed by the xor of its first 64 bits and its bits 9 to 72. */
  function Stretch(ktop: Block): (s: seq<bool>)
    ensures |s| == 192
  {
    ktop + XorBits(ktop[..64], ktop[8..72])
  }

  /** Bits `1 + bottom` to `128 + bottom` of the stretched block. */
  function Offset0(k: Cipher, nonce: Nonce): Block {
    var b := Bottom(nonce);
    Stretch(k.E(Top(nonce)))[b..b + 128]
  }

  // ---- encryption -----------------------------------------------------------

  /** Blocks done so far, current offset, running checksum. */
  datatype Run = Run(num: nat, offset: Block, checksum: Block)

  function Start(k: Cipher, nonce: Nonce): Run
  {
    Run(0, Offset0(k, nonce), Zero())
  }

  function NextOffset(k: Cipher, m: Run): Block {
    Xor(m.offset, L(k, Ntz(m.num + 1)))
  }

  /** One plaintext block. */
  function Absorb(k: Cipher, m: Run, p: Block): Run {
    Run(m.num + 1, NextOffset(k, m), Xor(m.checksum, p))
  }

  function Seal(k: Cipher, m: Run, p: Block): Block {
    var off := NextOffset(k, m);
    Xor(off, k.E(Xor(p, off)))
  }

  function Open(k: Cipher, m: Run, c: Block): Block {
    var off := NextOffset(k, m);
    Xor(off, k.D(Xor(c, off)))
  }

  predicate Whole(s: seq<bool>) {
    |s| % 128 == 0
  }

  function SealAll(k: Cipher, m: Run, p: seq<bool>): (r: (Run, seq<bool>))
    requires Whole(p)
    ensures |r.1| == |p|
    decreases |p|
  {
    if p == [] then (m, [])
    else
      var (n, rest) := SealAll(k, Absorb(k, m, p[..128]), p[128..]);
      (n, Seal(k, m, p[..128]) + rest)
  }

  function OpenAll(k: Cipher, m: Run, c: seq<bool>): (r: (Run, seq<bool>))
    requires Whole(c)
    ensures |r.1| == |c|
    decreases |c|
  {
    if c == [] then (m, [])
    else
      var p := Open(k, m, c[..128]);
      var (n, rest) := OpenAll(k, Absorb(k, m, p), c[128..]);
      (n, p + rest)
  }

  /** A partial block, then a one bit, then zeros. */
  function Padded(s: seq<bool>): Block
    requires |s| < 128
  {
    s + [true] + Zeros(127 - |s|)
  }

  function XorPart(s: seq<bool>, pad: Block): (r: seq<bool>)
    requires |s| < 128
    ensures |r| == |s|
  {
    XorBits(s, pad[..|s|])
  }

  function Tag(k: Cipher, checksum: Block, offset: Block, hash: Block): Block {
    Xor(k.E(Xor(Xor(offset, LDollar(k)), checksum)), hash)
  }

  /** The partial last block, if any, and the tag. */
  function SealEnd(k: Cipher, m: Run, p: seq<bool>, hash: Block): (r: (seq<bool>, Block))
    requires |p| < 128
    ensures |r.0| == |p|
  {
    if p == [] then ([], Tag(k, m.checksum, m.offset, hash))
    else
      var off := Xor(m.offset, LStar(k));
      (XorPart(p, k.E(off)), Tag(k, Xor(m.checksum, Padded(p)), off, hash))
  }

  function OpenEnd(k: Cipher, m: Run, c: seq<bool>, hash: Block): (r: (seq<bool>, Block))
    requires |c| < 128
    ensures |r.0| == |c|
  {
    if c == [] then ([], Tag(k, m.checksum, m.offset, hash))
    else
      var off := Xor(m.offset, LStar(k));
      var p := XorPart(c, k.E(off));
      (p, Tag(k, Xor(m.checksum, Padded(p)), off, hash))
  }

  // ---- associated data ------------------------------------------------------

  /** HASH of section 4.1: `checksum` is the running sum. */
  function HashBlock(k: Cipher, m: Run, a: Block): Run {
    var off := NextOffset(k, m);
    Run(m.num + 1, off, Xor(m.checksum, k.E(Xor(off, a))))
  }

  function HashAll(k: Cipher, m: Run, a: seq<bool>): Run
    requires Whole(a)
    decreases |a|
  {
    if a == [] then m else HashAll(k, HashBlock(k, m, a[..128]), a[128..])
  }

  function HashEnd(k: Cipher, m: Run, a: seq<bool>): Block
    requires |a| < 128
  {
    if a == [] then m.checksum else Xor(m.checksum, k.E(Xor(Xor(m.offset, LStar(k)), Padded(a))))
  }

  function Cut(s: seq<bool>): (n: nat)
    ensures n <= |s| && n % 128 == 0 && |s| - n < 128
  {
    |s| / 128 * 128
  }

  function Hash(k: Cipher, a: seq<bool>): Block {
    HashEnd(k, HashAll(k, Run(0, Zero(), Zero()), a[..Cut(a)]), a[Cut(a)..])
  }

  // ---- the mode -------------------------------------------------------------

  /** OCB-ENCRYPT: ciphertext and tag. */
  function Encrypt(k: Cipher, nonce: Nonce, a: seq<bool>, p: seq<bool>): (r: (seq<bool>, Block))
    ensures |r.0| == |p|
  {
    var (m, c) := SealAll(k, Start(k, nonce), p[..Cut(p)]);
    var (tail, tag) := SealEnd(k, m, p[Cut(p)..], Hash(k, a));
    (c + tail, tag)
  }

  /** OCB-DECRYPT before the comparison: plaintext and the expected tag. */
  function Decrypt(k: Cipher, nonce: Nonce, a: seq<bool>, c: seq<bool>): (r: (seq<bool>, Block))
    ensures |r.0| == |c|
  {
    var (m, p) := OpenAll(k, Start(k, nonce), c[..Cut(c)]);
    var (tail, tag) := OpenEnd(k, m, c[Cut(c)..], Hash(k, a));
    (p + tail, tag)
  }

  // ---- algebra --------------------------------------------------------------

  lemma {:induction false} XorTwice(a: Block, b: Block)
    ensures Xor(a, Xor(a, b)) == b && Xor(Xor(b, a), a) == b
  {
  }

  lemma {:induction false} XorSwap(a: Block, b: Block)
    ensures Xor(a, b) == Xor(b, a)
  {
  }

  /** Opening what was sealed gives the block back, with the same state afterwards. */
  lemma {:induction false} OpenSeal(k: Cipher, m: Run, p: Block)
    requires Permutation(k)
    ensures Open(k, m, Seal(k, m, p)) == p
  {
    hide NextOffset;
    var off := NextOffset(k, m);
    var x := Xor(p, off);
    XorTwice(off, k.E(x));
    XorSwap(Seal(k, m, p), off);
    assert Xor(Seal(k, m, p), off) == k.E(x);
    XorTwice(off, p);
    XorSwap(off, x);
  }

  lemma {:induction false} OpenSealAll(k: Cipher, m: Run, p: seq<bool>)
    requires Permutation(k) && Whole(p)
    ensures var (n, c) := SealAll(k, m, p); OpenAll(k, m, c) == (n, p)
    decreases |p|
  {
    hide Open, Seal, Absorb;
    if p != [] {
      OpenSeal(k, m, p[..128]);
      OpenSealAll(k, Absorb(k, m, p[..128]), p[128..]);
      var c := SealAll(k, m, p).1;
      assert c[..128] == Seal(k, m, p[..128]);
      assert c[128..] == SealAll(k, Absorb(k, m, p[..128]), p[128..]).1;
      assert p == p[..128] + p[128..];
    }
  }

  lemma {:induction false} OpenSealEnd(k: Cipher, m: Run, p: seq<bool>, hash: Block)
    requires |p| < 128
    ensures var (c, tag) := SealEnd(k, m, p, hash); OpenEnd(k, m, c, hash) == (p, tag)
  {
    hide Tag;
    if p != [] {
      var pad := k.E(Xor(m.offset, LStar(k)));
      assert XorPart(XorPart(p, pad), pad) == p;
    }
  }

  /** Decryption inverts encryption for every length, and arrives at the tag that was sent. */
  lemma {:induction false} RoundTrip(k: Cipher, nonce: Nonce, a: seq<bool>, p: seq<bool>)
    requires Permutation(k)
    ensures var (c, tag) := Encrypt(k, nonce, a, p); Decrypt(k, nonce, a, c) == (p, tag)
  {
    hide Start, Hash, SealEnd, OpenEnd, SealAll, OpenAll;
    var n := Cut(p);
    var (m, head) := SealAll(k, Start(k, nonce), p[..n]);
    var (tail, tag) := SealEnd(k, m, p[n..], Hash(k, a));
    OpenSealAll(k, Start(k, nonce), p[..n]);
    OpenSealEnd(k, m, p[n..], Hash(k, a));
    var c := head + tail;
    assert Cut(c) == n && c[..n] == head && c[n..] == tail;
    assert p == p[..n] + p[n..];
  }
}
