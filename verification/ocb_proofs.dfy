// Laws of the RFC 7253 functions that the batched implementation rests on.
module OcbProofs {
  import opened Ocb
  import opened Sequences

  /** Below 2^16 a number ends in at most fifteen zeros. */
  lemma {:induction false} NtzBound(n: nat)
    requires n > 0
    ensures Pow2(Ntz(n)) <= n
    decreases n
  {
    if n % 2 == 0 { NtzBound(n / 2); }
  }

  lemma {:induction false} Pow2Grows(a: nat, b: nat)
    requires a <= b
    ensures Pow2(a) <= Pow2(b)
    decreases b
  {
    if a < b { Pow2Grows(a, b - 1); }
  }

  lemma {:induction false} TableSuffices(n: nat)
    requires 0 < n < 0x1_0000
    ensures Ntz(n) < 16
  {
    NtzBound(n);
    assert Pow2(4) == 16;
    assert Pow2(8) == 16 * Pow2(4);
    assert Pow2(12) == 16 * Pow2(8);
    assert Pow2(16) == 16 * Pow2(12);
    if Ntz(n) >= 16 { Pow2Grows(16, Ntz(n)); }
  }

  /** Within a batch of four the L indices are 0, 1, 0 and whatever the last number ends in. */
  lemma {:induction false} BatchIndices(n: nat)
    requires n % 4 == 0
    ensures Ntz(n + 1) == 0 && Ntz(n + 2) == 1 && Ntz(n + 3) == 0
  {
    var q := n / 4;
    assert n == 4 * q;
    assert n + 2 == 2 * (2 * q + 1);
    Halves(2 * q + 1);
    Halves(2 * q);
  }

  lemma {:induction false} Halves(h: nat)
    ensures (2 * h) % 2 == 0 && (2 * h) / 2 == h && (2 * h + 1) % 2 == 1
  {
  }

  /** Portions compose. */
  lemma {:induction false} SealAppend(k: Cipher, m: Run, a: seq<bool>, b: seq<bool>)
    requires Whole(a) && Whole(b)
    ensures Whole(a + b)
    ensures var (n, c) := SealAll(k, m, a);
            var (o, d) := SealAll(k, n, b);
            SealAll(k, m, a + b) == (o, c + d)
    decreases |a|
  {
    hide Seal, Absorb;
    if a == [] {
      assert a + b == b && [] + SealAll(k, m, b).1 == SealAll(k, m, b).1;
    } else {
      assert (a + b)[..128] == a[..128] && (a + b)[128..] == a[128..] + b;
      SealAppend(k, Absorb(k, m, a[..128]), a[128..], b);
      var (n, c) := SealAll(k, Absorb(k, m, a[..128]), a[128..]);
      Assoc(Seal(k, m, a[..128]), c, SealAll(k, n, b).1);
    }
  }

  lemma {:induction false} OpenAppend(k: Cipher, m: Run, a: seq<bool>, b: seq<bool>)
    requires Whole(a) && Whole(b)
    ensures Whole(a + b)
    ensures var (n, c) := OpenAll(k, m, a);
            var (o, d) := OpenAll(k, n, b);
            OpenAll(k, m, a + b) == (o, c + d)
    decreases |a|
  {
    hide Open, Absorb;
    if a == [] {
      assert a + b == b && [] + OpenAll(k, m, b).1 == OpenAll(k, m, b).1;
    } else {
      assert (a + b)[..128] == a[..128] && (a + b)[128..] == a[128..] + b;
      OpenAppend(k, Absorb(k, m, Open(k, m, a[..128])), a[128..], b);
      var (n, c) := OpenAll(k, Absorb(k, m, Open(k, m, a[..128])), a[128..]);
      Assoc(Open(k, m, a[..128]), c, OpenAll(k, n, b).1);
    }
  }

  lemma {:induction false} HashAppend(k: Cipher, m: Run, a: seq<bool>, b: seq<bool>)
    requires Whole(a) && Whole(b)
    ensures Whole(a + b) && HashAll(k, m, a + b) == HashAll(k, HashAll(k, m, a), b)
    decreases |a|
  {
    hide HashBlock;
    if a == [] {
      assert a + b == b;
    } else {
      assert (a + b)[..128] == a[..128] && (a + b)[128..] == a[128..] + b;
      HashAppend(k, HashBlock(k, m, a[..128]), a[128..], b);
    }
  }

  // ---- batches --------------------------------------------------------------

  lemma {:induction false} HashOne(k: Cipher, m: Run, a: Block)
    ensures HashAll(k, m, a) == HashBlock(k, m, a)
  {
    hide HashBlock;
    assert a[..128] == a && a[128..] == [];
  }

  lemma {:induction false} HashFour(k: Cipher, m: Run, a0: Block, a1: Block, a2: Block, a3: Block)
    ensures Whole(a0 + a1 + a2 + a3)
    ensures HashAll(k, m, a0 + a1 + a2 + a3) ==
            HashBlock(k, HashBlock(k, HashBlock(k, HashBlock(k, m, a0), a1), a2), a3)
  {
    hide HashAll, HashBlock;
    HashAppend(k, m, a0 + a1 + a2, a3);
    HashAppend(k, m, a0 + a1, a2);
    HashAppend(k, m, a0, a1);
    HashOne(k, m, a0);
    HashOne(k, HashBlock(k, m, a0), a1);
    HashOne(k, HashBlock(k, HashBlock(k, m, a0), a1), a2);
    HashOne(k, HashBlock(k, HashBlock(k, HashBlock(k, m, a0), a1), a2), a3);
  }

  /** The offsets of a batch: the third one is reached from the first by a single L value. */
  lemma {:induction false} BatchOffsets(k: Cipher, off: Block, num: nat, o1: Block, o2: Block, o3: Block, o4: Block)
    requires num % 4 == 0
    requires o1 == Xor(off, L(k, 0)) && o2 == Xor(o1, L(k, 1)) && o4 == Xor(o3, L(k, Ntz(num + 4)))
    requires o3 == Xor(o2, L(k, 0)) || o3 == Xor(off, L(k, 1))
    ensures o1 == Xor(off, L(k, Ntz(num + 1))) && o2 == Xor(o1, L(k, Ntz(num + 2)))
    ensures o3 == Xor(o2, L(k, Ntz(num + 3))) && o4 == Xor(o3, L(k, Ntz(num + 4)))
  {
    hide L, Ntz;
    BatchIndices(num);
    assert Xor(Xor(Xor(off, L(k, 0)), L(k, 1)), L(k, 0)) == Xor(off, L(k, 1));
  }

  lemma {:induction false} HashBatch(k: Cipher, m: Run, a0: Block, a1: Block, a2: Block, a3: Block)
    requires m.num % 4 == 0
    ensures Whole(a0 + a1 + a2 + a3)
    ensures var o1 := Xor(m.offset, L(k, 0));
            var o2 := Xor(o1, L(k, 1));
            var o3 := Xor(m.offset, L(k, 1));
            var o4 := Xor(o3, L(k, Ntz(m.num + 4)));
            HashAll(k, m, a0 + a1 + a2 + a3) == Run(m.num + 4, o4,
              Xor(Xor(Xor(Xor(m.checksum, k.E(Xor(o1, a0))), k.E(Xor(o2, a1))), k.E(Xor(o3, a2))), k.E(Xor(o4, a3))))
  {
    hide L, Ntz, Xor, HashAll;
    var o1 := Xor(m.offset, L(k, 0));
    var o3 := Xor(m.offset, L(k, 1));
    BatchOffsets(k, m.offset, m.num, o1, Xor(o1, L(k, 1)), o3, Xor(o3, L(k, Ntz(m.num + 4))));
    HashFour(k, m, a0, a1, a2, a3);
  }

  // ---- the last few blocks --------------------------------------------------

  /** The encryptions of `ta` added to `s`. */
  function SumAll(k: Cipher, s: Block, ta: seq<Block>): Block {
    if ta == [] then s else Xor(SumAll(k, s, ta[..|ta| - 1]), k.E(ta[|ta| - 1]))
  }

  /** The order of the sum does not matter. */
  lemma {:induction false} SumFirst(k: Cipher, s: Block, ta: seq<Block>, b: Block)
    ensures SumAll(k, Xor(s, k.E(b)), ta) == SumAll(k, s, ta + [b])
    decreases |ta|
  {
    assert (ta + [b])[..|ta|] == ta;
    if ta != [] {
      var init, last := ta[..|ta| - 1], ta[|ta| - 1];
      SumFirst(k, s, init, b);
      assert (init + [b])[..|init|] == init;
      var t := SumAll(k, s, init);
      assert Xor(Xor(t, k.E(b)), k.E(last)) == Xor(Xor(t, k.E(last)), k.E(b));
    }
  }

  /** `n` blocks of `a` have been collected in `ta`, to be encrypted and summed later. */
  ghost predicate Tracks(k: Cipher, m: Run, a: seq<bool>, n: nat, off: Block, ta: seq<Block>)
    requires 128 * n <= |a|
  {
    Whole(a[..128 * n]) && HashAll(k, m, a[..128 * n]) == Run(m.num + n, off, SumAll(k, m.checksum, ta))
  }

  lemma {:induction false} TrackNone(k: Cipher, m: Run, a: seq<bool>)
    ensures Tracks(k, m, a, 0, m.offset, [])
  {
    assert a[..0] == [];
  }

  lemma {:induction false} TrackBlock(k: Cipher, m: Run, a: seq<bool>, n: nat, off: Block, ta: seq<Block>)
    requires 128 * n + 128 <= |a| && Tracks(k, m, a, n, off, ta)
    ensures var next := Xor(off, L(k, Ntz(m.num + n + 1)));
            Tracks(k, m, a, n + 1, next, ta + [Xor(next, a[128 * n..128 * n + 128])])
  {
    hide HashAll, Xor, L, Ntz;
    var b: Block := a[128 * n..128 * n + 128];
    var next := Xor(off, L(k, Ntz(m.num + n + 1)));
    HashAppend(k, m, a[..128 * n], b);
    HashOne(k, Run(m.num + n, off, SumAll(k, m.checksum, ta)), b);
    assert a[..128 * n] + b == a[..128 * (n + 1)];
    var grown := ta + [Xor(next, b)];
    assert grown[..|ta|] == ta;
  }

  lemma {:induction false} TrackEnd(k: Cipher, m: Run, a: seq<bool>, n: nat, off: Block, ta: seq<Block>)
    requires 128 * n <= |a| < 128 * n + 128 && Tracks(k, m, a, n, off, ta)
    ensures Cut(a) == 128 * n
    ensures HashEnd(k, HashAll(k, m, a[..Cut(a)]), a[Cut(a)..]) ==
            if 128 * n == |a| then SumAll(k, m.checksum, ta)
            else SumAll(k, m.checksum, ta + [Xor(Xor(off, LStar(k)), Padded(a[128 * n..]))])
  {
    hide HashAll, Xor, LStar, Padded;
    assert Cut(a) == 128 * n;
    if 128 * n < |a| {
      var grown := ta + [Xor(Xor(off, LStar(k)), Padded(a[128 * n..]))];
      assert grown[..|ta|] == ta;
    }
  }

  // ---- message batches ------------------------------------------------------

  lemma {:induction false} SealOne(k: Cipher, m: Run, p: Block)
    ensures SealAll(k, m, p) == (Absorb(k, m, p), Seal(k, m, p))
  {
    hide Seal, Absorb;
    assert p[..128] == p && p[128..] == [];
    assert SealAll(k, Absorb(k, m, p), []) == (Absorb(k, m, p), []);
    assert Seal(k, m, p) + [] == Seal(k, m, p);
  }

  lemma {:induction false} OpenOne(k: Cipher, m: Run, c: Block)
    ensures OpenAll(k, m, c) == (Absorb(k, m, Open(k, m, c)), Open(k, m, c))
  {
    hide Open, Absorb;
    assert c[..128] == c && c[128..] == [];
    var n := Absorb(k, m, Open(k, m, c));
    assert OpenAll(k, n, []) == (n, []);
    assert Open(k, m, c) + [] == Open(k, m, c);
  }

  lemma {:induction false} SealFour(k: Cipher, m: Run, p0: Block, p1: Block, p2: Block, p3: Block)
    ensures Whole(p0 + p1 + p2 + p3)
    ensures var m1 := Absorb(k, m, p0);
            var m2 := Absorb(k, m1, p1);
            var m3 := Absorb(k, m2, p2);
            SealAll(k, m, p0 + p1 + p2 + p3) ==
            (Absorb(k, m3, p3), Seal(k, m, p0) + Seal(k, m1, p1) + Seal(k, m2, p2) + Seal(k, m3, p3))
  {
    hide SealAll, Absorb, Seal;
    SealAppend(k, m, p0 + p1 + p2, p3);
    SealAppend(k, m, p0 + p1, p2);
    SealAppend(k, m, p0, p1);
    var m1 := Absorb(k, m, p0);
    var m2 := Absorb(k, m1, p1);
    SealOne(k, m, p0);
    SealOne(k, m1, p1);
    SealOne(k, m2, p2);
    SealOne(k, Absorb(k, m2, p2), p3);
  }

  lemma {:induction false} OpenFour(k: Cipher, m: Run, c0: Block, c1: Block, c2: Block, c3: Block)
    ensures Whole(c0 + c1 + c2 + c3)
    ensures var p0 := Open(k, m, c0);
            var m1 := Absorb(k, m, p0);
            var p1 := Open(k, m1, c1);
            var m2 := Absorb(k, m1, p1);
            var p2 := Open(k, m2, c2);
            var m3 := Absorb(k, m2, p2);
            var p3 := Open(k, m3, c3);
            OpenAll(k, m, c0 + c1 + c2 + c3) == (Absorb(k, m3, p3), p0 + p1 + p2 + p3)
  {
    hide OpenAll, Absorb, Open;
    OpenAppend(k, m, c0 + c1 + c2, c3);
    OpenAppend(k, m, c0 + c1, c2);
    OpenAppend(k, m, c0, c1);
    var m1 := Absorb(k, m, Open(k, m, c0));
    var m2 := Absorb(k, m1, Open(k, m1, c1));
    OpenOne(k, m, c0);
    OpenOne(k, m1, c1);
    OpenOne(k, m2, c2);
    OpenOne(k, Absorb(k, m2, Open(k, m2, c2)), c3);
  }

  // ---- the last message blocks ----------------------------------------------

  /** The blocks that come out of encrypting `ta` and adding the offsets. */
  function Outs(f: Block -> Block, ta: seq<Block>, oa: seq<Block>): (s: seq<bool>)
    requires |ta| == |oa|
    ensures |s| == 128 * |ta|
  {
    if ta == [] then [] else Xor(f(ta[0]), oa[0]) + Outs(f, ta[1..], oa[1..])
  }

  lemma {:induction false} OutsPush(f: Block -> Block, ta: seq<Block>, oa: seq<Block>, t: Block, o: Block)
    requires |ta| == |oa|
    ensures Outs(f, ta + [t], oa + [o]) == Outs(f, ta, oa) + Xor(f(t), o)
    decreases |ta|
  {
    hide Xor;
    if ta == [] {
      OutsOne(f, t, o);
      assert ta + [t] == [t] && oa + [o] == [o];
      assert Outs(f, ta, oa) + Xor(f(t), o) == Xor(f(t), o);
    } else {
      OutsPush(f, ta[1..], oa[1..], t, o);
      assert (ta + [t])[1..] == ta[1..] + [t] && (oa + [o])[1..] == oa[1..] + [o];
      Assoc(Xor(f(ta[0]), oa[0]), Outs(f, ta[1..], oa[1..]), Xor(f(t), o));
    }
  }

  lemma {:induction false} OutsOne(f: Block -> Block, t: Block, o: Block)
    ensures Outs(f, [t], [o]) == Xor(f(t), o)
  {
    hide Xor;
    assert Outs(f, [], []) == [];
    assert [t][1..] == [] && [o][1..] == [];
    assert Xor(f(t), o) + [] == Xor(f(t), o);
  }

  ghost predicate SealTracks(k: Cipher, m: Run, p: seq<bool>, j: nat, n: Run, ta: seq<Block>, oa: seq<Block>)
    requires 128 * j <= |p|
  {
    |ta| == |oa| == j && Whole(p[..128 * j]) && n.num == m.num + j
      && SealAll(k, m, p[..128 * j]) == (n, Outs(k.E, ta, oa))
  }

  lemma {:induction false} SealTrackNone(k: Cipher, m: Run, p: seq<bool>)
    ensures SealTracks(k, m, p, 0, m, [], [])
  {
    assert p[..0] == [];
  }

  lemma {:induction false} SealTrackBlock(k: Cipher, m: Run, p: seq<bool>, j: nat, n: Run, ta: seq<Block>,
      oa: seq<Block>)
    requires 128 * j + 128 <= |p| && SealTracks(k, m, p, j, n, ta, oa)
    ensures var o := Xor(n.offset, L(k, Ntz(m.num + j + 1)));
            var b: Block := p[128 * j..128 * j + 128];
            SealTracks(k, m, p, j + 1, Run(n.num + 1, o, Xor(n.checksum, b)), ta + [Xor(o, b)], oa + [o])
  {
    hide SealAll, Xor, L, Ntz, Outs;
    var b: Block := p[128 * j..128 * j + 128];
    var o := Xor(n.offset, L(k, Ntz(m.num + j + 1)));
    SealAppend(k, m, p[..128 * j], b);
    SealOne(k, n, b);
    OutsPush(k.E, ta, oa, Xor(o, b), o);
    XorSwap(o, b);
    XorSwap(o, k.E(Xor(b, o)));
    assert p[..128 * j] + b == p[..128 * (j + 1)];
  }

  /** Ending a message after `j` tracked blocks. */
  lemma {:induction false} SealTrackEnd(k: Cipher, m: Run, p: seq<bool>, j: nat, n: Run, ta: seq<Block>, oa: seq<Block>,
      hash: Block)
    requires 128 * j <= |p| < 128 * j + 128 && SealTracks(k, m, p, j, n, ta, oa)
    ensures Cut(p) == 128 * j && SealAll(k, m, p[..Cut(p)]) == (n, Outs(k.E, ta, oa))
    ensures var tail := p[128 * j..];
            if 128 * j == |p| then SealEnd(k, n, p[Cut(p)..], hash) ==
              ([], Xor(k.E(Xor(Xor(n.offset, LDollar(k)), n.checksum)), hash))
            else
              var tmp := Padded(tail);
              var off := Xor(n.offset, LStar(k));
              SealEnd(k, n, p[Cut(p)..], hash) ==
                (Xor(tmp, k.E(off))[..|tail|], Xor(k.E(Xor(Xor(off, LDollar(k)), Xor(n.checksum, tmp))), hash))
  {
    hide SealAll, Outs, LStar, LDollar;
    assert Cut(p) == 128 * j;
    if 128 * j < |p| {
      var tail := p[128 * j..];
      assert XorPart(tail, k.E(Xor(n.offset, LStar(k)))) == Xor(Padded(tail), k.E(Xor(n.offset, LStar(k))))[..|tail|];
    }
  }

  /** The blocks `f(ta[i])` plus `oa[i]` added to `s`. */
  function SumOuts(f: Block -> Block, s: Block, ta: seq<Block>, oa: seq<Block>): Block
    requires |ta| == |oa|
  {
    var n := |ta| - 1;
    if n < 0 then s else Xor(SumOuts(f, s, ta[..n], oa[..n]), Xor(f(ta[n]), oa[n]))
  }

  lemma {:induction false} SumOutsFirst(f: Block -> Block, s: Block, ta: seq<Block>, oa: seq<Block>, t: Block, o: Block)
    requires |ta| == |oa|
    ensures SumOuts(f, Xor(s, Xor(f(t), o)), ta, oa) == SumOuts(f, s, ta + [t], oa + [o])
  {
    SumOutsSwap(f, s, ta, oa, Xor(f(t), o));
    assert (ta + [t])[..|ta|] == ta && (oa + [o])[..|oa|] == oa;
  }

  lemma {:induction false} SumOutsSwap(f: Block -> Block, s: Block, ta: seq<Block>, oa: seq<Block>, b: Block)
    requires |ta| == |oa|
    ensures SumOuts(f, Xor(s, b), ta, oa) == Xor(SumOuts(f, s, ta, oa), b)
    decreases |ta|
  {
    var n := |ta| - 1;
    if n >= 0 {
      SumOutsSwap(f, s, ta[..n], oa[..n], b);
      XorLast(SumOuts(f, s, ta[..n], oa[..n]), b, Xor(f(ta[n]), oa[n]));
    }
  }

  lemma {:induction false} XorLast(a: Block, b: Block, c: Block)
    ensures Xor(Xor(a, b), c) == Xor(Xor(a, c), b)
  {
  }

  ghost predicate OpenTracks(k: Cipher, m: Run, c: seq<bool>, j: nat, off: Block, ta: seq<Block>, oa: seq<Block>)
    requires 128 * j <= |c|
  {
    && |ta| == |oa| == j && Whole(c[..128 * j])
    && OpenAll(k, m, c[..128 * j]) == (Run(m.num + j, off, SumOuts(k.D, m.checksum, ta, oa)), Outs(k.D, ta, oa))
  }

  lemma {:induction false} OpenTrackNone(k: Cipher, m: Run, c: seq<bool>)
    ensures OpenTracks(k, m, c, 0, m.offset, [], [])
  {
    assert c[..0] == [];
  }

  lemma {:induction false} OpenTrackBlock(k: Cipher, m: Run, c: seq<bool>, j: nat, off: Block, ta: seq<Block>,
      oa: seq<Block>)
    requires 128 * j + 128 <= |c| && OpenTracks(k, m, c, j, off, ta, oa)
    ensures var o := Xor(off, L(k, Ntz(m.num + j + 1)));
            var b: Block := c[128 * j..128 * j + 128];
            OpenTracks(k, m, c, j + 1, o, ta + [Xor(o, b)], oa + [o])
  {
    hide OpenAll, Xor, L, Ntz, Outs;
    var b: Block := c[128 * j..128 * j + 128];
    var n := Run(m.num + j, off, SumOuts(k.D, m.checksum, ta, oa));
    var o := Xor(off, L(k, Ntz(m.num + j + 1)));
    OpenAppend(k, m, c[..128 * j], b);
    OpenOne(k, n, b);
    OutsPush(k.D, ta, oa, Xor(o, b), o);
    XorSwap(o, b);
    XorSwap(o, k.D(Xor(b, o)));
    assert c[..128 * j] + b == c[..128 * (j + 1)];
    assert (ta + [Xor(o, b)])[..j] == ta && (oa + [o])[..j] == oa;
  }

  lemma {:induction false} OpenTrackEnd(k: Cipher, m: Run, c: seq<bool>, j: nat, off: Block, ta: seq<Block>,
      oa: seq<Block>, hash: Block)
    requires 128 * j <= |c| < 128 * j + 128 && OpenTracks(k, m, c, j, off, ta, oa)
    ensures Cut(c) == 128 * j
    ensures var (n, p) := OpenAll(k, m, c[..Cut(c)]);
            var tail := c[128 * j..];
            p == Outs(k.D, ta, oa) &&
            if 128 * j == |c| then
              OpenEnd(k, n, c[Cut(c)..], hash) ==
                ([], Xor(k.E(Xor(Xor(off, LDollar(k)), SumOuts(k.D, m.checksum, ta, oa))), hash))
            else
              var o := Xor(off, LStar(k));
              var p := XorPart(tail, k.E(o));
              OpenEnd(k, n, c[Cut(c)..], hash) ==
                (p, Xor(k.E(Xor(Xor(o, LDollar(k)), SumOuts(k.D, Xor(m.checksum, Padded(p)), ta, oa))), hash))
  {
    hide OpenAll, Outs, LStar, LDollar, Xor, XorPart;
    assert Cut(c) == 128 * j;
    if 128 * j < |c| {
      SumOutsSwap(k.D, m.checksum, ta, oa, Padded(XorPart(c[128 * j..], k.E(Xor(off, LStar(k))))));
    }
  }
}
