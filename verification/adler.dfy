// crates/posh-term/src/inflate.rs: the Adler-32 checksum with its modulo delayed to once every 5552
// bytes, against the definition of section 8.2 of RFC 1950, and the zlib wrapper around DEFLATE.
module Adler {
  import opened Utf8
  import opened Inflate

  const MOD := 65521
  const NMAX := 5552

  type u32 = x: int | 0 <= x < 0x1_0000_0000

  /** The two sums of RFC 1950, reduced after every byte. */
  datatype Sums = Sums(a: nat, b: nat)

  function Step(s: Sums, x: byte): Sums {
    var a := (s.a + x) % MOD;
    Sums(a, (s.b + a) % MOD)
  }

  function Adler32(data: seq<byte>): (s: Sums)
    ensures s.a < MOD && s.b < MOD
  {
    if data == [] then Sums(1, 0) else Step(Adler32(data[..|data| - 1]), data[|data| - 1])
  }

  /** The same sums over one chunk, not reduced at all. */
  function Raw(s: Sums, chunk: seq<byte>): Sums {
    if chunk == [] then s
    else
      var t := Raw(s, chunk[..|chunk| - 1]);
      var a := t.a + chunk[|chunk| - 1];
      Sums(a, t.b + a)
  }

  /** The largest unreduced second sum after `n` bytes. */
  function Most(n: nat): nat {
    if n == 0 then MOD - 1 else Most(n - 1) + (MOD - 1) + 255 * n
  }

  lemma {:induction false} RawBound(s: Sums, chunk: seq<byte>)
    requires s.a < MOD && s.b < MOD
    ensures var r := Raw(s, chunk); r.a <= MOD - 1 + 255 * |chunk| && r.b <= Most(|chunk|)
    decreases |chunk|
  {
    if chunk != [] { RawBound(s, chunk[..|chunk| - 1]); }
  }

  lemma {:induction false} MostIs(n: nat)
    ensures 2 * Most(n) == 2 * (MOD - 1) * (n + 1) + 255 * n * (n + 1)
    decreases n
  {
    if n > 0 { MostIs(n - 1); }
  }

  lemma {:induction false} MostGrows(m: nat, n: nat)
    requires m <= n
    ensures Most(m) <= Most(n)
    decreases n
  {
    if m < n { MostGrows(m, n - 1); }
  }

  /** 5552 is the longest chunk: one byte more and the second sum can leave 32 bits. */
  lemma {:induction false} ChunkIsLargest(n: nat)
    ensures n <= NMAX <==> Most(n) < 0x1_0000_0000
  {
    MostIs(NMAX);
    MostIs(NMAX + 1);
    if n <= NMAX { MostGrows(n, NMAX); } else { MostGrows(NMAX + 1, n); }
  }

  /** And the bound is reached: the largest sums and `n` bytes of 255. */
  lemma {:induction false} MostReached(n: nat)
    ensures var r := Raw(Sums(MOD - 1, MOD - 1), seq(n, i => 255)); r.b == Most(n) && r.a == MOD - 1 + 255 * n
    decreases n
  {
    var s := seq(n, i => 255);
    if n > 0 {
      MostReached(n - 1);
      assert s[..n - 1] == seq(n - 1, i => 255);
    }
  }

  lemma {:induction false} ModAdd(x: int, y: int, z: int)
    requires x % MOD == y % MOD
    ensures (x + z) % MOD == (y + z) % MOD
  {
    var k := x / MOD - y / MOD;
    assert x == y + MOD * k;
    ModShift(y + z, k);
  }

  lemma {:induction false} ModShift(x: int, k: int)
    ensures (x + MOD * k) % MOD == x % MOD
  {
  }

  /** Reducing late gives the same residues. */
  lemma {:induction false} RawReduces(data: seq<byte>, chunk: seq<byte>)
    ensures var r, s := Raw(Adler32(data), chunk), Adler32(data + chunk);
            r.a % MOD == s.a && r.b % MOD == s.b
    decreases |chunk|
  {
    if chunk == [] {
      assert data + chunk == data;
    } else {
      var init, x := chunk[..|chunk| - 1], chunk[|chunk| - 1];
      RawReduces(data, init);
      assert (data + chunk)[..|data + chunk| - 1] == data + init;
      StepReduces(Raw(Adler32(data), init), Adler32(data + init), x);
    }
  }

  /** One byte, reduced now or later. */
  lemma {:induction false} StepReduces(r: Sums, s: Sums, x: byte)
    requires r.a % MOD == s.a && r.b % MOD == s.b
    ensures (r.a + x) % MOD == Step(s, x).a && (r.b + (r.a + x)) % MOD == Step(s, x).b
  {
    var t := (s.a + x) % MOD;
    Reduced(s.a);
    Reduced(s.b);
    ModAdd(r.a, s.a, x);
    ModAdd(r.b, s.b, r.a + x);
    ModAdd(r.a + x, t, s.b);
  }

  lemma {:induction false} Reduced(x: nat)
    ensures 0 <= x % MOD < MOD && x % MOD % MOD == x % MOD && (x < MOD ==> x % MOD == x)
  {
  }

  lemma {:induction false} ChunkReduces(data: seq<byte>, at: nat, n: nat, r: Sums)
    requires at + n <= |data| && r == Raw(Adler32(data[..at]), data[at..at + n])
    ensures Sums(r.a % MOD, r.b % MOD) == Adler32(data[..at + n])
  {
    hide *;
    assert data[..at] + data[at..at + n] == data[..at + n];
    RawReduces(data[..at], data[at..at + n]);
  }

  lemma {:induction false} Nothing(data: seq<byte>)
    ensures Adler32(data[..0]) == Sums(1, 0)
  {
  }

  /** Both sums stay within 32 bits, and the result is the per-byte definition. */
  method Checksum(data: seq<byte>) returns (sum: u32)
    ensures var s := Adler32(data); sum == s.b * 0x1_0000 + s.a
  {
    hide Raw, Step, Adler32, Most;
    var a: u32, b: u32 := 1, 0;
    var at := 0;
    Nothing(data);
    while at < |data|
      invariant 0 <= at <= |data| && a < MOD && b < MOD && Sums(a, b) == Adler32(data[..at])
    {
      var n := if |data| - at < NMAX then |data| - at else NMAX;
      a, b := AddChunk(a, b, data[at..at + n]);
      ChunkReduces(data, at, n, Sums(a, b));
      Reduced(a);
      Reduced(b);
      a, b := a % MOD, b % MOD;
      at := at + n;
    }
    assert data[..at] == data;
    sum := b * 0x1_0000 + a;
  }

  /** The inner loop: no reduction, and still no overflow. */
  method AddChunk(a0: u32, b0: u32, chunk: seq<byte>) returns (a: u32, b: u32)
    requires a0 < MOD && b0 < MOD && |chunk| <= NMAX
    ensures Sums(a, b) == Raw(Sums(a0, b0), chunk)
  {
    hide Most;
    a, b := a0, b0;
    for i := 0 to |chunk|
      invariant Sums(a, b) == Raw(Sums(a0, b0), chunk[..i])
    {
      assert chunk[..i + 1][..i] == chunk[..i];
      RawBound(Sums(a0, b0), chunk[..i + 1]);
      ChunkIsLargest(i + 1);
      MostAbove(i + 1);
      a := a + chunk[i];
      b := b + a;
    }
    assert chunk[..|chunk|] == chunk;
  }

  lemma {:induction false} MostAbove(n: nat)
    ensures MOD - 1 + 255 * n <= Most(n)
    decreases n
  {
    if n > 0 { MostAbove(n - 1); }
  }
}
