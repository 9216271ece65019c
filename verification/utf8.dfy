// UTF-8 as the two crates use it: `str::from_utf8`, its error positions, and
// `String::from_utf8_lossy`. The terminal parser, the recorder and the JSON
// reader all decode through this module.
module Utf8 {
  type byte = x: int | 0 <= x < 256

  const REPLACEMENT: char := '\U{FFFD}'

  /** What a decoder finds at the front of a nonempty byte string. `Truncated` means that
      the bytes so far could still grow into a character (`error_len() == None`). */
  datatype Scan = Scalar(c: char, len: nat) | Invalid(len: nat) | Truncated

  predicate Continuation(b: byte) {
    0x80 <= b < 0xC0
  }

  function Encode(c: char): (bytes: seq<byte>)
    ensures 1 <= |bytes| <= 4
  {
    var n := c as int;
    if n < 0x80 then [n]
    else if n < 0x800 then [0xC0 + n / 64, 0x80 + n % 64]
    else if n < 0x1_0000 then [0xE0 + n / 64 / 64, 0x80 + n / 64 % 64, 0x80 + n % 64]
    else [0xF0 + n / 64 / 64 / 64, 0x80 + n / 64 / 64 % 64, 0x80 + n / 64 % 64, 0x80 + n % 64]
  }

  /** Number of bytes a lead byte announces; 0 for a byte that cannot lead. */
  function LeadWidth(b: byte): nat {
    if b < 0x80 then 1
    else if b < 0xC2 then 0
    else if b < 0xE0 then 2
    else if b < 0xF0 then 3
    else if b < 0xF5 then 4
    else 0
  }

  /** The second-byte ranges that exclude overlong forms, surrogates and values past U+10FFFF. */
  predicate SecondOk(lead: byte, b: byte) {
    if lead == 0xE0 then 0xA0 <= b < 0xC0
    else if lead == 0xED then 0x80 <= b < 0xA0
    else if lead == 0xF0 then 0x90 <= b < 0xC0
    else if lead == 0xF4 then 0x80 <= b < 0x90
    else Continuation(b)
  }

  function Next(s: seq<byte>): (r: Scan)
    requires s != []
    ensures !r.Truncated? ==> 1 <= r.len <= |s|
  {
    var w, b0: int := LeadWidth(s[0]), s[0];
    if w == 0 then Invalid(1)
    else if w == 1 then Scalar(b0 as char, 1)
    else if |s| < 2 then Truncated
    else if !SecondOk(s[0], s[1]) then Invalid(1)
    else
      var b1: int := s[1] - 0x80;
      if w == 2 then Scalar(((b0 - 0xC0) * 64 + b1) as char, 2)
      else if |s| < 3 then Truncated
      else if !Continuation(s[2]) then Invalid(2)
      else
        var b2: int := s[2] - 0x80;
        if w == 3 then Scalar((((b0 - 0xE0) * 64 + b1) * 64 + b2) as char, 3)
        else if |s| < 4 then Truncated
        else if !Continuation(s[3]) then Invalid(3)
        else Scalar(((((b0 - 0xF0) * 64 + b1) * 64 + b2) * 64 + (s[3] - 0x80)) as char, 4)
  }

  function EncodeAll(t: string): seq<byte> {
    if t == [] then [] else Encode(t[0]) + EncodeAll(t[1..])
  }

  /** `String::from_utf8_lossy`: each maximal ill-formed part becomes one U+FFFD. */
  function Lossy(s: seq<byte>): string {
    if s == [] then []
    else match Next(s)
      case Scalar(c, n) => [c] + Lossy(s[n..])
      case Invalid(n) => [REPLACEMENT] + Lossy(s[n..])
      case Truncated => [REPLACEMENT]
  }

  /** `str::from_utf8` succeeds. */
  predicate WellFormed(s: seq<byte>) {
    s == [] || (Next(s).Scalar? && WellFormed(s[Next(s).len..]))
  }

  /** Bytes that a further write could complete into one character. */
  predicate Incomplete(s: seq<byte>) {
    s != [] && Next(s).Truncated?
  }

  /** Decoding one character and encoding it again gives the bytes that were read. */
  lemma {:induction false} EncodeNext(s: seq<byte>)
    requires s != [] && Next(s).Scalar?
    ensures Encode(Next(s).c) == s[..Next(s).len]
  {
    var n := Next(s).c as int;
    var b0: int := s[0];
    if LeadWidth(s[0]) == 2 {
      assert n / 64 == b0 - 0xC0;
    } else if LeadWidth(s[0]) == 3 {
      assert n / 64 == (b0 - 0xE0) * 64 + (s[1] - 0x80);
      assert n / 64 / 64 == b0 - 0xE0;
    } else if LeadWidth(s[0]) == 4 {
      assert n / 64 == ((b0 - 0xF0) * 64 + (s[1] - 0x80)) * 64 + (s[2] - 0x80);
      assert n / 64 / 64 == (b0 - 0xF0) * 64 + (s[1] - 0x80);
      assert n / 64 / 64 / 64 == b0 - 0xF0;
    }
  }

  lemma {:induction false} NextEncode(c: char, rest: seq<byte>)
    ensures Next(Encode(c) + rest) == Scalar(c, |Encode(c)|)
  {
    var n := c as int;
    var q := n / 64;
    var e := Encode(c);
    var s := e + rest;
    assert forall i | 0 <= i < |e| :: s[i] == e[i];
    assert n == 64 * q + n % 64;
    if 0x800 <= n {
      assert q == 64 * (q / 64) + q % 64;
    }
    if 0x1_0000 <= n {
      assert q / 64 == 64 * (q / 64 / 64) + q / 64 % 64;
    }
  }

  lemma {:induction false} EncodeAllAppend(s: string, t: string)
    ensures EncodeAll(s + t) == EncodeAll(s) + EncodeAll(t)
  {
    if s == [] {
      assert s + t == t;
    } else {
      assert (s + t)[1..] == s[1..] + t;
      EncodeAllAppend(s[1..], t);
    }
  }

  /** Decoding is a left inverse of encoding, and encodings are well-formed. */
  lemma {:induction false} LossyEncodeAll(t: string)
    ensures Lossy(EncodeAll(t)) == t && WellFormed(EncodeAll(t))
  {
    if t != [] {
      NextEncode(t[0], EncodeAll(t[1..]));
      assert EncodeAll(t)[|Encode(t[0])|..] == EncodeAll(t[1..]);
      LossyEncodeAll(t[1..]);
    }
  }

  /** What is decided about a prefix stays decided when more bytes arrive. */
  lemma {:induction false} NextStable(s: seq<byte>, t: seq<byte>)
    requires s != [] && !Next(s).Truncated?
    ensures Next(s + t) == Next(s)
  {
    assert (s + t)[0] == s[0];
    if |s| > 1 { assert (s + t)[1] == s[1]; }
    if |s| > 2 { assert (s + t)[2] == s[2]; }
    if |s| > 3 { assert (s + t)[3] == s[3]; }
  }

  lemma {:induction false} EncodeOne(c: char)
    ensures EncodeAll([c]) == Encode(c)
  {
    hide Encode;
    assert [c][1..] == [];
    assert EncodeAll([]) == [];
  }

  lemma {:induction false} LossyStep(s: seq<byte>)
    requires s != [] && WellFormed(s)
    ensures Next(s).Scalar? && Lossy(s) == [Next(s).c] + Lossy(s[Next(s).len..]) && WellFormed(s[Next(s).len..])
  {
    hide Next;
  }

  /** On well-formed input the lossy decoder is exact: it inverts `EncodeAll`. */
  lemma {:induction false} EncodeLossy(s: seq<byte>)
    requires WellFormed(s)
    ensures EncodeAll(Lossy(s)) == s
    decreases |s|
  {
    hide *;
    if s == [] {
      NothingLossy();
    } else {
      LossyStep(s);
      EncodeNext(s);
      var c, n := Next(s).c, Next(s).len;
      EncodeLossy(s[n..]);
      EncodeAllAppend([c], Lossy(s[n..]));
      EncodeOne(c);
      CutAt(s, n);
    }
  }

  lemma {:induction false} NothingLossy()
    ensures EncodeAll(Lossy([])) == []
  {
    assert Lossy([]) == "";
  }

  lemma {:induction false} CutAt(s: seq<byte>, n: nat)
    requires n <= |s|
    ensures s[..n] + s[n..] == s
  {
  }

  // ---- ill-formed bytes ---------------------------------------------------------

  /** A byte that can follow this lead. */
  function SecondFor(lead: byte): byte {
    if lead == 0xE0 then 0xA0 else if lead == 0xF0 then 0x90 else 0x80
  }

  /** A beginning of a character, completed to one. */
  function Completed(s: seq<byte>): seq<byte>
    requires s != []
  {
    var t := if |s| == 1 then s + [SecondFor(s[0])] else s;
    if LeadWidth(s[0]) > |t| then t + seq(LeadWidth(s[0]) - |t|, i => 0x80) else t
  }

  lemma {:induction false} CompletedReads(s: seq<byte>)
    requires s != [] && (Next(s).Truncated? || (Next(s).Invalid? && Next(s).len >= 2))
    ensures var k := if Next(s).Truncated? then |s| else Next(s).len;
            && k <= |s| && Next(Completed(s[..k])).Scalar? && Next(Completed(s[..k])).len == |Completed(s[..k])| > k
            && s[..k] <= Completed(s[..k])
  {
  }

  lemma {:induction false} StaysInvalid(s: seq<byte>, t: seq<byte>)
    requires s != [] && Next(s).Invalid? && Next(s).len < |t| && |t| <= |s| && t == s[..|t|]
    ensures Next(t) == Next(s)
  {
  }

  /** Section 3.9 of the Unicode standard: what becomes one U+FFFD is a maximal part that could begin a
      character, or one byte that could not; no more of the bytes begins one. What is held back as
      truncated could still become a character. */
  lemma {:induction false} MaximalPart(s: seq<byte>, c: char) returns (d: char)
    requires s != []
    ensures Next(s).Scalar? ==> s[..Next(s).len] == Encode(Next(s).c)
    ensures Next(s).Truncated? ==> s < Encode(d)
    ensures Next(s).Invalid? && Next(s).len >= 2 ==> s[..Next(s).len] < Encode(d)
    ensures Next(s).Invalid? && Next(s).len < |s| ==> !(s[..Next(s).len + 1] <= Encode(c))
    ensures !Next(s).Scalar? ==> !(Encode(c) <= s)
  {
    d := c;
    NextEncode(c, []);
    assert Encode(c) + [] == Encode(c);
    match Next(s)
    case Scalar(_, _) => EncodeNext(s);
    case Truncated =>
      CompletedReads(s);
      assert s[..|s|] == s;
      EncodeNext(Completed(s));
      d := Next(Completed(s)).c;
      if Encode(c) <= s { PrefixReads(s, c); }
    case Invalid(n) =>
      if n >= 2 {
        CompletedReads(s);
        EncodeNext(Completed(s[..n]));
        d := Next(Completed(s[..n])).c;
      }
      if n < |s| && s[..n + 1] <= Encode(c) { Begins(s, n, c); }
      if Encode(c) <= s { PrefixReads(s, c); }
  }

  lemma {:induction false} PrefixReads(s: seq<byte>, c: char)
    requires Encode(c) <= s
    ensures Next(s).Scalar?
  {
    NextEncode(c, s[|Encode(c)|..]);
    assert Encode(c) + s[|Encode(c)|..] == s;
  }

  /** A character does not begin with ill-formed bytes. */
  lemma {:induction false} Begins(s: seq<byte>, n: nat, c: char)
    requires n < |s| && Next(s) == Invalid(n)
    ensures !(s[..n + 1] <= Encode(c))
  {
    if s[..n + 1] <= Encode(c) {
      NextEncode(c, []);
      assert Encode(c) + [] == Encode(c);
      StaysInvalid(s, s[..n + 1]);
      SameFront(s[..n + 1], Encode(c), n);
    }
  }

  lemma {:induction false} SameFront(s: seq<byte>, t: seq<byte>, n: nat)
    requires |s| == n + 1 && s <= t && Next(s) == Invalid(n)
    ensures Next(t) == Invalid(n)
  {
  }
}
