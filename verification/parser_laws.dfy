// What the parser reports besides characters and control sequences: escape sequences, strings, controls
// inside sequences, what is cancelled and what is ignored, and broken UTF-8.
module ParserLaws {
  import opened Utf8
  import opened VtParser
  import opened VtParserProofs

  /** In the middle of an escape or control sequence. */
  predicate InSequence(s: State) {
    s in {Escape, EscapeIntermediate, CsiEntry, CsiParam, CsiIntermediate, CsiIgnore}
  }

  predicate InDcsHeader(s: State) {
    s in {DcsEntry, DcsParam, DcsIntermediate}
  }

  /** CAN and SUB cancel a sequence, ESC begins another; other C0 controls are carried out at once, and the
      sequence goes on. In the header of a DCS string these are dropped. */
  lemma {:induction false} SequenceControls(p: Fields, b: byte)
    requires InSequence(p.state) || InDcsHeader(p.state)
    ensures b == 0x18 || b == 0x1A ==> Advance(p, b) == (p.(state := Ground), [Execute(b)])
    ensures b == 0x1B ==> Advance(p, b) == (p.(state := Escape), [])
    ensures b < 0x20 && b !in {0x18, 0x1A, 0x1B} ==>
              Advance(p, b) == (p, if InDcsHeader(p.state) then [] else [Execute(b)])
    ensures b == 0x7F ==> Advance(p, b) == (p, [])
  {
  }

  /** The 8-bit introducers are the two-character ones. */
  lemma {:induction false} EightBitAlike(p: Fields)
    requires Idle(p)
    ensures ParseAll(p, [0x9B]) == ParseAll(p, [0x1B, '[' as int])
    ensures ParseAll(p, [0x9D]) == ParseAll(p, [0x1B, ']' as int])
    ensures ParseAll(p, [0x90]) == ParseAll(p, [0x1B, 'P' as int])
    ensures ParseAll(p, [0x9F]) == ParseAll(p, [0x1B, '_' as int])
    ensures ParseAll(p, [0x98]) == ParseAll(p, [0x1B, 'X' as int])
            && ParseAll(p, [0x9E]) == ParseAll(p, [0x1B, '^' as int])
  {
    hide Advance;
    TwoQuiet(p, 0x1B, '[' as int, 0x9B);
    TwoQuiet(p, 0x1B, ']' as int, 0x9D);
    TwoQuiet(p, 0x1B, 'P' as int, 0x90);
    TwoQuiet(p, 0x1B, '_' as int, 0x9F);
    TwoQuiet(p, 0x1B, 'X' as int, 0x98);
    TwoQuiet(p, 0x1B, '^' as int, 0x9E);
  }

  lemma {:induction false} TwoQuiet(p: Fields, a: byte, b: byte, c: byte)
    requires Idle(p) && a == 0x1B
    requires (b as int, c as int) in {('[' as int, 0x9B), (']' as int, 0x9D),
               ('P' as int, 0x90), ('_' as int, 0x9F), ('X' as int, 0x98), ('^' as int, 0x9E)}
    ensures ParseAll(p, [c]) == ParseAll(p, [a, b])
  {
    var q := Advance(p, a).0;
    assert [a, b][1..] == [b] && [b][1..] == [] && [c][1..] == [];
    assert Advance(p, a) == (p.(state := Escape), []);
    assert Advance(p, c) == Advance(q, b);
    assert ParseAll(q, [b]) == (Advance(q, b).0, Advance(q, b).1 + []);
    assert ParseAll(p, [c]) == (Advance(p, c).0, Advance(p, c).1 + []);
    assert [] + (Advance(q, b).1 + []) == Advance(q, b).1 + [];
  }

  // ---- escape sequences -----------------------------------------------------------

  /** Intermediates that are kept: the first two. */
  function Kept(inter: seq<byte>): seq<byte> {
    if |inter| <= 2 then inter else inter[..2]
  }

  lemma {:induction false} KeptMore(a: seq<byte>, inter: seq<byte>)
    requires |a| <= 2 && inter != []
    ensures Kept((if |a| < 2 then a + [inter[0]] else a) + inter[1..]) == Kept(a + inter)
  {
    if |a| < 2 {
      assert a + [inter[0]] + inter[1..] == a + inter;
    } else {
      assert (a + inter[1..])[..2] == a == (a + inter)[..2];
    }
  }

  lemma {:induction false} CollectsEscape(p: Fields, inter: seq<byte>)
    requires p.state == EscapeIntermediate && |p.intermediates| <= 2 && forall b | b in inter :: 0x20 <= b < 0x30
    ensures ParseAll(p, inter) == (p.(intermediates := Kept(p.intermediates + inter)), [])
    decreases |inter|
  {
    hide Kept;
    if inter == [] {
      assert p.intermediates + inter == p.intermediates;
      assert Kept(p.intermediates) == p.intermediates by { KeptAll(p.intermediates); }
    } else {
      var q := p.Collect(inter[0]);
      assert inter[0] in inter && forall b | b in inter[1..] :: b in inter;
      assert Advance(p, inter[0]) == (q, []);
      KeptMore(p.intermediates, inter);
      CollectsEscape(q, inter[1..]);
      assert [] + ParseAll(q, inter[1..]).1 == ParseAll(q, inter[1..]).1;
    }
  }

  lemma {:induction false} KeptAll(a: seq<byte>)
    requires |a| <= 2
    ensures Kept(a) == a
  {
  }

  /** ESC, any intermediates and a final byte are one escape sequence; at most two intermediates count. */
  lemma {:induction false} ParsesEscape(p: Fields, inter: seq<byte>, final: byte)
    requires Idle(p) && (forall b | b in inter :: 0x20 <= b < 0x30) && 0x30 <= final < 0x7F
    requires inter == [] ==> final !in {'P' as int, 'X' as int, '[' as int, ']' as int, '^' as int, '_' as int}
    ensures var (q, acts) := ParseAll(p, [0x1B] + inter + [final]); Idle(q) && acts == [Esc(Kept(inter), final)]
  {
    var p1 := p.(state := Escape);
    assert Advance(p, 0x1B) == (p1, []);
    OneByte(p, 0x1B);
    if inter == [] {
      assert [0x1B] + inter + [final] == [0x1B] + [final];
      OneByte(p1, final);
      ParseAppend(p, [0x1B], [final]);
      assert [] + ([Esc([], final)] + []) == [Esc(Kept(inter), final)];
    } else {
      assert inter[0] in inter && forall b | b in inter[1..] :: b in inter;
      var p2 := p1.Clear().(intermediates := [inter[0]], state := EscapeIntermediate);
      assert Advance(p1, inter[0]) == (p2, []);
      CollectsEscape(p2, inter[1..]);
      assert [inter[0]] + inter[1..] == inter;
      var q := ParseAll(p2, inter[1..]).0;
      assert ParseAll(p1, inter) == (q, [] + []);
      assert Advance(q, final) == (q.(intermediates := [], state := Ground), [Esc(Kept(inter), final)]);
      OneByte(q, final);
      hide Advance, ParseAll;
      ParseAppend(p, [0x1B], inter);
      ParseAppend(p, [0x1B] + inter, [final]);
      assert [] + [] + [Esc(Kept(inter), final)] == [Esc(Kept(inter), final)];
    }
  }

  lemma {:induction false} OneByte(p: Fields, b: byte)
    ensures ParseAll(p, [b]) == Advance(p, b)
  {
    assert [b][1..] == [];
    assert Advance(p, b).1 + [] == Advance(p, b).1;
  }

  // ---- strings ----------------------------------------------------------------------

  /** The bytes of an OSC string: controls do not count. */
  function Plain(data: seq<byte>): seq<byte> {
    if data == [] then [] else (if data[0] >= 0x20 then [data[0]] else []) + Plain(data[1..])
  }

  lemma {:induction false} OscText(p: Fields, data: seq<byte>)
    requires p.state == OscString && forall b | b in data :: b !in {0x07, 0x1B, 0x18, 0x1A}
    ensures var (q, acts) := ParseAll(p, data);
            && q == p.(text := q.text, overflow := q.overflow) && acts == []
            && (|p.text| + |Plain(data)| <= MAX_OSC ==> q.text == p.text + Plain(data) && q.overflow == p.overflow)
            && (|p.text| + |Plain(data)| > MAX_OSC && |p.text| <= MAX_OSC ==> q.overflow)
            && (p.overflow ==> q.overflow)
    decreases |data|
  {
    if data == [] {
      assert p.text + [] == p.text;
    } else {
      assert data[0] in data && forall b | b in data[1..] :: b in data;
      var q := Advance(p, data[0]).0;
      assert Advance(p, data[0]) == (if data[0] >= 0x20 then p.PushText(data[0], MAX_OSC) else p, []);
      OscText(q, data[1..]);
      assert [] + ParseAll(q, data[1..]).1 == ParseAll(q, data[1..]).1;
      assert p.text + ([data[0]] + Plain(data[1..])) == p.text + [data[0]] + Plain(data[1..]);
      assert p.text + ([] + Plain(data[1..])) == p.text + Plain(data[1..]);
    }
  }

  /** An OSC string ends with BEL, or with ESC, which begins a sequence; CAN and SUB drop it, and so does a
      length beyond the limit. */
  lemma {:induction false} ParsesOsc(p: Fields, data: seq<byte>, end: byte)
    requires Idle(p) && (forall b | b in data :: b !in {0x07, 0x1B, 0x18, 0x1A}) && end in {0x07, 0x1B, 0x18, 0x1A}
    ensures var (q, acts) := ParseAll(p, [0x1B, ']' as int] + data + [end]);
            && q.state == (if end == 0x1B then Escape else Ground) && q.need == 0
            && acts == if (end == 0x07 || end == 0x1B) && |Plain(data)| <= MAX_OSC then [Osc(Plain(data), end == 0x07)]
               else []
  {
    var p1 := p.(state := Escape).StartString(OscString);
    Introduced(p, ']' as int, p1);
    OscText(p1, data);
    var q := ParseAll(p1, data).0;
    OneByte(q, end);
    assert [] + Plain(data) == Plain(data);
    hide ParseAll, Plain;
    ParseAppend(p, [0x1B, ']' as int], data);
    ParseAppend(p, [0x1B, ']' as int] + data, [end]);
    assert [] + [] + Advance(q, end).1 == Advance(q, end).1;
  }

  lemma {:induction false} Introduced(p: Fields, b: byte, q: Fields)
    requires Idle(p) && Advance(p.(state := Escape), b) == (q, [])
    ensures ParseAll(p, [0x1B, b]) == (q, [])
  {
    var p1 := p.(state := Escape);
    assert Advance(p, 0x1B) == (p1, []);
    OneByte(p, 0x1B);
    OneByte(p1, b);
    hide Advance, ParseAll;
    ParseAppend(p, [0x1B], [b]);
    assert [0x1B] + [b] == [0x1B, b];
  }

  lemma {:induction false} ApcText(p: Fields, data: seq<byte>)
    requires p.state == ApcString && forall b | b in data :: b !in {0x1B, 0x18, 0x1A}
    ensures var (q, acts) := ParseAll(p, data);
            && q == p.(text := q.text, overflow := q.overflow) && acts == []
            && (|p.text| + |data| <= MAX_APC ==> q.text == p.text + data && q.overflow == p.overflow)
            && (|p.text| + |data| > MAX_APC && |p.text| <= MAX_APC ==> q.overflow)
            && (p.overflow ==> q.overflow)
    decreases |data|
  {
    if data == [] {
      assert p.text + [] == p.text;
    } else {
      assert data[0] in data && forall b | b in data[1..] :: b in data;
      var q := p.PushText(data[0], MAX_APC);
      assert Advance(p, data[0]) == (q, []);
      ApcText(q, data[1..]);
      assert [] + ParseAll(q, data[1..]).1 == ParseAll(q, data[1..]).1;
      assert p.text + data == p.text + [data[0]] + data[1..];
    }
  }

  /** An APC string ends with ESC only; BEL belongs to it. */
  lemma {:induction false} ParsesApc(p: Fields, data: seq<byte>, end: byte)
    requires Idle(p) && (forall b | b in data :: b !in {0x1B, 0x18, 0x1A}) && end in {0x1B, 0x18, 0x1A}
    ensures var (q, acts) := ParseAll(p, [0x1B, '_' as int] + data + [end]);
            && q.state == (if end == 0x1B then Escape else Ground) && q.need == 0
            && acts == if end == 0x1B && |data| <= MAX_APC then [Apc(data)] else []
  {
    var p1 := p.(state := Escape).StartString(ApcString);
    Introduced(p, '_' as int, p1);
    ApcText(p1, data);
    var q := ParseAll(p1, data).0;
    OneByte(q, end);
    assert [] + data == data;
    hide ParseAll;
    ParseAppend(p, [0x1B, '_' as int], data);
    ParseAppend(p, [0x1B, '_' as int] + data, [end]);
    assert [] + [] + Advance(q, end).1 == Advance(q, end).1;
  }

  /** SOS and PM strings, and DCS strings with a broken header, are skipped to their end. */
  lemma {:induction false} Skips(p: Fields, data: seq<byte>)
    requires (p.state == SosPmString || p.state == DcsIgnore) && forall b | b in data :: b !in {0x1B, 0x18, 0x1A, 0x9C}
    ensures ParseAll(p, data) == (p, [])
    decreases |data|
  {
    if data != [] {
      assert data[0] in data && forall b | b in data[1..] :: b in data;
      assert Advance(p, data[0]) == (p, []);
      Skips(p, data[1..]);
      assert [] + ParseAll(p, data[1..]).1 == ParseAll(p, data[1..]).1;
    }
  }

  /** A control sequence that breaks the grammar, by a private marker after parameters or a parameter after
      an intermediate, is skipped to its final byte and reports nothing. */
  lemma {:induction false} BrokenCsi(p: Fields, b: byte, rest: seq<byte>, final: byte)
    requires (p.state == CsiParam && 0x3C <= b < 0x40) || (p.state == CsiIntermediate && 0x30 <= b < 0x40)
    requires (forall x | x in rest :: 0x20 <= x < 0x40) && 0x40 <= final < 0x7F && p.need == 0
    ensures var (q, acts) := ParseAll(p, [b] + rest + [final]); Idle(q) && acts == []
  {
    var p1 := p.(state := CsiIgnore);
    assert Advance(p, b) == (p1, []);
    OneByte(p, b);
    IgnoresAll(p1, rest);
    OneByte(p1, final);
    assert Advance(p1, final) == (p1.Clear().(state := Ground), []);
    hide ParseAll, Advance;
    ParseAppend(p, [b], rest);
    ParseAppend(p, [b] + rest, [final]);
  }

  lemma {:induction false} IgnoresAll(p: Fields, rest: seq<byte>)
    requires p.state == CsiIgnore && forall x | x in rest :: 0x20 <= x < 0x40
    ensures ParseAll(p, rest) == (p, [])
    decreases |rest|
  {
    if rest != [] {
      assert rest[0] in rest && forall x | x in rest[1..] :: x in rest;
      assert Advance(p, rest[0]) == (p, []);
      IgnoresAll(p, rest[1..]);
      assert [] + ParseAll(p, rest[1..]).1 == ParseAll(p, rest[1..]).1;
    }
  }

  // ---- broken UTF-8 -----------------------------------------------------------------------

  /** In the ground state a byte that cannot begin a character is shown as one replacement, and a character
      broken off too, before the byte that breaks it is read. */
  lemma {:induction false} BrokenShown(p: Fields, b: byte)
    requires p.state == Ground
    ensures p.need == 0 && b >= 0xA0 && (b < 0xC2 || b >= 0xF5) ==> Advance(p, b) == (p, [Print(REPLACEMENT)])
    ensures p.need > 0 && !(0x80 <= b < 0xC0) ==>
              var (q, acts) := Advance(p.(utf8 := [], need := 0), b); Advance(p, b) == (q, [Print(REPLACEMENT)] + acts)
  {
  }

  /** A sequence of the announced length prints exactly one character: the one it encodes, or else one
      replacement. */
  lemma {:induction false} CollectedShown(p: Fields, b: byte)
    requires p.state == Ground && p.need == 1 && 0x80 <= b < 0xC0
    ensures Advance(p, b).0 == p.(utf8 := [], need := 0) && |Advance(p, b).1| == 1
    ensures WellFormed(p.utf8 + [b]) && Lossy(p.utf8 + [b]) != [] ==> Advance(p, b).1 == [Print(Lossy(p.utf8 + [b])[0])]
    ensures !WellFormed(p.utf8 + [b]) ==> Advance(p, b).1 == [Print(REPLACEMENT)]
  {
  }
}
