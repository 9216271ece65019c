// SGR both ways: `sgr_params` of dump.rs prints a style, `sgr` of csi.rs reads it back.
module Sgr {
  import opened Utf8
  import opened Sequences
  import opened Cells
  import opened VtParser
  import opened VtParserProofs

  // ---- reading (csi.rs) -----------------------------------------------------

  function First(p: seq<nat>): nat {
    if p == [] then 0 else p[0]
  }

  function Clamp(v: nat): byte {
    if v < 255 then v else 255
  }

  /** The first subparameter of parameter `i`, 0 if there is none. */
  function Param(ps: seq<seq<nat>>, i: nat): nat {
    if i < |ps| then First(ps[i]) else 0
  }

  /** Colon form: everything in one parameter. Semicolon form: the parameters that follow. */
  function ExtendedColor(ps: seq<seq<nat>>): (r: (Option<Color>, nat))
    requires ps != []
  {
    var p := ps[0];
    if |p| > 1 then
      if p[1] == 5 && |p| >= 3 then (Some(Indexed(Clamp(p[2]))), 0)
      else if p[1] == 2 && |p| >= 6 then (Some(Rgb(Clamp(p[3]), Clamp(p[4]), Clamp(p[5]))), 0)
      else if p[1] == 2 && |p| == 5 then (Some(Rgb(Clamp(p[2]), Clamp(p[3]), Clamp(p[4]))), 0)
      else (None, 0)
    else if |ps| < 2 || ps[1] == [] then (None, 0)
    else if ps[1][0] == 5 then (Some(Indexed(Clamp(Param(ps, 2)))), 2)
    else if ps[1][0] == 2 then (Some(Rgb(Clamp(Param(ps, 2)), Clamp(Param(ps, 3)), Clamp(Param(ps, 4)))), 4)
    else (None, 0)
  }

  function UnderlineOf(p: seq<nat>): Underline {
    if |p| < 2 || p[1] == 1 then Single
    else if p[1] == 0 then NoLine
    else if p[1] == 2 then Double
    else if p[1] == 3 then Curly
    else if p[1] == 4 then Dotted
    else if p[1] == 5 then Dashed
    else Single
  }

  predicate IsExtended(code: nat) {
    code == 38 || code == 48 || code == 58
  }

  function SetColor(s: Style, code: nat, c: Option<Color>): Style {
    if c.None? then s
    else if code == 38 then s.(fg := c.value)
    else if code == 48 then s.(bg := c.value)
    else s.(lineColor := c.value)
  }

  /** One parameter that is not an extended color. */
  function SgrOne(p: seq<nat>, s: Style): Style {
    var code := First(p);
    if code == 0 then PLAIN
    else if code == 1 then s.(bold := true)
    else if code == 2 then s.(dim := true)
    else if code == 3 then s.(italic := true)
    else if code == 4 then s.(underline := UnderlineOf(p))
    else if code == 5 || code == 6 then s.(blink := true)
    else if code == 7 then s.(inverse := true)
    else if code == 8 then s.(invisible := true)
    else if code == 9 then s.(struck := true)
    else if code == 21 then s.(underline := Double)
    else if code == 22 then s.(bold := false, dim := false)
    else if code == 23 then s.(italic := false)
    else if code == 24 then s.(underline := NoLine)
    else if code == 25 then s.(blink := false)
    else if code == 27 then s.(inverse := false)
    else if code == 28 then s.(invisible := false)
    else if code == 29 then s.(struck := false)
    else if 30 <= code <= 37 then s.(fg := Indexed(code - 30))
    else if code == 39 then s.(fg := DefaultColor)
    else if 40 <= code <= 47 then s.(bg := Indexed(code - 40))
    else if code == 49 then s.(bg := DefaultColor)
    else if code == 59 then s.(lineColor := DefaultColor)
    else if 90 <= code <= 97 then s.(fg := Indexed(code - 82))
    else if 100 <= code <= 107 then s.(bg := Indexed(code - 92))
    else s
  }

  function Drop(ps: seq<seq<nat>>, n: nat): seq<seq<nat>> {
    if n <= |ps| then ps[n..] else []
  }

  function SgrAll(ps: seq<seq<nat>>, s: Style): Style
    decreases |ps|
  {
    if ps == [] then s
    else if IsExtended(First(ps[0])) then
      var (c, used) := ExtendedColor(ps);
      SgrAll(Drop(ps, 1 + used), SetColor(s, First(ps[0]), c))
    else SgrAll(ps[1..], SgrOne(ps[0], s))
  }

  /** SGR as a whole: no parameters mean reset, and the guard always survives. */
  function Apply(ps: seq<seq<nat>>, pen: Style): Style {
    (if ps == [] then PLAIN else SgrAll(ps, pen)).(guarded := pen.guarded)
  }

  // ---- printing (dump.rs) ---------------------------------------------------

  function LineSuffix(u: Underline): string {
    match u
    case NoLine => ""
    case Single => ";4"
    case Double => ";4:2"
    case Curly => ";4:3"
    case Dotted => ";4:4"
    case Dashed => ";4:5"
  }

  /** Foreground codes start at 30/90/38, background codes ten higher. */
  function ColorSuffix(c: Color, base: nat): string {
    match c
    case DefaultColor => ""
    case Indexed(i) =>
      if i < 8 then ";" + Dec(base + i)
      else if i < 16 then ";" + Dec(base + 60 + i - 8)
      else (";" + Dec(base + 8)) + ";5" + (";" + Dec(i))
    case Rgb(r, g, b) => (";" + Dec(base + 8)) + ";2" + (";" + Dec(r)) + (";" + Dec(g)) + (";" + Dec(b))
  }

  function LineColorSuffix(c: Color): string {
    match c
    case DefaultColor => ""
    case Indexed(i) => ";58:5:" + Dec(i)
    case Rgb(r, g, b) => ";58:2:" + Dec(r) + ":" + Dec(g) + ":" + Dec(b)
  }

  function WeightText(s: Style): string {
    var t := "0";
    var t := if s.bold then t + ";1" else t;
    var t := if s.dim then t + ";2" else t;
    var t := if s.italic then t + ";3" else t;
    t + LineSuffix(s.underline)
  }

  function AttributeText(s: Style): string {
    var t := WeightText(s);
    var t := if s.blink then t + ";5" else t;
    var t := if s.inverse then t + ";7" else t;
    var t := if s.invisible then t + ";8" else t;
    if s.struck then t + ";9" else t
  }

  function SgrParams(s: Style): string {
    AttributeText(s) + ColorSuffix(s.fg, 30) + ColorSuffix(s.bg, 40) + LineColorSuffix(s.lineColor)
  }

  // ---- the parameter list a style stands for --------------------------------

  function Flag(on: bool, code: nat): seq<Parts> {
    if on then [[code]] else []
  }

  function LineParams(u: Underline): seq<Parts> {
    match u
    case NoLine => []
    case Single => [[4]]
    case Double => [[4, 2]]
    case Curly => [[4, 3]]
    case Dotted => [[4, 4]]
    case Dashed => [[4, 5]]
  }

  function ColorParams(c: Color, base: nat): seq<Parts> {
    match c
    case DefaultColor => []
    case Indexed(i) =>
      if i < 8 then [[base + i]]
      else if i < 16 then [[base + 60 + i - 8]]
      else [[base + 8], [5], [i]]
    case Rgb(r, g, b) => [[base + 8], [2], [r], [g], [b]]
  }

  function LineColorParams(c: Color): seq<Parts> {
    match c
    case DefaultColor => []
    case Indexed(i) => [[58, 5, i]]
    case Rgb(r, g, b) => [[58, 2, r, g, b]]
  }

  function Attributes(s: Style): seq<Parts> {
    Weights(s) + Flag(s.blink, 5) + Flag(s.inverse, 7) + Flag(s.invisible, 8) + Flag(s.struck, 9)
  }

  function Weights(s: Style): seq<Parts> {
    [] + Flag(s.bold, 1) + Flag(s.dim, 2) + Flag(s.italic, 3) + LineParams(s.underline)
  }

  function Details(s: Style): seq<Parts> {
    Attributes(s) + ColorParams(s.fg, 30) + ColorParams(s.bg, 40) + LineColorParams(s.lineColor)
  }

  /** A reset followed by everything that differs from the plain style. */
  function ParamList(s: Style): seq<Parts> {
    [[0]] + Details(s)
  }

  // ---- the printed text is that list ----------------------------------------

  /** Each parameter preceded by a semicolon. */
  function Suffix(ps: seq<Parts>): string {
    if ps == [] then "" else Suffix(ps[..|ps| - 1]) + (";" + RenderParts(ps[|ps| - 1]))
  }

  lemma {:induction false} SuffixJoin(ps: seq<Parts>, qs: seq<Parts>)
    ensures Suffix(ps + qs) == Suffix(ps) + Suffix(qs)
  {
    if qs == [] {
      assert ps + qs == ps;
    } else {
      var init, last := qs[..|qs| - 1], qs[|qs| - 1];
      assert (ps + qs)[..|ps + qs| - 1] == ps + init;
      SuffixJoin(ps, init);
      assert Suffix(ps) + Suffix(init) + (";" + RenderParts(last)) ==
        Suffix(ps) + (Suffix(init) + (";" + RenderParts(last)));
    }
  }

  lemma {:induction false} SuffixOne(q: Parts)
    ensures Suffix([q]) == ";" + RenderParts(q)
  {
    assert [q][..0] == [];
  }

  lemma {:induction false} RenderSuffix(q: Parts, ps: seq<Parts>)
    ensures RenderParams([q] + ps) == RenderParts(q) + Suffix(ps)
  {
    hide RenderParts;
    if ps == [] {
      assert [q] + ps == [q];
    } else {
      var init, last := ps[..|ps| - 1], ps[|ps| - 1];
      RenderSuffix(q, init);
      assert ([q] + ps)[..|ps|] == [q] + init;
      assert RenderParts(q) + Suffix(init) + ";" + RenderParts(last) ==
        RenderParts(q) + (Suffix(init) + (";" + RenderParts(last)));
    }
  }

  lemma {:induction false} PartsPush(q: Parts, x: nat)
    ensures RenderParts(q + [x]) == RenderParts(q) + ":" + Dec(x)
  {
    assert (q + [x])[..|q|] == q;
  }

  lemma {:induction false} FlagText(on: bool, code: nat)
    ensures Suffix(Flag(on, code)) == if on then ";" + Dec(code) else ""
  {
    SuffixOne([code]);
  }

  lemma {:induction false} LineText(u: Underline)
    ensures Suffix(LineParams(u)) == LineSuffix(u)
  {
    var k := match u case Double => 2 case Curly => 3 case Dotted => 4 case _ => 5;
    PartsPush([4], k);
    assert [4] + [k] == [4, k];
    SuffixOne([4]);
    SuffixOne([4, k]);
  }

  lemma {:induction false} ColorText(c: Color, base: nat)
    ensures Suffix(ColorParams(c, base)) == ColorSuffix(c, base)
  {
    DecCodes();
    PartsOne(base + 8);
    match c
    case DefaultColor =>
    case Indexed(i) =>
      PartsOne(i);
      PartsOne(5);
      hide Suffix, RenderParts, Dec;
      if i < 16 {
        var k := if i < 8 then base + i else base + 60 + i - 8;
        PartsOne(k);
        SuffixOne([k]);
      } else {
        Suffix3([base + 8], [5], [i]);
      }
    case Rgb(r, g, b) => RgbText(r, g, b, base + 8);
  }

  lemma {:induction false} RgbText(r: nat, g: nat, b: nat, code: nat)
    ensures Suffix([[code], [2], [r], [g], [b]]) ==
            (";" + Dec(code)) + ";2" + (";" + Dec(r)) + (";" + Dec(g)) + (";" + Dec(b))
  {
    hide *;
    Dec2();
    Suffix5([code], [2], [r], [g], [b], ";2");
  }

  lemma {:induction false} Suffix5(p: Parts, q: Parts, r: Parts, u: Parts, v: Parts, qText: string)
    requires qText == ";" + RenderParts(q)
    requires |p| == |r| == |u| == |v| == 1
    ensures Suffix([p, q, r, u, v]) ==
            (";" + Dec(p[0])) + qText + (";" + Dec(r[0])) + (";" + Dec(u[0])) + (";" + Dec(v[0]))
  {
    assert RenderParts(p) == Dec(p[0]) && RenderParts(r) == Dec(r[0]);
    assert RenderParts(u) == Dec(u[0]) && RenderParts(v) == Dec(v[0]);
    hide Suffix, RenderParts, Dec;
    Suffix3(p, q, r);
    Suffix2(u, v);
    SuffixJoin([p, q, r], [u, v]);
    assert [p, q, r] + [u, v] == [p, q, r, u, v];
    Assoc(Suffix([p, q, r]), ";" + RenderParts(u), ";" + RenderParts(v));
  }

  lemma {:induction false} Dec2()
    ensures ";2" == ";" + RenderParts([2])
  {
  }

  lemma {:induction false} PartsOne(n: nat)
    ensures RenderParts([n]) == Dec(n)
  {
  }

  lemma {:induction false} Suffix2(p: Parts, q: Parts)
    ensures Suffix([p, q]) == (";" + RenderParts(p)) + (";" + RenderParts(q))
  {
    SuffixOne(p);
    SuffixOne(q);
    SuffixJoin([p], [q]);
    assert [p] + [q] == [p, q];
  }

  lemma {:induction false} Suffix3(p: Parts, q: Parts, r: Parts)
    ensures Suffix([p, q, r]) == (";" + RenderParts(p)) + (";" + RenderParts(q)) + (";" + RenderParts(r))
  {
    Suffix2(p, q);
    SuffixOne(r);
    SuffixJoin([p, q], [r]);
    assert [p, q] + [r] == [p, q, r];
  }

  lemma {:induction false} Parts58(k: nat)
    requires k == 5 || k == 2
    ensures RenderParts([58, k]) == if k == 5 then "58:5" else "58:2"
  {
    PartsPush([58], k);
    assert [58] + [k] == [58, k];
  }

  lemma {:induction false} PartsRgb(r: nat, g: nat, b: nat)
    ensures RenderParts([58, 2, r, g, b]) == "58:2" + ":" + Dec(r) + ":" + Dec(g) + ":" + Dec(b)
  {
    Parts58(2);
    hide RenderParts, Dec;
    PartsPush([58, 2], r);
    assert [58, 2] + [r] == [58, 2, r];
    PartsPush([58, 2, r], g);
    assert [58, 2, r] + [g] == [58, 2, r, g];
    PartsPush([58, 2, r, g], b);
    assert [58, 2, r, g] + [b] == [58, 2, r, g, b];
  }

  lemma {:induction false} LineColorText(c: Color)
    ensures Suffix(LineColorParams(c)) == LineColorSuffix(c)
  {
    Parts58(5);
    hide RenderParts, Dec;
    match c
    case DefaultColor =>
    case Indexed(i) => LineIndexText(i);
    case Rgb(r, g, b) => LineRgbText(r, g, b);
  }

  lemma {:induction false} LineIndexText(i: byte)
    ensures Suffix(LineColorParams(Indexed(i))) == LineColorSuffix(Indexed(i))
  {
    hide RenderParts, Dec, Suffix;
    Parts58(5);
    PartsPush([58, 5], i);
    assert [58, 5] + [i as nat] == [58, 5, i];
    SuffixOne([58, 5, i]);
  }

  lemma {:induction false} LineRgbText(r: byte, g: byte, b: byte)
    ensures Suffix(LineColorParams(Rgb(r, g, b))) == LineColorSuffix(Rgb(r, g, b))
  {
    hide RenderParts, Dec, Suffix;
    Parts58(5);
    PartsRgb(r, g, b);
    SuffixOne([58, 2, r, g, b]);
    Colons("58:2", Dec(r), Dec(g), Dec(b));
  }

  lemma {:induction false} Colons(t: string, r: string, g: string, b: string)
    requires t == "58:2"
    ensures ";" + (t + ":" + r + ":" + g + ":" + b) == ";58:2:" + r + ":" + g + ":" + b
  {
    assert ";" + (t + ":") == ";58:2:";
    assert ";" + (t + ":" + r) == ";58:2:" + r;
    assert ";" + (t + ":" + r + ":" + g) == ";58:2:" + r + ":" + g;
  }

  /** Appending the text of `qs` to a printed list prints the longer list. */
  lemma {:induction false} Grow(t: string, ps: seq<Parts>, qs: seq<Parts>, text: string)
    requires t == "0" + Suffix(ps) && text == Suffix(qs)
    ensures t + text == "0" + Suffix(ps + qs)
  {
    SuffixJoin(ps, qs);
    assert "0" + Suffix(ps) + Suffix(qs) == "0" + (Suffix(ps) + Suffix(qs));
  }

  lemma {:induction false} GrowFlag(t: string, ps: seq<Parts>, on: bool, code: nat)
    requires t == "0" + Suffix(ps)
    ensures (if on then t + (";" + Dec(code)) else t) == "0" + Suffix(ps + Flag(on, code))
  {
    FlagText(on, code);
    Grow(t, ps, Flag(on, code), if on then ";" + Dec(code) else "");
    assert t + "" == t;
  }

  lemma {:induction false} WeightsAreText(s: Style)
    ensures WeightText(s) == "0" + Suffix(Weights(s))
  {
    DecCodes();
    hide Suffix, Flag, LineParams, LineSuffix, Dec;
    var t, p: seq<Parts> := "0", [];
    assert t == "0" + Suffix(p) by { SuffixNone(); }
    GrowFlag(t, p, s.bold, 1);
    t, p := if s.bold then t + ";1" else t, p + Flag(s.bold, 1);
    GrowFlag(t, p, s.dim, 2);
    t, p := if s.dim then t + ";2" else t, p + Flag(s.dim, 2);
    GrowFlag(t, p, s.italic, 3);
    t, p := if s.italic then t + ";3" else t, p + Flag(s.italic, 3);
    LineText(s.underline);
    Grow(t, p, LineParams(s.underline), LineSuffix(s.underline));
  }

  lemma {:induction false} AttributesAreText(s: Style)
    ensures AttributeText(s) == "0" + Suffix(Attributes(s))
  {
    DecCodes();
    WeightsAreText(s);
    hide Suffix, Flag, Weights, WeightText, Dec;
    var t, p := WeightText(s), Weights(s);
    GrowFlag(t, p, s.blink, 5);
    t, p := if s.blink then t + ";5" else t, p + Flag(s.blink, 5);
    GrowFlag(t, p, s.inverse, 7);
    t, p := if s.inverse then t + ";7" else t, p + Flag(s.inverse, 7);
    GrowFlag(t, p, s.invisible, 8);
    t, p := if s.invisible then t + ";8" else t, p + Flag(s.invisible, 8);
    GrowFlag(t, p, s.struck, 9);
  }

  /** `sgr_params` prints exactly the parameter list of the style. */
  lemma {:induction false} TextOfStyle(s: Style)
    ensures SgrParams(s) == RenderParams([[0]] + Details(s))
  {
    DecCodes();
    AttributesAreText(s);
    hide Suffix, Attributes, AttributeText, ColorParams,
      ColorSuffix, LineColorParams, LineColorSuffix, Dec, RenderParams;
    var t, p := AttributeText(s), Attributes(s);
    ColorText(s.fg, 30);
    Grow(t, p, ColorParams(s.fg, 30), ColorSuffix(s.fg, 30));
    t, p := t + ColorSuffix(s.fg, 30), p + ColorParams(s.fg, 30);
    ColorText(s.bg, 40);
    Grow(t, p, ColorParams(s.bg, 40), ColorSuffix(s.bg, 40));
    t, p := t + ColorSuffix(s.bg, 40), p + ColorParams(s.bg, 40);
    LineColorText(s.lineColor);
    Grow(t, p, LineColorParams(s.lineColor), LineColorSuffix(s.lineColor));
    RenderSuffix([0], Details(s));
  }

  lemma {:induction false} SuffixNone()
    ensures "0" == "0" + Suffix([])
  {
  }

  lemma {:induction false} DecCodes()
    ensures RenderParts([0]) == "0"
    ensures ";1" == ";" + Dec(1) && ";2" == ";" + Dec(2) && ";3" == ";" + Dec(3) && ";5" == ";" + Dec(5)
    ensures ";7" == ";" + Dec(7) && ";8" == ";" + Dec(8) && ";9" == ";" + Dec(9)
  {
  }

  // ---- reading the list gives the style -------------------------------------

  /** Reading `ps` turns `a` into `b` without looking at what follows. */
  ghost predicate Turns(ps: seq<Parts>, a: Style, b: Style) {
    forall rest: seq<seq<nat>> :: SgrAll(ps + rest, a) == SgrAll(rest, b)
  }

  lemma {:induction false} TurnsJoin(ps: seq<Parts>, qs: seq<Parts>, a: Style, b: Style, c: Style)
    requires Turns(ps, a, b) && Turns(qs, b, c)
    ensures Turns(ps + qs, a, c)
  {
    hide SgrAll;
    forall rest: seq<seq<nat>>
      ensures SgrAll(ps + qs + rest, a) == SgrAll(rest, c)
    {
      assert ps + qs + rest == ps + (qs + rest);
      var r2: seq<seq<nat>> := qs + rest;
      assert SgrAll(ps + r2, a) == SgrAll(r2, b);
    }
  }

  lemma {:induction false} TurnsOne(p: Parts, a: Style)
    requires !IsExtended(p[0])
    ensures Turns([p], a, SgrOne(p, a))
  {
    forall rest: seq<seq<nat>>
      ensures SgrAll([p] + rest, a) == SgrAll(rest, SgrOne(p, a))
    {
      assert ([p] + rest)[1..] == rest;
    }
  }

  lemma {:induction false} TurnsNone(a: Style)
    ensures Turns([], a, a)
  {
    forall rest: seq<seq<nat>>
      ensures SgrAll([] + rest, a) == SgrAll(rest, a)
    {
      assert [] + rest == rest;
    }
  }

  lemma {:induction false} TurnsExtended(ps: seq<Parts>, a: Style, c: Color)
    requires ps != [] && IsExtended(ps[0][0])
    requires forall rest: seq<seq<nat>> :: ExtendedColor(ps + rest) == (Some(c), |ps| - 1)
    ensures Turns(ps, a, SetColor(a, ps[0][0], Some(c)))
  {
    hide ExtendedColor;
    forall rest: seq<seq<nat>>
      ensures SgrAll(ps + rest, a) == SgrAll(rest, SetColor(a, ps[0][0], Some(c)))
    {
      assert ExtendedColor(ps + rest) == (Some(c), |ps| - 1);
      assert Drop(ps + rest, |ps|) == rest;
    }
  }

  lemma {:induction false} ReadsIndexed(base: nat, i: byte)
    ensures forall rest: seq<seq<nat>> :: ExtendedColor([[base], [5], [i]] + rest) == (Some(Indexed(i)), 2)
  {
    forall rest: seq<seq<nat>>
      ensures ExtendedColor([[base], [5], [i]] + rest) == (Some(Indexed(i)), 2)
    {
      var ps: seq<seq<nat>> := [[base], [5], [i]] + rest;
      assert ps[0] == [base] && ps[1] == [5] && ps[2] == [i];
    }
  }

  lemma {:induction false} ReadsRgb(base: nat, r: byte, g: byte, b: byte)
    ensures forall rest: seq<seq<nat>> :: ExtendedColor([[base], [2], [r], [g], [b]] + rest) == (Some(Rgb(r, g, b)), 4)
  {
    forall rest: seq<seq<nat>>
      ensures ExtendedColor([[base], [2], [r], [g], [b]] + rest) == (Some(Rgb(r, g, b)), 4)
    {
      var ps: seq<seq<nat>> := [[base], [2], [r], [g], [b]] + rest;
      assert ps[0] == [base] && ps[1] == [2] && ps[2] == [r] && ps[3] == [g] && ps[4] == [b];
    }
  }

  lemma {:induction false} TurnsColor(c: Color, base: nat, a: Style)
    requires base == 30 || base == 40
    requires base == 30 ==> a.fg == DefaultColor
    requires base == 40 ==> a.bg == DefaultColor
    ensures Turns(ColorParams(c, base), a, if base == 30 then a.(fg := c) else a.(bg := c))
  {
    hide Turns, ExtendedColor, SgrAll;
    var ps := ColorParams(c, base);
    match c
    case DefaultColor => TurnsNone(a);
    case Indexed(i) =>
      if i < 16 {
        TurnsOne(ps[0], a);
      } else {
        ReadsIndexed(base + 8, i);
        TurnsExtended(ps, a, c);
      }
    case Rgb(r, g, b) =>
      ReadsRgb(base + 8, r, g, b);
      TurnsExtended(ps, a, c);
  }

  lemma {:induction false} TurnsLineColor(c: Color, a: Style)
    requires a.lineColor == DefaultColor
    ensures Turns(LineColorParams(c), a, a.(lineColor := c))
  {
    hide Turns, SgrAll;
    match c
    case DefaultColor => TurnsNone(a);
    case Indexed(i) => TurnsExtended([[58, 5, i]], a, c);
    case Rgb(r, g, b) => TurnsExtended([[58, 2, r, g, b]], a, c);
  }

  /** Adds one segment to a list whose effect is known. */
  lemma {:induction false} TurnsMore(ps: seq<Parts>, pen: Style, a: Style, on: bool, code: nat, b: Style)
    requires Turns(ps, pen, a) && !IsExtended(code) && b == if on then SgrOne([code], a) else a
    ensures Turns(ps + Flag(on, code), pen, b)
  {
    hide Turns, SgrOne;
    if on { TurnsOne([code], a); } else { TurnsNone(a); }
    TurnsJoin(ps, Flag(on, code), pen, a, b);
  }

  lemma {:induction false} TurnsLine(ps: seq<Parts>, pen: Style, a: Style, u: Underline)
    requires Turns(ps, pen, a) && a.underline == NoLine
    ensures Turns(ps + LineParams(u), pen, a.(underline := u))
  {
    hide Turns;
    if u == NoLine { TurnsNone(a); } else { TurnsOne(LineParams(u)[0], a); }
    TurnsJoin(ps, LineParams(u), pen, a, a.(underline := u));
  }

  lemma {:induction false} TurnsWeights(s: Style)
    ensures Turns(Weights(s), PLAIN, PLAIN.(bold := s.bold, dim := s.dim, italic := s.italic, underline := s.underline))
  {
    hide Turns, Flag, LineParams;
    var p: seq<Parts>, a := [], PLAIN;
    TurnsNone(a);
    TurnsMore(p, PLAIN, a, s.bold, 1, a.(bold := s.bold));
    p, a := p + Flag(s.bold, 1), a.(bold := s.bold);
    TurnsMore(p, PLAIN, a, s.dim, 2, a.(dim := s.dim));
    p, a := p + Flag(s.dim, 2), a.(dim := s.dim);
    TurnsMore(p, PLAIN, a, s.italic, 3, a.(italic := s.italic));
    p, a := p + Flag(s.italic, 3), a.(italic := s.italic);
    TurnsLine(p, PLAIN, a, s.underline);
  }

  lemma {:induction false} TurnsAttributes(s: Style)
    ensures Turns(Attributes(s), PLAIN, Undyed(s))
  {
    hide Turns, Flag, LineParams, Weights;
    var p, a := Weights(s), PLAIN.(bold := s.bold, dim := s.dim, italic := s.italic, underline := s.underline);
    TurnsWeights(s);
    TurnsMore(p, PLAIN, a, s.blink, 5, a.(blink := s.blink));
    p, a := p + Flag(s.blink, 5), a.(blink := s.blink);
    TurnsMore(p, PLAIN, a, s.inverse, 7, a.(inverse := s.inverse));
    p, a := p + Flag(s.inverse, 7), a.(inverse := s.inverse);
    TurnsMore(p, PLAIN, a, s.invisible, 8, a.(invisible := s.invisible));
    p, a := p + Flag(s.invisible, 8), a.(invisible := s.invisible);
    TurnsMore(p, PLAIN, a, s.struck, 9, a.(struck := s.struck));
  }

  function Undyed(s: Style): Style {
    s.(fg := DefaultColor, bg := DefaultColor, lineColor := DefaultColor, guarded := false)
  }

  lemma {:induction false} TurnsDetails(s: Style)
    ensures Turns(Details(s), PLAIN, s.(guarded := false))
  {
    var a := Undyed(s);
    var p := Attributes(s);
    TurnsAttributes(s);
    TurnsColor(s.fg, 30, a);
    TurnsColor(s.bg, 40, a.(fg := s.fg));
    TurnsLineColor(s.lineColor, a.(fg := s.fg, bg := s.bg));
    hide Attributes, ColorParams, LineColorParams, Turns, SgrAll;
    TurnsJoin(p, ColorParams(s.fg, 30), PLAIN, a, a.(fg := s.fg));
    TurnsJoin(p + ColorParams(s.fg, 30), ColorParams(s.bg, 40), PLAIN, a.(fg := s.fg), a.(fg := s.fg, bg := s.bg));
    TurnsJoin(p + ColorParams(s.fg, 30) + ColorParams(s.bg, 40), LineColorParams(s.lineColor),
              PLAIN, a.(fg := s.fg, bg := s.bg), s.(guarded := false));
  }

  /** Reading a style's parameters yields that style whatever the pen was; only the guard stays. */
  lemma {:induction false} StyleOfParams(s: Style, pen: Style)
    ensures Apply(ParamList(s), pen) == s.(guarded := pen.guarded)
  {
    hide Details, Turns, SgrAll;
    TurnsDetails(s);
    TurnsEnd(Details(s), PLAIN, s.(guarded := false));
    AfterReset(Details(s), pen);
  }

  lemma {:induction false} TurnsEnd(ps: seq<Parts>, a: Style, b: Style)
    requires Turns(ps, a, b)
    ensures SgrAll(ps, a) == b
  {
    assert ps + [] == ps;
    assert SgrAll(ps + [], a) == SgrAll([], b);
  }

  lemma {:induction false} AfterReset(ps: seq<Parts>, pen: Style)
    ensures SgrAll([[0]] + ps, pen) == SgrAll(ps, PLAIN)
  {
    assert ([[0]] + ps)[1..] == ps;
  }

  ghost predicate Fits(ps: seq<Parts>) {
    forall i | 0 <= i < |ps| :: PartsOk(ps[i], MAX_SUBPARAMS)
  }

  /** The parser's parameter cap is never reached by a printed style. */
  lemma {:induction false} ParamsFit(s: Style)
    ensures |ParamList(s)| <= 20 && Fits(ParamList(s))
  {
    ColorFits(s.fg, 30);
    ColorFits(s.bg, 40);
    AttributesFit(s);
    hide Attributes, ColorParams;
    assert Fits(LineColorParams(s.lineColor)) && Fits([[0]]);
  }

  lemma {:induction false} ColorFits(c: Color, base: nat)
    requires base <= 100
    ensures |ColorParams(c, base)| <= 5 && Fits(ColorParams(c, base))
  {
  }

  lemma {:induction false} AttributesFit(s: Style)
    ensures |Attributes(s)| <= 8 && Fits(Attributes(s))
  {
    hide Flag, LineParams;
    FlagFits(s.bold, 1);
    FlagFits(s.dim, 2);
    FlagFits(s.italic, 3);
    FlagFits(s.blink, 5);
    FlagFits(s.inverse, 7);
    FlagFits(s.invisible, 8);
    FlagFits(s.struck, 9);
    LineFits(s.underline);
  }

  lemma {:induction false} FlagFits(on: bool, code: nat)
    requires code < 10
    ensures |Flag(on, code)| <= 1 && Fits(Flag(on, code))
  {
  }

  lemma {:induction false} LineFits(u: Underline)
    ensures |LineParams(u)| <= 1 && Fits(LineParams(u))
  {
  }

  /** Through the real parser: a printed style arrives as one SGR action that sets the pen to it. */
  lemma {:induction false} StyleRoundTrip(p: Fields, s: Style, pen: Style)
    requires Idle(p)
    ensures var (q, out) := ParseText(p, [ESC] + "[" + SgrParams(s) + "m");
            && Idle(q)
            && out == [Csi(ParamList(s), [], 0, 'm' as int)]
            && Apply(out[0].params, pen) == s.(guarded := pen.guarded)
  {
    TextOfStyle(s);
    StyleOfParams(s, pen);
    ParamsFit(s);
    hide SgrParams, ParamList, ParseText, RenderParams, Apply;
    assert SgrParams(s) == RenderParams(ParamList(s)) by { ListIs(s); }
    ParsesCsi(p, ParamList(s), "", 'm');
    RenderPlain(ParamList(s), 'm');
  }

  lemma {:induction false} ListIs(s: Style)
    ensures ParamList(s) == [[0]] + Details(s)
  {
  }

  lemma {:induction false} RenderPlain(params: seq<Parts>, final: char)
    ensures RenderCsi(params, "", final) == [ESC] + "[" + RenderParams(params) + [final]
    ensures EncodeAll("") == []
  {
  }

  // ---- what each code means --------------------------------------------------

  lemma {:induction false} OneCode(p: seq<nat>, pen: Style)
    requires !IsExtended(First(p))
    ensures Apply([p], pen) == SgrOne(p, pen).(guarded := pen.guarded)
  {
    hide SgrOne;
    assert [p][1..] == [];
    assert SgrAll([], SgrOne(p, pen)) == SgrOne(p, pen);
  }

  /** Section 8.3.117 of ECMA-48: 1 to 9 switch an attribute on, 22 to 29 switch off what the digit after
      the 2 switched on, 22 both weights; 0, and no parameter, all of them. */
  lemma {:induction false} WeightSet(pen: Style)
    ensures Apply([[1]], pen) == pen.(bold := true) && Apply([[2]], pen) == pen.(dim := true)
    ensures Apply([[22]], pen) == pen.(bold := false, dim := false)
    ensures Apply([[0]], pen) == PLAIN.(guarded := pen.guarded) == Apply([], pen)
  {
    hide Apply, SgrAll;
    OneCode([1], pen);
    OneCode([2], pen);
    OneCode([22], pen);
    OneCode([0], pen);
    Plainly(pen);
  }

  lemma {:induction false} SlantSet(pen: Style, n: nat)
    requires n in {5, 6}
    ensures Apply([[3]], pen) == pen.(italic := true) && Apply([[23]], pen) == pen.(italic := false)
    ensures Apply([[n]], pen) == pen.(blink := true) && Apply([[25]], pen) == pen.(blink := false)
  {
    hide Apply, SgrAll;
    OneCode([3], pen);
    OneCode([23], pen);
    OneCode([n], pen);
    OneCode([25], pen);
  }

  lemma {:induction false} ShadeSet(pen: Style)
    ensures Apply([[7]], pen) == pen.(inverse := true) && Apply([[27]], pen) == pen.(inverse := false)
    ensures Apply([[8]], pen) == pen.(invisible := true) && Apply([[28]], pen) == pen.(invisible := false)
  {
    hide Apply, SgrAll;
    OneCode([7], pen);
    OneCode([27], pen);
    OneCode([8], pen);
    OneCode([28], pen);
  }

  lemma {:induction false} StrikeSet(pen: Style)
    ensures Apply([[9]], pen) == pen.(struck := true) && Apply([[29]], pen) == pen.(struck := false)
  {
    hide Apply, SgrAll;
    OneCode([9], pen);
    OneCode([29], pen);
  }

  lemma {:induction false} Plainly(pen: Style)
    ensures Apply([], pen) == PLAIN.(guarded := pen.guarded)
  {
  }

  /** 4 takes the kind of line as a subparameter, 0 for none; 21 is a double line, 24 none. */
  lemma {:induction false} UnderlineSet(pen: Style, n: nat)
    requires n <= 5
    ensures Apply([[4]], pen) == pen.(underline := Single) && Apply([[21]], pen) == pen.(underline := Double)
    ensures Apply([[24]], pen) == pen.(underline := NoLine)
    ensures Apply([[4, n]], pen) == pen.(underline := [NoLine, Single, Double, Curly, Dotted, Dashed][n])
  {
    hide Apply, SgrAll;
    OneCode([4], pen);
    OneCode([21], pen);
    OneCode([24], pen);
    OneCode([4, n], pen);
  }

  /** 30 to 37 and 90 to 97 are the sixteen colors of the foreground, 40 to 47 and 100 to 107 of the
      background; 39, 49 and 59 the defaults. */
  lemma {:induction false} ColorSet(pen: Style, i: nat)
    requires i < 8
    ensures Apply([[30 + i]], pen) == pen.(fg := Indexed(i)) && Apply([[90 + i]], pen) == pen.(fg := Indexed(8 + i))
  {
    hide Apply, SgrAll;
    OneCode([30 + i], pen);
    OneCode([90 + i], pen);
  }

  lemma {:induction false} GroundSet(pen: Style, i: nat)
    requires i < 8
    ensures Apply([[40 + i]], pen) == pen.(bg := Indexed(i)) && Apply([[100 + i]], pen) == pen.(bg := Indexed(8 + i))
  {
    hide Apply, SgrAll;
    OneCode([40 + i], pen);
    OneCode([100 + i], pen);
  }

  lemma {:induction false} DefaultSet(pen: Style)
    ensures Apply([[39]], pen) == pen.(fg := DefaultColor) && Apply([[49]], pen) == pen.(bg := DefaultColor)
    ensures Apply([[59]], pen) == pen.(lineColor := DefaultColor)
  {
    hide Apply, SgrAll;
    OneCode([39], pen);
    OneCode([49], pen);
    OneCode([59], pen);
  }

  /** 38, 48 and 58 take an index or three components, in one parameter or in those that follow, with or
      without a color space in the first form; components are cut to a byte. */
  lemma {:induction false} ExtendedSet(pen: Style, code: nat, i: nat, r: nat, g: nat, b: nat, space: nat)
    requires IsExtended(code)
    ensures var c := SetColor(pen, code, Some(Indexed(Clamp(i))));
            Apply([[code, 5, i]], pen) == c && Apply([[code], [5], [i]], pen) == c
    ensures var c := SetColor(pen, code, Some(Rgb(Clamp(r), Clamp(g), Clamp(b))));
            && Apply([[code, 2, r, g, b]], pen) == c && Apply([[code, 2, space, r, g, b]], pen) == c
            && Apply([[code], [2], [r], [g], [b]], pen) == c
    ensures SetColor(pen, 38, Some(Indexed(Clamp(i)))) == pen.(fg := Indexed(if i > 255 then 255 else i))
    ensures SetColor(pen, 48, Some(Indexed(Clamp(i)))) == pen.(bg := Indexed(if i > 255 then 255 else i))
    ensures SetColor(pen, 58, Some(Indexed(Clamp(i)))) == pen.(lineColor := Indexed(if i > 255 then 255 else i))
  {
    LastColor([[code, 5, i]], pen, code, Some(Indexed(Clamp(i))), 0);
    LastColor([[code], [5], [i]], pen, code, Some(Indexed(Clamp(i))), 2);
    LastColor([[code, 2, r, g, b]], pen, code, Some(Rgb(Clamp(r), Clamp(g), Clamp(b))), 0);
    LastColor([[code, 2, space, r, g, b]], pen, code, Some(Rgb(Clamp(r), Clamp(g), Clamp(b))), 0);
    LastColor([[code], [2], [r], [g], [b]], pen, code, Some(Rgb(Clamp(r), Clamp(g), Clamp(b))), 4);
  }

  lemma {:induction false} LastColor(ps: seq<seq<nat>>, pen: Style, code: nat, c: Option<Color>, used: nat)
    requires ps != [] && First(ps[0]) == code && IsExtended(code) && ExtendedColor(ps) == (c, used) && |ps| == 1 + used
    ensures Apply(ps, pen) == SetColor(pen, code, c)
  {
    hide ExtendedColor;
    assert Drop(ps, 1 + used) == [];
    assert SgrAll([], SetColor(pen, code, c)) == SetColor(pen, code, c);
  }
}
