// What the parser guarantees for whole byte streams: bounded buffers on any input, characters
// that survive UTF-8, and control sequences that parse back to the parameters they were
// printed from.
module VtParserProofs {
  import opened Utf8
  import opened VtParser

  // ---- bounds on every input ------------------------------------------------

  ghost predicate PartsOk(parts: seq<nat>, max: nat) {
    |parts| <= max && forall i | 0 <= i < |parts| :: parts[i] <= 0xFFFF
  }

  ghost predicate ParamsOk(params: seq<seq<nat>>) {
    |params| <= MAX_PARAMS && forall i | 0 <= i < |params| :: PartsOk(params[i], MAX_SUBPARAMS + 1)
  }

  ghost predicate Bounded(p: Fields) {
    && ParamsOk(p.params)
    && PartsOk(p.curParts, MAX_SUBPARAMS)
    && p.curVal <= 0xFFFF
    && |p.intermediates| <= MAX_INTERMEDIATES
    && (p.state == CsiEntry || p.state == DcsEntry ==> p.intermediates == [])
    && |p.utf8| + p.need <= 4
    && (p.need == 0 <==> p.utf8 == [])
    && |p.text| <= MAX_APC
    && (p.state == DcsPassthrough ==> |p.text| <= MAX_DCS)
    && (p.state == OscString ==> |p.text| <= MAX_OSC)
  }

  ghost predicate ActionOk(a: Action) {
    match a
    case Csi(ps, ims, _, _) => ParamsOk(ps) && |ims| <= MAX_INTERMEDIATES
    case Dcs(ps, ims, _, d) => ParamsOk(ps) && |ims| <= MAX_INTERMEDIATES && |d| <= MAX_DCS
    case Esc(ims, _) => |ims| <= MAX_INTERMEDIATES
    case Osc(d, _) => |d| <= MAX_OSC
    case Apc(d) => |d| <= MAX_APC
    case _ => true
  }

  ghost predicate StepOk(s: Step) {
    Bounded(s.0) && |s.1| <= 2 && forall a <- s.1 :: ActionOk(a)
  }

  lemma {:induction false} C1Bounded(p: Fields, b: byte)
    requires Bounded(p) && p.need == 0
    ensures StepOk(C1(p, b)) && |C1(p, b).1| <= 1
  {
    hide PartsOk;
    assert ParamsOk([]) && PartsOk([], MAX_SUBPARAMS) by { EndParamBounded(p); }
  }

  lemma {:induction false} StartBounded(p: Fields, b: byte)
    requires Bounded(p) && p.state == Ground && p.need == 0
    ensures StepOk(GroundStart(p, b)) && |GroundStart(p, b).1| <= 1
  {
    hide ParamsOk, PartsOk, C1;
    C1Bounded(p, b);
  }

  lemma {:induction false} GroundBounded(p: Fields, b: byte)
    requires Bounded(p) && p.state == Ground
    ensures StepOk(GroundStep(p, b))
  {
    hide ParamsOk, PartsOk, GroundStart, Collected;
    StartBounded(p.(utf8 := [], need := 0), b);
  }

  lemma {:induction false} EndParamBounded(p: Fields)
    requires Bounded(p)
    ensures ParamsOk(p.EndParam().params) && ParamsOk(p.FinalParams()) && ParamsOk([])
    ensures PartsOk(p.Colon().curParts, MAX_SUBPARAMS) && PartsOk([], MAX_SUBPARAMS)
  {
  }

  lemma {:induction false} ParamBounded(p: Fields, b: byte, csi: bool)
    requires Bounded(p) && b >= 0x20
    requires p.state in (if csi then {CsiEntry, CsiParam} else {DcsEntry, DcsParam})
    ensures StepOk(ParamStep(p, b, csi))
  {
    hide ParamsOk, PartsOk, Fields.FinalParams;
    EndParamBounded(p);
  }

  lemma {:induction false} OscBounded(p: Fields, b: byte)
    requires Bounded(p) && p.state == OscString
    ensures StepOk(OscStep(p, b))
  {
    hide ParamsOk, PartsOk, Fields.FinalParams;
    EndParamBounded(p);
  }

  lemma {:induction false} ApcBounded(p: Fields, b: byte)
    requires Bounded(p) && p.state == ApcString
    ensures StepOk(ApcStep(p, b))
  {
    hide ParamsOk, PartsOk, Fields.FinalParams;
    EndParamBounded(p);
  }

  lemma {:induction false} PassBounded(p: Fields, b: byte)
    requires Bounded(p) && p.state == DcsPassthrough
    ensures StepOk(DcsPassthroughStep(p, b))
  {
    hide ParamsOk, PartsOk, Fields.FinalParams;
    EndParamBounded(p);
  }

  lemma {:induction false} SkipBounded(p: Fields, b: byte)
    requires Bounded(p) && p.state in {SosPmString, DcsIgnore}
    ensures StepOk(SkipStep(p, b))
  {
    hide ParamsOk, PartsOk;
  }

  lemma {:induction false} EscapeBounded(p: Fields, b: byte)
    requires Bounded(p) && p.state in {Escape, EscapeIntermediate} && !IsAnywhere(b)
    ensures StepOk(Advance(p, b))
  {
    hide ParamsOk, PartsOk, Fields.FinalParams;
    EndParamBounded(p);
  }

  lemma {:induction false} OtherBounded(p: Fields, b: byte)
    requires Bounded(p) && p.state in {CsiIntermediate, CsiIgnore, DcsIntermediate} && !IsAnywhere(b)
    ensures StepOk(Advance(p, b))
  {
    hide ParamsOk, PartsOk, Fields.FinalParams;
    EndParamBounded(p);
  }

  lemma {:induction false} AnywhereBounded(p: Fields, b: byte)
    requires Bounded(p) && IsAnywhere(b)
    ensures StepOk(Anywhere(p, b))
  {
  }

  lemma {:induction false} AdvanceBounded(p: Fields, b: byte)
    requires Bounded(p)
    ensures StepOk(Advance(p, b))
  {
    hide Bounded, GroundStep, ParamStep, OscStep, ApcStep, SkipStep, DcsPassthroughStep, Anywhere, StepOk;
    if p.state == Ground {
      GroundBounded(p, b);
    } else if p.state == OscString {
      OscBounded(p, b);
    } else if p.state == ApcString {
      ApcBounded(p, b);
    } else if p.state in {SosPmString, DcsIgnore} {
      SkipBounded(p, b);
    } else if p.state == DcsPassthrough {
      PassBounded(p, b);
    } else if IsAnywhere(b) {
      AnywhereBounded(p, b);
    } else if p.state in {Escape, EscapeIntermediate} {
      EscapeBounded(p, b);
    } else if p.state in {CsiIntermediate, CsiIgnore, DcsIntermediate} {
      OtherBounded(p, b);
    } else if b >= 0x20 {
      ParamBounded(p, b, p.state in {CsiEntry, CsiParam});
    } else {
      ControlBounded(p, b);
    }
  }

  lemma {:induction false} ControlBounded(p: Fields, b: byte)
    requires Bounded(p)
    ensures StepOk((p, [Execute(b)])) && StepOk((p, []))
  {
  }

  /** No byte stream makes the parser's tables or buffers outgrow their limits. */
  lemma {:induction false} ParseBounded(p: Fields, bytes: seq<byte>)
    requires Bounded(p)
    ensures Bounded(ParseAll(p, bytes).0)
    ensures forall a <- ParseAll(p, bytes).1 :: ActionOk(a)
    decreases |bytes|
  {
    if bytes != [] {
      AdvanceBounded(p, bytes[0]);
      ParseBounded(Advance(p, bytes[0]).0, bytes[1..]);
    }
  }

  // ---- composing runs -------------------------------------------------------

  lemma {:induction false} ParseAppend(p: Fields, s: seq<byte>, t: seq<byte>)
    ensures var (q, a) := ParseAll(p, s);
            var (r, b) := ParseAll(q, t);
            ParseAll(p, s + t) == (r, a + b)
    decreases |s|
  {
    if s == [] {
      assert s + t == t;
      assert [] + ParseAll(p, t).1 == ParseAll(p, t).1;
    } else {
      assert (s + t)[1..] == s[1..] + t;
      var (q, a) := Advance(p, s[0]);
      ParseAppend(q, s[1..], t);
      var (q1, a1) := ParseAll(q, s[1..]);
      assert (a + a1) + ParseAll(q1, t).1 == a + (a1 + ParseAll(q1, t).1);
    }
  }

  function ParseText(p: Fields, t: string): Step {
    ParseAll(p, EncodeAll(t))
  }

  lemma {:induction false} TextAppend(p: Fields, s: string, t: string)
    ensures var (q, a) := ParseText(p, s);
            var (r, b) := ParseText(q, t);
            ParseText(p, s + t) == (r, a + b)
  {
    EncodeAllAppend(s, t);
    ParseAppend(p, EncodeAll(s), EncodeAll(t));
  }

  lemma {:induction false} TextAscii(p: Fields, c: char)
    requires c as int < 0x80
    ensures ParseText(p, [c]) == Advance(p, c as int)
  {
    assert EncodeAll([c]) == [c as int];
    var (q, out) := Advance(p, c as int);
    assert ParseAll(q, []) == (q, []);
    assert out + [] == out;
  }

  // ---- characters -----------------------------------------------------------

  /** Ground state with no character under way. */
  predicate Idle(p: Fields) {
    p.state == Ground && p.need == 0
  }

  /** Every character that is neither C0 nor DEL survives UTF-8 and prints as itself. */
  lemma {:induction false} PrintsChar(p: Fields, c: char)
    requires Idle(p) && 0x20 <= c as int != 0x7F
    ensures Idle(ParseText(p, [c]).0)
    ensures ParseText(p, [c]).1 == [Print(c)]
  {
    if c as int < 0x80 {
      TextAscii(p, c);
    } else {
      var e := Encode(c);
      var p1 := p.(utf8 := e[..1], need := |e| - 1);
      LeadStarts(p, c);
      hide Advance, Encode;
      EncodeOne(c);
      CollectRest(p1, c, 1);
      assert [] + [Print(c)] == [Print(c)];
    }
  }

  /** The first byte of a longer character. */
  lemma {:induction false} LeadStarts(p: Fields, c: char)
    requires Idle(p) && 0x80 <= c as int
    ensures var e := Encode(c); 2 <= |e| <= 4 && Advance(p, e[0]) == (p.(utf8 := e[..1], need := |e| - 1), [])
  {
    var e := Encode(c);
    NextEncode(c, []);
    assert e + [] == e && e[..1] == [e[0]];
  }

  lemma {:induction false} CollectRest(p: Fields, c: char, k: nat)
    requires p.state == Ground && 1 <= k < |Encode(c)|
    requires p.utf8 == Encode(c)[..k] && p.need == |Encode(c)| - k
    ensures Idle(ParseAll(p, Encode(c)[k..]).0)
    ensures ParseAll(p, Encode(c)[k..]).1 == [Print(c)]
    decreases |Encode(c)| - k
  {
    var e := Encode(c);
    NextCollected(p, c, k);
    hide Advance, Encode;
    assert e[k..][1..] == e[k + 1..];
    if k + 1 == |e| {
      assert e[k + 1..] == [];
    } else {
      CollectRest(p.(utf8 := e[..k + 1], need := p.need - 1), c, k + 1);
    }
  }

  lemma {:induction false} NextCollected(p: Fields, c: char, k: nat)
    requires p.state == Ground && 1 <= k < |Encode(c)|
    requires p.utf8 == Encode(c)[..k] && p.need == |Encode(c)| - k
    ensures var e := Encode(c);
            Advance(p, e[k]) == if k + 1 == |e| then (p.(utf8 := [], need := 0), [Print(c)])
                                else (p.(utf8 := e[..k + 1], need := p.need - 1), [])
  {
    var e := Encode(c);
    assert Continuation(e[k]);
    assert p.utf8 + [e[k]] == e[..k + 1];
    if k + 1 == |e| {
      hide Encode, Continuation;
      assert e[..k + 1] == e;
      EncodeOne(c);
      LossyEncodeAll([c]);
    }
  }

  // ---- control sequences ----------------------------------------------------

  type Parts = parts: seq<nat> | parts != [] witness [0]

  /** Decimal digits, as `{}` prints an unsigned number. */
  function Dec(n: nat): string {
    if n < 10 then [(0x30 + n) as char] else Dec(n / 10) + [(0x30 + n % 10) as char]
  }

  function RenderParts(parts: Parts): string {
    var n := |parts| - 1;
    if n == 0 then Dec(parts[0]) else RenderParts(parts[..n]) + ":" + Dec(parts[n])
  }

  function RenderParams(params: seq<Parts>): string {
    var n := |params| - 1;
    if n < 0 then ""
    else if n == 0 then RenderParts(params[0])
    else RenderParams(params[..n]) + ";" + RenderParts(params[n])
  }

  /** The parameter states between two characters: what has been collected so far. */
  ghost predicate Collecting(p: Fields, done: seq<seq<nat>>, parts: seq<nat>, v: nat) {
    && (p.state == CsiEntry || p.state == CsiParam)
    && p.params == done && p.curParts == parts && p.curVal == v
    && p.intermediates == [] && p.need == 0
  }

  /** Reading `t` is silent and leads from `p` to `q`. */
  ghost predicate Silent(p: Fields, t: string, q: Fields) {
    ParseText(p, t) == (q, [])
  }

  lemma {:induction false} Chain(p: Fields, s: string, q: Fields, t: string)
    requires Silent(p, s, q)
    ensures ParseText(p, s + t) == ParseText(q, t)
  {
    hide *;
    TextAppend(p, s, t);
    assert ParseText(p, s) == (q, []) by { SilentMeans(p, s, q); }
    assert [] + ParseText(q, t).1 == ParseText(q, t).1;
  }

  lemma {:induction false} SilentMeans(p: Fields, s: string, q: Fields)
    ensures Silent(p, s, q) <==> ParseText(p, s) == (q, [])
  {
  }

  lemma {:induction false} StepChar(p: Fields, c: char, done: seq<seq<nat>>, parts: seq<nat>, v: nat)
    requires Collecting(p, done, parts, v)
    ensures IsDigit(c as int % 256) && c as int < 0x80 && v * 10 + (c as int - 0x30) <= 0xFFFF ==>
              Silent(p, [c], p.Digit(c as int).(state := CsiParam))
    ensures c == ':' ==> Silent(p, [c], p.Colon().(state := CsiParam))
    ensures c == ';' ==> Silent(p, [c], p.Semicolon().(state := CsiParam))
  {
    if c as int < 0x80 { TextAscii(p, c); }
  }

  lemma {:induction false} ReadsNumber(p: Fields, done: seq<seq<nat>>, parts: seq<nat>, n: nat) returns (q: Fields)
    requires Collecting(p, done, parts, 0) && n <= 0xFFFF
    ensures Silent(p, Dec(n), q) && Collecting(q, done, parts, n) && q.partSeen && q.mark == p.mark
    decreases n
  {
    hide ParseText, Advance;
    if n < 10 {
      StepChar(p, (0x30 + n) as char, done, parts, 0);
      q := p.Digit(0x30 + n).(state := CsiParam);
    } else {
      var h := ReadsNumber(p, done, parts, n / 10);
      StepChar(h, (0x30 + n % 10) as char, done, parts, n / 10);
      q := h.Digit(0x30 + n % 10).(state := CsiParam);
      Chain(p, Dec(n / 10), h, [(0x30 + n % 10) as char]);
    }
  }

  lemma {:induction false} ReadsParts(p: Fields, done: seq<seq<nat>>, parts: Parts) returns (q: Fields)
    requires Collecting(p, done, [], 0) && PartsOk(parts, MAX_SUBPARAMS)
    ensures Silent(p, RenderParts(parts), q) && q.partSeen && q.mark == p.mark
    ensures Collecting(q, done, parts[..|parts| - 1], parts[|parts| - 1])
  {
    hide ParseText, Advance;
    var n := |parts| - 1;
    if n == 0 {
      q := ReadsNumber(p, done, [], parts[0]);
    } else {
      var head := parts[..n];
      var h := ReadsParts(p, done, head);
      StepChar(h, ':', done, head[..n - 1], head[n - 1]);
      var h1 := h.Colon().(state := CsiParam);
      assert head[..n - 1] + [head[n - 1]] == head;
      q := ReadsNumber(h1, done, head, parts[n]);
      Chain(p, RenderParts(head), h, ":");
      Chain(p, RenderParts(head) + ":", h1, Dec(parts[n]));
    }
  }

  lemma {:induction false} ReadsParams(p: Fields, params: seq<Parts>) returns (q: Fields)
    requires Collecting(p, [], [], 0) && params != [] && |params| <= MAX_PARAMS
    requires forall i | 0 <= i < |params| :: PartsOk(params[i], MAX_SUBPARAMS)
    ensures Silent(p, RenderParams(params), q) && q.partSeen && q.mark == p.mark
    ensures var last := params[|params| - 1];
            Collecting(q, params[..|params| - 1], last[..|last| - 1], last[|last| - 1])
  {
    hide ParseText, Advance;
    var n := |params| - 1;
    if n == 0 {
      q := ReadsParts(p, [], params[0]);
    } else {
      var head := params[..n];
      var h := ReadsParams(p, head);
      var last := head[n - 1];
      StepChar(h, ';', head[..n - 1], last[..|last| - 1], last[|last| - 1]);
      var h1 := h.Semicolon().(state := CsiParam);
      assert last[..|last| - 1] + [last[|last| - 1]] == last;
      assert head[..n - 1] + [last] == head;
      q := ReadsParts(h1, head, params[n]);
      Chain(p, RenderParams(head), h, ";");
      Chain(p, RenderParams(head) + ";", h1, RenderParts(params[n]));
    }
  }

  /** A control sequence: a private marker or none, parameters, intermediates, final byte. */
  function RenderMarked(mark: string, params: seq<Parts>, inter: string, final: char): string {
    [ESC] + "[" + mark + RenderParams(params) + inter + [final]
  }

  /** One as the serializers print it, without a marker. */
  function RenderCsi(params: seq<Parts>, inter: string, final: char): string {
    [ESC] + "[" + RenderParams(params) + inter + [final]
  }

  predicate MarkOk(mark: string) {
    |mark| <= 1 && (mark != "" ==> 0x3C <= mark[0] as int < 0x40)
  }

  function MarkByte(mark: string): byte
    requires MarkOk(mark)
  {
    if mark == "" then 0 else mark[0] as int
  }

  lemma {:induction false} EntersCsi(p: Fields, mark: string) returns (q: Fields)
    requires Idle(p) && MarkOk(mark)
    ensures Silent(p, [ESC] + "[" + mark, q) && Collecting(q, [], [], 0) && !q.partSeen && q.mark == MarkByte(mark)
  {
    TextAscii(p, ESC);
    TextAscii(p.(state := Escape), '[');
    TextAppend(p, [ESC], "[");
    q := p.Clear().(state := CsiEntry);
    if mark == "" {
      assert [ESC] + "[" + mark == [ESC] + "[";
    } else {
      assert mark == [mark[0]];
      TextAscii(q, mark[0]);
      Chain(p, [ESC] + "[", q, mark);
      q := q.(mark := mark[0] as int, state := CsiParam);
    }
  }

  predicate EndOk(inter: string, final: char) {
    |inter| <= MAX_INTERMEDIATES && (forall c <- inter :: 0x20 <= c as int < 0x30) && 0x40 <= final as int < 0x7F
  }

  /** The parser has read all of `params`. */
  ghost predicate HasParams(q: Fields, params: seq<Parts>) {
    if params == [] then Collecting(q, [], [], 0) && !q.partSeen
    else
      var last := params[|params| - 1];
      Collecting(q, params[..|params| - 1], last[..|last| - 1], last[|last| - 1]) && q.partSeen
  }

  lemma {:induction false} EndsCsi(q: Fields, params: seq<Parts>, inter: string, final: char)
    requires HasParams(q, params) && |params| <= MAX_PARAMS && EndOk(inter, final)
    ensures var (r, out) := ParseText(q, inter + [final]);
            Idle(r) && out == [Csi(params, EncodeAll(inter), q.mark, final as int)]
  {
    FinalIs(q, params);
    if inter == [] {
      assert inter + [final] == [final];
      EndsAt(q, params, final);
    } else {
      var r := ToIntermediates(q, inter);
      hide Fields.FinalParams, Advance, ParseText;
      EndsAfter(r, final);
      Chain(q, inter, r, [final]);
    }
  }

  lemma {:induction false} EndsAt(q: Fields, params: seq<Parts>, final: char)
    requires HasParams(q, params) && q.FinalParams() == params && 0x40 <= final as int < 0x7F
    ensures var (r, out) := ParseText(q, [final]); Idle(r) && out == [Csi(params, EncodeAll(""), q.mark, final as int)]
  {
    hide Fields.FinalParams;
    TextAscii(q, final);
    assert EncodeAll("") == [];
  }

  lemma {:induction false} AsciiBytes(c: char)
    requires c as int < 0x80
    ensures EncodeAll([c]) == [c as int]
  {
    assert [c][1..] == [];
  }

  lemma {:induction false} EndsAfter(q: Fields, final: char)
    requires q.state == CsiIntermediate && q.need == 0 && 0x40 <= final as int < 0x7F
    ensures var (r, out) := ParseText(q, [final]);
            Idle(r) && out == [Csi(q.FinalParams(), q.intermediates, q.mark, final as int)]
  {
    hide Fields.FinalParams;
    TextAscii(q, final);
  }

  lemma {:induction false} FinalIs(q: Fields, params: seq<Parts>)
    requires HasParams(q, params) && |params| <= MAX_PARAMS
    ensures q.FinalParams() == params
  {
    if params != [] {
      var last := params[|params| - 1];
      assert last == last[..|last| - 1] + [last[|last| - 1]];
    }
  }

  lemma {:induction false} ToIntermediate(q: Fields, c: char)
    requires q.state in {CsiEntry, CsiParam} && q.intermediates == [] && 0x20 <= c as int < 0x30
    ensures Silent(q, [c], q.(intermediates := [c as int], state := CsiIntermediate))
  {
    TextAscii(q, c);
    assert q.intermediates + [c as int] == [c as int];
  }

  lemma {:induction false} NextIntermediate(q: Fields, c: char)
    requires q.state == CsiIntermediate && |q.intermediates| < MAX_INTERMEDIATES && 0x20 <= c as int < 0x30
    ensures Silent(q, [c], q.(intermediates := q.intermediates + [c as int]))
  {
    TextAscii(q, c);
  }

  lemma {:induction false} ToIntermediates(q: Fields, inter: string) returns (r: Fields)
    requires q.state in {CsiEntry, CsiParam} && q.intermediates == [] && q.need == 0
    requires 1 <= |inter| <= MAX_INTERMEDIATES && forall c <- inter :: 0x20 <= c as int < 0x30
    ensures Silent(q, inter, r) && r.state == CsiIntermediate && r.need == 0 && r.mark == q.mark
    ensures r.intermediates == EncodeAll(inter) && r.FinalParams() == q.FinalParams()
  {
    hide ParseText, Advance;
    assert inter[0] in inter;
    ToIntermediate(q, inter[0]);
    AsciiBytes(inter[0]);
    r := q.(intermediates := [inter[0] as int], state := CsiIntermediate);
    if |inter| == 1 {
      assert inter == [inter[0]];
    } else {
      assert inter == [inter[0]] + [inter[1]];
      assert inter[1] in inter;
      NextIntermediate(r, inter[1]);
      AsciiBytes(inter[1]);
      EncodeAllAppend([inter[0]], [inter[1]]);
      Chain(q, [inter[0]], r, [inter[1]]);
      r := r.(intermediates := r.intermediates + [inter[1] as int]);
    }
  }

  /** Printing a control sequence and parsing it back is the identity on marker, parameters,
      intermediates and final byte, for everything within the parser's limits. */
  lemma {:induction false} ParsesMarked(p: Fields, mark: string, params: seq<Parts>, inter: string, final: char)
    requires Idle(p) && MarkOk(mark) && |params| <= MAX_PARAMS && EndOk(inter, final)
    requires forall i | 0 <= i < |params| :: PartsOk(params[i], MAX_SUBPARAMS)
    ensures Idle(ParseText(p, RenderMarked(mark, params, inter, final)).0)
    ensures ParseText(p, RenderMarked(mark, params, inter, final)).1 ==
            [Csi(params, EncodeAll(inter), MarkByte(mark), final as int)]
  {
    hide ParseText, Advance, Collecting, MarkByte;
    var intro := [ESC] + "[" + mark;
    var q := EntersCsi(p, mark);
    var r := q;
    if params != [] {
      r := ReadsParams(q, params);
      Chain(p, intro, q, RenderParams(params));
    } else {
      assert intro + RenderParams(params) == intro;
    }
    assert Silent(p, intro + RenderParams(params), r);
    EndsCsi(r, params, inter, final);
    Chain(p, intro + RenderParams(params), r, inter + [final]);
    assert RenderMarked(mark, params, inter, final) == intro + RenderParams(params) + (inter + [final]);
  }

  lemma {:induction false} ParsesCsi(p: Fields, params: seq<Parts>, inter: string, final: char)
    requires Idle(p) && |params| <= MAX_PARAMS && EndOk(inter, final)
    requires forall i | 0 <= i < |params| :: PartsOk(params[i], MAX_SUBPARAMS)
    ensures Idle(ParseText(p, RenderCsi(params, inter, final)).0)
    ensures ParseText(p, RenderCsi(params, inter, final)).1 == [Csi(params, EncodeAll(inter), 0, final as int)]
  {
    hide ParseText;
    ParsesMarked(p, "", params, inter, final);
    assert [ESC] + "[" + "" == [ESC] + "[";
  }
}
