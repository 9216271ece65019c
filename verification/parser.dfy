// crates/posh-term/src/parser.rs: the DEC parser states with incremental UTF-8. The function
// `Advance` says what one byte does; class `Parser` updates its fields in place the way the
// source does and is proved to agree with it.
module VtParser {
  import opened Utf8

  const MAX_PARAMS := 32
  const MAX_SUBPARAMS := 16
  const MAX_INTERMEDIATES := 2
  const MAX_OSC := 4 * 1024 * 1024
  const MAX_DCS := 64 * 1024
  const MAX_APC := 96 * 1024 * 1024

  const ESC: char := '\U{1B}'

  datatype Action =
    | Print(c: char)
    | Execute(b: byte)
    | Csi(params: seq<seq<nat>>, intermediates: seq<byte>, mark: byte, final: byte)
    | Esc(intermediates: seq<byte>, final: byte)
    | Osc(data: seq<byte>, bel: bool)
    | Dcs(params: seq<seq<nat>>, intermediates: seq<byte>, final: byte, data: seq<byte>)
    | Apc(data: seq<byte>)

  datatype State =
    | Ground | Escape | EscapeIntermediate
    | CsiEntry | CsiParam | CsiIntermediate | CsiIgnore
    | OscString
    | DcsEntry | DcsParam | DcsIntermediate | DcsPassthrough | DcsIgnore
    | SosPmString | ApcString

  /** The parser's fields as one value. `utf8` holds the bytes collected so far, `need` how many
      more the lead byte announced, `mark` the private marker byte or 0. */
  datatype Fields = Fields(
    state: State,
    utf8: seq<byte>, need: nat,
    params: seq<seq<nat>>, curParts: seq<nat>, curVal: nat, partSeen: bool,
    intermediates: seq<byte>, mark: byte, dcsFinal: byte,
    text: seq<byte>, overflow: bool)
  {
    function Clear(): Fields {
      this.(params := [], curParts := [], curVal := 0, partSeen := false, intermediates := [], mark := 0)
    }

    function StartString(s: State): Fields {
      this.(text := [], overflow := false, state := s)
    }

    function Digit(b: byte): Fields
      requires 0x30 <= b <= 0x39
    {
      var v := curVal * 10 + (b as int - 0x30);
      this.(curVal := if v < 0xFFFF then v else 0xFFFF, partSeen := true)
    }

    function Colon(): Fields {
      this.(curParts := if |curParts| < MAX_SUBPARAMS then curParts + [curVal] else curParts,
            curVal := 0, partSeen := true)
    }

    /** The finished parameter is appended, unless the table is full. */
    function EndParam(): Fields {
      this.(params := if |params| < MAX_PARAMS then params + [curParts + [curVal]] else params,
            curParts := [], curVal := 0)
    }

    function Semicolon(): Fields {
      EndParam().(partSeen := true)
    }

    /** The parameters a final byte delivers: a trailing one counts only if something was typed. */
    function FinalParams(): seq<seq<nat>> {
      if partSeen || curParts != [] then EndParam().params else params
    }

    function Collect(b: byte): Fields {
      if |intermediates| < MAX_INTERMEDIATES then this.(intermediates := intermediates + [b]) else this
    }

    function PushText(b: byte, cap: nat): Fields {
      if |text| < cap then this.(text := text + [b]) else this.(overflow := true)
    }
  }

  const FRESH := Fields(Ground, [], 0, [], [], 0, false, [], 0, 0, [], false)

  type Step = (Fields, seq<Action>)

  predicate IsC0(b: byte) {
    b < 0x20 && b != 0x18 && b != 0x1A && b != 0x1B
  }

  predicate IsDigit(b: byte) {
    0x30 <= b <= 0x39
  }

  function GroundStart(p: Fields, b: byte): Step {
    if b == 0x1B then (p.(state := Escape), [])
    else if b < 0x20 then (p, [Execute(b)])
    else if b < 0x7F then (p, [Print(b as char)])
    else if b == 0x7F then (p, [])
    else if b < 0xA0 then C1(p, b)
    else if LeadWidth(b) == 0 then (p, [Print(REPLACEMENT)])
    else (p.(utf8 := [b], need := LeadWidth(b) - 1), [])
  }

  /** A collected sequence prints its character if it is well-formed, else one replacement. */
  function Collected(bytes: seq<byte>): char
    requires bytes != []
  {
    if WellFormed(bytes) then Lossy(bytes)[0] else REPLACEMENT
  }

  function GroundStep(p: Fields, b: byte): Step {
    if p.need == 0 then GroundStart(p, b)
    else if Continuation(b) then
      if p.need == 1 then (p.(utf8 := [], need := 0), [Print(Collected(p.utf8 + [b]))])
      else (p.(utf8 := p.utf8 + [b], need := p.need - 1), [])
    else
      var (q, out) := GroundStart(p.(utf8 := [], need := 0), b);
      (q, [Print(REPLACEMENT)] + out)
  }

  function C1(p: Fields, b: byte): Step {
    if b == 0x90 then (p.Clear().(state := DcsEntry), [])
    else if b == 0x98 || b == 0x9E then (p.StartString(SosPmString), [])
    else if b == 0x9B then (p.Clear().(state := CsiEntry), [])
    else if b == 0x9C then (p.(state := Ground), [])
    else if b == 0x9D then (p.StartString(OscString), [])
    else if b == 0x9F then (p.StartString(ApcString), [])
    else (p, [Execute(b)])
  }

  /** Bytes that mean the same in every state that is neither ground nor a string. */
  predicate IsAnywhere(b: byte) {
    b == 0x1B || b == 0x18 || b == 0x1A || 0x80 <= b < 0xA0
  }

  function Anywhere(p: Fields, b: byte): Step
    requires IsAnywhere(b)
  {
    if b == 0x1B then (p.(state := Escape), [])
    else if b < 0x20 then (p.(state := Ground), [Execute(b)])
    else C1(p.(state := Ground), b)
  }

  function EscapeStep(p: Fields, b: byte): Step {
    if IsC0(b) then (p, [Execute(b)])
    else if b < 0x30 then (p.Clear().(intermediates := [b], state := EscapeIntermediate), [])
    else if b == 0x5B then (p.Clear().(state := CsiEntry), [])
    else if b == 0x5D then (p.StartString(OscString), [])
    else if b == 0x50 then (p.Clear().(state := DcsEntry), [])
    else if b == 0x5F then (p.StartString(ApcString), [])
    else if b == 0x58 || b == 0x5E then (p.StartString(SosPmString), [])
    else if b < 0x7F then (p.(state := Ground), [Esc([], b)])
    else (p, [])
  }

  function EscapeIntermediateStep(p: Fields, b: byte): Step {
    if IsC0(b) then (p, [Execute(b)])
    else if b < 0x30 then (p.Collect(b), [])
    else if b < 0x7F then (p.(intermediates := [], state := Ground), [Esc(p.intermediates, b)])
    else (p, [])
  }

  function CsiDispatch(p: Fields, b: byte): Step {
    (p.(params := [], curParts := [], curVal := 0, partSeen := false, intermediates := [], state := Ground),
     [Csi(p.FinalParams(), p.intermediates, p.mark, b)])
  }

  /** Entry and parameter states of CSI (`csi`) and DCS differ in their successor states and in
      what a final byte does. */
  function ParamStep(p: Fields, b: byte, csi: bool): Step
    requires b >= 0x20
  {
    var first := p.state == CsiEntry || p.state == DcsEntry;
    var params := if csi then CsiParam else DcsParam;
    if IsDigit(b) then (p.Digit(b).(state := params), [])
    else if b == 0x3A then (p.Colon().(state := params), [])
    else if b == 0x3B then (p.Semicolon().(state := params), [])
    else if 0x3C <= b < 0x40 then
      if first then (p.(mark := b, state := params), [])
      else (p.(state := if csi then CsiIgnore else DcsIgnore), [])
    else if b < 0x30 then
      var q := if first then p.(intermediates := p.intermediates + [b]) else p.Collect(b);
      (q.(state := if csi then CsiIntermediate else DcsIntermediate), [])
    else if b < 0x7F then if csi then CsiDispatch(p, b) else (DcsHook(p, b), [])
    else (p, [])
  }

  function CsiIntermediateStep(p: Fields, b: byte): Step {
    if IsC0(b) then (p, [Execute(b)])
    else if b < 0x30 then (p.Collect(b), [])
    else if b < 0x40 then (p.(state := CsiIgnore), [])
    else if b < 0x7F then CsiDispatch(p, b)
    else (p, [])
  }

  function CsiIgnoreStep(p: Fields, b: byte): Step {
    if IsC0(b) then (p, [Execute(b)])
    else if 0x40 <= b < 0x7F then (p.Clear().(state := Ground), [])
    else (p, [])
  }

  function FinishOsc(p: Fields, bel: bool): Step {
    (p.(text := [], overflow := false, state := Ground), if p.overflow then [] else [Osc(p.text, bel)])
  }

  function OscStep(p: Fields, b: byte): Step {
    if b == 0x07 then FinishOsc(p, true)
    else if b == 0x1B then
      var (q, out) := FinishOsc(p, false);
      (q.(state := Escape), out)
    else if b == 0x18 || b == 0x1A then (p.(state := Ground), [])
    else if b < 0x20 then (p, [])
    else (p.PushText(b, MAX_OSC), [])
  }

  function ApcStep(p: Fields, b: byte): Step {
    if b == 0x1B then
      (p.(text := [], overflow := false, state := Escape), if p.overflow then [] else [Apc(p.text)])
    else if b == 0x18 || b == 0x1A then (p.(state := Ground), [])
    else (p.PushText(b, MAX_APC), [])
  }

  /** SOS/PM strings and ignored DCS strings are skipped up to their terminator. */
  function SkipStep(p: Fields, b: byte): Step {
    if b == 0x1B then (p.(state := Escape), [])
    else if b == 0x18 || b == 0x1A || b == 0x9C then (p.(state := Ground), [])
    else (p, [])
  }

  function DcsHook(p: Fields, b: byte): Fields {
    p.(dcsFinal := b, text := [], overflow := false, state := DcsPassthrough)
  }

  function DcsIntermediateStep(p: Fields, b: byte): Step {
    if b < 0x20 then (p, [])
    else if b < 0x30 then (p.Collect(b), [])
    else if b < 0x40 then (p.(state := DcsIgnore), [])
    else if b < 0x7F then (DcsHook(p, b), [])
    else (p, [])
  }

  function DcsUnhook(p: Fields): Step {
    (p.(text := [], overflow := false).Clear(),
     if p.overflow then [] else [Dcs(p.FinalParams(), p.intermediates, p.dcsFinal, p.text)])
  }

  function DcsPassthroughStep(p: Fields, b: byte): Step {
    if b == 0x1B || b == 0x9C then
      var (q, out) := DcsUnhook(p);
      (q.(state := if b == 0x1B then Escape else Ground), out)
    else if b == 0x18 || b == 0x1A then (p.Clear().(text := [], state := Ground), [])
    else (p.PushText(b, MAX_DCS), [])
  }

  function Advance(p: Fields, b: byte): Step {
    if p.state == Ground then GroundStep(p, b)
    else if p.state == OscString then OscStep(p, b)
    else if p.state == ApcString then ApcStep(p, b)
    else if p.state == SosPmString || p.state == DcsIgnore then SkipStep(p, b)
    else if p.state == DcsPassthrough then DcsPassthroughStep(p, b)
    else if IsAnywhere(b) then Anywhere(p, b)
    else if p.state == Escape then EscapeStep(p, b)
    else if p.state == EscapeIntermediate then EscapeIntermediateStep(p, b)
    else if p.state == CsiIntermediate then CsiIntermediateStep(p, b)
    else if p.state == CsiIgnore then CsiIgnoreStep(p, b)
    else if p.state == DcsIntermediate then DcsIntermediateStep(p, b)
    else
      var csi := p.state == CsiEntry || p.state == CsiParam;
      if b >= 0x20 then ParamStep(p, b, csi) else (p, if csi then [Execute(b)] else [])
  }

  function ParseAll(p: Fields, bytes: seq<byte>): Step
    decreases |bytes|
  {
    if bytes == [] then (p, [])
    else
      var (q, out) := Advance(p, bytes[0]);
      var (r, rest) := ParseAll(q, bytes[1..]);
      (r, out + rest)
  }

  // ---- the class ------------------------------------------------------------

  class Parser {
    var state: State
    var utf8: seq<byte>
    var need: nat
    var params: seq<seq<nat>>
    var curParts: seq<nat>
    var curVal: nat
    var partSeen: bool
    var intermediates: seq<byte>
    var mark: byte
    var dcsFinal: byte
    var text: seq<byte>
    var overflow: bool

    function View(): Fields
      reads this
    {
      Fields(state, utf8, need, params, curParts, curVal, partSeen, intermediates, mark, dcsFinal, text, overflow)
    }

    constructor ()
      ensures View() == FRESH
    {
      state, utf8, need := Ground, [], 0;
      params, curParts, curVal, partSeen := [], [], 0, false;
      intermediates, mark, dcsFinal, text, overflow := [], 0, 0, [], false;
    }

    method ClearFields()
      modifies this
      ensures View() == old(View()).Clear()
    {
      params, curParts, curVal, partSeen, intermediates, mark := [], [], 0, false, [], 0;
    }

    method StartString(s: State)
      modifies this
      ensures View() == old(View()).StartString(s)
    {
      text, overflow, state := [], false, s;
    }

    method ParamDigit(b: byte)
      requires IsDigit(b)
      modifies this
      ensures View() == old(View()).Digit(b)
    {
      curVal := curVal * 10 + (b as int - 0x30);
      if curVal > 0xFFFF { curVal := 0xFFFF; }
      partSeen := true;
    }

    method ParamColon()
      modifies this
      ensures View() == old(View()).Colon()
    {
      if |curParts| < MAX_SUBPARAMS { curParts := curParts + [curVal]; }
      curVal, partSeen := 0, true;
    }

    method ParamSemicolon()
      modifies this
      ensures View() == old(View()).Semicolon()
    {
      curParts := curParts + [curVal];
      if |params| < MAX_PARAMS { params := params + [curParts]; }
      curParts, curVal, partSeen := [], 0, true;
    }

    method TakeParams() returns (out: seq<seq<nat>>)
      modifies this
      ensures out == old(View()).FinalParams()
      ensures View() == old(View()).(params := [], curParts := [], curVal := 0, partSeen := false)
    {
      if partSeen || curParts != [] {
        curParts := curParts + [curVal];
        if |params| < MAX_PARAMS { params := params + [curParts]; }
      }
      curParts, curVal, partSeen := [], 0, false;
      out := params;
      params := [];
    }

    method CollectByte(b: byte)
      modifies this
      ensures View() == old(View()).Collect(b)
    {
      if |intermediates| < MAX_INTERMEDIATES { intermediates := intermediates + [b]; }
    }

    method PushStringByte(b: byte, cap: nat)
      modifies this
      ensures View() == old(View()).PushText(b, cap)
    {
      if |text| < cap { text := text + [b]; } else { overflow := true; }
    }

    method OnC1(b: byte) returns (out: seq<Action>)
      modifies this
      ensures (View(), out) == C1(old(View()), b)
    {
      out := [];
      if b == 0x90 { ClearFields(); state := DcsEntry; }
      else if b == 0x98 || b == 0x9E { StartString(SosPmString); }
      else if b == 0x9B { ClearFields(); state := CsiEntry; }
      else if b == 0x9C { state := Ground; }
      else if b == 0x9D { StartString(OscString); }
      else if b == 0x9F { StartString(ApcString); }
      else { out := [Execute(b)]; }
    }

    method OnGround(b: byte) returns (out: seq<Action>)
      requires state == Ground
      modifies this
      ensures (View(), out) == GroundStep(old(View()), b)
      decreases need
    {
      if need > 0 {
        if Continuation(b) {
          utf8, need := utf8 + [b], need - 1;
          if need == 0 {
            out := [Print(if WellFormed(utf8) then Lossy(utf8)[0] else REPLACEMENT)];
            utf8 := [];
            return;
          }
          return [];
        }
        // Malformed: emit a replacement and read the byte again.
        utf8, need := [], 0;
        out := OnGround(b);
        return [Print(REPLACEMENT)] + out;
      }
      out := [];
      if b == 0x1B { state := Escape; }
      else if b < 0x20 { out := [Execute(b)]; }
      else if b < 0x7F { out := [Print(b as char)]; }
      else if b == 0x7F { }
      else if b < 0xA0 { out := OnC1(b); }
      else if 0xC2 <= b < 0xE0 { utf8, need := [b], 1; }
      else if 0xE0 <= b < 0xF0 { utf8, need := [b], 2; }
      else if 0xF0 <= b < 0xF5 { utf8, need := [b], 3; }
      else { out := [Print(REPLACEMENT)]; }
    }

    method OnAnywhere(b: byte) returns (taken: bool, out: seq<Action>)
      modifies this
      ensures taken == IsAnywhere(b)
      ensures taken ==> (View(), out) == Anywhere(old(View()), b)
      ensures !taken ==> View() == old(View())
    {
      taken, out := true, [];
      if b == 0x1B { state := Escape; }
      else if b == 0x18 || b == 0x1A { out, state := [Execute(b)], Ground; }
      else if 0x80 <= b < 0xA0 { state := Ground; out := OnC1(b); }
      else { taken := false; }
    }

    method OnEscape(b: byte) returns (out: seq<Action>)
      requires !IsAnywhere(b)
      modifies this
      ensures (View(), out) == EscapeStep(old(View()), b)
    {
      out := [];
      if b < 0x20 { out := [Execute(b)]; }
      else if b < 0x30 { ClearFields(); intermediates, state := [b], EscapeIntermediate; }
      else if b == 0x5B { ClearFields(); state := CsiEntry; }
      else if b == 0x5D { StartString(OscString); }
      else if b == 0x50 { ClearFields(); state := DcsEntry; }
      else if b == 0x5F { StartString(ApcString); }
      else if b == 0x58 || b == 0x5E { StartString(SosPmString); }
      else if b < 0x7F { out, state := [Esc([], b)], Ground; }
    }

    method OnEscapeIntermediate(b: byte) returns (out: seq<Action>)
      requires !IsAnywhere(b)
      modifies this
      ensures (View(), out) == EscapeIntermediateStep(old(View()), b)
    {
      out := [];
      if b < 0x20 { out := [Execute(b)]; }
      else if b < 0x30 { CollectByte(b); }
      else if b < 0x7F { out := [Esc(intermediates, b)]; intermediates, state := [], Ground; }
    }

    method DispatchCsi(b: byte) returns (out: seq<Action>)
      modifies this
      ensures (View(), out) == CsiDispatch(old(View()), b)
    {
      var ps := TakeParams();
      out := [Csi(ps, intermediates, mark, b)];
      intermediates, state := [], Ground;
    }

    method HookDcs(b: byte)
      modifies this
      ensures View() == DcsHook(old(View()), b)
    {
      dcsFinal, text, overflow, state := b, [], false, DcsPassthrough;
    }

    method OnEntry(b: byte) returns (out: seq<Action>)
      requires (state == CsiEntry || state == DcsEntry) && !IsAnywhere(b)
      modifies this
      ensures (View(), out) == Advance(old(View()), b)
    {
      out := [];
      var csi := state == CsiEntry;
      var next := if csi then CsiParam else DcsParam;
      if b < 0x20 { if csi { out := [Execute(b)]; } }
      else if b < 0x30 {
        intermediates := intermediates + [b];
        state := if csi then CsiIntermediate else DcsIntermediate;
      }
      else if IsDigit(b) { ParamDigit(b); state := next; }
      else if b == 0x3A { ParamColon(); state := next; }
      else if b == 0x3B { ParamSemicolon(); state := next; }
      else if b < 0x40 { mark, state := b, next; }
      else if b < 0x7F { if csi { out := DispatchCsi(b); } else { HookDcs(b); } }
    }

    method OnParam(b: byte) returns (out: seq<Action>)
      requires (state == CsiParam || state == DcsParam) && !IsAnywhere(b)
      modifies this
      ensures (View(), out) == Advance(old(View()), b)
    {
      out := [];
      var csi := state == CsiParam;
      if b < 0x20 { if csi { out := [Execute(b)]; } }
      else if IsDigit(b) { ParamDigit(b); }
      else if b == 0x3A { ParamColon(); }
      else if b == 0x3B { ParamSemicolon(); }
      else if 0x3C <= b < 0x40 { state := if csi then CsiIgnore else DcsIgnore; }
      else if b < 0x30 { CollectByte(b); state := if csi then CsiIntermediate else DcsIntermediate; }
      else if b < 0x7F { if csi { out := DispatchCsi(b); } else { HookDcs(b); } }
    }

    method OnIntermediate(b: byte) returns (out: seq<Action>)
      requires (state == CsiIntermediate || state == DcsIntermediate) && !IsAnywhere(b)
      modifies this
      ensures (View(), out) == Advance(old(View()), b)
    {
      out := [];
      var csi := state == CsiIntermediate;
      if b < 0x20 { if csi { out := [Execute(b)]; } }
      else if b < 0x30 { CollectByte(b); }
      else if b < 0x40 { state := if csi then CsiIgnore else DcsIgnore; }
      else if b < 0x7F { if csi { out := DispatchCsi(b); } else { HookDcs(b); } }
    }

    method OnCsiIgnore(b: byte) returns (out: seq<Action>)
      requires !IsAnywhere(b)
      modifies this
      ensures (View(), out) == CsiIgnoreStep(old(View()), b)
    {
      out := [];
      if b < 0x20 { out := [Execute(b)]; }
      else if 0x40 <= b < 0x7F { ClearFields(); state := Ground; }
    }

    method OnOsc(b: byte) returns (out: seq<Action>)
      modifies this
      ensures (View(), out) == OscStep(old(View()), b)
    {
      out := [];
      if b == 0x07 || b == 0x1B {
        if !overflow { out := [Osc(text, b == 0x07)]; }
        text, overflow, state := [], false, if b == 0x07 then Ground else Escape;
      }
      else if b == 0x18 || b == 0x1A { state := Ground; }
      else if b < 0x20 { }
      else { PushStringByte(b, MAX_OSC); }
    }

    method OnApc(b: byte) returns (out: seq<Action>)
      modifies this
      ensures (View(), out) == ApcStep(old(View()), b)
    {
      out := [];
      if b == 0x1B {
        if !overflow { out := [Apc(text)]; }
        text, overflow, state := [], false, Escape;
      }
      else if b == 0x18 || b == 0x1A { state := Ground; }
      else { PushStringByte(b, MAX_APC); }
    }

    method OnSkip(b: byte)
      modifies this
      ensures (View(), []) == SkipStep(old(View()), b)
    {
      if b == 0x1B { state := Escape; }
      else if b == 0x18 || b == 0x1A || b == 0x9C { state := Ground; }
    }

    method UnhookDcs() returns (out: seq<Action>)
      modifies this
      ensures (View(), out) == DcsUnhook(old(View()))
    {
      var data := text;
      text := [];
      out := [];
      if !overflow {
        var ps := TakeParams();
        out := [Dcs(ps, intermediates, dcsFinal, data)];
        intermediates := [];
      }
      overflow := false;
      ClearFields();
    }

    method OnDcsPassthrough(b: byte) returns (out: seq<Action>)
      modifies this
      ensures (View(), out) == DcsPassthroughStep(old(View()), b)
    {
      out := [];
      if b == 0x1B { out := UnhookDcs(); state := Escape; }
      else if b == 0x9C { out := UnhookDcs(); state := Ground; }
      else if b == 0x18 || b == 0x1A { ClearFields(); text, state := [], Ground; }
      else { PushStringByte(b, MAX_DCS); }
    }

    method AdvanceByte(b: byte) returns (out: seq<Action>)
      modifies this
      ensures (View(), out) == Advance(old(View()), b)
    {
      if state == Ground { out := OnGround(b); return; }
      if state == OscString { out := OnOsc(b); return; }
      if state == ApcString { out := OnApc(b); return; }
      if state == SosPmString || state == DcsIgnore { OnSkip(b); return []; }
      if state == DcsPassthrough { out := OnDcsPassthrough(b); return; }
      var taken;
      taken, out := OnAnywhere(b);
      if taken { return; }
      if state == Escape { out := OnEscape(b); }
      else if state == EscapeIntermediate { out := OnEscapeIntermediate(b); }
      else if state == CsiIntermediate || state == DcsIntermediate { out := OnIntermediate(b); }
      else if state == CsiIgnore { out := OnCsiIgnore(b); }
      else if state == CsiEntry || state == DcsEntry { out := OnEntry(b); }
      else { out := OnParam(b); }
    }
  }
}
