// crates/posh-rec/src/castx.rs: the reader, the header, and whole files.
module CastxRead {
  import opened Utf8
  import opened Cells
  import opened Castx
  import opened CastxLines
  import opened Json

  /** How number texts are read: which ones `f64` accepts, and `as_u16` of them. */
  datatype Numbers = Numbers(good: seq<byte> -> bool, u16: seq<byte> -> Option<nat>)

  // ---- values ---------------------------------------------------------------

  /** The first field of that name. */
  function FieldOf(fields: seq<(string, Value)>, key: string): Option<Value> {
    if fields == [] then None else if fields[0].0 == key then Some(fields[0].1) else FieldOf(fields[1..], key)
  }

  function Get(v: Value, key: string): Option<Value> {
    if v.Obj? then FieldOf(v.fields, key) else None
  }

  function AsU16(n: Numbers, v: Option<Value>): Option<nat> {
    if v.Some? && v.value.Num? then n.u16(v.value.text) else None
  }

  // ---- the header -----------------------------------------------------------

  datatype PoshRec = PoshRec(v: nat, emuRev: string)

  datatype Header = Header(version: nat, width: nat, height: nat, poshRec: Option<PoshRec>)

  datatype HeaderError = BadJson(error: JsonError) | VersionNotInteger | UnsupportedVersion(version: nat) | NoHeader

  datatype HeaderRes = HeaderIs(h: Header) | BadHeader(error: HeaderError)

  function Or(n: Option<nat>, default: nat): nat {
    if n.Some? then n.value else default
  }

  function PoshRecOf(n: Numbers, v: Value): Option<PoshRec> {
    var num, rev := AsU16(n, Get(v, "v")), Get(v, "emu_rev");
    if num.Some? && rev.Some? && rev.value.Str? then Some(PoshRec(num.value, rev.value.s)) else None
  }

  function HeaderOf(n: Numbers, v: Value): HeaderRes {
    var version := Get(v, "version");
    if version.Some? && AsU16(n, version).None? then BadHeader(VersionNotInteger)
    else
      var number := Or(AsU16(n, version), 2);
      if number != 2 then BadHeader(UnsupportedVersion(number))
      else
        var p := Get(v, "posh_rec");
        HeaderIs(Header(number, Or(AsU16(n, Get(v, "width")), 80), Or(AsU16(n, Get(v, "height")), 24),
                        if p.Some? then PoshRecOf(n, p.value) else None))
  }

  function Decimal(n: nat): string {
    if n < 10 then [(0x30 + n) as char] else Decimal(n / 10) + [(0x30 + n % 10) as char]
  }

  function HeaderLine(h: Header): string {
    "{\"version\":" + Decimal(h.version) + ",\"width\":" + Decimal(h.width) + ",\"height\":" + Decimal(h.height) +
    (match h.poshRec
     case Some(p) => ",\"posh_rec\":{\"v\":" + Decimal(p.v) + ",\"emu_rev\":" + JsonString(p.emuRev) + "}"
     case None => "") +
    "}"
  }

  // ---- lines ----------------------------------------------------------------

  /** `split('\n')`: always at least one line. */
  function Lines(src: string): (r: seq<string>)
    ensures r != []
  {
    if src == "" then [""]
    else
      var r := Lines(src[1..]);
      if src[0] == '\n' then [""] + r else [[src[0]] + r[0]] + r[1..]
  }

  /** White space as `trim` has it. */
  predicate White(c: char) {
    var n := c as int;
    || 0x09 <= n <= 0x0D || n == 0x20 || n == 0x85 || n == 0xA0 || n == 0x1680 || 0x2000 <= n <= 0x200A
    || n == 0x2028 || n == 0x2029 || n == 0x202F || n == 0x205F || n == 0x3000
  }

  function Chomp(line: string): string {
    if line != "" && line[|line| - 1] == '\r' then line[..|line| - 1] else line
  }

  predicate BlankLine(line: string) {
    forall c | c in line :: White(c)
  }

  datatype Found = Missing | Found(line: string, at: nat)

  /** The next line that is not blank, at or after index `i`. */
  function NextLine(lines: seq<string>, i: nat): (f: Found)
    requires i <= |lines|
    ensures f.Found? ==> i <= f.at < |lines| && f.line == Chomp(lines[f.at]) && !BlankLine(f.line)
    ensures forall k | i <= k < (if f.Found? then f.at else |lines|) :: BlankLine(Chomp(lines[k]))
    decreases |lines| - i
  {
    if i == |lines| then Missing
    else if BlankLine(Chomp(lines[i])) then NextLine(lines, i + 1)
    else Found(Chomp(lines[i]), i)
  }

  function ReadEvent(n: Numbers, line: string): EventRes {
    match Parse(n.good, EncodeAll(line))
    case Err(e) => Bad(NotJson(e))
    case Ok(v) => EventOf(v)
  }

  function ReadHeader(n: Numbers, line: string): HeaderRes {
    match Parse(n.good, EncodeAll(line))
    case Err(e) => BadHeader(BadJson(e))
    case Ok(v) => HeaderOf(n, v)
  }

  /** All events from line `i` on, up to the first bad one. */
  datatype Script = Script(events: seq<Event>) | BadLine(number: nat, error: EventError)

  function Script0(n: Numbers, lines: seq<string>, i: nat, done: seq<Event>): Script
    requires i <= |lines|
    decreases |lines| - i
  {
    var f := NextLine(lines, i);
    if f.Missing? then Script(done)
    else
      match ReadEvent(n, f.line)
      case Bad(e) => BadLine(f.at + 1, e)
      case Good(e) => Script0(n, lines, f.at + 1, done + [e])
  }

  class Reader {
    const numbers: Numbers
    const lines: seq<string>
    var lineNo: nat

    ghost predicate Valid()
      reads this
    {
      lineNo <= |lines|
    }

    constructor (numbers: Numbers, src: string)
      ensures Valid() && this.numbers == numbers && lines == Lines(src) && lineNo == 0
    {
      this.numbers, lines, lineNo := numbers, Lines(src), 0;
    }

    method TakeLine() returns (f: Found)
      requires Valid()
      modifies this
      ensures Valid() && f == NextLine(lines, old(lineNo))
      ensures lineNo == if f.Found? then f.at + 1 else |lines|
    {
      while lineNo < |lines|
        invariant Valid() && NextLine(lines, lineNo) == NextLine(lines, old(lineNo))
      {
        var line := Chomp(lines[lineNo]);
        lineNo := lineNo + 1;
        if !BlankLine(line) { return Found(line, lineNo - 1); }
      }
      return Missing;
    }

    method ReadTop() returns (r: HeaderRes)
      requires Valid()
      modifies this
      ensures Valid()
      ensures var f := NextLine(lines, old(lineNo));
        r == (if f.Missing? then BadHeader(NoHeader) else ReadHeader(numbers, f.line)) &&
        lineNo == if f.Found? then f.at + 1 else |lines|
    {
      var f := TakeLine();
      if f.Missing? { return BadHeader(NoHeader); }
      var v := ParseText(numbers.good, EncodeAll(f.line));
      if v.Err? { return BadHeader(BadJson(v.error)); }
      return HeaderOf(numbers, v.value);
    }

    /** The loop both the player and the replay run: events until one is bad or none is left. */
    method ReadAll() returns (s: Script)
      requires Valid()
      modifies this
      ensures Valid() && s == Script0(numbers, lines, old(lineNo), [])
    {
      hide Parse, EventOf;
      var events: seq<Event> := [];
      while true
        invariant Valid() && Script0(numbers, lines, lineNo, events) == Script0(numbers, lines, old(lineNo), [])
        decreases |lines| - lineNo
      {
        var f := TakeLine();
        if f.Missing? { return Script(events); }
        var v := ParseText(numbers.good, EncodeAll(f.line));
        if v.Err? { return BadLine(f.at + 1, NotJson(v.error)); }
        var e := EventOf(v.value);
        if e.Bad? { return BadLine(f.at + 1, e.error); }
        events := events + [e.e];
      }
    }
  }

  // ---- reading objects back -------------------------------------------------

  /** A text that, before a comma or a brace, reads as that value. */
  ghost predicate Stands(good: seq<byte> -> bool, text: string, v: Value) {
    forall s: seq<byte>, pos: nat | Has(s, pos, text) ::
      var end := pos + |EncodeAll(text)|;
      end < |s| && (s[end] == 0x2C || s[end] == 0x7D) ==>
        pos < |s| && !IsSpace(s[pos]) && ParseValue(good, s, pos) == Json.Ok((v, end))
  }

  datatype Field = Field(key: string, text: string, value: Value)

  function KeyText(f: Field): string {
    JsonString(f.key) + ":" + f.text
  }

  function Members(fs: seq<Field>): string
    requires fs != []
  {
    if |fs| == 1 then KeyText(fs[0]) + "}" else KeyText(fs[0]) + "," + Members(fs[1..])
  }

  function Pairs(fs: seq<Field>): (r: seq<(string, Value)>)
    ensures |r| == |fs|
    ensures forall i | 0 <= i < |fs| :: r[i] == (fs[i].key, fs[i].value)
  {
    if fs == [] then [] else [(fs[0].key, fs[0].value)] + Pairs(fs[1..])
  }

  ghost predicate AllStand(good: seq<byte> -> bool, fs: seq<Field>) {
    forall i | 0 <= i < |fs| :: Stands(good, fs[i].text, fs[i].value)
  }

  lemma {:induction false} FieldReads(good: seq<byte> -> bool, s: seq<byte>, pos: nat, f: Field, end: char)
    requires Stands(good, f.text, f.value) && Has(s, pos, KeyText(f) + [end]) && (end == ',' || end == '}')
    ensures pos < |s| && !IsSpace(s[pos])
    ensures var at := pos + |EncodeAll(KeyText(f))|;
      at < |s| && s[at] == end as int && !IsSpace(s[at])
        && ParseField(good, s, pos) == Json.Ok(Member(f.key, f.value, at))
  {
    hide ParseValue, ParseString, JsonString, EncodeAll, Has;
    var j := JsonString(f.key);
    HasSplit(s, pos, KeyText(f), [end]);
    HasAscii(s, pos + |EncodeAll(KeyText(f))|, end);
    assert KeyText(f) == j + (":" + f.text);
    HasSplit(s, pos, j, ":" + f.text);
    HasSplit(s, pos + |EncodeAll(j)|, ":", f.text);
    HasAscii(s, pos + |EncodeAll(j)|, ':');
    StringBack(s, pos, f.key);
    NoSpace(s, pos);
    NoSpace(s, pos + |EncodeAll(j)|);
    NoSpace(s, pos + |EncodeAll(j)| + 1);
  }

  lemma {:induction false} MembersRead(good: seq<byte> -> bool, s: seq<byte>, pos: nat, fs: seq<Field>,
      done: seq<(string, Value)>)
    requires fs != [] && AllStand(good, fs) && Has(s, pos, Members(fs))
    ensures pos < |s| && !IsSpace(s[pos]) && s[pos] != 0x7D
    ensures ParseFields(good, s, pos, done) == Json.Ok((Obj(done + Pairs(fs)), pos + |EncodeAll(Members(fs))|))
    decreases |fs|
  {
    hide ParseField, ParseFields, KeyText, Stands, EncodeAll, Has, SkipSpace;
    var f := fs[0];
    var at := pos + |EncodeAll(KeyText(f))|;
    KeyQuote(s, pos, fs);
    if |fs| == 1 {
      FieldReads(good, s, pos, f, '}');
      HasSplit(s, pos, KeyText(f), "}");
      HasAscii(s, at, '}');
      FieldThen(good, s, pos, f, at, done);
      assert done + Pairs(fs) == done + [(f.key, f.value)];
    } else {
      assert Members(fs) == KeyText(f) + "," + Members(fs[1..]);
      HasSplit(s, pos, KeyText(f) + ",", Members(fs[1..]));
      FieldReads(good, s, pos, f, ',');
      HasSplit(s, pos, KeyText(f), ",");
      HasAscii(s, at, ',');
      FieldThen(good, s, pos, f, at, done);
      MembersRead(good, s, at + 1, fs[1..], done + [(f.key, f.value)]);
      assert done + [(f.key, f.value)] + Pairs(fs[1..]) == done + Pairs(fs);
    }
  }

  /** What follows a field that has been read. */
  lemma {:induction false} FieldThen(good: seq<byte> -> bool, s: seq<byte>, pos: nat, f: Field, at: nat,
      done: seq<(string, Value)>)
    requires pos <= |s| && at < |s| && !IsSpace(s[at])
             && ParseField(good, s, pos) == Json.Ok(Member(f.key, f.value, at))
    ensures s[at] == 0x7D ==> ParseFields(good, s, pos, done) == Json.Ok((Obj(done + [(f.key, f.value)]), at + 1))
    ensures s[at] == 0x2C ==> ParseFields(good, s, pos, done) == ParseFields(good, s, at + 1, done + [(f.key, f.value)])
  {
    hide ParseField;
    NoSpace(s, at);
  }

  lemma {:induction false} KeyQuote(s: seq<byte>, pos: nat, fs: seq<Field>)
    requires fs != [] && Has(s, pos, Members(fs))
    ensures pos < |s| && s[pos] == QUOTE
  {
    var m := Members(fs);
    assert m[0] == '"';
    assert m == ['"'] + m[1..];
    HasSplit(s, pos, ['"'], m[1..]);
    HasAscii(s, pos, '"');
  }

  /** An object of fields whose values read back reads back, in their order. */
  lemma {:induction false} ObjectReads(good: seq<byte> -> bool, s: seq<byte>, pos: nat, fs: seq<Field>)
    requires fs != [] && AllStand(good, fs) && Has(s, pos, "{" + Members(fs))
    ensures pos < |s| && !IsSpace(s[pos])
    ensures ParseValue(good, s, pos) == Json.Ok((Obj(Pairs(fs)), pos + |EncodeAll("{" + Members(fs))|))
  {
    hide AllStand, Members, Pairs, EncodeAll, Has, ParseFields;
    HasSplit(s, pos, "{", Members(fs));
    HasAscii(s, pos, '{');
    MembersRead(good, s, pos + 1, fs, []);
    NoSpace(s, pos + 1);
    assert [] + Pairs(fs) == Pairs(fs);
  }

  lemma {:induction false} ObjectStands(good: seq<byte> -> bool, fs: seq<Field>)
    requires fs != [] && AllStand(good, fs)
    ensures Stands(good, "{" + Members(fs), Obj(Pairs(fs)))
  {
    hide AllStand, Members, Pairs, EncodeAll, Has, ParseValue;
    forall s: seq<byte>, pos: nat | Has(s, pos, "{" + Members(fs))
      ensures pos < |s| && !IsSpace(s[pos])
      ensures ParseValue(good, s, pos) == Json.Ok((Obj(Pairs(fs)), pos + |EncodeAll("{" + Members(fs))|))
    {
      ObjectReads(good, s, pos, fs);
    }
  }

  lemma {:induction false} StringStands(good: seq<byte> -> bool, t: string)
    ensures Stands(good, JsonString(t), Str(t))
  {
    hide JsonString, EncodeAll, Has, ParseValue;
    forall s: seq<byte>, pos: nat | Has(s, pos, JsonString(t))
      ensures pos < |s| && !IsSpace(s[pos])
      ensures ParseValue(good, s, pos) == Json.Ok((Str(t), pos + |EncodeAll(JsonString(t))|))
    {
      StringValue(good, s, pos, t);
    }
  }

  lemma {:induction false} HasMore(s: seq<byte>, pos: nat, t: string, end: char)
    requires Has(s, pos, t) && end as int < 0x80 && pos + |EncodeAll(t)| < |s| && s[pos + |EncodeAll(t)|] == end as int
    ensures Has(s, pos, t + [end])
  {
    EncodeAllAppend(t, [end]);
    EncodeOne(end);
    assert Encode(end) == [end as int];
    hide EncodeAll, Encode;
    OneMore(s, pos, |EncodeAll(t)|);
  }

  lemma {:induction false} OneMore(s: seq<byte>, pos: nat, n: nat)
    requires pos + n < |s|
    ensures s[pos..pos + n + 1] == s[pos..pos + n] + [s[pos + n]]
  {
  }

  lemma {:induction false} NumberStands(good: seq<byte> -> bool, t: string)
    requires TimeText(good, t)
    ensures Stands(good, t, Num(EncodeAll(t)))
  {
    hide EncodeAll, Has, ParseValue, TimeText;
    forall s: seq<byte>, pos: nat | Has(s, pos, t)
      ensures var end := pos + |EncodeAll(t)|;
        end < |s| && (s[end] == 0x2C || s[end] == 0x7D) ==>
          pos < |s| && !IsSpace(s[pos]) && ParseValue(good, s, pos) == Json.Ok((Num(EncodeAll(t)), end))
    {
      var end := pos + |EncodeAll(t)|;
      if end < |s| && (s[end] == 0x2C || s[end] == 0x7D) {
        var c := if s[end] == 0x2C then ',' else '}';
        HasMore(s, pos, t, c);
        NumberBack(good, s, pos, t, c);
      }
    }
  }

  // ---- the header, back -----------------------------------------------------

  /** Decimal texts are numbers with the value written. */
  ghost predicate DecimalsRead(n: Numbers) {
    forall k: nat | k <= 0xFFFF :: n.good(EncodeAll(Decimal(k))) && n.u16(EncodeAll(Decimal(k))) == Some(k)
  }

  ghost predicate HeaderFits(h: Header) {
    h.version <= 0xFFFF && h.width <= 0xFFFF && h.height <= 0xFFFF && (h.poshRec.Some? ==> h.poshRec.value.v <= 0xFFFF)
  }

  lemma {:induction false} DecimalText(n: nat)
    ensures Decimal(n) != "" && forall i | 0 <= i < |Decimal(n)| :: '0' <= Decimal(n)[i] <= '9'
  {
    if n >= 10 { DecimalText(n / 10); }
  }

  lemma {:induction false} DecimalStands(n: Numbers, k: nat)
    requires DecimalsRead(n) && k <= 0xFFFF
    ensures Stands(n.good, Decimal(k), Num(EncodeAll(Decimal(k)))) && n.u16(EncodeAll(Decimal(k))) == Some(k)
  {
    hide Stands, Decimal, EncodeAll;
    DecimalText(k);
    NumberStands(n.good, Decimal(k));
  }

  function Numeric(key: string, k: nat): Field {
    Field(key, Decimal(k), Num(EncodeAll(Decimal(k))))
  }

  function PoshFields(p: PoshRec): (fs: seq<Field>)
    ensures |fs| == 2
  {
    [Numeric("v", p.v), Field("emu_rev", JsonString(p.emuRev), Str(p.emuRev))]
  }

  function HeaderFields(h: Header): (fs: seq<Field>)
    ensures fs != []
  {
    [Numeric("version", h.version), Numeric("width", h.width), Numeric("height", h.height)] +
    (match h.poshRec
     case Some(p) => [Field("posh_rec", "{" + Members(PoshFields(p)), Obj(Pairs(PoshFields(p))))]
     case None => [])
  }

  /** Keys of plain characters are written as they are. */
  lemma {:induction false} PlainKey(t: string)
    requires forall i | 0 <= i < |t| :: t[i] == '_' || 'a' <= t[i] <= 'z'
    ensures JsonString(t) == "\"" + t + "\""
    decreases |t|
  {
    PlainEscaped(t);
  }

  lemma {:induction false} PlainEscaped(t: string)
    requires forall i | 0 <= i < |t| :: t[i] == '_' || 'a' <= t[i] <= 'z'
    ensures Escaped(t) == t
    decreases |t|
  {
    if t != "" { PlainEscaped(t[1..]); }
  }

  lemma {:induction false} PoshText(p: PoshRec)
    ensures "{" + Members(PoshFields(p)) == "{\"v\":" + Decimal(p.v) + ",\"emu_rev\":" + JsonString(p.emuRev) + "}"
  {
    hide *;
    var fs := PoshFields(p);
    PoshKeys(p);
    assert fs == [fs[0], fs[1]];
    TwoMembers(fs[0], fs[1]);
    Bracketed("\"v\":" + Decimal(p.v), JsonString(p.emuRev));
  }

  lemma {:induction false} PoshKeys(p: PoshRec)
    ensures KeyText(PoshFields(p)[0]) == "\"v\":" + Decimal(p.v)
    ensures KeyText(PoshFields(p)[1]) == "\"emu_rev\":" + JsonString(p.emuRev)
  {
    PlainKey("v");
    PlainKey("emu_rev");
    Quoted();
    hide Decimal, JsonString;
  }

  lemma {:induction false} Quoted()
    ensures "\"" + "v" + "\"" + ":" == "\"v\":" && "\"" + "emu_rev" + "\"" + ":" == "\"emu_rev\":"
  {
  }

  lemma {:induction false} TwoMembers(f: Field, g: Field)
    ensures Members([f, g]) == KeyText(f) + "," + (KeyText(g) + "}")
  {
    assert [f, g][1..] == [g];
  }

  lemma {:induction false} Bracketed(a: string, b: string)
    ensures "{" + (a + "," + ("\"emu_rev\":" + b + "}")) == "{" + a + ",\"emu_rev\":" + b + "}"
  {
  }

  lemma {:induction false} HeaderText(h: Header)
    ensures HeaderLine(h) == "{" + Members(HeaderFields(h))
  {
    hide Decimal, JsonString, Members, KeyText;
    var fs := HeaderFields(h);
    var d1, d2, d3 := Decimal(h.version), Decimal(h.width), Decimal(h.height);
    NumericText(h.version, h.width, h.height);
    MembersOf(fs);
    Joined("\"version\":", d1, "\"width\":", d2, "\"height\":", d3, if h.poshRec.Some? then KeyText(fs[3]) else "");
    Openings();
    if h.poshRec.Some? {
      var p := h.poshRec.value;
      PoshText(p);
      PlainKey("posh_rec");
      PoshKey(p, fs[3]);
      PoshJoined("{\"version\":" + d1 + ",\"width\":" + d2 + ",\"height\":" + d3, Decimal(p.v), JsonString(p.emuRev));
    }
  }

  lemma {:induction false} NumericText(a: nat, b: nat, c: nat)
    ensures KeyText(Numeric("version", a)) == "\"version\":" + Decimal(a)
    ensures KeyText(Numeric("width", b)) == "\"width\":" + Decimal(b)
    ensures KeyText(Numeric("height", c)) == "\"height\":" + Decimal(c)
  {
    hide Decimal, JsonString;
    PlainKey("version");
    PlainKey("width");
    PlainKey("height");
    assert "\"" + "version" + "\"" + ":" == "\"version\":";
    assert "\"" + "width" + "\"" + ":" == "\"width\":";
    assert "\"" + "height" + "\"" + ":" == "\"height\":";
  }

  lemma {:induction false} PoshKey(p: PoshRec, f: Field)
    requires f.key == "posh_rec" && f.text == "{" + Members(PoshFields(p))
             && JsonString("posh_rec") == "\"" + "posh_rec" + "\""
    ensures KeyText(f) == "\"posh_rec\":" + ("{" + Members(PoshFields(p)))
  {
    hide JsonString, Members;
    assert "\"" + "posh_rec" + "\"" + ":" == "\"posh_rec\":";
  }

  lemma {:induction false} Openings()
    ensures "{\"version\":" == "{" + "\"version\":" && ",\"width\":" == "," + "\"width\":"
            && ",\"height\":" == "," + "\"height\":"
  {
  }

  lemma {:induction false} Joined(k1: string, d1: string, k2: string, d2: string, k3: string, d3: string, p: string)
    ensures "{" + (k1 + d1 + "," + (k2 + d2 + "," + (k3 + d3 + "}"))) ==
      ("{" + k1) + d1 + ("," + k2) + d2 + ("," + k3) + d3 + "" + "}"
    ensures "{" + (k1 + d1 + "," + (k2 + d2 + "," + (k3 + d3 + "," + (p + "}")))) ==
      ("{" + k1) + d1 + ("," + k2) + d2 + ("," + k3) + d3 + ("," + p) + "}"
  {
  }

  lemma {:induction false} PoshJoined(start: string, d: string, j: string)
    ensures start + (",\"posh_rec\":{\"v\":" + d + ",\"emu_rev\":" + j + "}") + "}" ==
      start + ("," + ("\"posh_rec\":" + ("{\"v\":" + d + ",\"emu_rev\":" + j + "}"))) + "}"
  {
    assert ",\"posh_rec\":{\"v\":" == "," + ("\"posh_rec\":" + "{\"v\":");
    assert ",\"posh_rec\":{\"v\":" + d + ",\"emu_rev\":" + j + "}" ==
      "," + ("\"posh_rec\":" + ("{\"v\":" + d + ",\"emu_rev\":" + j + "}"));
  }

  lemma {:induction false} MembersOf(fs: seq<Field>)
    requires 3 <= |fs| <= 4
    ensures |fs| == 3 ==> Members(fs) == KeyText(fs[0]) + "," + (KeyText(fs[1]) + "," + (KeyText(fs[2]) + "}"))
    ensures |fs| == 4 ==>
      Members(fs) == KeyText(fs[0]) + "," + (KeyText(fs[1]) + "," + (KeyText(fs[2]) + "," + (KeyText(fs[3]) + "}")))
  {
    hide KeyText;
    var f1, f2 := fs[1..], fs[1..][1..];
    assert f1[0] == fs[1] && f2[0] == fs[2];
    assert Members(f1) == KeyText(fs[1]) + "," + Members(f2);
    if |fs| == 4 {
      assert f2[1..] == [fs[3]];
      assert Members([fs[3]]) == KeyText(fs[3]) + "}";
    }
  }

  lemma {:induction false} FieldsStand(n: Numbers, h: Header)
    requires DecimalsRead(n) && HeaderFits(h)
    ensures AllStand(n.good, HeaderFields(h))
  {
    hide Stands, Decimal, EncodeAll, JsonString, Members, Pairs;
    DecimalStands(n, h.version);
    DecimalStands(n, h.width);
    DecimalStands(n, h.height);
    if h.poshRec.Some? {
      var p := h.poshRec.value;
      DecimalStands(n, p.v);
      StringStands(n.good, p.emuRev);
      ObjectStands(n.good, PoshFields(p));
    }
  }

  lemma {:induction false} FieldAt(fields: seq<(string, Value)>, i: nat, key: string)
    requires i <= |fields| && (forall j | 0 <= j < i :: fields[j].0 != key) && (i < |fields| ==> fields[i].0 == key)
    ensures FieldOf(fields, key) == if i < |fields| then Some(fields[i].1) else None
    decreases i
  {
    if i > 0 { FieldAt(fields[1..], i - 1, key); }
  }

  lemma {:induction false} PoshBack(n: Numbers, p: PoshRec)
    requires DecimalsRead(n) && p.v <= 0xFFFF
    ensures PoshRecOf(n, Obj(Pairs(PoshFields(p)))) == Some(p)
  {
    hide Decimal, JsonString;
    DecimalStands(n, p.v);
    var fs := Pairs(PoshFields(p));
    assert "v"[0] == 'v' && "emu_rev"[0] == 'e';
    FieldAt(fs, 0, "v");
    FieldAt(fs, 1, "emu_rev");
  }

  lemma {:induction false} Keys()
    ensures "version" != "width" && "version" != "height" && "version" != "posh_rec"
    ensures "width" != "height" && "width" != "posh_rec" && "height" != "posh_rec"
  {
    assert "version"[0] == 'v' && "width"[0] == 'w' && "height"[0] == 'h' && "posh_rec"[0] == 'p';
  }

  /** A version-2 header reads back as itself; any other version is refused by the reader. */
  lemma {:induction false} HeaderBack(n: Numbers, h: Header)
    requires DecimalsRead(n) && HeaderFits(h)
    ensures ReadHeader(n, HeaderLine(h)) == HeaderIs(h) <==> h.version == 2
    ensures h.version != 2 ==> ReadHeader(n, HeaderLine(h)) == BadHeader(UnsupportedVersion(h.version))
  {
    hide ParseValue, EncodeAll, Members, HeaderLine, AllStand, PoshRecOf, Decimal, JsonString, Stands;
    var fs := HeaderFields(h);
    var s := EncodeAll("{" + Members(fs));
    HeaderText(h);
    FieldsStand(n, h);
    Everything("{" + Members(fs));
    ObjectReads(n.good, s, 0, fs);
    NoSpace(s, 0);
    HeaderValue(n, h);
    assert Parse(n.good, s) == Json.Ok(Obj(Pairs(fs)));
  }

  lemma {:induction false} HeaderValue(n: Numbers, h: Header)
    requires DecimalsRead(n) && HeaderFits(h)
    ensures HeaderOf(n, Obj(Pairs(HeaderFields(h)))) ==
      if h.version == 2 then HeaderIs(h) else BadHeader(UnsupportedVersion(h.version))
  {
    hide EncodeAll, Members, PoshRecOf, Decimal, JsonString, Stands, PoshFields;
    DecimalStands(n, h.version);
    DecimalStands(n, h.width);
    DecimalStands(n, h.height);
    Keys();
    var fs := Pairs(HeaderFields(h));
    FieldAt(fs, 0, "version");
    FieldAt(fs, 1, "width");
    FieldAt(fs, 2, "height");
    if h.poshRec.Some? {
      PoshBack(n, h.poshRec.value);
      FieldAt(fs, 3, "posh_rec");
    } else {
      FieldAt(fs, 3, "posh_rec");
    }
  }

  // ---- whole files ----------------------------------------------------------

  /** The code its letter stands for. */
  function Canonical(e: Event): Event {
    e.(code := FromLetter([Letter(e.code)]))
  }

  function AllCanonical(es: seq<Event>): (r: seq<Event>)
    ensures |r| == |es| && forall i | 0 <= i < |es| :: r[i] == Canonical(es[i])
  {
    seq(|es|, i requires 0 <= i < |es| => Canonical(es[i]))
  }

  lemma {:induction false} LinesSplit(a: string, b: string)
    requires '\n' !in a
    ensures Lines(a + "\n" + b) == [a] + Lines(b)
    decreases |a|
  {
    if a == "" {
      assert "" + "\n" + b == "\n" + b && ("\n" + b)[1..] == b;
    } else {
      LinesSplit(a[1..], b);
      assert (a + "\n" + b)[1..] == a[1..] + "\n" + b;
      assert a == [a[0]] + a[1..];
    }
  }

  function EventLines(es: seq<Event>): (r: seq<string>)
    ensures |r| == |es| && forall i | 0 <= i < |es| :: r[i] == EventLine(es[i])
  {
    seq(|es|, i requires 0 <= i < |es| => EventLine(es[i]))
  }

  lemma {:induction false} RecordingLines(n: Numbers, es: seq<Event>, rest: string)
    requires forall e | e in es :: TimeText(n.good, e.time)
    ensures Lines(Recording(es) + rest) == EventLines(es) + Lines(rest)
    decreases |es|
  {
    hide EventLine, TimeText, Lines;
    if es == [] {
      assert "" + rest == rest;
    } else {
      var k := |es| - 1;
      var line := EventLine(es[k]);
      TimeHasNoNewline(n, es[k]);
      OneLine(es[k]);
      RecordingLines(n, es[..k], line + "\n" + rest);
      assert Recording(es) + rest == Recording(es[..k]) + (line + "\n" + rest);
      LinesSplit(line, rest);
      assert EventLines(es[..k]) + [line] == EventLines(es);
      assert EventLines(es[..k]) + ([line] + Lines(rest)) == EventLines(es[..k]) + [line] + Lines(rest);
    }
  }

  lemma {:induction false} TimeHasNoNewline(n: Numbers, e: Event)
    requires TimeText(n.good, e.time)
    ensures '\n' !in e.time
  {
    forall i | 0 <= i < |e.time|
      ensures e.time[i] != '\n'
    {
      assert InNumber(e.time[i] as int);
    }
  }

  lemma {:induction false} LineShown(e: Event)
    ensures Chomp(EventLine(e)) == EventLine(e) && !BlankLine(EventLine(e))
  {
    hide JsonString;
    var l := EventLine(e);
    assert l[0] == '[' && l[|l| - 1] == ']';
    assert !White(l[0]);
  }

  lemma {:induction false} LineRead(n: Numbers, e: Event)
    requires TimeText(n.good, e.time)
    ensures ReadEvent(n, EventLine(e)) == Good(Canonical(e))
  {
    LineParses(n.good, e);
    LossyEncodeAll(e.time);
    hide Parse, EventLine, TimeText, EncodeAll, Lossy;
  }

  lemma {:induction false} EventsRead(n: Numbers, lines: seq<string>, i: nat, es: seq<Event>, done: seq<Event>)
    requires i + |es| <= |lines| && lines[i..i + |es|] == EventLines(es)
    requires forall k | i + |es| <= k < |lines| :: lines[k] == ""
    requires forall e | e in es :: TimeText(n.good, e.time)
    ensures Script0(n, lines, i, done) == Script(done + AllCanonical(es))
    decreases |es|
  {
    hide EventLine, TimeText, ReadEvent, Chomp, Canonical;
    if es == [] {
      EmptyTail(lines, i);
      assert done + AllCanonical(es) == done;
    } else {
      var e := es[0];
      LineShown(e);
      LineRead(n, e);
      assert lines[i] == lines[i..i + |es|][0] == EventLine(e);
      assert NextLine(lines, i) == Found(EventLine(e), i);
      assert lines[i + 1..i + 1 + |es[1..]|] == lines[i..i + |es|][1..] == EventLines(es[1..]);
      EventsRead(n, lines, i + 1, es[1..], done + [Canonical(e)]);
      assert done + [Canonical(e)] + AllCanonical(es[1..]) == done + AllCanonical(es);
    }
  }

  lemma {:induction false} EmptyTail(lines: seq<string>, i: nat)
    requires i <= |lines| && forall k | i <= k < |lines| :: lines[k] == ""
    ensures NextLine(lines, i).Missing?
    decreases |lines| - i
  {
    if i < |lines| {
      EmptyTail(lines, i + 1);
      assert Chomp("") == "";
    }
  }

  lemma {:induction false} HeaderShown(h: Header)
    ensures Chomp(HeaderLine(h)) == HeaderLine(h) && !BlankLine(HeaderLine(h)) && '\n' !in HeaderLine(h)
  {
    hide Decimal, Escaped;
    var l := HeaderLine(h);
    assert l[0] == '{' && l[|l| - 1] == '}';
    assert !White(l[0]);
    DecimalText(h.version);
    DecimalText(h.width);
    DecimalText(h.height);
    if h.poshRec.Some? {
      DecimalText(h.poshRec.value.v);
      EscapedNoNewline(h.poshRec.value.emuRev);
    }
  }

  /** A whole file: whatever header and events the recorder wrote are read back, each event with the
      code of its letter, so the very same list exactly when no `Unknown` has a known letter. */
  lemma {:induction false} FileBack(n: Numbers, h: Header, es: seq<Event>)
    requires DecimalsRead(n) && HeaderFits(h) && forall e | e in es :: TimeText(n.good, e.time)
    ensures var lines := Lines(HeaderLine(h) + "\n" + Recording(es));
      && NextLine(lines, 0) == Found(HeaderLine(h), 0)
      && (ReadHeader(n, HeaderLine(h)) == HeaderIs(h) <==> h.version == 2)
      && Script0(n, lines, 1, []) == Script(AllCanonical(es))
      && (AllCanonical(es) == es <==> forall e | e in es :: !(e.code.Unknown? && e.code.c in {'o', 'i', 'r', 'm'}))
  {
    hide HeaderLine, EventLine, TimeText, ReadHeader, ReadEvent, Chomp, DecimalsRead;
    HeaderShown(h);
    HeaderBack(n, h);
    LinesSplit(HeaderLine(h), Recording(es));
    RecordingLines(n, es, "");
    assert Recording(es) + "" == Recording(es);
    var lines := Lines(HeaderLine(h) + "\n" + Recording(es));
    assert Lines("") == [""];
    assert lines == [HeaderLine(h)] + (EventLines(es) + [""]);
    assert lines[1..1 + |es|] == EventLines(es);
    EventsRead(n, lines, 1, es, []);
    assert [] + AllCanonical(es) == AllCanonical(es);
    SameCodes(es);
  }

  lemma {:induction false} SameCodes(es: seq<Event>)
    ensures AllCanonical(es) == es <==> forall e | e in es :: !(e.code.Unknown? && e.code.c in {'o', 'i', 'r', 'm'})
  {
    forall i | 0 <= i < |es|
      ensures Canonical(es[i]) == es[i] <==> !(es[i].code.Unknown? && es[i].code.c in {'o', 'i', 'r', 'm'})
    {
    }
  }
}
