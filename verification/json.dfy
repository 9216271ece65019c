// crates/posh-rec/src/json.rs: the JSON reader of recordings. The functions say what is read from
// which position; class `JsonParser` advances its position.
module Json {
  import opened Utf8

  datatype JsonError =
    | UnexpectedByte | UnexpectedEnd | TrailingData | ExpectedKey | ExpectedColon | ExpectedComma
    | UnterminatedString | BadEscape | BadUtf8 | BadHex | BadNumber | BadLiteral

  datatype Res<+T> = Ok(value: T) | Err(error: JsonError)

  /** Numbers keep their text: what `f64` makes of it is outside the model. */
  datatype Value =
    | Null | Bool(b: bool) | Num(text: seq<byte>) | Str(s: string) | Arr(items: seq<Value>)
      | Obj(fields: seq<(string, Value)>)

  // ---- bytes ----------------------------------------------------------------

  const QUOTE: byte := 0x22
  const BACKSLASH: byte := 0x5C

  predicate IsSpace(b: byte) {
    b == 0x20 || b == 0x09 || b == 0x0A || b == 0x0D
  }

  predicate IsDigit(b: byte) {
    0x30 <= b <= 0x39
  }

  predicate InNumber(b: byte) {
    IsDigit(b) || b == 0x2E || b == 0x65 || b == 0x45 || b == 0x2B || b == 0x2D
  }

  function SkipSpace(s: seq<byte>, pos: nat): (p: nat)
    requires pos <= |s|
    ensures pos <= p <= |s| && (p < |s| ==> !IsSpace(s[p]))
    decreases |s| - pos
  {
    if pos < |s| && IsSpace(s[pos]) then SkipSpace(s, pos + 1) else pos
  }

  // ---- strings --------------------------------------------------------------

  function HexDigit(b: byte): Res<nat> {
    if IsDigit(b) then Ok(b - 0x30)
    else if 0x61 <= b <= 0x66 then Ok(b - 0x61 + 10)
    else if 0x41 <= b <= 0x46 then Ok(b - 0x41 + 10)
    else Err(BadHex)
  }

  /** `n` more hex digits after value `v`. */
  function Hex(s: seq<byte>, pos: nat, n: nat, v: nat): (r: Res<nat>)
    requires pos <= |s|
    ensures r.Ok? ==> pos + n <= |s|
    decreases n
  {
    if n == 0 then Ok(v)
    else if pos == |s| then Err(BadHex)
    else
      var d := HexDigit(s[pos]);
      if d.Err? then Err(d.error) else Hex(s, pos + 1, n - 1, v * 16 + d.value)
  }

  function CodePoint(v: nat): char {
    if v < 0xD800 || 0xE000 <= v < 0x11_0000 then v as char else REPLACEMENT
  }

  /** After backslash and u: one code unit, or a surrogate pair; broken surrogates are replaced. */
  function UnicodeEscape(s: seq<byte>, pos: nat): (r: Res<(char, nat)>)
    requires pos <= |s|
    ensures r.Ok? ==> pos < r.value.1 <= |s|
  {
    var hi := Hex(s, pos, 4, 0);
    if hi.Err? then Err(hi.error)
    else
      var at := pos + 4;
      if 0xD800 <= hi.value < 0xDC00 then
        if at + 2 <= |s| && s[at] == BACKSLASH && s[at + 1] == 0x75 then
          var lo := Hex(s, at + 2, 4, 0);
          if lo.Err? then Err(lo.error)
          else if 0xDC00 <= lo.value < 0xE000 then
            Ok((CodePoint(0x1_0000 + (hi.value - 0xD800) * 1024 + (lo.value - 0xDC00)), at + 6))
          else Ok((REPLACEMENT, at + 6))
        else Ok((REPLACEMENT, at))
      else Ok((CodePoint(hi.value), at))
  }

  /** The byte a simple escape stands for. */
  function SimpleEscape(e: byte): Res<byte> {
    if e == QUOTE || e == BACKSLASH || e == 0x2F then Ok(e)
    else if e == 0x62 then Ok(0x08)
    else if e == 0x66 then Ok(0x0C)
    else if e == 0x6E then Ok(0x0A)
    else if e == 0x72 then Ok(0x0D)
    else if e == 0x74 then Ok(0x09)
    else Err(BadEscape)
  }

  /** The rest of a string after the bytes `out`: all its bytes, and the position after the quote. */
  function StringFrom(s: seq<byte>, pos: nat, out: seq<byte>): (r: Res<(seq<byte>, nat)>)
    requires pos <= |s|
    ensures r.Ok? ==> pos < r.value.1 <= |s|
    decreases |s| - pos
  {
    if pos == |s| then Err(UnterminatedString)
    else if s[pos] == QUOTE then Ok((out, pos + 1))
    else if s[pos] != BACKSLASH then StringFrom(s, pos + 1, out + [s[pos]])
    else if pos + 1 == |s| then Err(BadEscape)
    else if s[pos + 1] == 0x75 then
      var u := UnicodeEscape(s, pos + 2);
      if u.Err? then Err(u.error) else StringFrom(s, u.value.1, out + Encode(u.value.0))
    else
      var e := SimpleEscape(s[pos + 1]);
      if e.Err? then Err(e.error) else StringFrom(s, pos + 2, out + [e.value])
  }

  /** `parse_string`, standing on the opening quote. */
  function ParseString(s: seq<byte>, pos: nat): (r: Res<(string, nat)>)
    requires pos < |s|
    ensures r.Ok? ==> pos < r.value.1 <= |s|
  {
    var b := StringFrom(s, pos + 1, []);
    if b.Err? then Err(b.error)
    else if !WellFormed(b.value.0) then Err(BadUtf8)
    else Ok((Lossy(b.value.0), b.value.1))
  }

  // ---- values ---------------------------------------------------------------

  function NumberEnd(s: seq<byte>, pos: nat): (p: nat)
    requires pos <= |s|
    ensures pos <= p <= |s| && (forall i | pos <= i < p :: InNumber(s[i])) && (p < |s| ==> !InNumber(s[p]))
    decreases |s| - pos
  {
    if pos < |s| && InNumber(s[pos]) then NumberEnd(s, pos + 1) else pos
  }

  /** `good` tells the texts that `f64` accepts. */
  function ParseNumber(good: seq<byte> -> bool, s: seq<byte>, pos: nat): (r: Res<(Value, nat)>)
    requires pos < |s|
    ensures r.Ok? ==> pos <= r.value.1 <= |s|
  {
    var at := if s[pos] == 0x2D then pos + 1 else pos;
    var end := NumberEnd(s, at);
    if good(s[pos..end]) then Ok((Num(s[pos..end]), end)) else Err(BadNumber)
  }

  predicate StartsWith(s: seq<byte>, pos: nat, word: seq<byte>) {
    pos + |word| <= |s| && s[pos..pos + |word|] == word
  }

  const TRUE: seq<byte> := [0x74, 0x72, 0x75, 0x65]
  const FALSE: seq<byte> := [0x66, 0x61, 0x6C, 0x73, 0x65]
  const NULL: seq<byte> := [0x6E, 0x75, 0x6C, 0x6C]

  function ParseValue(good: seq<byte> -> bool, s: seq<byte>, pos: nat): (r: Res<(Value, nat)>)
    requires pos <= |s|
    ensures r.Ok? ==> pos <= r.value.1 <= |s|
    decreases |s| - pos, 1
  {
    if pos == |s| then Err(UnexpectedEnd)
    else if s[pos] == 0x7B then
      var p := SkipSpace(s, pos + 1);
      if p < |s| && s[p] == 0x7D then Ok((Obj([]), p + 1)) else ParseFields(good, s, pos + 1, [])
    else if s[pos] == 0x5B then
      var p := SkipSpace(s, pos + 1);
      if p < |s| && s[p] == 0x5D then Ok((Arr([]), p + 1)) else ParseItems(good, s, pos + 1, [])
    else if s[pos] == QUOTE then
      var t := ParseString(s, pos);
      if t.Err? then Err(t.error) else Ok((Str(t.value.0), t.value.1))
    else if s[pos] == 0x74 || s[pos] == 0x66 then
      if StartsWith(s, pos, TRUE) then Ok((Bool(true), pos + 4))
      else if StartsWith(s, pos, FALSE) then Ok((Bool(false), pos + 5))
      else Err(BadLiteral)
    else if s[pos] == 0x6E then
      if StartsWith(s, pos, NULL) then Ok((Null, pos + 4)) else Err(BadLiteral)
    else if s[pos] == 0x2D || IsDigit(s[pos]) then ParseNumber(good, s, pos)
    else Err(UnexpectedByte)
  }

  /** The items of an array from `pos` on, after those in `items`. */
  function ParseItems(good: seq<byte> -> bool, s: seq<byte>, pos: nat, items: seq<Value>): (r: Res<(Value, nat)>)
    requires pos <= |s|
    ensures r.Ok? ==> pos <= r.value.1 <= |s|
    decreases |s| - pos, 2
  {
    var v := ParseValue(good, s, SkipSpace(s, pos));
    if v.Err? then Err(v.error)
    else
      var p := SkipSpace(s, v.value.1);
      if p == |s| then Err(ExpectedComma)
      else if s[p] == 0x2C then ParseItems(good, s, p + 1, items + [v.value.0])
      else if s[p] == 0x5D then Ok((Arr(items + [v.value.0]), p + 1))
      else Err(ExpectedComma)
  }

  datatype Member = Member(key: string, value: Value, at: nat)

  /** A key, a colon and a value, with any space around them. */
  function ParseField(good: seq<byte> -> bool, s: seq<byte>, pos: nat): (r: Res<Member>)
    requires pos <= |s|
    ensures r.Ok? ==> pos < r.value.at <= |s|
    decreases |s| - pos, 2
  {
    var k := SkipSpace(s, pos);
    if k == |s| || s[k] != QUOTE then Err(ExpectedKey)
    else
      var key := ParseString(s, k);
      if key.Err? then Err(key.error)
      else
        var c := SkipSpace(s, key.value.1);
        if c == |s| || s[c] != 0x3A then Err(ExpectedColon)
        else
          var v := ParseValue(good, s, SkipSpace(s, c + 1));
          if v.Err? then Err(v.error) else Ok(Member(key.value.0, v.value.0, v.value.1))
  }

  function ParseFields(good: seq<byte> -> bool, s: seq<byte>, pos: nat,
      fields: seq<(string, Value)>): (r: Res<(Value, nat)>)
    requires pos <= |s|
    ensures r.Ok? ==> pos <= r.value.1 <= |s|
    decreases |s| - pos, 3
  {
    var m := ParseField(good, s, pos);
    if m.Err? then Err(m.error)
    else
      var p := SkipSpace(s, m.value.at);
      var grown := fields + [(m.value.key, m.value.value)];
      if p == |s| then Err(ExpectedComma)
      else if s[p] == 0x2C then ParseFields(good, s, p + 1, grown)
      else if s[p] == 0x7D then Ok((Obj(grown), p + 1))
      else Err(ExpectedComma)
  }

  /** A complete value with nothing but space around it. */
  function Parse(good: seq<byte> -> bool, s: seq<byte>): Res<Value> {
    var v := ParseValue(good, s, SkipSpace(s, 0));
    if v.Err? then Err(v.error)
    else if SkipSpace(s, v.value.1) != |s| then Err(TrailingData)
    else Ok(v.value.0)
  }

  // ---- the class ------------------------------------------------------------

  class JsonParser {
    const bytes: seq<byte>
    const good: seq<byte> -> bool
    var pos: nat

    constructor (bytes: seq<byte>, good: seq<byte> -> bool)
      ensures this.bytes == bytes && this.good == good && pos == 0
    {
      this.bytes, this.good, pos := bytes, good, 0;
    }

    ghost predicate Valid()
      reads this
    {
      pos <= |bytes|
    }

    method SkipSpaces()
      requires Valid()
      modifies this
      ensures Valid() && pos == SkipSpace(bytes, old(pos))
    {
      while pos < |bytes| && IsSpace(bytes[pos])
        invariant Valid() && SkipSpace(bytes, pos) == SkipSpace(bytes, old(pos))
      {
        pos := pos + 1;
      }
    }

    method ReadHex() returns (r: Res<nat>)
      requires Valid()
      modifies this
      ensures Valid() && r == Hex(bytes, old(pos), 4, 0)
      ensures r.Ok? ==> pos == old(pos) + 4
    {
      var v := 0;
      for i := 0 to 4
        invariant Valid() && pos == old(pos) + i && Hex(bytes, pos, 4 - i, v) == Hex(bytes, old(pos), 4, 0)
      {
        if pos == |bytes| { return Err(BadHex); }
        var d := HexDigit(bytes[pos]);
        pos := pos + 1;
        if d.Err? { return Err(d.error); }
        v := v * 16 + d.value;
      }
      return Ok(v);
    }

    method ReadUnicodeEscape() returns (r: Res<char>)
      requires Valid()
      modifies this
      ensures var u := UnicodeEscape(bytes, old(pos));
              Valid() && if u.Ok? then r == Ok(u.value.0) && pos == u.value.1 else r == Err(u.error)
    {
      hide Hex;
      var hi := ReadHex();
      if hi.Err? { return Err(hi.error); }
      if 0xD800 <= hi.value < 0xDC00 {
        if pos + 2 <= |bytes| && bytes[pos] == BACKSLASH && bytes[pos + 1] == 0x75 {
          pos := pos + 2;
          var lo := ReadHex();
          if lo.Err? { return Err(lo.error); }
          if 0xDC00 <= lo.value < 0xE000 {
            return Ok(CodePoint(0x1_0000 + (hi.value - 0xD800) * 1024 + (lo.value - 0xDC00)));
          }
        }
        return Ok(REPLACEMENT);
      }
      return Ok(CodePoint(hi.value));
    }

    method ReadString() returns (r: Res<string>)
      requires Valid() && pos < |bytes|
      modifies this
      ensures var t := ParseString(bytes, old(pos));
              Valid() && if t.Ok? then r == Ok(t.value.0) && pos == t.value.1 else r == Err(t.error)
    {
      hide UnicodeEscape, SimpleEscape, WellFormed, Lossy;
      pos := pos + 1;
      var out: seq<byte> := [];
      while true
        invariant Valid() && StringFrom(bytes, pos, out) == StringFrom(bytes, old(pos) + 1, [])
        decreases |bytes| - pos
      {
        if pos == |bytes| { return Err(UnterminatedString); }
        var b := bytes[pos];
        pos := pos + 1;
        if b == QUOTE {
          break;
        } else if b != BACKSLASH {
          out := out + [b];
        } else {
          if pos == |bytes| { return Err(BadEscape); }
          var e := bytes[pos];
          pos := pos + 1;
          if e == 0x75 {
            var u := ReadUnicodeEscape();
            if u.Err? { return Err(u.error); }
            out := out + Encode(u.value);
          } else {
            var x := SimpleEscape(e);
            if x.Err? { return Err(x.error); }
            out := out + [x.value];
          }
        }
      }
      if !WellFormed(out) { return Err(BadUtf8); }
      return Ok(Lossy(out));
    }

    method ReadNumber() returns (r: Res<Value>)
      requires Valid() && pos < |bytes|
      modifies this
      ensures var n := ParseNumber(good, bytes, old(pos));
              Valid() && if n.Ok? then r == Ok(n.value.0) && pos == n.value.1 else r == Err(n.error)
    {
      var start := pos;
      if bytes[pos] == 0x2D { pos := pos + 1; }
      ghost var at := pos;
      while pos < |bytes| && InNumber(bytes[pos])
        invariant Valid() && at <= pos && NumberEnd(bytes, pos) == NumberEnd(bytes, at)
      {
        pos := pos + 1;
      }
      if good(bytes[start..pos]) { return Ok(Num(bytes[start..pos])); }
      return Err(BadNumber);
    }

    method ReadValue() returns (r: Res<Value>)
      requires Valid()
      modifies this
      ensures var v := ParseValue(good, bytes, old(pos));
              Valid() && if v.Ok? then r == Ok(v.value.0) && pos == v.value.1 else r == Err(v.error)
      decreases |bytes| - pos, 1
    {
      hide ParseString, ParseNumber, SkipSpace;
      if pos == |bytes| { return Err(UnexpectedEnd); }
      var b := bytes[pos];
      if b == 0x7B {
        r := ReadObject();
      } else if b == 0x5B {
        r := ReadArray();
      } else if b == QUOTE {
        var s := ReadString();
        if s.Err? { return Err(s.error); }
        return Ok(Str(s.value));
      } else if b == 0x74 || b == 0x66 {
        if StartsWith(bytes, pos, TRUE) { pos := pos + 4; return Ok(Bool(true)); }
        if StartsWith(bytes, pos, FALSE) { pos := pos + 5; return Ok(Bool(false)); }
        return Err(BadLiteral);
      } else if b == 0x6E {
        if StartsWith(bytes, pos, NULL) { pos := pos + 4; return Ok(Null); }
        return Err(BadLiteral);
      } else if b == 0x2D || IsDigit(b) {
        r := ReadNumber();
      } else {
        return Err(UnexpectedByte);
      }
    }

    method ReadArray() returns (r: Res<Value>)
      requires Valid() && pos < |bytes| && bytes[pos] == 0x5B
      modifies this
      ensures var v := ParseValue(good, bytes, old(pos));
              Valid() && if v.Ok? then r == Ok(v.value.0) && pos == v.value.1 else r == Err(v.error)
      decreases |bytes| - pos, 0
    {
      hide ParseString, ParseNumber, SkipSpace;
      var out: seq<Value> := [];
      ghost var start := pos + 1;
      pos := pos + 1;
      SkipSpaces();
      if pos < |bytes| && bytes[pos] == 0x5D {
        pos := pos + 1;
        return Ok(Arr(out));
      }
      SkipTwice(bytes, start);
      ghost var at := start;
      while true
        invariant Valid() && start <= at <= pos && SkipSpace(bytes, pos) == SkipSpace(bytes, at)
        invariant ParseItems(good, bytes, at, out) == ParseItems(good, bytes, start, [])
        decreases |bytes| - at
      {
        SkipSpaces();
        var v := ReadValue();
        if v.Err? { return Err(v.error); }
        out := out + [v.value];
        SkipSpaces();
        if pos == |bytes| { return Err(ExpectedComma); }
        var b := bytes[pos];
        pos := pos + 1;
        if b == 0x5D { return Ok(Arr(out)); }
        if b != 0x2C { return Err(ExpectedComma); }
        at := pos;
      }
    }

    /** The space before the key may have been skipped already. */
    method ReadField(ghost at: nat) returns (r: Res<Member>)
      requires Valid() && at <= pos && SkipSpace(bytes, pos) == SkipSpace(bytes, at)
      modifies this
      ensures Valid() && r == ParseField(good, bytes, at)
      ensures r.Ok? ==> pos == r.value.at
      decreases |bytes| - pos, 2
    {
      hide ParseString, SkipSpace;
      SkipSpaces();
      if pos == |bytes| || bytes[pos] != QUOTE { return Err(ExpectedKey); }
      var key := ReadString();
      if key.Err? { return Err(key.error); }
      SkipSpaces();
      if pos == |bytes| || bytes[pos] != 0x3A { return Err(ExpectedColon); }
      pos := pos + 1;
      SkipSpaces();
      var v := ReadValue();
      if v.Err? { return Err(v.error); }
      return Ok(Member(key.value, v.value, pos));
    }

    method ReadObject() returns (r: Res<Value>)
      requires Valid() && pos < |bytes| && bytes[pos] == 0x7B
      modifies this
      ensures var v := ParseValue(good, bytes, old(pos));
              Valid() && if v.Ok? then r == Ok(v.value.0) && pos == v.value.1 else r == Err(v.error)
      decreases |bytes| - pos, 0
    {
      hide ParseField, SkipSpace;
      var out: seq<(string, Value)> := [];
      ghost var start := pos + 1;
      pos := pos + 1;
      SkipSpaces();
      if pos < |bytes| && bytes[pos] == 0x7D {
        pos := pos + 1;
        return Ok(Obj(out));
      }
      SkipTwice(bytes, start);
      ghost var at := start;
      while true
        invariant Valid() && start <= at <= pos && SkipSpace(bytes, pos) == SkipSpace(bytes, at)
        invariant ParseFields(good, bytes, at, out) == ParseFields(good, bytes, start, [])
        decreases |bytes| - at
      {
        var m := ReadField(at);
        if m.Err? { return Err(m.error); }
        out := out + [(m.value.key, m.value.value)];
        SkipSpaces();
        if pos == |bytes| { return Err(ExpectedComma); }
        var b := bytes[pos];
        pos := pos + 1;
        if b == 0x7D { return Ok(Obj(out)); }
        if b != 0x2C { return Err(ExpectedComma); }
        at := pos;
      }
    }
  }

  lemma {:induction false} SkipTwice(s: seq<byte>, pos: nat)
    requires pos <= |s|
    ensures SkipSpace(s, SkipSpace(s, pos)) == SkipSpace(s, pos)
    decreases |s| - pos
  {
    if pos < |s| && IsSpace(s[pos]) { SkipTwice(s, pos + 1); }
  }

  method ParseText(good: seq<byte> -> bool, s: seq<byte>) returns (r: Res<Value>)
    ensures r == Parse(good, s)
  {
    hide ParseValue;
    var p := new JsonParser(s, good);
    p.SkipSpaces();
    var v := p.ReadValue();
    if v.Err? { return Err(v.error); }
    p.SkipSpaces();
    if p.pos != |s| { return Err(TrailingData); }
    return v;
  }
}
