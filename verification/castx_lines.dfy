// Lines of a recording: no raw newline, and JSON that reads back as the same event; a whole
// recording reads back as the list of its events.
module CastxLines {
  import opened Utf8
  import opened Castx
  import opened Json

  // ---- strings --------------------------------------------------------------

  predicate PlainByte(b: byte) {
    b != QUOTE && b != BACKSLASH
  }

  /** Bytes without quotes and backslashes are taken over. */
  lemma {:induction false} PlainRun(s: seq<byte>, pos: nat, n: nat, out: seq<byte>)
    requires pos + n <= |s| && forall i | pos <= i < pos + n :: PlainByte(s[i])
    ensures StringFrom(s, pos, out) == StringFrom(s, pos + n, out + s[pos..pos + n])
    decreases n
  {
    if n == 0 {
      assert out + s[pos..pos] == out;
    } else {
      PlainRun(s, pos + 1, n - 1, out + [s[pos]]);
      assert out + [s[pos]] + s[pos + 1..pos + n] == out + s[pos..pos + n];
    }
  }

  lemma {:induction false} EncodePlain(c: char, i: nat)
    requires c != '"' && c != '\\' && i < |Encode(c)|
    ensures PlainByte(Encode(c)[i])
  {
  }

  /** Text `t` encoded stands at `pos`. */
  ghost predicate Has(s: seq<byte>, pos: nat, t: string) {
    pos + |EncodeAll(t)| <= |s| && s[pos..pos + |EncodeAll(t)|] == EncodeAll(t)
  }

  lemma {:induction false} HasSplit(s: seq<byte>, pos: nat, a: string, b: string)
    requires Has(s, pos, a + b)
    ensures Has(s, pos, a) && Has(s, pos + |EncodeAll(a)|, b)
    ensures |EncodeAll(a + b)| == |EncodeAll(a)| + |EncodeAll(b)|
  {
    EncodeAllAppend(a, b);
    var n, m := |EncodeAll(a)|, |EncodeAll(b)|;
    assert s[pos..pos + n] == s[pos..pos + n + m][..n];
    assert s[pos + n..pos + n + m] == s[pos..pos + n + m][n..];
  }

  lemma {:induction false} HasAscii(s: seq<byte>, pos: nat, c: char)
    requires Has(s, pos, [c]) && c as int < 0x80
    ensures pos < |s| && s[pos] == c as int && |EncodeAll([c])| == 1
  {
    assert EncodeAll([c]) == [c as int];
    assert s[pos..pos + 1][0] == s[pos];
  }

  /** One escaped character is read as the bytes of that character. */
  lemma {:induction false} ReadsEscape(s: seq<byte>, pos: nat, c: char, out: seq<byte>)
    requires Has(s, pos, Escape(c))
    ensures pos + |EncodeAll(Escape(c))| <= |s|
    ensures StringFrom(s, pos, out) == StringFrom(s, pos + |EncodeAll(Escape(c))|, out + Encode(c))
  {
    if Escape(c) == [c] {
      EncodeOne(c);
      var n := |Encode(c)|;
      forall i | pos <= i < pos + n
        ensures PlainByte(s[i])
      {
        assert s[i] == s[pos..pos + n][i - pos];
        EncodePlain(c, i - pos);
      }
      PlainRun(s, pos, n, out);
    } else if |Escape(c)| == 2 {
      ReadsSimple(s, pos, c, out);
    } else {
      ReadsControl(s, pos, c, out);
    }
  }

  lemma {:induction false} ReadsSimple(s: seq<byte>, pos: nat, c: char, out: seq<byte>)
    requires |Escape(c)| == 2 && Has(s, pos, Escape(c))
    ensures |EncodeAll(Escape(c))| == 2 && pos + 2 <= |s|
    ensures StringFrom(s, pos, out) == StringFrom(s, pos + 2, out + Encode(c))
  {
    var e := Escape(c)[1];
    assert Escape(c) == ['\\'] + [e] && e as int < 0x80;
    HasSplit(s, pos, ['\\'], [e]);
    HasAscii(s, pos, '\\');
    HasAscii(s, pos + 1, e);
    assert Encode(c) == [c as int];
    assert SimpleEscape(s[pos + 1]) == Json.Ok(c as int as byte);
  }

  lemma {:induction false} ReadsHex(s: seq<byte>, pos: nat, v: nat)
    requires v < 0x20 && Has(s, pos, "00" + [HexChar(v / 16), HexChar(v % 16)])
    ensures Hex(s, pos, 4, 0) == Json.Ok(v) && |EncodeAll("00" + [HexChar(v / 16), HexChar(v % 16)])| == 4
  {
    var a, b := HexChar(v / 16), HexChar(v % 16);
    assert "00" + [a, b] == ['0'] + (['0'] + ([a] + [b]));
    HasSplit(s, pos, ['0'], ['0'] + ([a] + [b]));
    HasAscii(s, pos, '0');
    HasSplit(s, pos + 1, ['0'], [a] + [b]);
    HasAscii(s, pos + 1, '0');
    HasSplit(s, pos + 2, [a], [b]);
    HasAscii(s, pos + 2, a);
    HasAscii(s, pos + 3, b);
    HexBack(v / 16);
    HexBack(v % 16);
    assert Hex(s, pos + 4, 0, v) == Json.Ok(v);
    assert Hex(s, pos + 3, 1, v / 16) == Json.Ok(v);
    assert Hex(s, pos + 2, 2, 0) == Json.Ok(v);
    assert Hex(s, pos + 1, 3, 0) == Json.Ok(v);
  }

  lemma {:induction false} HexBack(n: nat)
    requires n < 16
    ensures HexChar(n) as int < 0x80 && HexDigit(HexChar(n) as int) == Json.Ok(n)
  {
  }

  lemma {:induction false} ReadsControl(s: seq<byte>, pos: nat, c: char, out: seq<byte>)
    requires |Escape(c)| > 2 && Has(s, pos, Escape(c))
    ensures |EncodeAll(Escape(c))| == 6 && pos + 6 <= |s|
    ensures StringFrom(s, pos, out) == StringFrom(s, pos + 6, out + Encode(c))
  {
    var v := c as int;
    var hex := "00" + [HexChar(v / 16), HexChar(v % 16)];
    assert Escape(c) == ['\\'] + (['u'] + hex);
    HasSplit(s, pos, ['\\'], ['u'] + hex);
    HasAscii(s, pos, '\\');
    HasSplit(s, pos + 1, ['u'], hex);
    HasAscii(s, pos + 1, 'u');
    ReadsHex(s, pos + 2, v);
    assert CodePoint(v) == c;
    hide Hex, HexChar, Encode, EncodeAll, Has;
  }

  lemma {:induction false} ReadsEscaped(s: seq<byte>, pos: nat, t: string, out: seq<byte>)
    requires Has(s, pos, Escaped(t))
    ensures pos + |EncodeAll(Escaped(t))| <= |s|
    ensures StringFrom(s, pos, out) == StringFrom(s, pos + |EncodeAll(Escaped(t))|, out + EncodeAll(t))
    decreases |t|
  {
    hide Escape, StringFrom, Encode;
    if t == "" {
      assert out + [] == out;
    } else {
      HasSplit(s, pos, Escape(t[0]), Escaped(t[1..]));
      ReadsEscape(s, pos, t[0], out);
      ReadsEscaped(s, pos + |EncodeAll(Escape(t[0]))|, t[1..], out + Encode(t[0]));
      assert out + Encode(t[0]) + EncodeAll(t[1..]) == out + EncodeAll(t);
    }
  }

  /** The reader's unescaping is the exact inverse of the writer's escaping, for every string. */
  lemma {:induction false} StringBack(s: seq<byte>, pos: nat, t: string)
    requires Has(s, pos, JsonString(t))
    ensures pos < |s| && s[pos] == QUOTE
    ensures ParseString(s, pos) == Json.Ok((t, pos + |EncodeAll(JsonString(t))|))
  {
    hide Escaped, StringFrom, WellFormed, Lossy;
    assert JsonString(t) == ['"'] + (Escaped(t) + ['"']);
    HasSplit(s, pos, ['"'], Escaped(t) + ['"']);
    HasAscii(s, pos, '"');
    HasSplit(s, pos + 1, Escaped(t), ['"']);
    ReadsEscaped(s, pos + 1, t, []);
    HasAscii(s, pos + 1 + |EncodeAll(Escaped(t))|, '"');
    assert [] + EncodeAll(t) == EncodeAll(t);
    LossyEncodeAll(t);
    StringEnds(s, pos + 1 + |EncodeAll(Escaped(t))|, EncodeAll(t));
  }

  lemma {:induction false} StringEnds(s: seq<byte>, pos: nat, out: seq<byte>)
    requires pos < |s| && s[pos] == QUOTE
    ensures StringFrom(s, pos, out) == Json.Ok((out, pos + 1))
  {
  }

  // ---- numbers --------------------------------------------------------------

  /** Number text as the writer formats times: it starts like a number, uses its characters only, and
      `f64` accepts it. */
  ghost predicate TimeText(good: seq<byte> -> bool, t: string) {
    && t != "" && (t[0] == '-' || '0' <= t[0] <= '9')
    && (forall i | 0 <= i < |t| :: (t[i] as int) < 0x80 && InNumber(t[i] as int))
    && good(EncodeAll(t))
  }

  lemma {:induction false} AsciiBytes(t: string)
    requires forall i | 0 <= i < |t| :: (t[i] as int) < 0x80
    ensures |EncodeAll(t)| == |t| && forall i | 0 <= i < |t| :: EncodeAll(t)[i] == t[i] as int
    decreases |t|
  {
    if t != "" { AsciiBytes(t[1..]); }
  }

  lemma {:induction false} NumberEnds(s: seq<byte>, pos: nat, n: nat)
    requires pos + n < |s| && (forall i | pos <= i < pos + n :: InNumber(s[i])) && !InNumber(s[pos + n])
    ensures NumberEnd(s, pos) == pos + n
    decreases n
  {
    if n > 0 { NumberEnds(s, pos + 1, n - 1); }
  }

  /** A number followed by a comma or a brace. */
  lemma {:induction false} NumberBack(good: seq<byte> -> bool, s: seq<byte>, pos: nat, t: string, end: char)
    requires TimeText(good, t) && Has(s, pos, t + [end]) && (end == ',' || end == '}')
    ensures pos < |s| && !IsSpace(s[pos]) && s[pos] != 0x5D
    ensures ParseValue(good, s, pos) == Json.Ok((Num(EncodeAll(t)), pos + |EncodeAll(t)|))
  {
    hide EncodeAll, ParseValue;
    HasSplit(s, pos, t, [end]);
    AsciiBytes(t);
    var n := |t|;
    HasAscii(s, pos + n, end);
    forall i | pos <= i < pos + n
      ensures s[i] == t[i - pos] as int
    {
      assert s[i] == s[pos..pos + n][i - pos];
    }
    assert s[pos] == t[0] as int;
    NumberReads(good, s, pos, n);
  }

  /** A run of number characters that starts like a number and ends before something else. */
  lemma {:induction false} NumberReads(good: seq<byte> -> bool, s: seq<byte>, pos: nat, n: nat)
    requires n > 0 && pos + n < |s| && (s[pos] == 0x2D || IsDigit(s[pos]))
    requires (forall i | pos <= i < pos + n :: InNumber(s[i])) && !InNumber(s[pos + n]) && good(s[pos..pos + n])
    ensures ParseValue(good, s, pos) == Json.Ok((Num(s[pos..pos + n]), pos + n))
  {
    hide NumberEnd, InNumber;
    NumberEnds(s, pos, n);
    if s[pos] == 0x2D { NumberEnds(s, pos + 1, n - 1); }
  }

  // ---- events ---------------------------------------------------------------

  datatype EventError = NotJson(error: JsonError) | NotAnArray | TooShort | NoTime | NoCode

  datatype EventRes = Good(e: Event) | Bad(error: EventError)

  /** `parse_event`. */
  function EventOf(v: Value): EventRes {
    if !v.Arr? then Bad(NotAnArray)
    else if |v.items| < 2 then Bad(TooShort)
    else if !v.items[0].Num? then Bad(NoTime)
    else if !v.items[1].Str? then Bad(NoCode)
    else Good(Event(Lossy(v.items[0].text), FromLetter(v.items[1].s),
                    if |v.items| > 2 && v.items[2].Str? then v.items[2].s else ""))
  }

  lemma {:induction false} NoSpace(s: seq<byte>, pos: nat)
    requires pos < |s| && !IsSpace(s[pos])
    ensures SkipSpace(s, pos) == pos
  {
  }

  /** After a value that ends before a comma or a bracket. */
  lemma {:induction false} NextItem(good: seq<byte> -> bool, s: seq<byte>, pos: nat, items: seq<Value>, v: Value,
      at: nat)
    requires pos < |s| && !IsSpace(s[pos]) && at < |s| && ParseValue(good, s, pos) == Json.Ok((v, at))
    ensures s[at] == 0x2C ==> ParseItems(good, s, pos, items) == ParseItems(good, s, at + 1, items + [v])
    ensures s[at] == 0x5D ==> ParseItems(good, s, pos, items) == Json.Ok((Arr(items + [v]), at + 1))
  {
    hide ParseValue;
    NoSpace(s, pos);
    if s[at] == 0x2C || s[at] == 0x5D { NoSpace(s, at); }
  }

  lemma {:induction false} StringValue(good: seq<byte> -> bool, s: seq<byte>, pos: nat, t: string)
    requires Has(s, pos, JsonString(t))
    ensures pos < |s| && !IsSpace(s[pos])
    ensures ParseValue(good, s, pos) == Json.Ok((Str(t), pos + |EncodeAll(JsonString(t))|))
  {
    hide JsonString, EncodeAll, Has;
    StringBack(s, pos, t);
  }

  /** An event line is one JSON array of the event's time, letter and data. */
  lemma {:induction false} LineParses(good: seq<byte> -> bool, e: Event)
    requires TimeText(good, e.time)
    ensures Parse(good, EncodeAll(EventLine(e))) ==
            Json.Ok(Arr([Num(EncodeAll(e.time)), Str([Letter(e.code)]), Str(e.data)]))
  {
    hide JsonString, EncodeAll, Has, ParseValue, ParseItems, TimeText, IsSpace, SkipSpace;
    var j1, j2 := JsonString([Letter(e.code)]), JsonString(e.data);
    var s := EncodeAll(EventLine(e));
    Pieces(e.time, j1, j2);
    var t5 := "]";
    var t4 := j2 + t5;
    var t3 := j1 + ("," + t4);
    var t2 := e.time + "," + t3;
    assert EventLine(e) == "[" + t2;
    Everything(EventLine(e));
    HasSplit(s, 0, "[", t2);
    HasAscii(s, 0, '[');
    HasSplit(s, 1, e.time + ",", t3);
    HasSplit(s, 1, e.time, ",");
    NumberBack(good, s, 1, e.time, ',');
    var a := 1 + |EncodeAll(e.time)|;
    HasAscii(s, a, ',');
    HasSplit(s, a + 1, j1, "," + t4);
    StringValue(good, s, a + 1, [Letter(e.code)]);
    var b := a + 1 + |EncodeAll(j1)|;
    HasSplit(s, b, ",", t4);
    HasAscii(s, b, ',');
    HasSplit(s, b + 1, j2, t5);
    StringValue(good, s, b + 1, e.data);
    var c := b + 1 + |EncodeAll(j2)|;
    HasAscii(s, c, ']');
    var v0, v1, v2 := Num(EncodeAll(e.time)), Str([Letter(e.code)]), Str(e.data);
    NextItem(good, s, 1, [], v0, a);
    NextItem(good, s, a + 1, [v0], v1, b);
    NextItem(good, s, b + 1, [v0, v1], v2, c);
    assert [] + [v0] + [v1] + [v2] == [v0, v1, v2];
    assert [] + [v0] == [v0] && [v0] + [v1] == [v0, v1] && [v0, v1] + [v2] == [v0, v1, v2];
    WholeArray(good, s, [v0, v1, v2], c);
  }

  lemma {:induction false} Pieces(t: string, j1: string, j2: string)
    ensures "[" + t + "," + j1 + "," + j2 + "]" == "[" + (t + "," + (j1 + ("," + (j2 + "]"))))
  {
  }

  lemma {:induction false} Everything(t: string)
    ensures Has(EncodeAll(t), 0, t)
  {
  }

  lemma {:induction false} WholeArray(good: seq<byte> -> bool, s: seq<byte>, items: seq<Value>, c: nat)
    requires |s| > 1 && s[0] == 0x5B && !IsSpace(s[1]) && s[1] != 0x5D && c + 1 == |s|
    requires ParseItems(good, s, 1, []) == Json.Ok((Arr(items), c + 1))
    ensures Parse(good, s) == Json.Ok(Arr(items))
  {
    hide ParseItems;
    NoSpace(s, 1);
    NoSpace(s, 0);
  }

  /** Every written event line reads back as the same event exactly when its code is the one its
      letter stands for; only an `Unknown` with a known letter is not. */
  lemma {:induction false} EventBack(good: seq<byte> -> bool, e: Event)
    requires TimeText(good, e.time)
    ensures Parse(good, EncodeAll(EventLine(e))).Ok?
    ensures EventOf(Parse(good, EncodeAll(EventLine(e))).value) == Good(e) <==>
            !(e.code.Unknown? && e.code.c in {'o', 'i', 'r', 'm'})
  {
    LineParses(good, e);
    LossyEncodeAll(e.time);
    hide Parse, EventLine, TimeText, EncodeAll, Lossy;
  }

  // ---- lines ----------------------------------------------------------------

  lemma {:induction false} EscapedNoNewline(t: string)
    ensures '\n' !in Escaped(t)
    decreases |t|
  {
    if t != "" { EscapedNoNewline(t[1..]); }
  }

  /** A line is free of raw newlines, so one line of the file is one event. */
  lemma {:induction false} OneLine(e: Event)
    requires '\n' !in e.time
    ensures '\n' !in EventLine(e)
  {
    EscapedNoNewline([Letter(e.code)]);
    EscapedNoNewline(e.data);
    hide Escaped;
  }
}
