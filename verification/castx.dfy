// crates/posh-rec/src/castx.rs: writing and reading recordings. Output bytes are reassembled into
// whole characters across calls; every event is one line of JSON.
module Castx {
  import opened Utf8

  datatype Code = Output | Input | Resize | Marker | Unknown(c: char)

  /** The time is the text of a number: the float behind it is outside the model. */
  datatype Event = Event(time: string, code: Code, data: string)

  function FromLetter(s: string): Code {
    if s == "" then Unknown('\0')
    else if s[0] == 'o' then Output
    else if s[0] == 'i' then Input
    else if s[0] == 'r' then Resize
    else if s[0] == 'm' then Marker
    else Unknown(s[0])
  }

  function Letter(c: Code): char {
    match c case Output => 'o' case Input => 'i' case Resize => 'r' case Marker => 'm' case Unknown(x) => x
  }

  // ---- writing --------------------------------------------------------------

  function HexChar(n: nat): char
    requires n < 16
  {
    if n < 10 then (0x30 + n) as char else (0x61 + n - 10) as char
  }

  function Escape(c: char): (s: string)
    ensures s != ""
  {
    if c == '"' then "\\\""
    else if c == '\\' then "\\\\"
    else if c == '\n' then "\\n"
    else if c == '\r' then "\\r"
    else if c == '\t' then "\\t"
    else if c as int == 8 then "\\b"
    else if c as int == 12 then "\\f"
    else if (c as int) < 0x20 then "\\u00" + [HexChar(c as int / 16), HexChar(c as int % 16)]
    else [c]
  }

  function Escaped(s: string): string {
    if s == "" then "" else Escape(s[0]) + Escaped(s[1..])
  }

  function JsonString(s: string): string {
    "\"" + Escaped(s) + "\""
  }

  method WriteString(s: string) returns (out: string)
    ensures out == JsonString(s)
  {
    hide Escape;
    out := "\"";
    for i := 0 to |s|
      invariant out + Escaped(s[i..]) == "\"" + Escaped(s)
    {
      assert s[i..][1..] == s[i + 1..];
      assert out + (Escape(s[i]) + Escaped(s[i + 1..])) == out + Escape(s[i]) + Escaped(s[i + 1..]);
      out := out + Escape(s[i]);
    }
    assert s[|s|..] == "";
    out := out + "\"";
  }

  /** One line, without its newline. */
  function EventLine(e: Event): string {
    "[" + e.time + "," + JsonString([Letter(e.code)]) + "," + JsonString(e.data) + "]"
  }

  function Recording(events: seq<Event>): string {
    if events == [] then "" else Recording(events[..|events| - 1]) + (EventLine(events[|events| - 1]) + "\n")
  }

  // ---- reassembling output --------------------------------------------------

  /** `valid_up_to`: the length of the longest prefix of whole characters. */
  function ValidUpTo(s: seq<byte>): (n: nat)
    ensures n <= |s|
    ensures n < |s| ==> !Next(s[n..]).Scalar?
  {
    if s == [] || !Next(s).Scalar? then 0
    else
      var k := Next(s).len;
      var n := ValidUpTo(s[k..]);
      assert s[k..][n..] == s[k + n..];
      k + n
  }

  datatype Portions = Portions(texts: seq<string>, rest: seq<byte>)

  function NonEmpty(t: string): seq<string> {
    if t == "" then [] else [t]
  }

  /** What can be written now, in the portions of the loop, and the incomplete tail held back. */
  function Complete(s: seq<byte>): (p: Portions)
    decreases |s|
  {
    var v := ValidUpTo(s);
    var head := Lossy(s[..v]);
    if v == |s| then Portions(NonEmpty(head), [])
    else
      var n := Next(s[v..]);
      if n.Truncated? then Portions(NonEmpty(head), s[v..])
      else
        var p := Complete(s[v + n.len..]);
        Portions([head + [REPLACEMENT]] + p.texts, p.rest)
  }

  // ---- the recorder ---------------------------------------------------------

  /** The recorder's fields, and the events its writer has received. */
  datatype Rec = Rec(pending: seq<byte>, last: string, events: seq<Event>)

  function Outputs(time: string, texts: seq<string>): (es: seq<Event>)
    ensures |es| == |texts|
  {
    seq(|texts|, i requires 0 <= i < |texts| => Event(time, Output, texts[i]))
  }

  function Written(r: Rec, time: string, bytes: seq<byte>): Rec {
    var p := Complete(r.pending + bytes);
    Rec(p.rest, time, r.events + Outputs(time, p.texts))
  }

  /** Whatever is held back goes out lossily before anything else is written. */
  function Flushed(r: Rec, time: string): Rec {
    if r.pending == [] then r else r.(pending := [], events := r.events + [Event(time, Output, Lossy(r.pending))])
  }

  function Other(r: Rec, time: string, code: Code, data: string): Rec {
    var f := Flushed(r.(last := time), time);
    f.(events := f.events + [Event(time, code, data)])
  }

  class Recorder {
    var out: seq<byte>
    var pending: seq<byte>
    var last: string
    ghost var events: seq<Event>

    ghost function View(): Rec
      reads this
    {
      Rec(pending, last, events)
    }

    /** Exactly the lines of the events have been written, in UTF-8. */
    ghost predicate Valid()
      reads this
    {
      out == EncodeAll(Recording(events))
    }

    constructor ()
      ensures Valid() && View() == Rec([], "0", [])
    {
      out, pending, last, events := [], [], "0", [];
    }

    method WriteLine(time: string, code: Code, data: string)
      requires Valid()
      modifies this
      ensures Valid() && View() == old(View()).(events := old(events) + [Event(time, code, data)])
      ensures pending == old(pending) && last == old(last) && events == old(events) + [Event(time, code, data)]
    {
      hide EventLine, Recording, EncodeAll;
      var line := FormatEvent(Event(time, code, data));
      LineEncoded(events, Event(time, code, data));
      out := out + EncodeAll(line) + [0x0A];
      events := events + [Event(time, code, data)];
    }

    method FlushHeld(time: string)
      requires Valid()
      modifies this
      ensures Valid() && View() == Flushed(old(View()), time)
    {
      if pending == [] { return; }
      var s := Lossy(pending);
      pending := [];
      WriteLine(time, Code.Output, s);
    }

    /** Every complete run goes out; an incomplete tail stays. */
    method FlushComplete(time: string)
      requires Valid()
      modifies this
      ensures Valid()
      ensures View() == Rec(Complete(old(pending)).rest, old(last),
                old(events) + Outputs(time, Complete(old(pending)).texts))
    {
      hide Complete, Outputs, Lossy, ValidUpTo, Next, EncodeAll, Recording, EventLine;
      ghost var e0, p0 := events, pending;
      ghost var done: seq<string> := [];
      NoneYet(e0, time, Complete(p0));
      var more := true;
      while more
        invariant Valid() && last == old(last) && events == e0 + Outputs(time, done)
        invariant if more then Complete(p0) == Portions(done + Complete(pending).texts, Complete(pending).rest)
                  else Complete(p0) == Portions(done, pending)
        decreases |pending|, more
      {
        ghost var was := pending;
        var valid := ValidUpTo(pending);
        var head := Lossy(pending[..valid]);
        PortionOf(pending, head, valid);
        Regrouped(done, head, if valid < |was| && !Next(was[valid..]).Truncated?
          then Complete(was[valid + Next(was[valid..]).len..]).texts else []);
        assert was[0..] == was;
        if valid == |pending| || Next(pending[valid..]).Truncated? {
          if valid > 0 {
            Push(e0, time, done, head);
            WriteLine(time, Code.Output, head);
            done := done + [head];
            pending := pending[valid..];
          }
          more := false;
        } else {
          var bad := Next(pending[valid..]).len;
          Push(e0, time, done, head + [REPLACEMENT]);
          WriteLine(time, Code.Output, head + [REPLACEMENT]);
          done := done + [head + [REPLACEMENT]];
          pending := pending[valid + bad..];
          assert Complete(p0) == Portions(done + Complete(pending).texts, Complete(pending).rest);
        }
      }
    }

    method WriteOutput(time: string, bytes: seq<byte>)
      requires Valid()
      modifies this
      ensures Valid() && View() == Written(old(View()), time, bytes)
    {
      hide Complete, Outputs;
      last := time;
      pending := pending + bytes;
      FlushComplete(time);
    }

    /** Resizes, input and markers: held output goes first. */
    method NonOutput(time: string, code: Code, data: string)
      requires Valid()
      modifies this
      ensures Valid() && View() == Other(old(View()), time, code, data)
    {
      last := time;
      FlushHeld(time);
      WriteLine(time, code, data);
    }

    method Finish()
      requires Valid()
      modifies this
      ensures Valid() && View() == Flushed(old(View()), old(last))
    {
      FlushHeld(last);
    }
  }

  method FormatEvent(e: Event) returns (line: string)
    ensures line == EventLine(e)
  {
    hide JsonString;
    var letter := WriteString([Letter(e.code)]);
    var text := WriteString(e.data);
    line := "[" + e.time + "," + letter + "," + text + "]";
  }

  lemma {:induction false} NoneYet(events: seq<Event>, time: string, p: Portions)
    ensures events == events + Outputs(time, []) && p == Portions([] + p.texts, p.rest)
  {
  }

  /** One turn of the loop. */
  lemma {:induction false} PortionOf(s: seq<byte>, head: string, v: nat)
    requires v == ValidUpTo(s) && head == Lossy(s[..v])
    ensures v > 0 <==> head != ""
    ensures v == |s| ==> Complete(s) == Portions(if v > 0 then [head] else [], s[v..])
    ensures v < |s| && Next(s[v..]).Truncated? ==> Complete(s) == Portions(if v > 0 then [head] else [], s[v..])
    ensures v < |s| && !Next(s[v..]).Truncated? ==>
      var n := Next(s[v..]).len;
      n >= 1 && v + n <= |s| && Complete(s) ==
        Portions([head + [REPLACEMENT]] + Complete(s[v + n..]).texts, Complete(s[v + n..]).rest)
  {
    hide *;
    if v > 0 { SomeText(s[..v]); }
    NoText(s);
    CompleteIs(s, v);
    if v == |s| { assert s[v..] == []; }
  }

  lemma {:induction false} CompleteIs(s: seq<byte>, v: nat)
    requires v == ValidUpTo(s)
    ensures v <= |s|
    ensures v == |s| ==> Complete(s) == Portions(NonEmpty(Lossy(s[..v])), [])
    ensures v < |s| && Next(s[v..]).Truncated? ==> Complete(s) == Portions(NonEmpty(Lossy(s[..v])), s[v..])
    ensures v < |s| && !Next(s[v..]).Truncated? ==>
      var n := Next(s[v..]).len;
      n >= 1 && v + n <= |s| && Complete(s) ==
        Portions([Lossy(s[..v]) + [REPLACEMENT]] + Complete(s[v + n..]).texts, Complete(s[v + n..]).rest)
    ensures NonEmpty(Lossy(s[..v])) == if Lossy(s[..v]) != "" then [Lossy(s[..v])] else []
  {
    hide Lossy, ValidUpTo, Next;
  }

  lemma {:induction false} Regrouped(done: seq<string>, head: string, rest: seq<string>)
    ensures done + [] == done && done + ([head + [REPLACEMENT]] + rest) == done + [head + [REPLACEMENT]] + rest
  {
  }

  lemma {:induction false} NoText(s: seq<byte>)
    ensures Lossy(s[..0]) == ""
  {
  }

  lemma {:induction false} SomeText(s: seq<byte>)
    requires s != []
    ensures Lossy(s) != ""
  {
  }

  lemma {:induction false} Push(events: seq<Event>, time: string, done: seq<string>, t: string)
    ensures events + Outputs(time, done) + [Event(time, Output, t)] == events + Outputs(time, done + [t])
  {
  }

  lemma {:induction false} LineEncoded(events: seq<Event>, e: Event)
    ensures EncodeAll(Recording(events + [e])) == EncodeAll(Recording(events)) + EncodeAll(EventLine(e)) + [0x0A]
  {
    hide EventLine;
    assert (events + [e])[..|events|] == events;
    EncodeAllAppend(Recording(events), EventLine(e) + "\n");
    EncodeAllAppend(EventLine(e), "\n");
    assert EncodeAll("\n") == [0x0A];
    assert EncodeAll(Recording(events)) + (EncodeAll(EventLine(e)) + [0x0A]) ==
      EncodeAll(Recording(events)) + EncodeAll(EventLine(e)) + [0x0A];
  }
}
