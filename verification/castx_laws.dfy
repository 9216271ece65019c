// What the recorder writes with each call, and what its reader makes of any file.
module CastxLaws {
  import opened Utf8
  import opened Cells
  import opened Castx
  import opened CastxProofs
  import opened CastxLines
  import opened CastxRead
  import Json

  // ---- writing --------------------------------------------------------------

  /** Whole characters up to each malformed sequence go out in one text, which ends in U+FFFD for it; the
      whole characters after the last one go out in a text of their own; an incomplete tail stays. */
  ghost predicate Portioned(s: seq<byte>, texts: seq<string>, rest: seq<byte>)
    decreases |texts|
  {
    if texts == [] then rest == s && (s == [] || Incomplete(s))
    else
      || (exists k | 0 < k <= |s| :: WellFormed(s[..k]) && texts == [Lossy(s[..k])] && Portioned(s[k..], [], rest))
      || (exists k | 0 <= k < |s| :: Broken(s, k, texts[0]) && Portioned(s[k + Next(s[k..]).len..], texts[1..], rest))
  }

  ghost predicate Broken(s: seq<byte>, k: nat, text: string) {
    && k < |s| && WellFormed(s[..k]) && Next(s[k..]).Invalid? && text == Lossy(s[..k]) + ['\U{FFFD}']
    && k + Next(s[k..]).len <= |s|
  }

  lemma {:induction false} PortionsAre(s: seq<byte>)
    ensures Portioned(s, Complete(s).texts, Complete(s).rest)
    decreases |s|
  {
    hide *;
    var v := ValidUpTo(s);
    var head := Lossy(s[..v]);
    PortionOf(s, head, v);
    ValidPart(s);
    if v == |s| {
      Last(s, v, s[v..]);
    } else if Next(s[v..]).Truncated? {
      TailHeld(s[v..]);
      Last(s, v, s[v..]);
    } else {
      var n := Next(s[v..]).len;
      PortionsAre(s[v + n..]);
      First(s, v, Complete(s[v + n..]).texts, Complete(s[v + n..]).rest);
    }
  }

  lemma {:induction false} ValidPart(s: seq<byte>)
    ensures var v := ValidUpTo(s); v <= |s| && WellFormed(s[..v]) && (v < |s| ==> !Next(s[v..]).Scalar?)
    decreases |s|
  {
    hide Next;
    if s != [] && Next(s).Scalar? {
      var k := Next(s).len;
      ValidPart(s[k..]);
      var v := ValidUpTo(s);
      PrefixNext(s, v);
      assert s[..v][k..] == s[k..][..v - k];
    } else {
      assert s[..0] == [];
    }
  }

  lemma {:induction false} TailHeld(s: seq<byte>)
    requires s != [] && Next(s).Truncated?
    ensures Incomplete(s)
  {
  }

  lemma {:induction false} Last(s: seq<byte>, v: nat, rest: seq<byte>)
    requires v <= |s| && WellFormed(s[..v]) && rest == s[v..] && (rest == [] || Incomplete(rest))
    ensures Portioned(s, if v > 0 then [Lossy(s[..v])] else [], rest)
  {
    hide Lossy, WellFormed, Incomplete;
    assert Portioned(s[v..], [], rest);
  }

  lemma {:induction false} First(s: seq<byte>, v: nat, texts: seq<string>, rest: seq<byte>)
    requires v < |s| && WellFormed(s[..v]) && !Next(s[v..]).Scalar? && !Next(s[v..]).Truncated?
    requires v + Next(s[v..]).len <= |s| && Portioned(s[v + Next(s[v..]).len..], texts, rest)
    ensures Portioned(s, [Lossy(s[..v]) + [REPLACEMENT]] + texts, rest)
  {
    hide Lossy, WellFormed, Next;
    var all := [Lossy(s[..v]) + [REPLACEMENT]] + texts;
    assert all[1..] == texts && Broken(s, v, all[0]);
  }

  /** Held back are at most three bytes, the beginning of one character. */
  lemma {:induction false} TailShort(s: seq<byte>)
    requires Incomplete(s)
    ensures 1 <= |s| <= 3
  {
  }

  ghost predicate Stamped(es: seq<Event>, time: string, texts: seq<string>) {
    |es| == |texts| && forall i | 0 <= i < |es| :: es[i] == Event(time, Output, texts[i])
  }

  /** After any calls, output goes out at once and with the time of its call; only the beginning of a
      character waits for the bytes that complete it. */
  lemma {:induction false} OutputAtOnce(ops: seq<Op>, time: string, bytes: seq<byte>)
    ensures var r, q := Recorded(ops), Recorded(ops + [Out(time, bytes)]);
      && q.last == time && |q.pending| <= 3 && r.events <= q.events
      && exists texts ::
           Stamped(q.events[|r.events|..], time, texts) && Portioned(r.pending + bytes, texts, q.pending)
  {
    hide Complete, Portioned, Apply, Incomplete;
    RecordedPush(ops, Out(time, bytes));
    var r := Recorded(ops);
    var p := Complete(r.pending + bytes);
    PortionsAre(r.pending + bytes);
    var q := Recorded(ops + [Out(time, bytes)]);
    OneCall(r, time, bytes);
    assert q.events[|r.events|..] == Outputs(time, p.texts);
    assert Stamped(q.events[|r.events|..], time, p.texts);
    HeldShort(r.pending + bytes);
  }

  lemma {:induction false} OneCall(r: Rec, time: string, bytes: seq<byte>)
    ensures var p := Complete(r.pending + bytes);
            Apply(r, Out(time, bytes)) == Rec(p.rest, time, r.events + Outputs(time, p.texts))
  {
    hide Complete, Outputs;
  }

  lemma {:induction false} HeldShort(s: seq<byte>)
    ensures |Complete(s).rest| <= 3
  {
    CompleteStreams(s, []);
    hide Complete, Incomplete;
    if Complete(s).rest != [] { TailShort(Complete(s).rest); }
  }

  lemma {:induction false} RecordedPush(ops: seq<Op>, op: Op)
    ensures Recorded(ops + [op]) == Apply(Recorded(ops), op)
  {
    hide Apply;
    assert (ops + [op])[..|ops|] == ops;
  }

  /** Any other event goes out after what was held back, both with the time of the call; nothing is held
      back any more. At the end what is held back goes out with the time of the last call. */
  lemma {:induction false} NoteAtOnce(ops: seq<Op>, time: string, code: Code, data: string)
    ensures var r, q := Recorded(ops), Recorded(ops + [Note(time, code, data)]);
      && q.pending == [] && q.last == time
      && q.events == r.events
           + (if r.pending == [] then [] else [Event(time, Output, Lossy(r.pending))]) + [Event(time, code, data)]
    ensures var r := Recorded(ops);
            Finished(r).events == r.events
              + (if r.pending == [] then [] else [Event(r.last, Output, Lossy(r.pending))])
  {
    hide Lossy;
    RecordedPush(ops, Note(time, code, data));
    assert Recorded(ops).events + [] == Recorded(ops).events;
  }

  // ---- reading --------------------------------------------------------------

  /** An event: a number, a string whose first letter is the code, and a text that may be missing. */
  lemma {:induction false} EventRead(t: seq<byte>, c: string, more: seq<Json.Value>)
    ensures exists code ::
      && EventOf(Json.Arr([Json.Num(t), Json.Str(c)] + more))
         == Good(Event(Lossy(t), code, if more != [] && more[0].Str? then more[0].s else ""))
      && Letter(code) == (if c == "" then '\0' else c[0])
      && (code.Unknown? <==> c == "" || c[0] !in {'o', 'i', 'r', 'm'})
  {
    hide Lossy;
    var items := [Json.Num(t), Json.Str(c)] + more;
    assert more != [] ==> items[2] == more[0];
    assert FromLetter(c).Unknown? <==> c == "" || c[0] !in {'o', 'i', 'r', 'm'};
    assert EventOf(Json.Arr(items)).e.code == FromLetter(c);
  }

  /** Nothing else is an event. */
  lemma {:induction false} EventRefused(v: Json.Value)
    ensures EventOf(v).Good? <==> exists t, c, more :: v == Json.Arr([Json.Num(t), Json.Str(c)] + more)
    ensures !v.Arr? ==> EventOf(v) == Bad(NotAnArray)
    ensures v.Arr? && |v.items| < 2 ==> EventOf(v) == Bad(TooShort)
    ensures v.Arr? && |v.items| >= 2 && !v.items[0].Num? ==> EventOf(v) == Bad(NoTime)
    ensures v.Arr? && |v.items| >= 2 && v.items[0].Num? && !v.items[1].Str? ==> EventOf(v) == Bad(NoCode)
  {
    hide Lossy;
    if EventOf(v).Good? {
      assert v.items == [Json.Num(v.items[0].text), Json.Str(v.items[1].s)] + v.items[2..];
    }
  }

  function Joined(lines: seq<string>): string
    requires lines != []
  {
    if |lines| == 1 then lines[0] else lines[0] + "\n" + Joined(lines[1..])
  }

  /** Lines are what stands between the newlines. */
  lemma {:induction false} LinesAre(src: string)
    ensures Joined(Lines(src)) == src && forall l | l in Lines(src) :: '\n' !in l
    decreases |src|
  {
    if src != "" {
      LinesAre(src[1..]);
      var r := Lines(src[1..]);
      var all := Lines(src);
      assert src == [src[0]] + src[1..];
      if src[0] == '\n' {
        assert all[1..] == r && [] + "\n" + Joined(r) == src;
      } else {
        assert all[1..] == r[1..] && all[0] == [src[0]] + r[0];
        if |r| > 1 { assert [src[0]] + r[0] + "\n" + Joined(r[1..]) == [src[0]] + (r[0] + "\n" + Joined(r[1..])); }
        forall l | l in all
          ensures '\n' !in l
        {
          if l != all[0] { assert l in r; } else { assert r[0] in r; }
        }
      }
    }
  }

  /** The lines that are not blank, from line `i` on. */
  function Filled(lines: seq<string>, i: nat): (r: seq<nat>)
    requires i <= |lines|
    ensures forall a | 0 <= a < |r| :: i <= r[a] < |lines| && !BlankLine(Chomp(lines[r[a]]))
    ensures forall k | i <= k < |lines| && !BlankLine(Chomp(lines[k])) :: k in r
    ensures forall a, b | 0 <= a < b < |r| :: r[a] < r[b]
    decreases |lines| - i
  {
    hide BlankLine, Chomp;
    if i == |lines| then []
    else if BlankLine(Chomp(lines[i])) then Filled(lines, i + 1)
    else [i] + Filled(lines, i + 1)
  }

  lemma {:induction false} NextFilled(lines: seq<string>, i: nat)
    requires i <= |lines|
    ensures var f, r := NextLine(lines, i), Filled(lines, i);
      if f.Missing? then r == []
      else f.line == Chomp(lines[f.at]) && r == [f.at] + Filled(lines, f.at + 1)
    decreases |lines| - i
  {
    hide *;
    LineStep(lines, i);
    if i < |lines| && BlankLine(Chomp(lines[i])) { NextFilled(lines, i + 1); }
  }

  lemma {:induction false} LineStep(lines: seq<string>, i: nat)
    requires i <= |lines|
    ensures i == |lines| ==> NextLine(lines, i).Missing? && Filled(lines, i) == []
    ensures i < |lines| && BlankLine(Chomp(lines[i])) ==>
              NextLine(lines, i) == NextLine(lines, i + 1) && Filled(lines, i) == Filled(lines, i + 1)
    ensures i < |lines| && !BlankLine(Chomp(lines[i])) ==>
              NextLine(lines, i) == Found(Chomp(lines[i]), i) && Filled(lines, i) == [i] + Filled(lines, i + 1)
  {
    hide BlankLine, Chomp;
  }

  /** The events of the first filled lines, those numbered in `at`, are `es`. */
  ghost predicate ReadSoFar(n: Numbers, lines: seq<string>, at: seq<nat>, es: seq<Event>) {
    && |es| <= |at| && (forall k | 0 <= k < |at| :: at[k] < |lines|)
    && forall k | 0 <= k < |es| :: ReadEvent(n, Chomp(lines[at[k]])) == Good(es[k])
  }

  /** Reading gives the events of all filled lines in order, or the number of the first line that is no
      event, with its error. */
  lemma {:induction false} ReadsInOrder(n: Numbers, lines: seq<string>, i: nat, done: seq<Event>)
    requires i <= |lines|
    ensures exists more :: Reads(n, lines, Filled(lines, i), done, Script0(n, lines, i, done), more)
    decreases |lines| - i
  {
    hide *;
    NextFilled(lines, i);
    ScriptStep(n, lines, i, done);
    var f, s, at := NextLine(lines, i), Script0(n, lines, i, done), Filled(lines, i);
    if f.Missing? || ReadEvent(n, f.line).Bad? {
      NothingRead(n, lines, at, done, s);
    } else {
      var e := ReadEvent(n, f.line).e;
      ReadsInOrder(n, lines, f.at + 1, done + [e]);
      var more :| Reads(n, lines, Filled(lines, f.at + 1), done + [e], s, more);
      OneMoreRead(n, lines, at, done, e, s, more);
    }
  }

  /** `more` has been read: from every line, or from those before a bad one. */
  ghost predicate Reads(n: Numbers, lines: seq<string>, at: seq<nat>, done: seq<Event>, s: Script, more: seq<Event>) {
    && ReadSoFar(n, lines, at, more)
    && match s
       case Script(es) => es == done + more && |more| == |at|
       case BadLine(number, e) =>
         |more| < |at| && number == at[|more|] + 1 && ReadEvent(n, Chomp(lines[at[|more|]])) == Bad(e)
  }

  lemma {:induction false} ScriptStep(n: Numbers, lines: seq<string>, i: nat, done: seq<Event>)
    requires i <= |lines|
    ensures var f := NextLine(lines, i);
      Script0(n, lines, i, done) ==
        if f.Missing? then Script(done)
        else if ReadEvent(n, f.line).Bad? then BadLine(f.at + 1, ReadEvent(n, f.line).error)
        else Script0(n, lines, f.at + 1, done + [ReadEvent(n, f.line).e])
  {
    hide ReadEvent, NextLine;
  }

  lemma {:induction false} NothingRead(n: Numbers, lines: seq<string>, at: seq<nat>, done: seq<Event>, s: Script)
    requires forall k | 0 <= k < |at| :: at[k] < |lines|
    requires (at == [] && s == Script(done))
             || (at != [] && ReadEvent(n, Chomp(lines[at[0]])).Bad?
                 && s == BadLine(at[0] + 1, ReadEvent(n, Chomp(lines[at[0]])).error))
    ensures Reads(n, lines, at, done, s, [])
  {
    hide ReadEvent, Chomp;
    assert done + [] == done;
  }

  lemma {:induction false} OneMoreRead(n: Numbers, lines: seq<string>, at: seq<nat>, done: seq<Event>, e: Event,
      s: Script, more: seq<Event>)
    requires at != [] && at[0] < |lines| && ReadEvent(n, Chomp(lines[at[0]])) == Good(e)
    requires Reads(n, lines, at[1..], done + [e], s, more)
    ensures Reads(n, lines, at, done, s, [e] + more)
  {
    hide ReadEvent, Chomp;
    var es, rest := [e] + more, at[1..];
    forall k | 0 <= k < |at|
      ensures at[k] < |lines|
    {
      if k > 0 { assert at[k] == rest[k - 1]; }
    }
    forall k | 0 <= k < |es|
      ensures ReadEvent(n, Chomp(lines[at[k]])) == Good(es[k])
    {
      if k > 0 { assert at[k] == rest[k - 1] && es[k] == more[k - 1]; }
    }
    assert done + [e] + more == done + es;
  }

  /** The number of a field that some pair gives first, if it is one. */
  ghost predicate Gives(n: Numbers, fields: seq<(string, Json.Value)>, key: string, k: nat) {
    exists i | 0 <= i < |fields| ::
      && fields[i].0 == key && (forall j | 0 <= j < i :: fields[j].0 != key)
      && fields[i].1.Num? && n.u16(fields[i].1.text) == Some(k)
  }

  lemma {:induction false} GivesIs(n: Numbers, fields: seq<(string, Json.Value)>, key: string, k: nat)
    ensures Gives(n, fields, key, k) <==> AsU16(n, FieldOf(fields, key)) == Some(k)
    ensures FieldOf(fields, key).None? <==> forall j | 0 <= j < |fields| :: fields[j].0 != key
    decreases |fields|
  {
    if fields != [] && fields[0].0 != key {
      var rest := fields[1..];
      GivesIs(n, rest, key, k);
      assert forall j | 0 <= j < |rest| :: rest[j] == fields[j + 1];
      if Gives(n, fields, key, k) {
        var i :| 0 <= i < |fields| && fields[i].0 == key && (forall j | 0 <= j < i :: fields[j].0 != key)
                 && fields[i].1.Num? && n.u16(fields[i].1.text) == Some(k);
        assert rest[i - 1] == fields[i];
      }
    }
  }

  /** A header is accepted when its version is 2 or missing, whatever else it says; 80 by 24 is the size
      when none is given. */
  lemma {:induction false} HeaderRead(n: Numbers, fields: seq<(string, Json.Value)>, w: nat, h: nat)
    ensures HeaderOf(n, Json.Obj(fields)).HeaderIs? <==>
            Gives(n, fields, "version", 2) || forall j | 0 <= j < |fields| :: fields[j].0 != "version"
    ensures HeaderOf(n, Json.Obj(fields)).HeaderIs? ==>
              var head := HeaderOf(n, Json.Obj(fields)).h;
              && head.version == 2
              && (Gives(n, fields, "width", w) ==> head.width == w)
              && (Gives(n, fields, "height", h) ==> head.height == h)
              && ((forall k :: !Gives(n, fields, "width", k)) ==> head.width == 80)
              && ((forall k :: !Gives(n, fields, "height", k)) ==> head.height == 24)
  {
    hide FieldOf, PoshRecOf, Gives;
    var width, height := AsU16(n, Get(Json.Obj(fields), "width")), AsU16(n, Get(Json.Obj(fields), "height"));
    GivesIs(n, fields, "version", 2);
    GivesIs(n, fields, "width", w);
    GivesIs(n, fields, "height", h);
    if width.Some? { GivesIs(n, fields, "width", width.value); }
    if height.Some? { GivesIs(n, fields, "height", height.value); }
  }
}
