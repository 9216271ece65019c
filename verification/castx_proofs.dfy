// Recordings as a whole: reassembled output equals one decoding of all the bytes, however they were
// split; every line is free of newlines and reads back as the event it was written for.
module CastxProofs {
  import opened Utf8
  import opened Sequences
  import opened Castx

  // ---- streaming decoding ---------------------------------------------------

  function Concat(texts: seq<string>): string {
    if texts == [] then "" else texts[0] + Concat(texts[1..])
  }

  /** The whole characters at the front decode by themselves. */
  lemma {:induction false} LossySplit(s: seq<byte>, t: seq<byte>)
    ensures var v := ValidUpTo(s); Lossy(s + t) == Lossy(s[..v]) + Lossy(s[v..] + t)
    decreases |s|
  {
    hide Next;
    var v := ValidUpTo(s);
    if s == [] || !Next(s).Scalar? {
      assert s[..0] == [] && s[0..] == s;
      assert [] + Lossy(s + t) == Lossy(s + t);
    } else {
      var k := Next(s).len;
      LossySplit(s[k..], t);
      NextStable(s, t);
      assert (s + t)[k..] == s[k..] + t;
      assert s[k..][v - k..] == s[v..];
      var head := s[..v];
      assert head[k..] == s[k..][..v - k];
      PrefixNext(s, v);
      assert Lossy(head) == [Next(s).c] + Lossy(head[k..]);
    }
  }

  /** A prefix that holds the whole first character starts with it. */
  lemma {:induction false} PrefixNext(s: seq<byte>, v: nat)
    requires s != [] && Next(s).Scalar? && Next(s).len <= v <= |s|
    ensures Next(s[..v]) == Next(s)
  {
  }

  /** Writing out complete portions never changes what the bytes decode to, whatever comes next. */
  lemma {:induction false} CompleteStreams(s: seq<byte>, t: seq<byte>)
    ensures var p := Complete(s);
            && Concat(p.texts) + Lossy(p.rest + t) == Lossy(s + t)
            && (p.rest == [] || Incomplete(p.rest))
            && forall i | 0 <= i < |p.texts| :: p.texts[i] != ""
    decreases |s|
  {
    hide Lossy, Next, ValidUpTo;
    var v := ValidUpTo(s);
    var head := Lossy(s[..v]);
    LossySplit(s, t);
    PortionOf(s, head, v);
    if v == |s| {
      assert s[v..] == [];
      ConcatFew(head);
    } else if Next(s[v..]).Truncated? {
      ConcatFew(head);
    } else {
      var n := Next(s[v..]).len;
      var p := Complete(s[v + n..]);
      CompleteStreams(s[v + n..], t);
      InvalidStep(s[v..], t);
      assert s[v..][n..] == s[v + n..];
      var first := head + [REPLACEMENT];
      assert ([first] + p.texts)[1..] == p.texts;
      Assoc([REPLACEMENT], Concat(p.texts), Lossy(p.rest + t));
      Assoc(head, [REPLACEMENT], Concat(p.texts) + Lossy(p.rest + t));
    }
  }

  lemma {:induction false} ConcatFew(t: string)
    ensures Concat([]) == "" && Concat([t]) == t && Concat(NonEmpty(t)) == t
    ensures t == "" ==> forall u: string :: t + u == u
  {
    assert [t][1..] == [];
  }

  lemma {:induction false} InvalidStep(s: seq<byte>, t: seq<byte>)
    requires s != [] && Next(s).Invalid?
    ensures Lossy(s + t) == [REPLACEMENT] + Lossy(s[Next(s).len..] + t)
  {
    NextStable(s, t);
    assert (s + t)[Next(s).len..] == s[Next(s).len..] + t;
  }

  // ---- runs -----------------------------------------------------------------

  /** A call on the recorder: output bytes, or an event of another kind. */
  datatype Op = Out(time: string, bytes: seq<byte>) | Note(time: string, code: Code, data: string)

  function Apply(r: Rec, op: Op): Rec {
    match op
    case Out(time, bytes) => Written(r, time, bytes)
    case Note(time, code, data) => Other(r, time, code, data)
  }

  /** Everything recorded by `ops` and a final flush. */
  function Recorded(ops: seq<Op>): Rec {
    if ops == [] then Rec([], "0", []) else Apply(Recorded(ops[..|ops| - 1]), ops[|ops| - 1])
  }

  function Finished(r: Rec): Rec {
    Flushed(r, r.last)
  }

  function Append<T>(runs: seq<seq<T>>, more: seq<T>): seq<seq<T>>
    requires runs != []
  {
    runs[|runs| - 1 := runs[|runs| - 1] + more]
  }

  /** The output text between events of other kinds. */
  function TextRuns(es: seq<Event>): (r: seq<string>)
    ensures r != []
  {
    if es == [] then [""]
    else
      var init, e := TextRuns(es[..|es| - 1]), es[|es| - 1];
      if e.code == Output then Append(init, e.data) else init + [""]
  }

  /** The output bytes between calls of other kinds. */
  function ByteRuns(ops: seq<Op>): (r: seq<seq<byte>>)
    ensures r != []
  {
    if ops == [] then [[]]
    else
      var init, op := ByteRuns(ops[..|ops| - 1]), ops[|ops| - 1];
      if op.Out? then Append(init, op.bytes) else init + [[]]
  }

  /** The events that are not output. */
  function Notes(es: seq<Event>): seq<Event> {
    if es == [] then []
    else Notes(es[..|es| - 1]) + (if es[|es| - 1].code == Output then [] else [es[|es| - 1]])
  }

  function NotesOf(ops: seq<Op>): seq<Event> {
    if ops == [] then []
    else
      var init, op := NotesOf(ops[..|ops| - 1]), ops[|ops| - 1];
      if op.Out? then init else init + [Event(op.time, op.code, op.data)]
  }

  ghost predicate NotesOk(ops: seq<Op>) {
    forall i | 0 <= i < |ops| :: ops[i].Note? ==> ops[i].code != Output
  }

  lemma {:induction false} TextPush(es: seq<Event>, e: Event)
    ensures TextRuns(es + [e]) == if e.code == Output then Append(TextRuns(es), e.data) else TextRuns(es) + [""]
    ensures Notes(es + [e]) == Notes(es) + (if e.code == Output then [] else [e])
  {
    assert (es + [e])[..|es|] == es;
  }

  /** Several output events in a row extend the last run by all their texts. */
  lemma {:induction false} OutputsAppend(es: seq<Event>, time: string, texts: seq<string>)
    ensures TextRuns(es + Outputs(time, texts)) == Append(TextRuns(es), Concat(texts))
    ensures Notes(es + Outputs(time, texts)) == Notes(es)
    decreases |texts|
  {
    if texts == [] {
      assert es + Outputs(time, texts) == es;
      var r := TextRuns(es);
      assert r[|r| - 1] + "" == r[|r| - 1];
    } else {
      var e := Event(time, Output, texts[0]);
      TextPush(es, e);
      OutputsAppend(es + [e], time, texts[1..]);
      assert es + Outputs(time, texts) == es + [e] + Outputs(time, texts[1..]);
      var r := TextRuns(es);
      assert r[|r| - 1] + texts[0] + Concat(texts[1..]) == r[|r| - 1] + (texts[0] + Concat(texts[1..]));
      assert Notes(es) + [] == Notes(es);
    }
  }

  /** All runs but the last are decoded; the last one will be, whatever bytes `t` still come. */
  ghost predicate Agree(r: Rec, ops: seq<Op>, t: seq<byte>) {
    var texts, bytes := TextRuns(r.events), ByteRuns(ops);
    && |texts| == |bytes|
    && (forall i | 0 <= i < |texts| - 1 :: texts[i] == Lossy(bytes[i]))
    && texts[|texts| - 1] + Lossy(r.pending + t) == Lossy(bytes[|bytes| - 1] + t)
  }

  lemma {:induction false} WrittenAgrees(r: Rec, ops: seq<Op>, time: string, bytes: seq<byte>, t: seq<byte>)
    requires Agree(r, ops, bytes + t)
    ensures Agree(Written(r, time, bytes), ops + [Out(time, bytes)], t)
    ensures Notes(Written(r, time, bytes).events) == Notes(r.events)
  {
    hide Lossy, Complete, Outputs, TextRuns, ByteRuns, Notes, Concat;
    var p := Complete(r.pending + bytes);
    CompleteStreams(r.pending + bytes, t);
    OutputsAppend(r.events, time, p.texts);
    BytesPush(ops, Out(time, bytes));
    var texts, runs := TextRuns(r.events), ByteRuns(ops);
    var x, y := texts[|texts| - 1], runs[|runs| - 1];
    assert r.pending + bytes + t == r.pending + (bytes + t);
    assert y + bytes + t == y + (bytes + t);
    assert x + Concat(p.texts) + Lossy(p.rest + t) == x + (Concat(p.texts) + Lossy(p.rest + t));
  }

  lemma {:induction false} BytesPush(ops: seq<Op>, op: Op)
    ensures ByteRuns(ops + [op]) == if op.Out? then Append(ByteRuns(ops), op.bytes) else ByteRuns(ops) + [[]]
  {
    assert (ops + [op])[..|ops|] == ops;
  }

  lemma {:induction false} FlushAgrees(r: Rec, ops: seq<Op>, time: string)
    requires Agree(r, ops, [])
    ensures var texts, bytes := TextRuns(Flushed(r, time).events), ByteRuns(ops);
            |texts| == |bytes| && forall i | 0 <= i < |texts| :: texts[i] == Lossy(bytes[i])
    ensures Notes(Flushed(r, time).events) == Notes(r.events) && Flushed(r, time).pending == []
  {
    hide Lossy;
    var texts, bytes := TextRuns(r.events), ByteRuns(ops);
    assert r.pending + [] == r.pending && bytes[|bytes| - 1] + [] == bytes[|bytes| - 1];
    if r.pending != [] {
      TextPush(r.events, Event(time, Output, Lossy(r.pending)));
      assert Notes(r.events) + [] == Notes(r.events);
    } else {
      LossyNone();
      assert texts[|texts| - 1] + "" == texts[|texts| - 1];
    }
  }

  lemma {:induction false} LossyNone()
    ensures Lossy([]) == ""
  {
  }

  lemma {:induction false} OtherAgrees(r: Rec, ops: seq<Op>, time: string, code: Code, data: string, t: seq<byte>)
    requires Agree(r, ops, []) && code != Output
    ensures Agree(Other(r, time, code, data), ops + [Note(time, code, data)], t)
    ensures Notes(Other(r, time, code, data).events) == Notes(r.events) + [Event(time, code, data)]
  {
    hide Lossy, TextRuns, ByteRuns, Notes, Flushed;
    var f := Flushed(r.(last := time), time);
    FlushAgrees(r.(last := time), ops, time);
    TextPush(f.events, Event(time, code, data));
    BytesPush(ops, Note(time, code, data));
    assert [] + t == t && "" + Lossy(t) == Lossy(t);
  }

  lemma {:induction false} RecordedAgrees(ops: seq<Op>, t: seq<byte>)
    requires NotesOk(ops)
    ensures Agree(Recorded(ops), ops, t) && Notes(Recorded(ops).events) == NotesOf(ops)
    decreases |ops|
  {
    hide Lossy, Written, Other, Agree;
    if ops == [] {
      Begins(t);
    } else {
      var init, op := ops[..|ops| - 1], ops[|ops| - 1];
      assert ops == init + [op];
      if op.Out? {
        RecordedAgrees(init, op.bytes + t);
        WrittenAgrees(Recorded(init), init, op.time, op.bytes, t);
      } else {
        RecordedAgrees(init, []);
        OtherAgrees(Recorded(init), init, op.time, op.code, op.data, t);
      }
    }
  }

  lemma {:induction false} Begins(t: seq<byte>)
    ensures Agree(Rec([], "0", []), [], t) && Notes([]) == []
  {
    assert "" + Lossy([] + t) == Lossy([] + t);
  }

  /** For every way of splitting the output across calls: between two events of other kinds, the
      recorded output is the lossy decoding of all the bytes; the other events are all there, in order. */
  lemma {:induction false} SplitsDoNotMatter(ops: seq<Op>)
    requires NotesOk(ops)
    ensures var es := Finished(Recorded(ops)).events;
            && TextRuns(es) == seq(|ByteRuns(ops)|, i requires 0 <= i < |ByteRuns(ops)| => Lossy(ByteRuns(ops)[i]))
            && Notes(es) == NotesOf(ops)
  {
    hide Recorded, TextRuns, ByteRuns, Flushed, Lossy, Agree;
    RecordedAgrees(ops, []);
    FlushAgrees(Recorded(ops), ops, Recorded(ops).last);
  }
}
