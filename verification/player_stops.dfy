// Where each step of the player stops, in terms of the bytes, the offsets noted beside them and the
// terminal after every prefix.
module PlayerStops {
  import opened Utf8
  import opened Cells
  import opened Castx
  import opened Players
  import opened PlayerProofs

  /** The terminal after the bytes up to `o`. */
  function After<T>(em: Emulator<T>, f: Film, p: Pos<T>, o: nat): T
    requires PosOk(f, p) && o <= |f.flat|
  {
    Advance(em, f, p, o).term
  }

  lemma {:induction false} AfterByte<T>(em: Emulator<T>, f: Film, p: Pos<T>, o: nat)
    requires PosOk(f, p) && p.cursor < o <= |f.flat|
    ensures Advance(em, f, p, o) == Advance(em, f, FeedByte(em, f, p), o)
    ensures After(em, f, p, o) == After(em, f, FeedByte(em, f, p), o)
  {
  }

  // ---- the loops --------------------------------------------------------------

  lemma {:induction false} SequenceStops<T>(em: Emulator<T>, f: Film, p: Pos<T>)
    requires PosOk(f, p)
    ensures var o := SequenceRest(em, f, p).cursor;
            && p.cursor <= o <= |f.flat| && SequenceRest(em, f, p) == Advance(em, f, p, o)
            && (o < |f.flat| ==> !em.midEscape(After(em, f, p, o)))
            && forall i | p.cursor <= i < o :: em.midEscape(After(em, f, p, i))
    decreases |f.flat| - p.cursor
  {
    hide FeedByte;
    if p.cursor < |f.flat| && em.midEscape(p.term) {
      var q := FeedByte(em, f, p);
      SequenceStops(em, f, q);
      var o := SequenceRest(em, f, p).cursor;
      forall i | p.cursor <= i < o
        ensures em.midEscape(After(em, f, p, i))
      {
        if i > p.cursor { AfterByte(em, f, p, i); }
      }
    }
  }

  lemma {:induction false} PlainStops<T>(em: Emulator<T>, f: Film, p: Pos<T>)
    requires PosOk(f, p)
    ensures var o := PlainRest(em, f, p).cursor;
            && p.cursor <= o <= |f.flat| && PlainRest(em, f, p) == Advance(em, f, p, o)
            && (o < |f.flat| ==> f.flat[o] == 0x1B || f.flat[o] == 0x9B)
            && forall i | p.cursor <= i < o :: f.flat[i] != 0x1B && f.flat[i] != 0x9B
    decreases |f.flat| - p.cursor
  {
    hide FeedByte;
    if p.cursor < |f.flat| && !Introducer(f.flat[p.cursor]) { PlainStops(em, f, FeedByte(em, f, p)); }
  }

  lemma {:induction false} ChangeStopsAt<T>(em: Emulator<T>, f: Film, p: Pos<T>, g: nat)
    requires PosOk(f, p) && p.cursor < |f.flat|
    ensures var o := ChangeRest(em, f, p, g).cursor;
            && p.cursor < o <= |f.flat| && ChangeRest(em, f, p, g) == Advance(em, f, p, o)
            && (o < |f.flat| ==> em.generation(After(em, f, p, o)) != g)
            && forall i | p.cursor < i < o :: em.generation(After(em, f, p, i)) == g
    decreases |f.flat| - p.cursor
  {
    hide FeedByte;
    var q := FeedByte(em, f, p);
    AdvanceOne(em, f, p);
    if em.generation(q.term) == g && q.cursor < |f.flat| {
      ChangeStopsAt(em, f, q, g);
      var o := ChangeRest(em, f, p, g).cursor;
      AfterByte(em, f, p, o);
      forall i | p.cursor < i < o
        ensures em.generation(After(em, f, p, i)) == g
      {
        AfterByte(em, f, p, i);
      }
    }
  }

  // ---- one step ---------------------------------------------------------------

  lemma {:induction false} ByteStops<T>(em: Emulator<T>, f: Film, gap: real, p: Pos<T>)
    requires PosOk(f, p) && FilmOk(f) && p.cursor < |f.flat|
    ensures OneStep(em, f, gap, p, Byte) == Moved(Advance(em, f, p, p.cursor + 1))
  {
    AdvanceOne(em, f, p);
  }

  /** From an introducer, to the first offset past it where the parser has left the sequence. */
  lemma {:induction false} SequenceStep<T>(em: Emulator<T>, f: Film, gap: real, p: Pos<T>) returns (o: nat)
    requires PosOk(f, p) && FilmOk(f) && p.cursor < |f.flat|
    requires f.flat[p.cursor] == 0x1B || f.flat[p.cursor] == 0x9B
    ensures p.cursor < o <= |f.flat| && OneStep(em, f, gap, p, Escape) == Moved(Advance(em, f, p, o))
    ensures o < |f.flat| ==> !em.midEscape(After(em, f, p, o))
    ensures forall i | p.cursor < i < o :: em.midEscape(After(em, f, p, i))
  {
    hide FeedByte, FilmOk;
    var q := FeedByte(em, f, p);
    AdvanceOne(em, f, p);
    SequenceStops(em, f, q);
    o := SequenceRest(em, f, q).cursor;
    AfterByte(em, f, p, o);
    forall i | p.cursor < i < o
      ensures em.midEscape(After(em, f, p, i))
    {
      AfterByte(em, f, p, i);
    }
  }

  /** From anywhere else, to the first introducer. */
  lemma {:induction false} PlainStep<T>(em: Emulator<T>, f: Film, gap: real, p: Pos<T>) returns (o: nat)
    requires PosOk(f, p) && FilmOk(f) && p.cursor < |f.flat|
    requires f.flat[p.cursor] != 0x1B && f.flat[p.cursor] != 0x9B
    ensures p.cursor < o <= |f.flat| && OneStep(em, f, gap, p, Escape) == Moved(Advance(em, f, p, o))
    ensures o < |f.flat| ==> f.flat[o] == 0x1B || f.flat[o] == 0x9B
    ensures forall i | p.cursor <= i < o :: f.flat[i] != 0x1B && f.flat[i] != 0x9B
  {
    hide FilmOk;
    PlainStops(em, f, p);
    o := PlainRest(em, f, p).cursor;
  }

  /** To the beginning of the next output event, or the end. */
  lemma {:induction false} WriteStops<T>(em: Emulator<T>, f: Film, gap: real, p: Pos<T>) returns (o: nat)
    requires PosOk(f, p) && FilmOk(f) && p.cursor < |f.flat|
    ensures p.cursor < o <= |f.flat| && (o < |f.flat| ==> o in f.writes)
    ensures forall w | w in f.writes :: w <= p.cursor || w >= o
    ensures OneStep(em, f, gap, p, Write) == Moved(Flush(em, f, Advance(em, f, p, o)))
  {
    hide Advance, Flush;
    FirstIsLeast(f.writes, p.cursor, |f.flat|);
    o := FirstPast(f.writes, p.cursor, |f.flat|);
  }

  /** To the first byte after which the generation differs, or the end. */
  lemma {:induction false} ChangeStops<T>(em: Emulator<T>, f: Film, gap: real, p: Pos<T>) returns (o: nat)
    requires PosOk(f, p) && FilmOk(f) && p.cursor < |f.flat|
    ensures p.cursor < o <= |f.flat|
    ensures o < |f.flat| ==> em.generation(After(em, f, p, o)) != em.generation(p.term)
    ensures forall i | p.cursor < i < o :: em.generation(After(em, f, p, i)) == em.generation(p.term)
    ensures OneStep(em, f, gap, p, Change) == Moved(Flush(em, f, Advance(em, f, p, o)))
    ensures ChangeStep(em, f, p) == Flush(em, f, Advance(em, f, p, o))
  {
    hide Advance, Flush, FilmOk;
    ChangeStopsAt(em, f, p, em.generation(p.term));
    o := ChangeRest(em, f, p, em.generation(p.term)).cursor;
  }

  /** To the next marker. */
  lemma {:induction false} MarkerStops<T>(em: Emulator<T>, f: Film, gap: real, p: Pos<T>) returns (o: nat)
    requires PosOk(f, p) && FilmOk(f) && p.cursor < |f.flat|
    requires exists m :: m in f.marks && m.at > p.cursor
    ensures p.cursor < o <= |f.flat| && (exists m :: m in f.marks && m.at == o)
    ensures forall m | m in f.marks :: m.at <= p.cursor || m.at >= o
    ensures OneStep(em, f, gap, p, Granularity.Marker) == Moved(Flush(em, f, Advance(em, f, p, o)))
  {
    hide Advance, Flush;
    NextMark(f.marks, p.cursor);
    o := MarkPast(f.marks, p.cursor).value;
  }

  lemma {:induction false} NextMark(marks: seq<Mark>, c: nat)
    requires forall i, j | 0 <= i < j < |marks| :: marks[i].at <= marks[j].at
    ensures MarkPast(marks, c).Some? <==> exists m :: m in marks && m.at > c
    ensures MarkPast(marks, c).Some? ==> forall m | m in marks :: m.at <= c || m.at >= MarkPast(marks, c).value
    decreases |marks|
  {
    if marks != [] {
      assert forall m :: m in marks <==> m == marks[0] || m in marks[1..];
      if marks[0].at <= c { NextMark(marks[1..], c); }
    }
  }

  // ---- frames -----------------------------------------------------------------

  /** The time of an offset is that of the first event there; */
  lemma {:induction false} StampFirst(times: seq<Stamp>, c: nat) returns (i: nat)
    requires exists s :: s in times && s.at == c
    ensures i < |times| && times[i].at == c && StampAt(times, c) == Some(times[i].time)
    ensures forall j | 0 <= j < i :: times[j].at != c
    decreases |times|
  {
    if times[0].at == c {
      i := 0;
    } else {
      var s :| s in times && s.at == c;
      assert s in times[1..];
      var k := StampFirst(times[1..], c);
      i := k + 1;
      forall j | 0 <= j < i
        ensures times[j].at != c
      {
        if j > 0 { assert times[j] == times[1..][j - 1]; }
      }
    }
  }

  /** the time at the cursor is that of the last event at or before it. */
  lemma {:induction false} TimeLatest(times: seq<Stamp>, c: nat, t: real, k: nat)
    requires k <= |times| && (forall i | 0 <= i < k :: times[i].at <= c) && (k < |times| ==> times[k].at > c)
    ensures TimeAt(times, c, t) == if k == 0 then t else times[k - 1].time
    decreases k
  {
    if k > 0 { TimeLatest(times[1..], c, times[0].time, k - 1); }
  }

  /** A frame step that returns stops at the first event further than the gap from the event offset
      before it, or at the end. */
  lemma {:induction false} FrameStops<T>(em: Emulator<T>, f: Film, gap: real, p: Pos<T>)
    requires FilmOk(f) && PosOk(f, p) && p.cursor < |f.flat| && !EndlessBurst(f, gap, p.cursor)
    ensures var m := OneStep(em, f, gap, p, Frame);
            && m.Moved? && p.cursor < m.p.cursor <= |f.flat|
            && m.p == Flush(em, f, Advance(em, f, p, m.p.cursor))
            && (m.p.cursor < |f.flat| ==> !Near(f, gap, p.cursor, m.p.cursor))
            && forall o | p.cursor < o < m.p.cursor :: Near(f, gap, p.cursor, o)
  {
    hide *;
    FrameLoops(em, f, gap, p);
    FrameIs(em, f, gap, p);
    var c, q := p.cursor, WriteStep(em, f, p);
    WriteLands(em, f, p);
    WriteFlushes(em, f, p);
    PreviousSkips(f, c, c + 1, q.cursor);
    PreviousFirst(f, c);
    QuietNear(f, gap, c, c, q.cursor);
    AbsorbStops(em, f, gap, p, q, TimeAt(f.times, c, 0.0));
  }

  lemma {:induction false} FrameIs<T>(em: Emulator<T>, f: Film, gap: real, p: Pos<T>)
    requires FilmOk(f) && PosOk(f, p) && p.cursor < |f.flat|
    ensures OneStep(em, f, gap, p, Frame) == Absorb(em, f, gap, WriteStep(em, f, p), TimeAt(f.times, p.cursor, 0.0))
    ensures !OneStep(em, f, gap, p, Frame).Stuck?
  {
    hide Absorb, WriteStep, TimeAt, FilmOk;
  }

  lemma {:induction false} PreviousFirst(f: Film, c: nat)
    ensures Previous(f, c, c + 1) == TimeAt(f.times, c, 0.0)
  {
  }

  lemma {:induction false} QuietNear(f: Film, gap: real, c: nat, a: nat, b: nat)
    requires c <= a && forall k | a < k < b :: StampAt(f.times, k).None?
    ensures forall o | a < o < b :: Near(f, gap, c, o)
  {
  }

  lemma {:induction false} WriteFlushes<T>(em: Emulator<T>, f: Film, p: Pos<T>)
    requires FilmOk(f) && PosOk(f, p) && p.cursor < |f.flat|
    ensures var q := WriteStep(em, f, p); q.cursor <= |f.flat| && q == Flush(em, f, Advance(em, f, p, q.cursor))
    ensures PosOk(f, WriteStep(em, f, p)) && WriteStep(em, f, p).cursor > p.cursor
  {
    hide Advance, Flush;
    FirstIsLeast(f.writes, p.cursor, |f.flat|);
  }

  lemma {:induction false} FlushAdvances<T>(em: Emulator<T>, f: Film, p: Pos<T>, a: nat, b: nat)
    requires PosOk(f, p) && p.cursor <= a <= b <= |f.flat| && a < |f.flat|
    ensures var q := Flush(em, f, Advance(em, f, p, a));
            q == Advance(em, f, p, a) && Advance(em, f, q, b) == Advance(em, f, p, b)
  {
    hide Advance, ApplyThrough;
    AdvanceSplits(em, f, p, a, b);
  }

  lemma {:induction false} AbsorbStops<T>(em: Emulator<T>, f: Film, gap: real, p: Pos<T>, q: Pos<T>, t: real)
    requires FilmOk(f) && PosOk(f, p) && PosOk(f, q) && p.cursor < q.cursor <= |f.flat|
    requires q == Flush(em, f, Advance(em, f, p, q.cursor)) && t == Previous(f, p.cursor, q.cursor)
    requires q.cursor < |f.flat| ==> StampAt(f.times, q.cursor).Some?
    requires forall o | p.cursor < o < q.cursor :: Near(f, gap, p.cursor, o)
    ensures var m := Absorb(em, f, gap, q, t);
            m.Moved? ==>
              && p.cursor < m.p.cursor <= |f.flat|
              && m.p == Flush(em, f, Advance(em, f, p, m.p.cursor))
              && (m.p.cursor < |f.flat| ==> !Near(f, gap, p.cursor, m.p.cursor))
              && forall o | p.cursor < o < m.p.cursor :: Near(f, gap, p.cursor, o)
    decreases |f.flat| - q.cursor
  {
    hide FilmOk, WriteStep, StampAt, Previous, Flush, Advance, FeedByte;
    var s := StampAt(f.times, q.cursor);
    if s.Some? && s.value - t <= gap && q.cursor < |f.flat| {
      var u := WriteStep(em, f, q);
      WriteLands(em, f, q);
      WriteFlushes(em, f, q);
      FlushAdvances(em, f, p, q.cursor, u.cursor);
      PreviousHere(f, p.cursor, q.cursor);
      PreviousSkips(f, p.cursor, q.cursor + 1, u.cursor);
      QuietNear(f, gap, p.cursor, q.cursor, u.cursor);
      assert Near(f, gap, p.cursor, q.cursor);
      AbsorbStops(em, f, gap, p, u, s.value);
    }
  }

  // ---- several steps ------------------------------------------------------------

  /** A call of `step` takes its steps one after another, as many as it is asked for unless one has
      nothing to do, and reports how many. */
  lemma {:induction false} StepsOneByOne<T>(em: Emulator<T>, f: Film, gap: real, p: Pos<T>, g: Granularity, n: nat)
      returns (ps: seq<Pos<T>>)
    requires PosOk(f, p) && FilmOk(f) && Step(em, f, gap, p, g, n).Reached?
    ensures var r := Step(em, f, gap, p, g, n);
            && |ps| == r.taken + 1 && ps[0] == p && (forall i | 0 <= i < |ps| :: PosOk(f, ps[i]))
            && (forall i | 0 <= i < r.taken :: OneStep(em, f, gap, ps[i], g) == Moved(ps[i + 1]))
            && r.taken <= n && (r.taken < n ==> OneStep(em, f, gap, ps[r.taken], g) == Stuck)
            && r.p == Flush(em, f, ps[r.taken])
    decreases n
  {
    hide OneStep, Flush, FilmOk;
    ps := [p];
    if n > 0 {
      var m := OneStep(em, f, gap, p, g);
      if m.Moved? {
        var rest := StepsOneByOne(em, f, gap, m.p, g, n - 1);
        ps := [p] + rest;
      }
    }
  }

  // ---- what is noted beside the bytes -------------------------------------------

  /** All output of the events, as bytes. */
  function OutputBytes(es: seq<Event>): seq<byte> {
    if es == [] then []
    else (if es[0].code.Output? then EncodeAll(es[0].data) else []) + OutputBytes(es[1..])
  }

  lemma {:induction false} OutputMore(es: seq<Event>, e: Event)
    ensures OutputBytes(es + [e]) == OutputBytes(es) + (if e.code.Output? then EncodeAll(e.data) else [])
  {
    if es == [] {
      assert ([] + [e])[1..] == [];
    } else {
      assert (es + [e])[1..] == es[1..] + [e];
      OutputMore(es[1..], e);
    }
  }

  /** How many events of a kind there are: outputs, marks, resizes with a size. */
  function Counts(x: Texts, es: seq<Event>): (n: (nat, nat, nat)) {
    if es == [] then (0, 0, 0)
    else
      var (a, b, c), e := Counts(x, es[..|es| - 1]), es[|es| - 1];
      (if e.code.Output? then a + 1 else a, if e.code.Marker? then b + 1 else b,
       if e.code.Resize? && x.size(e.data).Some? then c + 1 else c)
  }

  /** What event `e`, after `n` bytes and these many events, leaves in the film. */
  ghost predicate Noted(x: Texts, f: Film, e: Event, n: nat, a: nat, b: nat, c: nat) {
    && (e.code.Output? ==>
          a < |f.writes| && a < |f.times| && f.writes[a] == n && f.times[a] == Stamp(n, x.seconds(e.time)))
    && (e.code.Marker? ==> b < |f.marks| && f.marks[b] == Mark(n, e.data))
    && (e.code.Resize? && x.size(e.data).Some? ==>
          c < |f.resizes| && f.resizes[c] == Sizing(n, x.size(e.data).value))
  }

  lemma {:induction false} NotedMore(x: Texts, f: Film, e: Event, n: nat, a: nat, b: nat, c: nat, more: Event)
    requires Noted(x, f, e, n, a, b, c)
    ensures Noted(x, Extend(x, f, more), e, n, a, b, c)
  {
  }

  lemma {:induction false} NotedLast(x: Texts, f: Film, e: Event)
    requires |f.times| == |f.writes|
    ensures Noted(x, Extend(x, f, e), e, |f.flat|, |f.writes|, |f.marks|, |f.resizes|)
  {
  }

  /** The film holds all output, and every output event, marker and resize at the offset where the output
      before it ends, in the order of the events. */
  lemma {:induction false} FilmNotes(x: Texts, es: seq<Event>, i: nat)
    requires i < |es|
    ensures var f, (a, b, c) := Flatten(x, es), Counts(x, es[..i]);
            && f.flat == OutputBytes(es) && (|f.writes|, |f.marks|, |f.resizes|) == Counts(x, es)
            && |f.times| == |f.writes|
            && Noted(x, f, es[i], |OutputBytes(es[..i])|, a, b, c)
    decreases |es|
  {
    hide Extend, Counts, OutputBytes, Noted;
    var init, e := es[..|es| - 1], es[|es| - 1];
    FilmHolds(x, es);
    FilmHolds(x, init);
    if i < |init| {
      FilmNotes(x, init, i);
      assert init[..i] == es[..i];
      var (a, b, c) := Counts(x, es[..i]);
      NotedMore(x, Flatten(x, init), es[i], |OutputBytes(es[..i])|, a, b, c, e);
    } else {
      assert es[..i] == init;
      NotedLast(x, Flatten(x, init), e);
    }
  }

  lemma {:induction false} FilmHolds(x: Texts, es: seq<Event>)
    ensures var f := Flatten(x, es);
            && f.flat == OutputBytes(es) && (|f.writes|, |f.marks|, |f.resizes|) == Counts(x, es)
            && |f.times| == |f.writes|
  {
    if es != [] {
      FilmHolds(x, es[..|es| - 1]);
      OutputMore(es[..|es| - 1], es[|es| - 1]);
      assert es == es[..|es| - 1] + [es[|es| - 1]];
    }
  }
}
