// Every way of stepping through a recording runs the emulator exactly as the plain replay does.
module PlayerProofs {
  import opened Utf8
  import opened Cells
  import opened Castx
  import opened Players
  import Machines
  import T = TerminalProofs

  // ---- the tape -------------------------------------------------------------

  function Start<T>(t: T): Pos<T> {
    Pos(t, 0, 0)
  }

  /** The only positions there are: what feeding byte by byte reaches, or that with the last resizes. */
  ghost predicate OnTape<T>(em: Emulator<T>, f: Film, t: T, p: Pos<T>) {
    && PosOk(f, p)
    && (p == Advance(em, f, Start(t), p.cursor) || (p.cursor == |f.flat| && p == FeedUntil(em, f, Start(t), p.cursor)))
  }

  lemma {:induction false} AdvanceSplits<T>(em: Emulator<T>, f: Film, p: Pos<T>, a: nat, b: nat)
    requires PosOk(f, p) && p.cursor <= a <= b <= |f.flat|
    ensures Advance(em, f, Advance(em, f, p, a), b) == Advance(em, f, p, b)
    decreases a - p.cursor
  {
    if p.cursor < a { AdvanceSplits(em, f, FeedByte(em, f, p), a, b); }
  }

  lemma {:induction false} AdvanceOne<T>(em: Emulator<T>, f: Film, p: Pos<T>)
    requires PosOk(f, p) && p.cursor < |f.flat|
    ensures FeedByte(em, f, p) == Advance(em, f, p, p.cursor + 1)
  {
    assert Advance(em, f, FeedByte(em, f, p), p.cursor + 1) == FeedByte(em, f, p);
  }

  lemma {:induction false} ByteStays<T>(em: Emulator<T>, f: Film, t: T, p: Pos<T>)
    requires PosOk(f, p) && OnTape(em, f, t, p)
    ensures OnTape(em, f, t, FeedByte(em, f, p))
  {
    if p.cursor < |f.flat| {
      AdvanceOne(em, f, p);
      AdvanceSplits(em, f, Start(t), p.cursor, p.cursor + 1);
    }
  }

  lemma {:induction false} ApplyTwice<T>(em: Emulator<T>, f: Film, p: Pos<T>, offset: nat)
    requires PosOk(f, p)
    ensures var q := ApplyThrough(em, f, p, offset); ApplyThrough(em, f, q, offset) == q
  {
  }

  lemma {:induction false} FlushStays<T>(em: Emulator<T>, f: Film, t: T, p: Pos<T>)
    requires PosOk(f, p) && OnTape(em, f, t, p)
    ensures OnTape(em, f, t, Flush(em, f, p))
    ensures p.cursor == |f.flat| ==> Flush(em, f, p) == FeedUntil(em, f, Start(t), |f.flat|)
  {
    if p.cursor == |f.flat| {
      ApplyTwice(em, f, Advance(em, f, Start(t), p.cursor), |f.flat|);
    }
  }

  lemma {:induction false} UntilStays<T>(em: Emulator<T>, f: Film, t: T, p: Pos<T>, target: nat)
    requires PosOk(f, p) && OnTape(em, f, t, p) && target <= |f.flat|
    ensures OnTape(em, f, t, FeedUntil(em, f, p, target))
  {
    if p.cursor < target { AdvanceSplits(em, f, Start(t), p.cursor, target); }
    FlushStays(em, f, t, Advance(em, f, p, target));
  }

  lemma {:induction false} SequenceStays<T>(em: Emulator<T>, f: Film, t: T, p: Pos<T>)
    requires PosOk(f, p) && OnTape(em, f, t, p)
    ensures OnTape(em, f, t, SequenceRest(em, f, p))
    decreases |f.flat| - p.cursor
  {
    hide OnTape, FeedByte;
    if p.cursor < |f.flat| && em.midEscape(p.term) {
      ByteStays(em, f, t, p);
      SequenceStays(em, f, t, FeedByte(em, f, p));
    }
  }

  lemma {:induction false} PlainStays<T>(em: Emulator<T>, f: Film, t: T, p: Pos<T>)
    requires PosOk(f, p) && OnTape(em, f, t, p)
    ensures OnTape(em, f, t, PlainRest(em, f, p))
    decreases |f.flat| - p.cursor
  {
    hide OnTape, FeedByte;
    if p.cursor < |f.flat| && !Introducer(f.flat[p.cursor]) {
      ByteStays(em, f, t, p);
      PlainStays(em, f, t, FeedByte(em, f, p));
    }
  }

  lemma {:induction false} ChangeStays<T>(em: Emulator<T>, f: Film, t: T, p: Pos<T>, generation: nat)
    requires PosOk(f, p) && OnTape(em, f, t, p)
    ensures OnTape(em, f, t, ChangeRest(em, f, p, generation))
    decreases |f.flat| - p.cursor
  {
    hide OnTape, FeedByte;
    if p.cursor < |f.flat| {
      ByteStays(em, f, t, p);
      ChangeStays(em, f, t, FeedByte(em, f, p), generation);
    }
  }

  lemma {:induction false} WriteStays<T>(em: Emulator<T>, f: Film, t: T, p: Pos<T>)
    requires PosOk(f, p) && OnTape(em, f, t, p) && FilmOk(f)
    ensures OnTape(em, f, t, WriteStep(em, f, p))
  {
    hide OnTape, FeedUntil;
    if p.cursor < |f.flat| { UntilStays(em, f, t, p, FirstPast(f.writes, p.cursor, |f.flat|)); }
  }

  lemma {:induction false} AbsorbStays<T>(em: Emulator<T>, f: Film, gap: real, t: T, p: Pos<T>, time: real)
    requires PosOk(f, p) && OnTape(em, f, t, p) && FilmOk(f)
    ensures var m := Absorb(em, f, gap, p, time); m.Moved? ==> OnTape(em, f, t, m.p)
    decreases |f.flat| - p.cursor
  {
    hide OnTape, WriteStep;
    match StampAt(f.times, p.cursor)
    case None =>
    case Some(t') =>
      if t' - time <= gap && p.cursor < |f.flat| {
        WriteStays(em, f, t, p);
        AbsorbStays(em, f, gap, t, WriteStep(em, f, p), t');
      }
  }

  lemma {:induction false} StepStays<T>(em: Emulator<T>, f: Film, gap: real, t: T, p: Pos<T>, g: Granularity)
    requires PosOk(f, p) && OnTape(em, f, t, p) && FilmOk(f)
    ensures var m := OneStep(em, f, gap, p, g); m.Moved? ==> OnTape(em, f, t, m.p)
  {
    hide OnTape, FeedByte, SequenceRest, PlainRest, ChangeRest, WriteStep, Absorb, FeedUntil, Flush;
    if p.cursor < |f.flat| {
      match g
      case Byte => ByteStays(em, f, t, p);
      case Escape =>
        ByteStays(em, f, t, p);
        SequenceStays(em, f, t, FeedByte(em, f, p));
        PlainStays(em, f, t, p);
      case Write => WriteStays(em, f, t, p);
      case Change =>
        ChangeStays(em, f, t, p, em.generation(p.term));
        FlushStays(em, f, t, ChangeRest(em, f, p, em.generation(p.term)));
      case Frame =>
        WriteStays(em, f, t, p);
        AbsorbStays(em, f, gap, t, WriteStep(em, f, p), TimeAt(f.times, p.cursor, 0.0));
      case Marker =>
        if MarkPast(f.marks, p.cursor).Some? { UntilStays(em, f, t, p, MarkPast(f.marks, p.cursor).value); }
    }
  }

  lemma {:induction false} StepsStay<T>(em: Emulator<T>, f: Film, gap: real, t: T, p: Pos<T>, g: Granularity, n: nat)
    requires PosOk(f, p) && OnTape(em, f, t, p) && FilmOk(f)
    ensures var r := Steps(em, f, gap, p, g, n); r.Reached? ==> OnTape(em, f, t, r.p)
    decreases n
  {
    hide OnTape, OneStep;
    if n > 0 {
      StepStays(em, f, gap, t, p, g);
      var m := OneStep(em, f, gap, p, g);
      if m.Moved? { StepsStay(em, f, gap, t, m.p, g, n - 1); }
    }
  }

  // ---- whole runs -----------------------------------------------------------

  /** After this call at the end of the stream nothing is left to apply. */
  predicate Flushes(f: Film, cursor: nat, call: Call) {
    match call
    case Take(_, _) => true
    case ToChange => cursor < |f.flat|
    case ToMarker(name) => MarkNamed(f.marks, cursor, name).Some?
  }

  ghost predicate Settled<T>(em: Emulator<T>, f: Film, t: T, p: Pos<T>) {
    p.cursor == |f.flat| ==> p == FeedUntil(em, f, Start(t), |f.flat|)
  }

  function Called<T>(em: Emulator<T>, f: Film, gap: real, p: Pos<T>, call: Call): (r: Reached<T>)
    requires PosOk(f, p) && FilmOk(f)
    ensures r.Reached? ==> PosOk(f, r.p)
  {
    match call
    case Take(g, n) => Step(em, f, gap, p, g, n)
    case ToChange => Reached(ChangeStep(em, f, p), 0)
    case ToMarker(name) => Reached(MarkerStep(em, f, p, name), 0)
  }

  lemma {:induction false} CallStays<T>(em: Emulator<T>, f: Film, gap: real, t: T, p: Pos<T>, call: Call)
    requires PosOk(f, p) && OnTape(em, f, t, p) && FilmOk(f)
    ensures var r := Called(em, f, gap, p, call);
      r.Reached? ==>
        OnTape(em, f, t, r.p) && (if Flushes(f, p.cursor, call) then Settled(em, f, t, r.p) else r.p == p)
  {
    hide OnTape, Steps, ChangeRest;
    match call
    case Take(g, n) =>
      StepsStay(em, f, gap, t, p, g, n);
      var r := Steps(em, f, gap, p, g, n);
      if r.Reached? { FlushStays(em, f, t, r.p); }
    case ToChange =>
      if p.cursor < |f.flat| {
        ChangeStays(em, f, t, p, em.generation(p.term));
        FlushStays(em, f, t, ChangeRest(em, f, p, em.generation(p.term)));
      }
    case ToMarker(name) =>
      var o := MarkNamed(f.marks, p.cursor, name);
      if o.Some? { MarkerSettles(em, f, t, p, o.value); }
  }

  lemma {:induction false} MarkerSettles<T>(em: Emulator<T>, f: Film, t: T, p: Pos<T>, o: nat)
    requires PosOk(f, p) && OnTape(em, f, t, p) && o <= |f.flat|
    ensures OnTape(em, f, t, FeedUntil(em, f, p, o)) && Settled(em, f, t, FeedUntil(em, f, p, o))
  {
    UntilStays(em, f, t, p, o);
    FlushStays(em, f, t, FeedUntil(em, f, p, o));
    if p.cursor < o { AdvanceSplits(em, f, Start(t), p.cursor, o); }
    ApplyTwice(em, f, Advance(em, f, p, o), |f.flat|);
  }

  /** What a run of calls keeps. The one way to sit at the end with resizes unapplied is a stream
      without output, and calls that each decline to move. */
  lemma {:induction false} PlayStays<T>(em: Emulator<T>, f: Film, gap: real, t: T, calls: seq<Call>)
    requires FilmOk(f)
    ensures var r := Play(em, f, gap, Start(t), calls);
      r.Reached? ==> (OnTape(em, f, t, r.p) &&
        (if f.flat != [] || (exists k | 0 <= k < |calls| :: Flushes(f, 0, calls[k])) then Settled(em, f, t, r.p)
         else r.p == Start(t)))
    decreases |calls|
  {
    hide OnTape, Settled, Called, Flushes, FeedUntil;
    if calls == [] {
      Begins(em, f, t);
    } else {
      var n := |calls| - 1;
      PlayStays(em, f, gap, t, calls[..n]);
      var r := Play(em, f, gap, Start(t), calls[..n]);
      PlayIs(em, f, gap, Start(t), calls);
      if r.Reached? {
        CallStays(em, f, gap, t, r.p, calls[n]);
        SoFar(f, calls);
        AtStart(em, f, t, r.p);
      }
    }
  }

  lemma {:induction false} PlayIs<T>(em: Emulator<T>, f: Film, gap: real, p: Pos<T>, calls: seq<Call>)
    requires PosOk(f, p) && FilmOk(f) && calls != []
    ensures var r := Play(em, f, gap, p, calls[..|calls| - 1]);
            Play(em, f, gap, p, calls) == if r.Forever? then Forever else Called(em, f, gap, r.p, calls[|calls| - 1])
  {
  }

  lemma {:induction false} Begins<T>(em: Emulator<T>, f: Film, t: T)
    ensures OnTape(em, f, t, Start(t)) && (f.flat != [] ==> Settled(em, f, t, Start(t)))
  {
  }

  lemma {:induction false} SoFar(f: Film, calls: seq<Call>)
    requires calls != []
    ensures var n := |calls| - 1;
      (exists k | 0 <= k < |calls| :: Flushes(f, 0, calls[k])) <==>
      (exists k | 0 <= k < n :: Flushes(f, 0, calls[..n][k])) || Flushes(f, 0, calls[n])
  {
    hide Flushes;
    var n := |calls| - 1;
    forall k | 0 <= k < n ensures calls[..n][k] == calls[k] {}
  }

  lemma {:induction false} AtStart<T>(em: Emulator<T>, f: Film, t: T, p: Pos<T>)
    requires PosOk(f, p) && OnTape(em, f, t, p)
    ensures f.flat == [] ==> p.cursor == 0
  {
  }

  // ---- against the replay ---------------------------------------------------

  /** A later film of the same recording agrees on every offset of the earlier one. */
  ghost predicate Prolongs(f: Film, g: Film) {
    && |f.flat| <= |g.flat| && g.flat[..|f.flat|] == f.flat
    && |f.resizes| <= |g.resizes| && g.resizes[..|f.resizes|] == f.resizes
    && forall i | |f.resizes| <= i < |g.resizes| :: g.resizes[i].at >= |f.flat|
  }

  lemma {:induction false} ApplyProlonged<T>(em: Emulator<T>, f: Film, g: Film, p: Pos<T>, offset: nat)
    requires PosOk(f, p) && Prolongs(f, g) && offset < |f.flat|
    ensures ApplyThrough(em, g, p, offset) == ApplyThrough(em, f, p, offset)
    decreases |f.resizes| - p.next
  {
    if p.next < |f.resizes| {
      assert g.resizes[p.next] == g.resizes[..|f.resizes|][p.next];
      if f.resizes[p.next].at <= offset {
        var s := f.resizes[p.next].size;
        ApplyProlonged(em, f, g, p.(term := em.resize(p.term, s.rows, s.cols), next := p.next + 1), offset);
      }
    }
  }

  lemma {:induction false} AdvanceProlonged<T>(em: Emulator<T>, f: Film, g: Film, p: Pos<T>, target: nat)
    requires PosOk(f, p) && Prolongs(f, g) && target <= |f.flat|
    ensures Advance(em, g, p, target) == Advance(em, f, p, target)
    decreases target - p.cursor
  {
    if p.cursor < target {
      ApplyProlonged(em, f, g, p, p.cursor);
      assert g.flat[p.cursor] == g.flat[..|f.flat|][p.cursor];
      AdvanceProlonged(em, f, g, FeedByte(em, f, p), target);
    }
  }

  /** Once no resize is left, bytes go through as one run. */
  lemma {:induction false} AdvanceFeeds<T(!new)>(em: Emulator<T>, f: Film, p: Pos<T>, target: nat)
    requires Bytewise(em) && PosOk(f, p) && p.next == |f.resizes| && p.cursor <= target <= |f.flat|
    ensures Advance(em, f, p, target) == Pos(em.feed(p.term, f.flat[p.cursor..target]), target, p.next)
    decreases target - p.cursor
  {
    if p.cursor < target {
      var q := FeedByte(em, f, p);
      AdvanceFeeds(em, f, q, target);
      assert [f.flat[p.cursor]] + f.flat[p.cursor + 1..target] == f.flat[p.cursor..target];
    } else {
      assert f.flat[p.cursor..target] == [];
    }
  }

  lemma {:induction false} ApplySnoc<T>(em: Emulator<T>, f: Film, s: Sizing, p: Pos<T>, offset: nat)
    requires PosOk(f, p) && s.at <= offset && forall i | 0 <= i < |f.resizes| :: f.resizes[i].at <= offset
    ensures var r := ApplyThrough(em, f, p, offset);
      ApplyThrough(em, f.(resizes := f.resizes + [s]), p, offset) ==
      r.(term := em.resize(r.term, s.size.rows, s.size.cols), next := |f.resizes| + 1)
    decreases |f.resizes| - p.next
  {
    var g := f.(resizes := f.resizes + [s]);
    if p.next < |f.resizes| {
      var z := f.resizes[p.next].size;
      ApplySnoc(em, f, s, p.(term := em.resize(p.term, z.rows, z.cols), next := p.next + 1), offset);
    } else {
      var q := p.(term := em.resize(p.term, s.size.rows, s.size.cols), next := p.next + 1);
      assert ApplyThrough(em, g, q, offset) == q;
    }
  }

  ghost predicate Agrees<T>(em: Emulator<T>, f: Film, t: T, u: T) {
    FeedUntil(em, f, Start(t), |f.flat|) == Pos(u, |f.flat|, |f.resizes|)
  }

  lemma {:induction false} OutputAgrees<T(!new)>(em: Emulator<T>, x: Texts, f: Film, t: T, u: T, e: Event)
    requires Bytewise(em) && FilmOk(f) && Agrees(em, f, t, u) && e.code.Output?
    ensures Agrees(em, Extend(x, f, e), t, em.feed(u, EncodeAll(e.data)))
  {
    var g, n := Extend(x, f, e), |f.flat|;
    var a := Advance(em, f, Start(t), n);
    AdvanceProlonged(em, f, g, Start(t), n);
    AdvanceSplits(em, g, Start(t), n, |g.flat|);
    SameResizes(em, f, g, a, n);
    TailFeeds(em, g, a, u);
    assert g.flat[n..] == EncodeAll(e.data);
  }

  /** From a cursor where the resizes due make `u`, the rest of the stream is fed to `u`. */
  lemma {:induction false} TailFeeds<T(!new)>(em: Emulator<T>, g: Film, a: Pos<T>, u: T)
    requires Bytewise(em) && PosOk(g, a)
    requires ApplyThrough(em, g, a, a.cursor) == Pos(u, a.cursor, |g.resizes|)
    ensures FeedUntil(em, g, a, |g.flat|) == Pos(em.feed(u, g.flat[a.cursor..]), |g.flat|, |g.resizes|)
  {
    var b := Pos(u, a.cursor, |g.resizes|);
    AdvanceFeeds(em, g, b, |g.flat|);
    assert g.flat[a.cursor..|g.flat|] == g.flat[a.cursor..];
    if a.cursor < |g.flat| {
      assert FeedByte(em, g, a) == FeedByte(em, g, b);
    } else {
      assert g.flat[a.cursor..] == [];
    }
  }

  lemma {:induction false} SameResizes<T>(em: Emulator<T>, f: Film, g: Film, p: Pos<T>, offset: nat)
    requires PosOk(f, p) && f.resizes == g.resizes && |g.flat| >= |f.flat|
    ensures ApplyThrough(em, g, p, offset) == ApplyThrough(em, f, p, offset)
    decreases |f.resizes| - p.next
  {
    if p.next < |f.resizes| && f.resizes[p.next].at <= offset {
      var s := f.resizes[p.next].size;
      SameResizes(em, f, g, p.(term := em.resize(p.term, s.rows, s.cols), next := p.next + 1), offset);
    }
  }

  lemma {:induction false} OtherAgrees<T>(em: Emulator<T>, x: Texts, f: Film, t: T, u: T, e: Event)
    requires FilmOk(f) && Agrees(em, f, t, u) && !e.code.Output?
    ensures Agrees(em, Extend(x, f, e), t, ReplayOne(em, x, u, e))
  {
    hide Advance, ApplyThrough, EncodeAll;
    var g, n := Extend(x, f, e), |f.flat|;
    AdvanceProlonged(em, f, g, Start(t), n);
    var a := Advance(em, f, Start(t), n);
    if e.code.Resize? && x.size(e.data).Some? {
      ApplySnoc(em, f, Sizing(n, x.size(e.data).value), a, n);
    } else {
      SameResizes(em, f, g, a, n);
    }
  }

  /** Byte by byte with anchored resizes is event by event. */
  lemma {:induction false} TapeIsReplay<T(!new)>(em: Emulator<T>, x: Texts, es: seq<Event>, t: T)
    requires Bytewise(em)
    ensures Agrees(em, Flatten(x, es), t, Replay(em, x, t, es))
    decreases |es|
  {
    hide Agrees, Extend, ReplayOne;
    if es == [] {
      Nothing(em, t);
    } else {
      var n := |es| - 1;
      TapeIsReplay(em, x, es[..n], t);
      FlattenOk(x, es[..n]);
      if es[n].code.Output? {
        OutputAgrees(em, x, Flatten(x, es[..n]), t, Replay(em, x, t, es[..n]), es[n]);
        OutputReplayed(em, x, Replay(em, x, t, es[..n]), es[n]);
      } else {
        OtherAgrees(em, x, Flatten(x, es[..n]), t, Replay(em, x, t, es[..n]), es[n]);
      }
    }
  }

  lemma {:induction false} Nothing<T>(em: Emulator<T>, t: T)
    ensures Agrees(em, Film([], [], [], [], []), t, t)
  {
  }

  lemma {:induction false} OutputReplayed<T>(em: Emulator<T>, x: Texts, t: T, e: Event)
    requires e.code.Output?
    ensures ReplayOne(em, x, t, e) == em.feed(t, EncodeAll(e.data))
  {
  }

  /** Any calls in any order: once the end is reached, every resize has been applied and the emulator is
      where the plain replay leaves it; the exceptions are exactly the recordings without any output
      whose resizes no call has flushed. */
  lemma {:induction false} EveryPathReplays<T(!new)>(em: Emulator<T>, x: Texts, es: seq<Event>, gap: real, t: T,
      calls: seq<Call>)
    requires Bytewise(em)
    ensures FilmOk(Flatten(x, es))
    ensures var f, r := Flatten(x, es), Play(em, Flatten(x, es), gap, Start(t), calls);
      r.Reached? && r.p.cursor == |f.flat| ==>
        && (r.p == Pos(Replay(em, x, t, es), |f.flat|, |f.resizes|) <==> r.p.next == |f.resizes|)
        && (r.p.next == |f.resizes| <==>
            f.flat != [] || f.resizes == [] || exists k | 0 <= k < |calls| :: Flushes(f, 0, calls[k]))
  {
    hide OnTape, Flushes;
    var f := Flatten(x, es);
    FlattenOk(x, es);
    PlayStays(em, f, gap, t, calls);
    TapeIsReplay(em, x, es, t);
    if f.resizes == [] && f.flat == [] { assert FeedUntil(em, f, Start(t), 0) == Start(t); }
  }

  /** Which resizes have been applied at a cursor: those anchored before it, each once and in order. */
  lemma {:induction false} Anchored<T>(em: Emulator<T>, f: Film, t: T, c: nat)
    requires FilmOk(f) && c <= |f.flat|
    ensures var p := Advance(em, f, Start(t), c);
      forall i | 0 <= i < |f.resizes| :: i < p.next <==> f.resizes[i].at < c
    decreases c
  {
    hide FeedByte, FilmOk;
    if c > 0 {
      Anchored(em, f, t, c - 1);
      AdvanceSplits(em, f, Start(t), c - 1, c);
      AdvanceOne(em, f, Advance(em, f, Start(t), c - 1));
      ByteAnchors(em, f, Advance(em, f, Start(t), c - 1));
    }
  }

  lemma {:induction false} ByteAnchors<T>(em: Emulator<T>, f: Film, p: Pos<T>)
    requires FilmOk(f) && PosOk(f, p) && p.cursor < |f.flat|
    requires forall i | 0 <= i < |f.resizes| :: i < p.next <==> f.resizes[i].at < p.cursor
    ensures forall i | 0 <= i < |f.resizes| :: i < FeedByte(em, f, p).next <==> f.resizes[i].at < p.cursor + 1
  {
    hide ApplyThrough;
    var q := ApplyThrough(em, f, p, p.cursor);
    forall i | 0 <= i < |f.resizes|
      ensures i < q.next <==> f.resizes[i].at < p.cursor + 1
    {
      if i >= q.next { assert f.resizes[q.next].at <= f.resizes[i].at || i == q.next; }
    }
  }

  /** `step_to_end`. */
  lemma {:induction false} ReachesEnd<T>(em: Emulator<T>, f: Film, gap: real, p: Pos<T>, n: nat)
    requires FilmOk(f) && PosOk(f, p) && n >= |f.flat| - p.cursor
    ensures var r := Step(em, f, gap, p, Write, n); r.Reached? && r.p.cursor == |f.flat|
    decreases n
  {
    if p.cursor < |f.flat| {
      hide WriteStep, Flush, FilmOk, FeedByte, SequenceRest, PlainRest, ChangeStep, Absorb, MarkPast, FeedUntil;
      var m := OneStep(em, f, gap, p, Write);
      ReachesEnd(em, f, gap, m.p, n - 1);
    }
  }

  // ---- markers --------------------------------------------------------------

  /** The mark found is the nearest one of that name. */
  lemma {:induction false} NearestMark(marks: seq<Mark>, c: nat, name: string)
    requires forall i, j | 0 <= i < j < |marks| :: marks[i].at <= marks[j].at
    ensures var r := MarkNamed(marks, c, name);
      r.Some? ==> forall m | m in marks && m.at >= c && m.name == name :: r.value <= m.at
    decreases |marks|
  {
    if marks != [] && !(marks[0].at >= c && marks[0].name == name) {
      NearestMark(marks[1..], c, name);
      assert forall m | m in marks :: m == marks[0] || m in marks[1..];
    }
  }

  /** `step_to_marker` reports success exactly when a mark of that name lies at or past the cursor, stops
      on the nearest one, and so reports success without moving exactly when one lies at the cursor. */
  lemma {:induction false} MarkerStays<T>(em: Emulator<T>, f: Film, p: Pos<T>, name: string)
    requires FilmOk(f) && PosOk(f, p)
    ensures var found, q := MarkNamed(f.marks, p.cursor, name).Some?, MarkerStep(em, f, p, name);
      && (found <==> exists m | m in f.marks :: m.at >= p.cursor && m.name == name)
      && (!found ==> q == p)
      && (found ==> exists m | m in f.marks :: m.at == q.cursor && m.name == name)
      && (found ==> forall m | m in f.marks && m.at >= p.cursor && m.name == name :: q.cursor <= m.at)
      && (found ==> (q.cursor == p.cursor <==> exists m | m in f.marks :: m.at == p.cursor && m.name == name))
  {
    hide FeedUntil, MarkNamed;
    NearestMark(f.marks, p.cursor, name);
  }

  /** A marker at the very start of a recording: asking for it succeeds, time and again, at offset 0. */
  lemma {:induction false} MarkerStaysOnce<T>(em: Emulator<T>, x: Texts, t: T)
    ensures var f := Flatten(x, [Event("0", Code.Marker, "m"), Event("0", Output, "a")]);
      && FilmOk(f) && MarkNamed(f.marks, 0, "m").Some? && MarkerStep(em, f, Start(t), "m").cursor == 0 < |f.flat|
  {
    var a, b := Event("0", Code.Marker, "m"), Event("0", Output, "a");
    assert [a, b][..1] == [a] && [a][..0] == [];
    FlattenOk(x, [a, b]);
    assert Flatten(x, [a]) == Film([], [], [], [Mark(0, "m")], []);
    var f := Flatten(x, [a, b]);
    OneLetter();
    assert Mark(0, "m") in f.marks;
    MarkerStays(em, f, Start(t), "m");
  }

  /** A lone resize: a call for the next change is at the end at once and applies nothing. */
  lemma {:induction false} ResizeUnapplied<T>(em: Emulator<T>, x: Texts, gap: real, t: T)
    requires x.size("80x24").Some?
    ensures var es := [Event("0", Code.Resize, "80x24")];
      var f := Flatten(x, es);
      && FilmOk(f) && |f.resizes| == 1
      && Play(em, f, gap, Start(t), [ToChange]) == Reached(Start(t), 0) && Start(t).cursor == |f.flat|
  {
    var a := Event("0", Code.Resize, "80x24");
    assert [a][..0] == [];
    FlattenOk(x, [a]);
    assert Flatten(x, [a]) == Film([], [], [Sizing(0, x.size("80x24").value)], [], []);
    var f := Flatten(x, [a]);
    assert [ToChange][..0] == [];
    assert Play(em, f, gap, Start(t), []) == Reached(Start(t), 0);
  }

  // ---- frames ---------------------------------------------------------------

  /** The time the coalescing loop compares with at `o`: the first event's at the offset before. */
  function Previous(f: Film, c: nat, o: nat): real
    requires c < o
    decreases o
  {
    if o - 1 == c then TimeAt(f.times, c, 0.0)
    else if StampAt(f.times, o - 1).Some? then StampAt(f.times, o - 1).value
    else Previous(f, c, o - 1)
  }

  ghost predicate Near(f: Film, gap: real, c: nat, o: nat)
    requires c < o
  {
    var s := StampAt(f.times, o);
    s.Some? ==> s.value - Previous(f, c, o) <= gap
  }

  /** An empty output event ends the recording, and from the cursor on no pause exceeds the gap. */
  ghost predicate EndlessBurst(f: Film, gap: real, c: nat) {
    && gap >= 0.0 && StampAt(f.times, |f.flat|).Some?
    && forall o | c < o <= |f.flat| :: Near(f, gap, c, o)
  }

  lemma {:induction false} FirstStamp(f: Film, c: nat)
    requires FilmOk(f) && c < |f.flat|
    ensures var o := FirstPast(f.writes, c, |f.flat|);
      c < o <= |f.flat| && (o < |f.flat| ==> StampAt(f.times, o).Some?) &&
      forall k | c < k < o :: StampAt(f.times, k).None?
  {
    FirstIsLeast(f.writes, c, |f.flat|);
    var o := FirstPast(f.writes, c, |f.flat|);
    forall k | c < k < o
      ensures StampAt(f.times, k).None?
    {
      if StampAt(f.times, k).Some? { StampIsWrite(f, k); }
    }
    if o < |f.flat| {
      var i :| 0 <= i < |f.writes| && f.writes[i] == o;
      assert f.times[i] in f.times;
    }
  }

  lemma {:induction false} StampIsWrite(f: Film, k: nat)
    requires FilmOk(f) && StampAt(f.times, k).Some?
    ensures k in f.writes
  {
    var s :| s in f.times && s.at == k;
    var i :| 0 <= i < |f.times| && f.times[i] == s;
    assert f.writes[i] in f.writes;
  }

  lemma {:induction false} FirstIsLeast(offsets: seq<nat>, c: nat, end: nat)
    requires c < end && (forall i | 0 <= i < |offsets| :: offsets[i] <= end)
    requires forall i, j | 0 <= i < j < |offsets| :: offsets[i] <= offsets[j]
    ensures var o := FirstPast(offsets, c, end); c < o <= end && forall w | w in offsets :: w <= c || w >= o
    decreases |offsets|
  {
    if offsets != [] && offsets[0] <= c {
      FirstIsLeast(offsets[1..], c, end);
      assert forall w | w in offsets :: w == offsets[0] || w in offsets[1..];
    }
  }

  lemma {:induction false} PreviousSkips(f: Film, c: nat, a: nat, o: nat)
    requires c < a <= o && forall k | a <= k < o :: StampAt(f.times, k).None?
    ensures Previous(f, c, o) == Previous(f, c, a)
    decreases o
  {
    if a < o { PreviousSkips(f, c, a, o - 1); }
  }

  /** From a cursor inside the burst. */
  lemma {:induction false} AbsorbLoops<T>(em: Emulator<T>, f: Film, gap: real, c: nat, p: Pos<T>, t: real)
    requires FilmOk(f) && PosOk(f, p) && c < p.cursor && t == Previous(f, c, p.cursor)
    requires p.cursor < |f.flat| ==> StampAt(f.times, p.cursor).Some?
    ensures Absorb(em, f, gap, p, t).Loops? <==>
      gap >= 0.0 && StampAt(f.times, |f.flat|).Some? && forall o | p.cursor <= o <= |f.flat| :: Near(f, gap, c, o)
    decreases |f.flat| - p.cursor
  {
    hide FilmOk, WriteStep, FirstPast, StampAt, Previous;
    var s := StampAt(f.times, p.cursor);
    if s.Some? && s.value - t <= gap && p.cursor < |f.flat| {
      var q := WriteStep(em, f, p);
      WriteLands(em, f, p);
      PreviousHere(f, c, p.cursor);
      PreviousSkips(f, c, p.cursor + 1, q.cursor);
      AbsorbLoops(em, f, gap, c, q, s.value);
      assert Near(f, gap, c, p.cursor);
      forall o | p.cursor < o < q.cursor
        ensures Near(f, gap, c, o)
      {
      }
    } else if s.Some? && s.value - t > gap {
      assert !Near(f, gap, c, p.cursor);
    } else if s.Some? {
      assert Near(f, gap, c, p.cursor);
    }
  }

  lemma {:induction false} WriteLands<T>(em: Emulator<T>, f: Film, p: Pos<T>)
    requires FilmOk(f) && PosOk(f, p) && p.cursor < |f.flat|
    ensures var o := WriteStep(em, f, p).cursor;
      p.cursor < o <= |f.flat| && (o < |f.flat| ==> StampAt(f.times, o).Some?) &&
      forall k | p.cursor < k < o :: StampAt(f.times, k).None?
  {
    hide FilmOk, StampAt, FirstPast, FeedUntil;
    FirstStamp(f, p.cursor);
  }

  lemma {:induction false} PreviousHere(f: Film, c: nat, o: nat)
    requires c < o && StampAt(f.times, o).Some?
    ensures Previous(f, c, o + 1) == StampAt(f.times, o).value
  {
    hide StampAt;
  }

  /** A frame step fails to return exactly when the recording ends in such a burst. */
  lemma {:induction false} FrameLoops<T>(em: Emulator<T>, f: Film, gap: real, p: Pos<T>)
    requires FilmOk(f) && PosOk(f, p) && p.cursor < |f.flat|
    ensures OneStep(em, f, gap, p, Frame).Loops? <==> EndlessBurst(f, gap, p.cursor)
  {
    hide FilmOk, WriteStep, FirstPast, StampAt, Absorb, TimeAt;
    var c, q := p.cursor, WriteStep(em, f, p);
    WriteLands(em, f, p);
    PreviousSkips(f, c, c + 1, q.cursor);
    AbsorbLoops(em, f, gap, c, q, TimeAt(f.times, c, 0.0));
    forall o | c < o < q.cursor
      ensures Near(f, gap, c, o)
    {
    }
  }

  /** No other granularity can. */
  lemma {:induction false} OthersReturn<T>(em: Emulator<T>, f: Film, gap: real, p: Pos<T>, g: Granularity, n: nat)
    requires FilmOk(f) && PosOk(f, p) && !g.Frame?
    ensures Step(em, f, gap, p, g, n).Reached?
    decreases n
  {
    hide OneStep;
    if n > 0 {
      OneReturns(em, f, gap, p, g);
      var m := OneStep(em, f, gap, p, g);
      if m.Moved? { OthersReturn(em, f, gap, m.p, g, n - 1); }
    }
  }

  lemma {:induction false} OneReturns<T>(em: Emulator<T>, f: Film, gap: real, p: Pos<T>, g: Granularity)
    requires FilmOk(f) && PosOk(f, p) && !g.Frame?
    ensures !OneStep(em, f, gap, p, g).Loops?
  {
    hide FeedByte, SequenceRest, PlainRest, ChangeRest, WriteStep, Absorb, FeedUntil, Flush, ChangeStep;
  }

  /** "a" at 0 s and an empty output at 0 s: the default gap of 0.1 s is enough. */
  lemma {:induction false} FrameLoopsOnce<T>(em: Emulator<T>, x: Texts, t: T)
    requires x.seconds("0") == 0.0
    ensures var f := Flatten(x, [Event("0", Output, "a"), Event("0", Output, "")]);
      FilmOk(f) && |f.flat| == 1 && OneStep(em, f, 0.1, Start(t), Frame).Loops?
  {
    hide FilmOk, StampAt, OneStep;
    var f := Flatten(x, [Event("0", Output, "a"), Event("0", Output, "")]);
    TwoOutputs(x);
    StampsOnce();
    FrameLoops(em, f, 0.1, Start(t));
  }

  lemma {:induction false} TwoOutputs(x: Texts)
    requires x.seconds("0") == 0.0
    ensures var f := Flatten(x, [Event("0", Output, "a"), Event("0", Output, "")]);
      FilmOk(f) && f == Film(['a' as int], [0, 1], [], [], [Stamp(0, 0.0), Stamp(1, 0.0)])
  {
    hide FilmOk;
    var a, b := Event("0", Output, "a"), Event("0", Output, "");
    assert [a, b][..1] == [a] && [a][..0] == [];
    FlattenOk(x, [a, b]);
    var one := 'a' as int;
    OneLetter();
    assert Flatten(x, [a]) == Film([one], [0], [], [], [Stamp(0, 0.0)]);
  }

  lemma {:induction false} OneLetter()
    ensures EncodeAll("a") == ['a' as int] && EncodeAll("") == []
  {
    assert "a"[1..] == "";
    assert EncodeAll("a") == ['a' as int] + [];
  }

  lemma {:induction false} StampsOnce()
    ensures var times := [Stamp(0, 0.0), Stamp(1, 0.0)];
      StampAt(times, 1) == Some(0.0) && TimeAt(times, 0, 0.0) == 0.0
  {
    var times := [Stamp(0, 0.0), Stamp(1, 0.0)];
    assert times[1..] == [Stamp(1, 0.0)] && times[1..][1..] == [];
    assert StampAt(times[1..], 1) == Some(0.0);
    assert TimeAt(times[1..], 0, 0.0) == 0.0;
  }

  // ---- the emulator ---------------------------------------------------------

  /** The terminal of this model is such an emulator, whatever its counters show. */
  ghost function TerminalEmulator(w: Widths, o: Machines.World, generation: T.Session -> nat,
      mid: T.Session -> bool): Emulator<T.Session> {
    Emulator(
      (s: T.Session, bytes: seq<byte>) => if Machines.MachineOk(s.machine) then T.React(w, o, s, T.Feed(bytes)) else s,
      (s: T.Session, rows: u16, cols: u16) =>
        if Machines.MachineOk(s.machine) then T.React(w, o, s, T.Resize(rows, cols)) else s,
      generation, mid)
  }

  lemma {:induction false} TerminalFits(w: Widths, o: Machines.World, generation: T.Session -> nat,
      mid: T.Session -> bool)
    ensures Bytewise(TerminalEmulator(w, o, generation, mid))
  {
    var em := TerminalEmulator(w, o, generation, mid);
    hide Machines.MachineOk, T.React;
    forall s: T.Session
      ensures em.feed(s, []) == s
    {
      if Machines.MachineOk(s.machine) { NoBytes(w, o, s); }
    }
    forall s: T.Session, a: seq<byte>, b: seq<byte>
      ensures em.feed(em.feed(s, a), b) == em.feed(s, a + b)
    {
      if Machines.MachineOk(s.machine) { T.FeedSplits(w, o, s, a, b); }
    }
  }

  lemma {:induction false} NoBytes(w: Widths, o: Machines.World, s: T.Session)
    requires Machines.MachineOk(s.machine)
    ensures T.React(w, o, s, T.Feed([])) == s
  {
    hide Machines.MachineOk;
  }
}
