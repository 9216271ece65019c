// crates/posh-rec/src/player.rs, with the plain replay of crates/posh-rec/src/cli.rs. A recording is
// flattened to one run of bytes with offsets noted beside it; the player walks a cursor over it.
module Players {
  import opened Utf8
  import opened Cells
  import opened Castx

  type u16 = n: nat | n <= 0xFFFF

  /** What the player and the replay use of the emulator. `feed` is `process`, with the replies drained. */
  datatype Emulator<!T> = Emulator(
    feed: (T, seq<byte>) -> T,
    resize: (T, u16, u16) -> T,
    generation: T -> nat,
    midEscape: T -> bool)

  /** Feeding in pieces is feeding at once. */
  ghost predicate Bytewise<T(!new)>(em: Emulator<T>) {
    && (forall t: T :: em.feed(t, []) == t)
    && (forall t: T, a: seq<byte>, b: seq<byte> :: em.feed(em.feed(t, a), b) == em.feed(t, a + b))
  }

  datatype Size = Size(cols: u16, rows: u16)

  /** Number and size texts are read by functions both readers share. */
  datatype Texts = Texts(seconds: string -> real, size: string -> Option<Size>)

  datatype Sizing = Sizing(at: nat, size: Size)

  datatype Mark = Mark(at: nat, name: string)

  datatype Stamp = Stamp(at: nat, time: real)

  datatype Film = Film(flat: seq<byte>, writes: seq<nat>, resizes: seq<Sizing>, marks: seq<Mark>, times: seq<Stamp>)

  function Extend(x: Texts, f: Film, e: Event): Film {
    match e.code
    case Output =>
      f.(writes := f.writes + [|f.flat|], times := f.times + [Stamp(|f.flat|, x.seconds(e.time))],
         flat := f.flat + EncodeAll(e.data))
    case Resize =>
      (match x.size(e.data)
       case Some(s) => f.(resizes := f.resizes + [Sizing(|f.flat|, s)])
       case None => f)
    case Marker => f.(marks := f.marks + [Mark(|f.flat|, e.data)])
    case Input => f
    case Unknown(_) => f
  }

  function Flatten(x: Texts, es: seq<Event>): Film {
    if es == [] then Film([], [], [], [], []) else Extend(x, Flatten(x, es[..|es| - 1]), es[|es| - 1])
  }

  /** The plain replay: every event in turn. */
  function ReplayOne<T>(em: Emulator<T>, x: Texts, t: T, e: Event): T {
    match e.code
    case Output => em.feed(t, EncodeAll(e.data))
    case Resize => (match x.size(e.data) case Some(s) => em.resize(t, s.rows, s.cols) case None => t)
    case Input => t
    case Marker => t
    case Unknown(_) => t
  }

  function Replay<T>(em: Emulator<T>, x: Texts, t: T, es: seq<Event>): T {
    if es == [] then t else ReplayOne(em, x, Replay(em, x, t, es[..|es| - 1]), es[|es| - 1])
  }

  // ---- offsets --------------------------------------------------------------

  /** The first offset past `c`, or `end`. */
  function FirstPast(offsets: seq<nat>, c: nat, end: nat): (o: nat)
    ensures o == end || (o in offsets && o > c)
  {
    if offsets == [] then end else if offsets[0] > c then offsets[0] else FirstPast(offsets[1..], c, end)
  }

  function MarkPast(marks: seq<Mark>, c: nat): (r: Option<nat>)
    ensures r.Some? ==> r.value > c && exists m | m in marks :: m.at == r.value
  {
    if marks == [] then None else if marks[0].at > c then Some(marks[0].at) else MarkPast(marks[1..], c)
  }

  /** The first mark of that name at or past `c`. */
  function MarkNamed(marks: seq<Mark>, c: nat, name: string): (r: Option<nat>)
    ensures r.Some? <==> exists m | m in marks :: m.at >= c && m.name == name
    ensures r.Some? ==> r.value >= c && exists m | m in marks :: m.at == r.value && m.name == name
  {
    if marks == [] then None
    else if marks[0].at >= c && marks[0].name == name then
      assert marks[0] in marks;
      Some(marks[0].at)
    else
      var r := MarkNamed(marks[1..], c, name);
      assert forall m :: m in marks <==> m == marks[0] || m in marks[1..];
      r
  }

  /** The time of the first event at exactly `c`. */
  function StampAt(times: seq<Stamp>, c: nat): (r: Option<real>)
    ensures r.Some? <==> exists s | s in times :: s.at == c
  {
    if times == [] then None
    else if times[0].at == c then
      assert times[0] in times;
      Some(times[0].time)
    else
      assert forall s :: s in times <==> s == times[0] || s in times[1..];
      StampAt(times[1..], c)
  }

  function TimeAt(times: seq<Stamp>, c: nat, t: real): real {
    if times == [] || times[0].at > c then t else TimeAt(times[1..], c, times[0].time)
  }

  // ---- the cursor -----------------------------------------------------------

  /** The part of the player that moves. */
  datatype Pos<T> = Pos(term: T, cursor: nat, next: nat)

  predicate Ascending(rs: seq<Sizing>) {
    forall i, j | 0 <= i < j < |rs| :: rs[i].at <= rs[j].at
  }

  /** All offsets lie in the stream, resizes and marks in order; each event has a write and a stamp. */
  ghost predicate FilmOk(f: Film) {
    && Ascending(f.resizes)
    && (forall i, j | 0 <= i < j < |f.marks| :: f.marks[i].at <= f.marks[j].at)
    && (forall r | r in f.resizes :: r.at <= |f.flat|)
    && (forall m | m in f.marks :: m.at <= |f.flat|)
    && |f.writes| == |f.times|
    && (forall i | 0 <= i < |f.times| :: f.writes[i] == f.times[i].at && f.writes[i] <= |f.flat|)
    && (forall i, j | 0 <= i < j < |f.times| :: f.times[i].at <= f.times[j].at)
  }

  ghost predicate PosOk<T>(f: Film, p: Pos<T>) {
    p.cursor <= |f.flat| && p.next <= |f.resizes|
  }

  function ApplyThrough<T>(em: Emulator<T>, f: Film, p: Pos<T>, offset: nat): (r: Pos<T>)
    requires PosOk(f, p)
    ensures PosOk(f, r) && r.cursor == p.cursor && r.next >= p.next
    ensures forall i | p.next <= i < r.next :: f.resizes[i].at <= offset
    ensures r.next < |f.resizes| ==> f.resizes[r.next].at > offset
    decreases |f.resizes| - p.next
  {
    if p.next < |f.resizes| && f.resizes[p.next].at <= offset then
      var s := f.resizes[p.next].size;
      ApplyThrough(em, f, p.(term := em.resize(p.term, s.rows, s.cols), next := p.next + 1), offset)
    else p
  }

  function FeedByte<T>(em: Emulator<T>, f: Film, p: Pos<T>): (r: Pos<T>)
    requires PosOk(f, p)
    ensures PosOk(f, r) && r.cursor == (if p.cursor < |f.flat| then p.cursor + 1 else p.cursor)
  {
    if p.cursor >= |f.flat| then p
    else
      var q := ApplyThrough(em, f, p, p.cursor);
      q.(term := em.feed(q.term, [f.flat[p.cursor]]), cursor := p.cursor + 1)
  }

  function Flush<T>(em: Emulator<T>, f: Film, p: Pos<T>): (r: Pos<T>)
    requires PosOk(f, p)
    ensures PosOk(f, r) && r.cursor == p.cursor && (p.cursor < |f.flat| ==> r == p)
  {
    if p.cursor >= |f.flat| then ApplyThrough(em, f, p, |f.flat|) else p
  }

  function Advance<T>(em: Emulator<T>, f: Film, p: Pos<T>, target: nat): (r: Pos<T>)
    requires PosOk(f, p) && target <= |f.flat|
    ensures PosOk(f, r) && r.cursor == (if p.cursor < target then target else p.cursor)
    decreases target - p.cursor
  {
    if p.cursor < target then Advance(em, f, FeedByte(em, f, p), target) else p
  }

  function FeedUntil<T>(em: Emulator<T>, f: Film, p: Pos<T>, target: nat): (r: Pos<T>)
    requires PosOk(f, p) && target <= |f.flat|
    ensures PosOk(f, r) && r.cursor == (if p.cursor < target then target else p.cursor)
  {
    Flush(em, f, Advance(em, f, p, target))
  }

  predicate Introducer(b: byte) {
    b == 0x1B || b == 0x9B
  }

  /** The rest of a sequence: until the parser has left it. */
  function SequenceRest<T>(em: Emulator<T>, f: Film, p: Pos<T>): (r: Pos<T>)
    requires PosOk(f, p)
    ensures PosOk(f, r) && r.cursor >= p.cursor
    decreases |f.flat| - p.cursor
  {
    if p.cursor < |f.flat| && em.midEscape(p.term) then SequenceRest(em, f, FeedByte(em, f, p)) else p
  }

  function PlainRest<T>(em: Emulator<T>, f: Film, p: Pos<T>): (r: Pos<T>)
    requires PosOk(f, p)
    ensures PosOk(f, r) && r.cursor >= p.cursor
    ensures p.cursor < |f.flat| && !Introducer(f.flat[p.cursor]) ==> r.cursor > p.cursor
    decreases |f.flat| - p.cursor
  {
    if p.cursor < |f.flat| && !Introducer(f.flat[p.cursor]) then PlainRest(em, f, FeedByte(em, f, p)) else p
  }

  function ChangeRest<T>(em: Emulator<T>, f: Film, p: Pos<T>, generation: nat): (r: Pos<T>)
    requires PosOk(f, p)
    ensures PosOk(f, r) && r.cursor >= p.cursor && (p.cursor < |f.flat| ==> r.cursor > p.cursor)
    decreases |f.flat| - p.cursor
  {
    if p.cursor < |f.flat| then
      var q := FeedByte(em, f, p);
      if em.generation(q.term) != generation then q else ChangeRest(em, f, q, generation)
    else p
  }

  function WriteStep<T>(em: Emulator<T>, f: Film, p: Pos<T>): (r: Pos<T>)
    requires PosOk(f, p) && FilmOk(f)
    ensures PosOk(f, r) && r.cursor >= p.cursor && (p.cursor < |f.flat| ==> r.cursor > p.cursor)
  {
    if p.cursor >= |f.flat| then p else FeedUntil(em, f, p, FirstPast(f.writes, p.cursor, |f.flat|))
  }

  function ChangeStep<T>(em: Emulator<T>, f: Film, p: Pos<T>): (r: Pos<T>)
    requires PosOk(f, p)
    ensures PosOk(f, r) && r.cursor >= p.cursor && (p.cursor < |f.flat| ==> r.cursor > p.cursor)
  {
    if p.cursor >= |f.flat| then p else Flush(em, f, ChangeRest(em, f, p, em.generation(p.term)))
  }

  // ---- one step -------------------------------------------------------------

  datatype Granularity = Byte | Escape | Write | Change | Frame | Marker

  /** A step moves, finds nothing to do, or never returns. */
  datatype Move<T> = Moved(p: Pos<T>) | Stuck | Loops

  /** The coalescing loop of a frame step. At the end of the stream a write step does not move, so a
      stamp found there is found again, zero seconds after itself. */
  function Absorb<T>(em: Emulator<T>, f: Film, gap: real, p: Pos<T>, t: real): (m: Move<T>)
    requires PosOk(f, p) && FilmOk(f)
    ensures m.Moved? ==> PosOk(f, m.p) && m.p.cursor >= p.cursor
    ensures !m.Stuck?
    decreases |f.flat| - p.cursor
  {
    match StampAt(f.times, p.cursor)
    case None => Moved(p)
    case Some(t') =>
      if t' - t > gap then Moved(p)
      else if p.cursor < |f.flat| then Absorb(em, f, gap, WriteStep(em, f, p), t')
      else if gap >= 0.0 then Loops
      else Moved(p)
  }

  function OneStep<T>(em: Emulator<T>, f: Film, gap: real, p: Pos<T>, g: Granularity): (m: Move<T>)
    requires PosOk(f, p) && FilmOk(f)
    ensures m.Moved? ==> PosOk(f, m.p) && m.p.cursor > p.cursor
    ensures m.Stuck? <==> p.cursor == |f.flat| || (g.Marker? && MarkPast(f.marks, p.cursor).None?)
  {
    if p.cursor >= |f.flat| then Stuck
    else
      match g
      case Byte => Moved(FeedByte(em, f, p))
      case Escape =>
        if Introducer(f.flat[p.cursor]) then Moved(SequenceRest(em, f, FeedByte(em, f, p)))
        else Moved(PlainRest(em, f, p))
      case Write => Moved(WriteStep(em, f, p))
      case Change => Moved(ChangeStep(em, f, p))
      case Frame => Absorb(em, f, gap, WriteStep(em, f, p), TimeAt(f.times, p.cursor, 0.0))
      case Marker =>
        match MarkPast(f.marks, p.cursor)
        case Some(o) => Moved(FeedUntil(em, f, p, o))
        case None => Stuck
  }

  // ---- calls ----------------------------------------------------------------

  /** `taken` steps and the place reached; or the call never returns. */
  datatype Reached<T> = Reached(p: Pos<T>, taken: nat) | Forever

  function Steps<T>(em: Emulator<T>, f: Film, gap: real, p: Pos<T>, g: Granularity, n: nat): (r: Reached<T>)
    requires PosOk(f, p) && FilmOk(f)
    ensures r.Reached? ==> PosOk(f, r.p) && r.p.cursor >= p.cursor + r.taken && r.taken <= n
    decreases n
  {
    if n == 0 then Reached(p, 0)
    else
      match OneStep(em, f, gap, p, g)
      case Loops => Forever
      case Stuck => Reached(p, 0)
      case Moved(q) =>
        var r := Steps(em, f, gap, q, g, n - 1);
        if r.Forever? then Forever else Reached(r.p, r.taken + 1)
  }

  /** `step`. */
  function Step<T>(em: Emulator<T>, f: Film, gap: real, p: Pos<T>, g: Granularity, n: nat): (r: Reached<T>)
    requires PosOk(f, p) && FilmOk(f)
    ensures r.Reached? ==> PosOk(f, r.p) && r.p.cursor >= p.cursor + r.taken
  {
    var r := Steps(em, f, gap, p, g, n);
    if r.Forever? then Forever else Reached(Flush(em, f, r.p), r.taken)
  }

  datatype Call = Take(g: Granularity, n: nat) | ToChange | ToMarker(name: string)

  function MarkerStep<T>(em: Emulator<T>, f: Film, p: Pos<T>, name: string): (r: Pos<T>)
    requires PosOk(f, p) && FilmOk(f)
    ensures PosOk(f, r) && r.cursor >= p.cursor
  {
    match MarkNamed(f.marks, p.cursor, name)
    case Some(o) => FeedUntil(em, f, p, o)
    case None => p
  }

  function Play<T>(em: Emulator<T>, f: Film, gap: real, p: Pos<T>, calls: seq<Call>): (r: Reached<T>)
    requires PosOk(f, p) && FilmOk(f)
    ensures r.Reached? ==> PosOk(f, r.p)
  {
    if calls == [] then Reached(p, 0)
    else
      var r := Play(em, f, gap, p, calls[..|calls| - 1]);
      if r.Forever? then Forever
      else
        match calls[|calls| - 1]
        case Take(g, n) => Step(em, f, gap, r.p, g, n)
        case ToChange => Reached(ChangeStep(em, f, r.p), 0)
        case ToMarker(name) => Reached(MarkerStep(em, f, r.p, name), 0)
  }

  // ---- the player -----------------------------------------------------------

  class Player<T> {
    const em: Emulator<T>
    const film: Film
    var frameGap: real
    var term: T
    var cursor: nat
    var next: nat

    ghost function View(): Pos<T>
      reads this
    {
      Pos(term, cursor, next)
    }

    ghost predicate Valid()
      reads this
    {
      FilmOk(film) && PosOk(film, View())
    }

    constructor (em: Emulator<T>, x: Texts, es: seq<Event>, term: T)
      ensures Valid() && this.em == em && film == Flatten(x, es) && frameGap == 0.1
      ensures View() == Pos(term, 0, 0)
    {
      var flat: seq<byte>, writes: seq<nat>, resizes: seq<Sizing>, marks: seq<Mark>, times: seq<Stamp> :=
        [], [], [], [], [];
      for i := 0 to |es|
        invariant Film(flat, writes, resizes, marks, times) == Flatten(x, es[..i])
      {
        assert es[..i + 1][..i] == es[..i];
        var e := es[i];
        match e.code
        case Output =>
          writes := writes + [|flat|];
          times := times + [Stamp(|flat|, x.seconds(e.time))];
          flat := flat + EncodeAll(e.data);
        case Resize =>
          var size := x.size(e.data);
          if size.Some? { resizes := resizes + [Sizing(|flat|, size.value)]; }
        case Marker => marks := marks + [Mark(|flat|, e.data)];
        case Input =>
        case Unknown(_) =>
      }
      assert es[..|es|] == es;
      FlattenOk(x, es);
      this.em, film, frameGap := em, Film(flat, writes, resizes, marks, times), 0.1;
      this.term, cursor, next := term, 0, 0;
    }

    method WithFrameGap(secs: real)
      modifies `frameGap
      ensures frameGap == secs
    {
      frameGap := secs;
    }

    predicate AtEnd()
      reads `cursor
    {
      cursor >= |film.flat|
    }

    method ApplyResizesThrough(offset: nat)
      requires Valid()
      modifies `term, `next
      ensures Valid() && View() == ApplyThrough(em, film, old(View()), offset)
    {
      ghost var p := View();
      while next < |film.resizes| && film.resizes[next].at <= offset
        invariant Valid() && cursor == old(cursor)
        invariant ApplyThrough(em, film, View(), offset) == ApplyThrough(em, film, p, offset)
        decreases |film.resizes| - next
      {
        var s := film.resizes[next].size;
        term, next := em.resize(term, s.rows, s.cols), next + 1;
      }
    }

    method FeedOne() returns (fed: bool)
      requires Valid()
      modifies `term, `next, `cursor
      ensures Valid() && View() == FeedByte(em, film, old(View())) && fed == (old(cursor) < |film.flat|)
    {
      if cursor >= |film.flat| { return false; }
      ApplyResizesThrough(cursor);
      term := em.feed(term, [film.flat[cursor]]);
      cursor := cursor + 1;
      return true;
    }

    method FlushTrailing()
      requires Valid()
      modifies `term, `next
      ensures Valid() && View() == Flush(em, film, old(View()))
    {
      if AtEnd() { ApplyResizesThrough(|film.flat|); }
    }

    method FeedTo(target: nat)
      requires Valid() && target <= |film.flat|
      modifies `term, `next, `cursor
      ensures Valid() && View() == FeedUntil(em, film, old(View()), target)
    {
      ghost var p := View();
      while cursor < target
        invariant Valid()
        invariant Advance(em, film, View(), target) == Advance(em, film, p, target)
        decreases target - cursor
      {
        var _ := FeedOne();
      }
      FlushTrailing();
    }

    method StepEscape() returns (m: bool)
      requires Valid()
      modifies `term, `next, `cursor
      ensures Valid() && Says(old(View()), m, OneStep(em, film, frameGap, old(View()), Escape))
    {
      if AtEnd() { return false; }
      var first := film.flat[cursor];
      if first == 0x1B || first == 0x9B {
        var _ := FeedOne();
        ghost var p := View();
        while !AtEnd() && em.midEscape(term)
          invariant Valid()
          invariant SequenceRest(em, film, View()) == SequenceRest(em, film, p)
          decreases |film.flat| - cursor
        {
          var _ := FeedOne();
        }
      } else {
        ghost var p := View();
        while !AtEnd()
          invariant Valid()
          invariant PlainRest(em, film, View()) == PlainRest(em, film, p)
          decreases |film.flat| - cursor
        {
          var b := film.flat[cursor];
          if b == 0x1B || b == 0x9B { break; }
          var _ := FeedOne();
        }
      }
      return true;
    }

    /** The reported bool and the new position say the same as `m`. */
    ghost predicate Says(was: Pos<T>, moved: bool, m: Move<T>)
      reads this
    {
      match m
      case Moved(p) => moved && View() == p
      case Stuck => !moved && View() == was
      case Loops => false
    }

    method StepWrite() returns (m: bool)
      requires Valid()
      modifies `term, `next, `cursor
      ensures Valid() && View() == WriteStep(em, film, old(View())) && m == (old(cursor) < |film.flat|)
    {
      if AtEnd() { return false; }
      var target := |film.flat|;
      for i := 0 to |film.writes|
        invariant target == |film.flat|
                  && FirstPast(film.writes, cursor, |film.flat|) == FirstPast(film.writes[i..], cursor, |film.flat|)
      {
        if film.writes[i] > cursor { target := film.writes[i]; break; }
        assert film.writes[i..][1..] == film.writes[i + 1..];
      }
      FeedTo(target);
      return true;
    }

    method EventTimeAt(offset: nat) returns (t: real)
      ensures t == TimeAt(film.times, offset, 0.0)
    {
      t := 0.0;
      for i := 0 to |film.times|
        invariant TimeAt(film.times, offset, 0.0) == TimeAt(film.times[i..], offset, t)
      {
        if film.times[i].at > offset { break; }
        t := film.times[i].time;
        assert film.times[i..][1..] == film.times[i + 1..];
      }
    }

    method FindStamp() returns (r: Option<real>)
      ensures r == StampAt(film.times, cursor)
    {
      for i := 0 to |film.times|
        invariant StampAt(film.times, cursor) == StampAt(film.times[i..], cursor)
      {
        if film.times[i].at == cursor { return Some(film.times[i].time); }
        assert film.times[i..][1..] == film.times[i + 1..];
      }
      return None;
    }

    /** The source's loop never leaves when `looped`; the method stops there instead. */
    method StepFrame() returns (m: bool, looped: bool)
      requires Valid()
      modifies `term, `next, `cursor
      ensures Valid() && looped == OneStep(em, film, frameGap, old(View()), Frame).Loops?
      ensures !looped ==> Says(old(View()), m, OneStep(em, film, frameGap, old(View()), Frame))
    {
      if AtEnd() { return false, false; }
      var t := EventTimeAt(cursor);
      var _ := StepWrite();
      ghost var p, t0 := View(), t;
      while true
        invariant Valid() && frameGap == old(frameGap)
        invariant Absorb(em, film, frameGap, View(), t) == Absorb(em, film, frameGap, p, t0)
        decreases |film.flat| - cursor
      {
        var s := FindStamp();
        if s.None? || s.value - t > frameGap { break; }
        if AtEnd() {
          if frameGap >= 0.0 { return true, true; }
          break;
        }
        t := s.value;
        var _ := StepWrite();
      }
      return true, false;
    }

    method FindMarkPast() returns (r: Option<nat>)
      requires FilmOk(film)
      ensures r == MarkPast(film.marks, cursor) && (r.Some? ==> r.value <= |film.flat|)
    {
      for i := 0 to |film.marks|
        invariant MarkPast(film.marks, cursor) == MarkPast(film.marks[i..], cursor)
      {
        if film.marks[i].at > cursor {
          assert film.marks[i] in film.marks;
          return Some(film.marks[i].at);
        }
        assert film.marks[i..][1..] == film.marks[i + 1..];
      }
      return None;
    }

    method StepMarker() returns (m: bool)
      requires Valid()
      modifies `term, `next, `cursor
      ensures Valid() && Says(old(View()), m, OneStep(em, film, frameGap, old(View()), Granularity.Marker))
    {
      hide FilmOk, MarkPast, FeedUntil, Absorb, WriteStep, ChangeStep, SequenceRest, PlainRest, FeedByte;
      if AtEnd() { return false; }
      var o := FindMarkPast();
      if o.None? { return false; }
      FeedTo(o.value);
      return true;
    }

    method StepToChange() returns (m: bool)
      requires Valid()
      modifies `term, `next, `cursor
      ensures Valid() && View() == ChangeStep(em, film, old(View())) && m == (old(cursor) < |film.flat|)
    {
      if AtEnd() { return false; }
      var g := em.generation(term);
      ghost var p := View();
      while !AtEnd()
        invariant Valid() && cursor >= p.cursor
        invariant ChangeRest(em, film, View(), g) == ChangeRest(em, film, p, g)
        decreases |film.flat| - cursor
      {
        var _ := FeedOne();
        if em.generation(term) != g { break; }
      }
      FlushTrailing();
      return true;
    }

    method StepToMarker(name: string) returns (m: bool)
      requires Valid()
      modifies `term, `next, `cursor
      ensures Valid() && View() == MarkerStep(em, film, old(View()), name)
      ensures m == MarkNamed(film.marks, old(cursor), name).Some?
    {
      for i := 0 to |film.marks|
        invariant Valid() && View() == old(View())
        invariant MarkNamed(film.marks, cursor, name) == MarkNamed(film.marks[i..], cursor, name)
      {
        if film.marks[i].at >= cursor && film.marks[i].name == name {
          FeedTo(film.marks[i].at);
          return true;
        }
        assert film.marks[i..][1..] == film.marks[i + 1..];
      }
      return false;
    }

    /** The dispatch in the loop of `step`. */
    method StepOnce(g: Granularity) returns (m: bool, looped: bool)
      requires Valid()
      modifies `term, `next, `cursor
      ensures Valid() && looped == OneStep(em, film, frameGap, old(View()), g).Loops?
      ensures !looped ==> Says(old(View()), m, OneStep(em, film, frameGap, old(View()), g))
    {
      m, looped := false, false;
      match g
      case Byte => m := FeedOne();
      case Escape => m := StepEscape();
      case Write => m := StepWrite();
      case Change => m := StepToChange();
      case Frame => m, looped := StepFrame();
      case Marker => m := StepMarker();
    }

    /** `step`: `looped` where the source never returns. */
    method StepBy(g: Granularity, n: nat) returns (taken: nat, looped: bool)
      requires Valid()
      modifies `term, `next, `cursor
      ensures Valid() && looped == Step(em, film, frameGap, old(View()), g, n).Forever?
      ensures !looped ==> Step(em, film, frameGap, old(View()), g, n) == Reached(View(), taken)
    {
      hide OneStep, Flush, FilmOk;
      taken := 0;
      ghost var p := View();
      while taken < n
        invariant Valid() && taken <= n && frameGap == old(frameGap)
        invariant var r := Steps(em, film, frameGap, View(), g, n - taken);
                  Steps(em, film, frameGap, p, g, n) == if r.Forever? then Forever else Reached(r.p, r.taken + taken)
        decreases n - taken
      {
        var advanced, loops := StepOnce(g);
        if loops { return taken, true; }
        if !advanced { break; }
        taken := taken + 1;
      }
      FlushTrailing();
      return taken, false;
    }
  }

  lemma {:induction false} FlattenOk(x: Texts, es: seq<Event>)
    ensures FilmOk(Flatten(x, es))
    decreases |es|
  {
    if es != [] { FlattenOk(x, es[..|es| - 1]); }
  }
}
