// The receiver against a sender whose state only ever grows: under any loss, duplication and
// reordering of its instructions the receiver's list stays consistent with the sender's log, and
// what the application reads is the log, each event once and in order.
module TransportProofs {
  import opened Transports

  /** The sender's states by number: later ones extend earlier ones. */
  ghost predicate Log<T>(s: nat -> seq<T>) {
    forall n: nat, m: nat | n <= m :: s(n) <= s(m)
  }

  /** An instruction the sender may have issued, at any time and any number of times. */
  ghost predicate Honest<T>(s: nat -> seq<T>, inst: Inst<T>) {
    s(inst.new_) == s(inst.old_) + inst.diff && inst.throwaway <= inst.old_
  }

  ghost predicate Sorted<T>(states: seq<Stamped<T>>) {
    forall i, j | 0 <= i < j < |states| :: states[i].num < states[j].num
  }

  /** Every entry is the sender's state of its number without the first `base` events. */
  ghost predicate Faithful<T>(s: nat -> seq<T>, states: seq<Stamped<T>>, base: nat) {
    forall i | 0 <= i < |states| :: base <= |s(states[i].num)| && states[i].state == s(states[i].num)[base..]
  }

  function Newest<T>(r: Receiver<T>): nat
    requires r.states != []
  {
    r.states[|r.states| - 1].num
  }

  /** `seen` is all the application has read so far. */
  ghost predicate Good<T>(s: nat -> seq<T>, r: Receiver<T>, base: nat, seen: seq<T>) {
    && r.states != [] && Sorted(r.states) && Faithful(s, r.states, base)
    && base <= |seen| && seen <= s(Newest(r)) && r.last == seen[base..]
    && r.ack == Newest(r)
  }

  // ---- one instruction ------------------------------------------------------

  /** How many entries, from the front, are thrown away. */
  function Cutoff<T>(states: seq<Stamped<T>>, throwaway: nat): (k: nat)
    ensures k <= |states| && (forall i | 0 <= i < k :: states[i].num < throwaway)
    ensures k < |states| ==> states[k].num >= throwaway
  {
    if states == [] || states[0].num >= throwaway then 0 else 1 + Cutoff(states[1..], throwaway)
  }

  lemma {:induction false} KeptIs<T>(states: seq<Stamped<T>>, throwaway: nat)
    requires Sorted(states)
    ensures Kept(states, throwaway) == states[Cutoff(states, throwaway)..]
    decreases |states|
  {
    if states != [] {
      if states[0].num < throwaway {
        SortedTail(states, 1);
        KeptIs(states[1..], throwaway);
        assert states[1..][Cutoff(states[1..], throwaway)..] == states[1 + Cutoff(states[1..], throwaway)..];
      } else {
        KeptAll(states, throwaway);
      }
    }
  }

  lemma {:induction false} SortedTail<T>(states: seq<Stamped<T>>, k: nat)
    requires Sorted(states) && k <= |states|
    ensures Sorted(states[k..])
  {
  }

  lemma {:induction false} KeptAll<T>(states: seq<Stamped<T>>, throwaway: nat)
    requires Sorted(states) && (states != [] ==> states[0].num >= throwaway)
    ensures Kept(states, throwaway) == states
    decreases |states|
  {
    if states != [] {
      SortedTail(states, 1);
      if |states| > 1 { assert states[0].num < states[1].num; }
      KeptAll(states[1..], throwaway);
    }
  }

  /** A kept list is a nonempty tail with the same newest entry. */
  lemma {:induction false} KeptGood<T>(s: nat -> seq<T>, states: seq<Stamped<T>>, throwaway: nat, num: nat, base: nat)
    requires Sorted(states) && Faithful(s, states, base) && Has(states, num) && throwaway <= num
    ensures var kept := Kept(states, throwaway);
            && kept != [] && Sorted(kept) && Faithful(s, kept, base) && kept[|kept| - 1] == states[|states| - 1]
  {
    hide Kept;
    KeptIs(states, throwaway);
    var k := Cutoff(states, throwaway);
    var i :| 0 <= i < |states| && states[i].num == num;
    assert k <= i;
    SortedTail(states, k);
    FaithfulTail(s, states, base, k);
  }

  lemma {:induction false} FaithfulTail<T>(s: nat -> seq<T>, states: seq<Stamped<T>>, base: nat, k: nat)
    requires Faithful(s, states, base) && k <= |states|
    ensures Faithful(s, states[k..], base)
  {
  }

  lemma {:induction false} KeptHas<T>(states: seq<Stamped<T>>, throwaway: nat, num: nat)
    requires Sorted(states) && Has(Kept(states, throwaway), num)
    ensures Has(states, num)
  {
    hide Kept;
    KeptIs(states, throwaway);
    var k := Cutoff(states, throwaway);
    var j :| 0 <= j < |states[k..]| && states[k..][j].num == num;
    assert states[k + j].num == num;
  }

  /** Every entry from the insertion point on is newer. */
  lemma {:induction false} NewerAfter<T>(states: seq<Stamped<T>>, num: nat, i: nat)
    requires Sorted(states) && Older(states, num) <= i < |states|
    ensures states[i].num > num
  {
    var n := Older(states, num);
    if i > n { assert states[n].num < states[i].num; }
  }

  /** Inserting a new number keeps the list sorted. */
  lemma {:induction false} InsertSorts<T>(states: seq<Stamped<T>>, e: Stamped<T>)
    requires Sorted(states) && !Has(states, e.num)
    ensures var n := Older(states, e.num); Sorted(states[..n] + [e] + states[n..])
  {
    hide Older, Has;
    var n := Older(states, e.num);
    var grown := states[..n] + [e] + states[n..];
    forall i, j | 0 <= i < j < |grown|
      ensures grown[i].num < grown[j].num
    {
      var a, b := if i < n then i else i - 1, if j < n then j else j - 1;
      if j == n {
        NotThere(states, e.num, a);
      } else if i == n {
        NewerAfter(states, e.num, b);
      } else {
        assert states[a].num < states[b].num;
      }
    }
  }

  lemma {:induction false} NotThere<T>(states: seq<Stamped<T>>, num: nat, i: nat)
    requires !Has(states, num) && i < |states|
    ensures states[i].num != num
  {
  }

  lemma {:induction false} InsertFaithful<T>(s: nat -> seq<T>, states: seq<Stamped<T>>, e: Stamped<T>, base: nat,
      n: nat)
    requires Faithful(s, states, base) && n <= |states| && base <= |s(e.num)| && e.state == s(e.num)[base..]
    ensures Faithful(s, states[..n] + [e] + states[n..], base)
  {
  }

  /** The end of the grown list is the newer of the old end and the new entry. */
  lemma {:induction false} InsertEnds<T>(states: seq<Stamped<T>>, e: Stamped<T>)
    requires states != [] && Sorted(states) && !Has(states, e.num)
    ensures var n := Older(states, e.num);
            var grown := states[..n] + [e] + states[n..];
            && grown[|grown| - 1] == (if n == |states| then e else states[|states| - 1])
            && (n == |states| ==> e.num > states[|states| - 1].num)
  {
    hide Has;
    NotThere(states, e.num, |states| - 1);
  }

  /** Whatever instruction arrives, and whenever: the list stays sorted and faithful, and the
      acknowledged number, always the newest one here, never goes back. */
  lemma {:induction false} ArriveKeeps<T>(s: nat -> seq<T>, r: Receiver<T>, base: nat, seen: seq<T>, inst: Inst<T>,
      now: nat)
    requires Log(s) && Good(s, r, base, seen) && Honest(s, inst)
    ensures Good(s, Received(r, inst, now), base, seen) && Received(r, inst, now).ack >= r.ack
  {
    hide Kept, Older, Has, Sorted, Faithful;
    if !Has(r.states, inst.new_) && Has(r.states, inst.old_) {
      var ref := r.states[IndexOf(r.states, inst.old_)];
      KeptGood(s, r.states, inst.throwaway, inst.old_, base);
      var kept := Kept(r.states, inst.throwaway);
      if Has(kept, inst.new_) { KeptHas(r.states, inst.throwaway, inst.new_); }
      var e := Stamped(now, inst.new_, ref.state + inst.diff);
      Extends(s, r.states, base, IndexOf(r.states, inst.old_), inst);
      InsertSorts(kept, e);
      InsertFaithful(s, kept, e, base, Older(kept, inst.new_));
      InsertEnds(kept, e);
      Grows(s, seen, Newest(r), inst.new_);
    }
  }

  lemma {:induction false} Extends<T>(s: nat -> seq<T>, states: seq<Stamped<T>>, base: nat, i: nat, inst: Inst<T>)
    requires Faithful(s, states, base) && i < |states| && states[i].num == inst.old_ && Honest(s, inst)
    ensures base <= |s(inst.new_)| && states[i].state + inst.diff == s(inst.new_)[base..]
  {
  }

  lemma {:induction false} Grows<T>(s: nat -> seq<T>, seen: seq<T>, n: nat, m: nat)
    requires Log(s) && seen <= s(n)
    ensures n <= m ==> seen <= s(m)
  {
    if n <= m {
      assert s(n) <= s(m);
      Prefixes(seen, s(n), s(m));
    }
  }

  lemma {:induction false} Prefixes<T>(a: seq<T>, b: seq<T>, c: seq<T>)
    requires a <= b && b <= c
    ensures a <= c
  {
  }

  // ---- what an instruction does ---------------------------------------------

  ghost predicate Holds<T>(states: seq<Stamped<T>>, num: nat) {
    exists i :: 0 <= i < |states| && states[i].num == num
  }

  /** The entries from `k` on are those not thrown away. */
  ghost predicate Cut<T>(states: seq<Stamped<T>>, throwaway: nat, k: nat) {
    && k <= |states|
    && (forall i | 0 <= i < k :: states[i].num < throwaway)
    && (forall i | k <= i < |states| :: states[i].num >= throwaway)
  }

  /** Nothing happens to what is here already, or cannot be built. */
  lemma {:induction false} Ignored<T>(r: Receiver<T>, inst: Inst<T>, now: nat)
    requires Holds(r.states, inst.new_) || !Holds(r.states, inst.old_)
    ensures Received(r, inst, now) == r
  {
    SameHolds(r.states, inst.new_);
    SameHolds(r.states, inst.old_);
  }

  lemma {:induction false} SameHolds<T>(states: seq<Stamped<T>>, num: nat)
    ensures Has(states, num) <==> Holds(states, num)
  {
  }

  lemma {:induction false} OnlyOne<T>(states: seq<Stamped<T>>, b: nat)
    requires Sorted(states) && b < |states|
    ensures Has(states, states[b].num) && IndexOf(states, states[b].num) == b
  {
    FirstIs(states, states[b].num, b);
  }

  lemma {:induction false} CutIs<T>(states: seq<Stamped<T>>, throwaway: nat, k: nat)
    requires Sorted(states) && Cut(states, throwaway, k)
    ensures Kept(states, throwaway) == states[k..]
  {
    KeptIs(states, throwaway);
    var c := Cutoff(states, throwaway);
    assert k < |states| ==> states[k].num >= throwaway;
    assert c < |states| ==> states[c].num >= throwaway;
    assert k == c;
  }

  /** A new instruction whose reference is entry `b`: what is thrown away goes, and in order among the
      rest stands the reference's state followed by the diff, unless the queue is too long and quenched. */
  lemma {:induction false} Arrives<T>(r: Receiver<T>, inst: Inst<T>, now: nat, k: nat, b: nat) returns (n: nat)
    requires Sorted(r.states) && Cut(r.states, inst.throwaway, k)
    requires b < |r.states| && r.states[b].num == inst.old_ && !Holds(r.states, inst.new_)
    ensures k <= n <= |r.states|
    ensures forall i | k <= i < n :: r.states[i].num < inst.new_
    ensures forall i | n <= i < |r.states| :: r.states[i].num > inst.new_
    ensures Received(r, inst, now) ==
      if |r.states| - k > QUEUE_LIMIT && now < r.quench then r.(states := r.states[k..])
      else r.(states := r.states[k..n] + [Stamped(now, inst.new_, r.states[b].state + inst.diff)] + r.states[n..],
              quench := if |r.states| - k > QUEUE_LIMIT then now + QUENCH_MS else r.quench,
              ack := if n == |r.states| then inst.new_ else r.ack)
  {
    hide Kept, Has, IndexOf, Cut, Older;
    SameHolds(r.states, inst.new_);
    OnlyOne(r.states, b);
    CutIs(r.states, inst.throwaway, k);
    assert k <= |r.states| by { CutFits(r.states, inst.throwaway, k); }
    var kept := r.states[k..];
    n := k + Older(kept, inst.new_);
    assert kept[..n - k] == r.states[k..n] && kept[n - k..] == r.states[n..];
    SortedTail(r.states, k);
    forall i | n <= i < |r.states|
      ensures r.states[i].num > inst.new_
    {
      NewerAfter(kept, inst.new_, i - k);
      assert kept[i - k] == r.states[i];
    }
    forall i | k <= i < n
      ensures r.states[i].num < inst.new_
    {
      assert kept[i - k] == r.states[i];
    }
  }

  lemma {:induction false} CutFits<T>(states: seq<Stamped<T>>, throwaway: nat, k: nat)
    requires Cut(states, throwaway, k)
    ensures k <= |states|
  {
  }

  /** A state stays here until it is thrown away. */
  lemma {:induction false} Stays<T>(r: Receiver<T>, inst: Inst<T>, now: nat, num: nat)
    requires Sorted(r.states) && Holds(r.states, num) && inst.throwaway <= num
    ensures Holds(Received(r, inst, now).states, num)
  {
    if Holds(r.states, inst.new_) || !Holds(r.states, inst.old_) {
      Ignored(r, inst, now);
    } else {
      hide *;
      var k := Cutoff(r.states, inst.throwaway);
      var b := FindHeld(r.states, inst.old_);
      CutoffCuts(r.states, inst.throwaway);
      var n := Arrives(r, inst, now, k, b);
      var i := FindHeld(r.states, num);
      CutAbove(r.states, inst.throwaway, k, i);
      StillHeld(r.states, Stamped(now, inst.new_, r.states[b].state + inst.diff), k, n, i);
    }
  }

  lemma {:induction false} StillHeld<T>(states: seq<Stamped<T>>, e: Stamped<T>, k: nat, n: nat, i: nat)
    requires k <= n <= |states| && k <= i < |states|
    ensures Holds(states[k..], states[i].num) && Holds(states[k..n] + [e] + states[n..], states[i].num)
    ensures Holds(states[k..n] + [e] + states[n..], e.num)
  {
    assert states[k..][i - k] == states[i];
    var t := states[k..n] + [e] + states[n..];
    assert t[if i < n then i - k else i - k + 1] == states[i] && t[n - k] == e;
  }

  lemma {:induction false} FindHeld<T>(states: seq<Stamped<T>>, num: nat) returns (i: nat)
    requires Holds(states, num)
    ensures i < |states| && states[i].num == num
  {
    i :| 0 <= i < |states| && states[i].num == num;
  }

  lemma {:induction false} CutoffCuts<T>(states: seq<Stamped<T>>, throwaway: nat)
    requires Sorted(states)
    ensures Cut(states, throwaway, Cutoff(states, throwaway))
  {
    var k := Cutoff(states, throwaway);
    forall i | k <= i < |states|
      ensures states[i].num >= throwaway
    {
      if i > k { assert states[k].num < states[i].num; }
    }
  }

  lemma {:induction false} CutAbove<T>(states: seq<Stamped<T>>, throwaway: nat, k: nat, i: nat)
    requires Cut(states, throwaway, k) && i < |states| && throwaway <= states[i].num
    ensures k <= i
  {
  }

  // ---- one query ------------------------------------------------------------

  /** The assertions of `get_remote_diff` hold, its answer is exactly what is new, and every state is
      rebased on the oldest one. */
  lemma {:induction false} QueryKeeps<T>(s: nat -> seq<T>, r: Receiver<T>, base: nat, seen: seq<T>)
    requires Log(s) && Good(s, r, base, seen)
    ensures Rational(r)
    ensures var (t, diff) := Queried(r);
            && seen + diff == s(Newest(r)) && Newest(t) == Newest(r) && t.ack == r.ack
            && Good(s, t, |s(r.states[0].num)|, seen + diff)
  {
    var oldest, newest := s(r.states[0].num), s(Newest(r));
    forall i | 0 <= i < |r.states|
      ensures r.states[0].state <= r.states[i].state
      ensures oldest <= s(r.states[i].num)
    {
      assert r.states[0].num <= r.states[i].num;
    }
    assert r.last <= r.states[|r.states| - 1].state;
    var (t, diff) := Queried(r);
    assert oldest <= newest;
    assert diff == newest[|seen|..];
    assert seen == newest[..|seen|];
    assert newest[..|seen|] + newest[|seen|..] == newest;
    var n := |r.states[0].state|;
    forall i | 0 <= i < |t.states|
      ensures t.states[i].num == r.states[i].num && t.states[i].state == s(t.states[i].num)[|oldest|..]
    {
      assert s(r.states[i].num)[base..][n..] == s(r.states[i].num)[base + n..];
    }
  }

  // ---- runs -----------------------------------------------------------------

  /** The network delivers an instruction, or the application asks for what is new. */
  datatype Step<T> = Arrive(inst: Inst<T>, now: nat) | Query

  ghost predicate HonestSteps<T>(s: nat -> seq<T>, steps: seq<Step<T>>) {
    forall i | 0 <= i < |steps| :: steps[i].Arrive? ==> Honest(s, steps[i].inst)
  }

  /** All answers of a run together; a failed assertion of `get_remote_diff` ends it. */
  ghost function Play<T>(r: Receiver<T>, steps: seq<Step<T>>): (p: (Receiver<T>, seq<T>, bool))
    decreases |steps|
  {
    if steps == [] then (r, [], true)
    else if steps[0].Arrive? then Play(Received(r, steps[0].inst, steps[0].now), steps[1..])
    else if !Rational(r) then (r, [], false)
    else
      var (t, diff) := Queried(r);
      var (u, more, ok) := Play(t, steps[1..]);
      (u, diff + more, ok)
  }

  ghost function Start<T>(s: nat -> seq<T>, now: nat): Receiver<T> {
    Receiver([Stamped(now, 0, s(0))], s(0), 0, 0)
  }

  lemma {:induction false} PlayKeeps<T>(s: nat -> seq<T>, r: Receiver<T>, base: nat, seen: seq<T>, steps: seq<Step<T>>)
      returns (at: nat)
    requires Log(s) && Good(s, r, base, seen) && HonestSteps(s, steps)
    ensures var (u, out, ok) := Play(r, steps);
            && ok && Good(s, u, at, seen + out) && u.ack >= r.ack
            && (steps != [] && steps[|steps| - 1].Query? ==> seen + out == s(u.ack))
    decreases |steps|
  {
    hide Good, Log, Received, Queried, Rational;
    if steps == [] {
      at := base;
      assert seen + [] == seen;
    } else {
      assert HonestSteps(s, steps[1..]);
      if steps[0].Arrive? {
        ArriveKeeps(s, r, base, seen, steps[0].inst, steps[0].now);
        at := PlayKeeps(s, Received(r, steps[0].inst, steps[0].now), base, seen, steps[1..]);
      } else {
        QueryKeeps(s, r, base, seen);
        AckIsNewest(s, r, base, seen);
        var (t, diff) := Queried(r);
        at := PlayKeeps(s, t, |s(r.states[0].num)|, seen + diff, steps[1..]);
        var (u, more, ok) := Play(t, steps[1..]);
        assert seen + (diff + more) == seen + diff + more;
        if |steps| == 1 { assert more == [] && seen + diff + [] == seen + diff; }
      }
    }
  }

  lemma {:induction false} AckIsNewest<T>(s: nat -> seq<T>, r: Receiver<T>, base: nat, seen: seq<T>)
    requires Good(s, r, base, seen)
    ensures r.states != [] && r.ack == Newest(r) && Sorted(r.states)
  {
  }

  /** From the start, over every run: no assertion fails, the acknowledged number is the newest one
      held, and what has been read by a last query is the sender's log at that number. */
  lemma {:induction false} ExactlyOnce<T>(s: nat -> seq<T>, now: nat, steps: seq<Step<T>>)
    requires Log(s) && HonestSteps(s, steps)
    ensures var (u, out, ok) := Play(Start(s, now), steps + [Query]);
            ok && u.states != [] && Sorted(u.states) && u.ack == Newest(u) && s(0) + out == s(u.ack)
  {
    assert Good(s, Start(s, now), 0, s(0));
    var all := steps + [Query];
    assert HonestSteps(s, all);
    var at := PlayKeeps(s, Start(s, now), 0, s(0), all);
    hide Play;
    assert all[|all| - 1] == Query;
  }

  // ---- what arrives is read ---------------------------------------------------

  /** `Play`, one step at a time from the end. */
  lemma {:induction false} PlayMore<T>(r: Receiver<T>, steps: seq<Step<T>>, more: seq<Step<T>>)
    requires Play(r, steps).2
    ensures var (u, out, _) := Play(r, steps); var (v, rest, ok) := Play(u, more);
            Play(r, steps + more) == (v, out + rest, ok)
    decreases |steps|
  {
    hide Received, Queried, Rational;
    var all := steps + more;
    if steps == [] {
      assert all == more;
      assert [] + Play(r, more).1 == Play(r, more).1;
    } else {
      assert all[1..] == steps[1..] + more && all[0] == steps[0];
      if steps[0].Arrive? {
        PlayMore(Received(r, steps[0].inst, steps[0].now), steps[1..], more);
      } else {
        var (t, diff) := Queried(r);
        PlayMore(t, steps[1..], more);
        var (u, out, _) := Play(t, steps[1..]);
        assert diff + (out + Play(u, more).1) == diff + out + Play(u, more).1;
      }
    }
  }

  /** Whatever a run throws away is older than `num`. */
  ghost predicate Spares<T>(steps: seq<Step<T>>, num: nat) {
    forall i | 0 <= i < |steps| :: steps[i].Arrive? ==> steps[i].inst.throwaway <= num
  }

  /** A state stays here over every run that does not throw it away. */
  lemma {:induction false} RunStays<T>(s: nat -> seq<T>, r: Receiver<T>, base: nat, seen: seq<T>, steps: seq<Step<T>>,
      num: nat)
    requires Log(s) && Good(s, r, base, seen) && HonestSteps(s, steps) && Holds(r.states, num) && Spares(steps, num)
    ensures Holds(Play(r, steps).0.states, num)
    decreases |steps|
  {
    hide Log, Received, Queried, Rational, Faithful, Holds;
    if steps != [] {
      assert HonestSteps(s, steps[1..]) && Spares(steps[1..], num);
      if steps[0].Arrive? {
        var inst, now := steps[0].inst, steps[0].now;
        ArriveKeeps(s, r, base, seen, inst, now);
        Stays(r, inst, now, num);
        RunStays(s, Received(r, inst, now), base, seen, steps[1..], num);
      } else {
        QueryKeeps(s, r, base, seen);
        var (t, diff) := Queried(r);
        QueryHolds(r, num);
        RunStays(s, t, |s(r.states[0].num)|, seen + diff, steps[1..], num);
      }
    }
  }

  lemma {:induction false} QueryHolds<T>(r: Receiver<T>, num: nat)
    requires Rational(r) && Holds(r.states, num)
    ensures Holds(Queried(r).0.states, num)
  {
    var i := FindHeld(r.states, num);
    assert Queried(r).0.states[i].num == num;
  }

  /** An instruction is taken unless too many entries are left and the queue is quenched. */
  ghost predicate Taken<T>(r: Receiver<T>, inst: Inst<T>, now: nat) {
    Holds(r.states, inst.old_) &&
    (Holds(r.states, inst.new_)
     || exists k :: Cut(r.states, inst.throwaway, k) && (|r.states| - k <= QUEUE_LIMIT || now >= r.quench))
  }

  /** An instruction that is taken is here afterwards, and the newest state is at least its. */
  lemma {:induction false} TakenIsHeld<T>(s: nat -> seq<T>, r: Receiver<T>, base: nat, seen: seq<T>, inst: Inst<T>,
      now: nat)
    requires Log(s) && Good(s, r, base, seen) && Honest(s, inst) && Taken(r, inst, now)
    ensures Holds(Received(r, inst, now).states, inst.new_)
    ensures r.states != [] && r.ack == Newest(r) && Received(r, inst, now).states != []
    ensures Received(r, inst, now).ack == Newest(Received(r, inst, now)) >= inst.new_
  {
    hide *;
    HonestThrows(s, inst);
    ArriveKeeps(s, r, base, seen, inst, now);
    var u := Received(r, inst, now);
    AckIsNewest(s, r, base, seen);
    AckIsNewest(s, u, base, seen);
    if Holds(r.states, inst.new_) {
      Ignored(r, inst, now);
    } else {
      var k, b := TakenParts(r, inst, now);
      var n := Arrives(r, inst, now, k, b);
      StillHeld(r.states, Stamped(now, inst.new_, r.states[b].state + inst.diff), k, n, b);
    }
    HeldBelow(u, inst.new_);
  }

  lemma {:induction false} HonestThrows<T>(s: nat -> seq<T>, inst: Inst<T>)
    requires Honest(s, inst)
    ensures inst.throwaway <= inst.old_
  {
  }

  lemma {:induction false} TakenParts<T>(r: Receiver<T>, inst: Inst<T>, now: nat) returns (k: nat, b: nat)
    requires Sorted(r.states) && Taken(r, inst, now) && !Holds(r.states, inst.new_) && inst.throwaway <= inst.old_
    ensures Cut(r.states, inst.throwaway, k) && k <= b < |r.states| && r.states[b].num == inst.old_
    ensures |r.states| - k <= QUEUE_LIMIT || now >= r.quench
  {
    k :| Cut(r.states, inst.throwaway, k) && (|r.states| - k <= QUEUE_LIMIT || now >= r.quench);
    b := FindHeld(r.states, inst.old_);
  }

  lemma {:induction false} HeldBelow<T>(r: Receiver<T>, num: nat)
    requires Sorted(r.states) && Holds(r.states, num)
    ensures r.states != [] && Newest(r) >= num
  {
    var i := FindHeld(r.states, num);
  }

  /** After any run: an instruction that is taken is read, with all before it, by the next query. */
  lemma {:induction false} TakenIsRead<T>(s: nat -> seq<T>, start: nat, steps: seq<Step<T>>, inst: Inst<T>, now: nat)
      returns (m: nat)
    requires Log(s) && HonestSteps(s, steps) && Honest(s, inst)
    requires Taken(Play(Start(s, start), steps).0, inst, now)
    ensures m >= inst.new_ && s(0) + Play(Start(s, start), steps + [Arrive(inst, now), Query]).1 == s(m)
  {
    hide Log, Received, Queried, Rational, Taken, Holds, Honest;
    assert Good(s, Start(s, start), 0, s(0));
    var at := PlayKeeps(s, Start(s, start), 0, s(0), steps);
    var (r, out, ok) := Play(Start(s, start), steps);
    TakenIsHeld(s, r, at, s(0) + out, inst, now);
    ArriveKeeps(s, r, at, s(0) + out, inst, now);
    var u := Received(r, inst, now);
    QueryKeeps(s, u, at, s(0) + out);
    PlayMore(Start(s, start), steps, [Arrive(inst, now), Query]);
    TwoSteps(r, inst, now);
    m := Newest(u);
    assert s(0) + (out + Queried(u).1) == s(0) + out + Queried(u).1;
  }

  lemma {:induction false} TwoSteps<T>(r: Receiver<T>, inst: Inst<T>, now: nat)
    requires Rational(Received(r, inst, now))
    ensures var (t, diff) := Queried(Received(r, inst, now)); Play(r, [Arrive(inst, now), Query]) == (t, diff, true)
  {
    hide Received, Queried, Rational;
    var u := Received(r, inst, now);
    var two: seq<Step<T>> := [Arrive(inst, now), Query];
    assert two[1..] == [Query] && two[1..][1..] == [];
    var (t, diff) := Queried(u);
    assert Play(t, []) == (t, [], true);
    assert Play(u, [Query]) == (t, diff + [], true);
    assert diff + [] == diff;
  }

  // ---- why back to front ----------------------------------------------------

  /** The same loop from the front, always subtracting the front as it then is. */
  function Forward<T(==)>(states: seq<Stamped<T>>, i: nat): seq<Stamped<T>>
    requires i <= |states| && forall k | i <= k < |states| && k > 0 :: |states[0].state| <= |states[k].state|
    decreases |states| - i
  {
    if i == |states| then states
    else
      var prefix := states[0].state;
      Forward(states[i := states[i].(state := if i == 0 then [] else states[i].state[|prefix|..])], i + 1)
  }

  lemma {:induction false} ForwardRest<T>(states: seq<Stamped<T>>, i: nat)
    requires 0 < i <= |states| && states[0].state == []
    ensures Forward(states, i) == states
    decreases |states| - i
  {
    if i < |states| {
      assert states[i].state[0..] == states[i].state;
      assert states[i := states[i]] == states;
      ForwardRest(states, i + 1);
    }
  }

  /** From the front, only the front is rebased: the two orders agree exactly when there is nothing
      to subtract or no one to subtract it from. */
  lemma {:induction false} ForwardForgets<T>(r: Receiver<T>)
    requires Rational(r)
    ensures Forward(r.states, 0) == r.states[0 := r.states[0].(state := [])]
    ensures Forward(r.states, 0) == Queried(r).0.states <==> r.states[0].state == [] || |r.states| == 1
  {
    var f := r.states[0 := r.states[0].(state := [])];
    ForwardRest(f, 1);
    var q := Queried(r).0.states;
    if r.states[0].state == [] || |r.states| == 1 {
      forall i | 0 <= i < |q|
        ensures q[i] == f[i]
      {
        var n := |r.states[0].state|;
        assert q[i].state == r.states[i].state[n..];
        assert i == 0 ==> q[i].state == [];
        assert n == 0 ==> q[i].state == r.states[i].state;
      }
    } else {
      var n := |r.states[0].state|;
      assert r.states[0].state <= r.states[1].state;
      assert q[1].state == r.states[1].state[n..];
      assert f[1] == r.states[1];
      assert |q[1].state| == |r.states[1].state| - n;
    }
  }
}
