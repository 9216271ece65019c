// zz-mosh/src/network/networktransport-impl.h: the receiving half of the state-synchronization
// transport, for a remote state that is an append-only log (zz-mosh/src/statesync/user.cc). The
// functions say what one call does; class `Transport` updates its list in place the way the source
// does and is proved to agree.
module Transports {
  const QUEUE_LIMIT := 1024
  const QUENCH_MS := 15000

  /** A complete instruction; its diff is the list of events it appends. */
  datatype Inst<T> = Inst(old_: nat, new_: nat, ack: nat, throwaway: nat, diff: seq<T>)

  datatype Stamped<T> = Stamped(at: nat, num: nat, state: seq<T>)

  datatype Receiver<T> = Receiver(states: seq<Stamped<T>>, last: seq<T>, quench: nat, ack: nat)

  predicate Has<T>(states: seq<Stamped<T>>, num: nat) {
    exists i | 0 <= i < |states| :: states[i].num == num
  }

  /** The first entry with this number. */
  function IndexOf<T>(states: seq<Stamped<T>>, num: nat): (i: nat)
    requires Has(states, num)
    ensures i < |states| && states[i].num == num
  {
    if states[0].num == num then 0 else
      assert Has(states[1..], num) by {
        var k :| 0 <= k < |states| && states[k].num == num;
        assert states[1..][k - 1].num == num;
      }
      1 + IndexOf(states[1..], num)
  }

  /** `process_throwaway_until`. */
  function Kept<T>(states: seq<Stamped<T>>, throwaway: nat): seq<Stamped<T>> {
    if states == [] then []
    else (if states[0].num < throwaway then [] else [states[0]]) + Kept(states[1..], throwaway)
  }

  /** How many entries, from the front, are not newer than `num`. */
  function Older<T>(states: seq<Stamped<T>>, num: nat): (n: nat)
    ensures n <= |states|
    ensures n < |states| ==> states[n].num > num
    ensures forall i | 0 <= i < n :: states[i].num <= num
  {
    if states == [] || states[0].num > num then 0 else 1 + Older(states[1..], num)
  }

  /** One complete instruction. It is ignored if its state is already here or its reference state is
      not, and turned away while the queue is over its limit and quenched. */
  function Received<T>(r: Receiver<T>, inst: Inst<T>, now: nat): Receiver<T> {
    if Has(r.states, inst.new_) || !Has(r.states, inst.old_) then r
    else
      var base := r.states[IndexOf(r.states, inst.old_)].state;
      var kept := Kept(r.states, inst.throwaway);
      if |kept| > QUEUE_LIMIT && now < r.quench then r.(states := kept)
      else
        var s := Stamped(now, inst.new_, base + inst.diff);
        var n := Older(kept, inst.new_);
        Receiver(kept[..n] + [s] + kept[n..], r.last,
                 if |kept| > QUEUE_LIMIT then now + QUENCH_MS else r.quench,
                 if n == |kept| then inst.new_ else r.ack)
  }

  /** What `get_remote_diff` asserts about its states: the last answer is a prefix of the newest
      state, and the oldest state of every one. */
  predicate Rational<T(==)>(r: Receiver<T>) {
    && r.states != [] && r.last <= r.states[|r.states| - 1].state
    && forall i | 0 <= i < |r.states| :: r.states[0].state <= r.states[i].state
  }

  function Rebased<T>(s: Stamped<T>, n: nat): Stamped<T>
    requires n <= |s.state|
  {
    s.(state := s.state[n..])
  }

  /** The new events, and every state relative to the oldest one. */
  function Queried<T(==)>(r: Receiver<T>): (q: (Receiver<T>, seq<T>))
    requires Rational(r)
    ensures |q.0.states| == |r.states|
  {
    var n := |r.states[0].state|;
    var newest := r.states[|r.states| - 1].state;
    var states := seq(|r.states|, i requires 0 <= i < |r.states| => Rebased(r.states[i], n));
    (r.(states := states, last := newest[n..]), newest[|r.last|..])
  }

  class Transport<T(==)> {
    var states: seq<Stamped<T>>
    var last: seq<T>
    var quench: nat
    var ack: nat

    function View(): Receiver<T>
      reads this
    {
      Receiver(states, last, quench, ack)
    }

    constructor (now: nat, initial: seq<T>)
      ensures View() == Receiver([Stamped(now, 0, initial)], initial, 0, 0)
    {
      states, last, quench, ack := [Stamped(now, 0, initial)], initial, 0, 0;
    }

    /** The list must not run empty: the sender still refers to a state it told us to keep. */
    method ProcessThrowawayUntil(throwaway: nat)
      requires Kept(states, throwaway) != []
      modifies this
      ensures View() == old(View()).(states := Kept(old(states), throwaway))
    {
      hide Kept;
      var i := 0;
      ghost var all := states;
      KeptEnds(all, throwaway);
      while i < |states|
        invariant 0 <= i <= |states| && View() == old(View()).(states := states)
        invariant states[..i] + Kept(states[i..], throwaway) == Kept(all, throwaway)
        decreases |states| - i
      {
        KeptStep(states, i, throwaway);
        if states[i].num < throwaway {
          states := states[..i] + states[i + 1..];
        } else {
          i := i + 1;
        }
      }
      KeptEnds(states, throwaway);
    }

    /** `recv` after reassembly. The sender never tells us to throw its reference state away. */
    method Recv(inst: Inst<T>, now: nat)
      requires inst.throwaway <= inst.old_
      modifies this
      ensures View() == Received(old(View()), inst, now)
    {
      hide Kept, Older, Has, IndexOf;
      var known, _ := Find(inst.new_);
      if known { return; }
      var found, ref := Find(inst.old_);
      if !found { return; }
      KeptHolds(states, inst.throwaway, ref);
      var reference := states[ref];
      ProcessThrowawayUntil(inst.throwaway);
      if |states| > QUEUE_LIMIT {
        if now < quench { return; }
        quench := now + QUENCH_MS;
      }
      var s := reference.(at := now, num := inst.new_);
      if inst.diff != [] { s := s.(state := s.state + inst.diff); }
      assert s.state == reference.state + inst.diff;
      InsertSorted(s);
    }

    method Find(num: nat) returns (found: bool, ref: nat)
      ensures found <==> Has(states, num)
      ensures found ==> ref == IndexOf(states, num) < |states| && states[ref].num == num
    {
      found, ref := false, 0;
      while !found && ref < |states|
        invariant ref <= |states| && forall k | 0 <= k < ref :: states[k].num != num
        invariant found ==> ref < |states| && states[ref].num == num
        decreases |states| - ref, !found
      {
        if states[ref].num == num { found := true; } else { ref := ref + 1; }
      }
      if found { FirstIs(states, num, ref); }
    }

    /** Before the first newer entry; at the end the new number becomes the acknowledged one. */
    method InsertSorted(s: Stamped<T>)
      modifies this
      ensures var n := Older(old(states), s.num);
              View() == old(View()).(states := old(states)[..n] + [s] + old(states)[n..],
                                     ack := if n == |old(states)| then s.num else old(ack))
    {
      ghost var n := Older(states, s.num);
      for i := 0 to |states|
        invariant View() == old(View()) && i <= n
      {
        if states[i].num > s.num {
          states := states[..i] + [s] + states[i..];
          return;
        }
      }
      assert states[..n] == states && states[n..] == [];
      states := states + [s];
      ack := states[|states| - 1].num;
    }

    /** Back to front: the oldest state, which is subtracted from all others, is itself cleared last. */
    method GetRemoteDiff() returns (diff: seq<T>)
      requires Rational(View())
      modifies this
      ensures (View(), diff) == Queried(old(View()))
    {
      diff := states[|states| - 1].state[|last|..];
      ghost var r, goal := View(), Queried(View()).0.states;
      var i := |states|;
      while i > 0
        invariant 0 <= i <= |states| == |r.states| == |goal| && View() == r.(states := states)
        invariant forall k | 0 <= k < i :: states[k] == r.states[k]
        invariant forall k | i <= k < |states| :: states[k] == goal[k]
      {
        i := i - 1;
        var prefix := states[0].state;
        states := states[i := states[i].(state := if i == 0 then [] else states[i].state[|prefix|..])];
      }
      assert states == goal;
      last := states[|states| - 1].state;
    }
  }

  lemma {:induction false} FirstIs<T>(states: seq<Stamped<T>>, num: nat, i: nat)
    requires i < |states| && states[i].num == num && forall k | 0 <= k < i :: states[k].num != num
    ensures Has(states, num) && IndexOf(states, num) == i
    decreases i
  {
    if i > 0 { FirstIs(states[1..], num, i - 1); }
  }

  lemma {:induction false} KeptEnds<T>(states: seq<Stamped<T>>, throwaway: nat)
    ensures states[..0] + Kept(states[0..], throwaway) == Kept(states, throwaway)
    ensures states[..|states|] + Kept(states[|states|..], throwaway) == states
  {
    assert states[0..] == states && states[|states|..] == [];
  }

  lemma {:induction false} KeptStep<T>(states: seq<Stamped<T>>, i: nat, throwaway: nat)
    requires i < |states|
    ensures states[..i] + Kept(states[i..], throwaway) ==
      if states[i].num < throwaway then
        var t := states[..i] + states[i + 1..]; t[..i] + Kept(t[i..], throwaway)
      else states[..i + 1] + Kept(states[i + 1..], throwaway)
  {
    assert states[i..][1..] == states[i + 1..];
    var t := states[..i] + states[i + 1..];
    assert t[i..] == states[i + 1..] && t[..i] == states[..i];
    assert states[..i + 1] == states[..i] + [states[i]];
  }

  lemma {:induction false} KeptHolds<T>(states: seq<Stamped<T>>, throwaway: nat, i: nat)
    requires i < |states| && throwaway <= states[i].num
    ensures Kept(states, throwaway) != []
    decreases i
  {
    if i > 0 { KeptHolds(states[1..], throwaway, i - 1); }
  }
}
