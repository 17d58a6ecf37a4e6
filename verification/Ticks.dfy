/** The tick loop of one rule group: every boundary is run or counted as missed. */
module Ticks {
  import opened AlertModel
  import Machine

  /** How many boundaries after `tick` were already past at `now`. */
  function Skipped(tick: Time, interval: Time, now: Time): (missed: nat)
    requires interval > 0
  {
    if now <= tick + interval then 0 else (now - tick + interval - 1) / interval - 1
  }

  /** Moves past the boundaries an evaluation overran. Needs a positive interval: without one
      the loop does not end, and nothing in the modelled code checks it. */
  method CatchUp(tick: Time, interval: Time, now: Time) returns (next: Time, missed: nat)
    requires interval > 0
    ensures missed == Skipped(tick, interval, now)
    ensures next == tick + (missed + 1) * interval
    ensures next >= now
    ensures missed > 0 ==> next - interval < now
  {
    missed := 0;
    next := tick + interval;
    while next < now
      invariant next == tick + (missed + 1) * interval
      invariant missed > 0 ==> next - interval < now
      decreases now - next
    {
      next := next + interval;
      missed := missed + 1;
    }
    CountsCeiling(tick, interval, now, missed);
  }

  lemma CountsCeiling(tick: Time, interval: Time, now: Time, missed: nat)
    requires interval > 0
    requires tick + (missed + 1) * interval >= now
    requires missed > 0 ==> tick + missed * interval < now
    ensures missed == Skipped(tick, interval, now)
  {
    if missed > 0 {
      DivUnique(now - tick + interval - 1, interval, missed + 1);
    }
  }

  lemma DivUnique(x: int, d: int, q: int)
    requires d > 0 && q * d <= x < (q + 1) * d
    ensures x / d == q
  {
    var p := x / d;
    assert p * d <= x < (p + 1) * d;
    if p < q {
      Machine.KeepsOrder(p + 1, q, d);
    } else if p > q {
      Machine.KeepsOrder(q + 1, p, d);
    }
  }

  /** One group: where it ticks next, what it ran, what it skipped. */
  class Group {
    const start: Time
    const interval: Time
    var next: Time
    var ran: seq<Time>
    var missed: nat

    ghost predicate Valid()
      reads this
    {
      interval > 0 && Accounts(start, interval, ran, missed, next)
    }

    constructor (start: Time, interval: Time)
      requires interval > 0
      ensures Valid() && ran == [] && missed == 0 && next == start
    {
      this.start, this.interval, next, ran, missed := start, interval, start, [], 0;
    }

    /** One iteration; `done` is the clock when the evaluation returned. */
    method Iterate(done: Time)
      requires Valid()
      modifies this
      ensures Valid()
      ensures ran == old(ran) + [old(next)]
      ensures missed == old(missed) + Skipped(old(next), interval, done)
      ensures next >= done
    {
      var tick := next;
      var skipped: nat;
      next, skipped := CatchUp(tick, interval, done);
      ran := ran + [tick];
      missed := missed + skipped;
      AccountsStep(start, interval, old(ran), old(missed), tick, skipped);
    }
  }

  /** The boundary a tick is on. */
  predicate OnBoundary(start: Time, interval: Time, t: Time, k: nat) {
    t == start + k * interval
  }

  ghost predicate Among(start: Time, interval: Time, t: Time, from: nat, to: nat) {
    exists k: nat :: from <= k < to && OnBoundary(start, interval, t, k)
  }

  /** Every boundary before `next` was run or missed, and none was both: the ticks that ran are
      distinct boundaries in order, and with the missed ones they add up. */
  ghost predicate Accounts(start: Time, interval: Time, ran: seq<Time>, missed: nat, next: Time) {
    && next == start + (|ran| + missed) * interval
    && (forall i :: 0 <= i < |ran| ==> Among(start, interval, ran[i], i, |ran| + missed))
    && (forall i, j :: 0 <= i < j < |ran| ==> ran[i] < ran[j])
    && (forall i :: 0 <= i < |ran| ==> ran[i] < next)
  }

  lemma AccountsStep(start: Time, interval: Time, ran: seq<Time>, missed: nat, next: Time, skipped: nat)
    requires interval > 0 && Accounts(start, interval, ran, missed, next)
    ensures Accounts(start, interval, ran + [next], missed + skipped, next + (skipped + 1) * interval)
  {
    var n := |ran| + missed;
    assert OnBoundary(start, interval, next, n);
    assert next + (skipped + 1) * interval == start + (n + skipped + 1) * interval;
    assert (skipped + 1) * interval >= interval;
    var more := ran + [next];
    var total := |more| + (missed + skipped);
    forall i | 0 <= i < |more| ensures Among(start, interval, more[i], i, total) {
      if i < |ran| {
        var k: nat :| i <= k < |ran| + missed && OnBoundary(start, interval, ran[i], k);
        assert OnBoundary(start, interval, more[i], k);
      } else {
        assert OnBoundary(start, interval, more[i], n);
      }
    }
  }

  /** The whole loop over any readings of the clock. */
  function NextTick(start: Time, interval: Time, readings: seq<Time>): Time
    requires interval > 0
  {
    if readings == [] then start
    else
      var tick := NextTick(start, interval, readings[..|readings| - 1]);
      tick + (Skipped(tick, interval, readings[|readings| - 1]) + 1) * interval
  }

  function Missed(start: Time, interval: Time, readings: seq<Time>): nat
    requires interval > 0
  {
    if readings == [] then 0
    else
      var rest := readings[..|readings| - 1];
      Missed(start, interval, rest) + Skipped(NextTick(start, interval, rest), interval, readings[|readings| - 1])
  }

  /** Iterations and missed iterations always add up to the boundaries gone by. */
  lemma {:induction false} NothingUncounted(start: Time, interval: Time, readings: seq<Time>)
    requires interval > 0
    ensures NextTick(start, interval, readings) - start == (|readings| + Missed(start, interval, readings)) * interval
    ensures (NextTick(start, interval, readings) - start) / interval == |readings| + Missed(start, interval, readings)
  {
    var n := |readings| + Missed(start, interval, readings);
    if readings != [] {
      var rest := readings[..|readings| - 1];
      NothingUncounted(start, interval, rest);
      var m := |rest| + Missed(start, interval, rest);
      var s := Skipped(NextTick(start, interval, rest), interval, readings[|readings| - 1]);
      assert m * interval + (s + 1) * interval == (m + s + 1) * interval;
    }
    assert n * interval < (n + 1) * interval;
    DivUnique(n * interval, interval, n);
  }
}
