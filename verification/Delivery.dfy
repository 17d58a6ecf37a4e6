/** The delivery protocol over every interleaving of producers, the worker and a Drain.

    Each step is one critical section, one channel operation or one finished send. */
module Delivery {
  import opened AlertModel
  import opened SendQueues

  datatype Fate = Handed | Dropped

  /** Where a goroutine running `drain` is. */
  datatype Place = Check | Fetch | Sending(item: Item)

  datatype Worker = NotStarted | Selecting | Delivering(at: Place, final: bool) | Exited

  datatype Drainer = NotCalled | Stopping(started: bool) | Self(at: Place) | Awaiting | Cancelled | Returned

  datatype System = System(
    capacity: nat,
    items: seq<Item>, queued: int, closed: bool, dropped: nat,
    work: bool, stop: bool, cancelled: bool,
    signalling: nat,            // producers between their append and their signal
    worker: Worker, drainer: Drainer,
    accepted: seq<Item>,        // every item that entered the queue, oldest first
    fates: seq<Fate>,           // what became of those that left it
    rejected: nat)              // alerts refused because the queue was closed

  datatype Action =
    | Enqueue(item: Item) | Signal
    | Start | Wake | Stop
    | WorkerCheck | WorkerFetch | WorkerSent
    | CallDrain | CloseStop | SelfCheck | SelfFetch | SelfSent | Done | Timeout | Joined

  function Init(capacity: nat): System {
    System(capacity, [], 0, false, 0, false, false, false, 0, NotStarted, NotCalled, [], [], 0)
  }

  ghost predicate Enabled(s: System, a: Action) {
    match a
    case Enqueue(_) => true
    case Signal => s.signalling > 0
    case Start => s.worker.NotStarted?
    case Wake => s.worker.Selecting? && s.work
    case Stop => s.worker.Selecting? && s.stop
    case WorkerCheck => s.worker.Delivering? && s.worker.at.Check?
    case WorkerFetch => s.worker.Delivering? && s.worker.at.Fetch?
    case WorkerSent => s.worker.Delivering? && s.worker.at.Sending?
    case CallDrain => s.drainer.NotCalled?
    case CloseStop => s.drainer.Stopping?
    case SelfCheck => s.drainer.Self? && s.drainer.at.Check?
    case SelfFetch => s.drainer.Self? && s.drainer.at.Fetch?
    case SelfSent => s.drainer.Self? && s.drainer.at.Sending?
    case Done => s.drainer.Awaiting? && s.worker.Exited?
    case Timeout => s.drainer.Awaiting?
    case Joined => s.drainer.Cancelled? && s.worker.Exited?
  }

  function Repeat(f: Fate, n: nat): (r: seq<Fate>)
    ensures |r| == n && forall i :: 0 <= i < n ==> r[i] == f
  {
    seq(n, _ => f)
  }

  function Enqueued(s: System, item: Item): System {
    if item.alerts == [] then s
    else if s.closed then s.(dropped := s.dropped + |item.alerts|, rejected := s.rejected + |item.alerts|)
    else
      var n := DropCount(s.items, |item.alerts|, s.capacity);
      s.(items := s.items[n..] + [item],
         queued := s.queued - Total(s.items[..n]) + |item.alerts|,
         dropped := s.dropped + Total(s.items[..n]),
         signalling := s.signalling + 1,
         accepted := s.accepted + [item],
         fates := s.fates + Repeat(Dropped, n))
  }

  function Abandoned(s: System): System {
    s.(items := [], queued := 0, dropped := s.dropped + Total(s.items), fates := s.fates + Repeat(Dropped, |s.items|))
  }

  function Taken(s: System): System
    requires s.items != []
  {
    s.(items := s.items[1..], queued := s.queued - |s.items[0].alerts|, fates := s.fates + [Handed])
  }

  /** The worker's drain is over: back to the select, or gone after the stop. */
  function Rest(s: System): System
    requires s.worker.Delivering?
  {
    s.(worker := if s.worker.final then Exited else Selecting)
  }

  function Apply(s: System, a: Action): System
    requires Enabled(s, a)
  {
    match a
    case Enqueue(item) => Enqueued(s, item)
    case Signal => s.(signalling := s.signalling - 1, work := true)
    case Start => s.(worker := Selecting)
    case Wake => s.(work := false, worker := Delivering(Check, false))
    case Stop => s.(worker := Delivering(Check, true))
    case WorkerCheck => if s.cancelled then Rest(Abandoned(s)) else s.(worker := s.worker.(at := Fetch))
    case WorkerFetch => if s.items == [] then Rest(s) else Taken(s).(worker := s.worker.(at := Sending(s.items[0])))
    case WorkerSent => s.(worker := s.worker.(at := Check))
    case CallDrain => s.(closed := true, drainer := Stopping(!s.worker.NotStarted?))
    case CloseStop => s.(stop := true, drainer := if s.drainer.started then Awaiting else Self(Check))
    case SelfCheck => if s.cancelled then Abandoned(s).(cancelled := true, drainer := Returned) else s.(drainer := Self(Fetch))
    case SelfFetch => if s.items == [] then s.(cancelled := true, drainer := Returned) else Taken(s).(drainer := Self(Sending(s.items[0])))
    case SelfSent => s.(drainer := Self(Check))
    case Done => s.(cancelled := true, drainer := Returned)
    case Timeout => s.(cancelled := true, drainer := Cancelled)
    case Joined => s.(drainer := Returned)
  }

  /** A run: every action was enabled when it happened. */
  ghost predicate Runs(s: System, actions: seq<Action>, t: System)
    decreases |actions|
  {
    if actions == [] then s == t
    else Enabled(s, actions[0]) && Runs(Apply(s, actions[0]), actions[1..], t)
  }

  /** The alerts of the items that met a fate. */
  function Sum(accepted: seq<Item>, fates: seq<Fate>, f: Fate): nat
    requires |fates| <= |accepted|
    decreases |fates|
  {
    if fates == [] then 0
    else
      var n := |fates| - 1;
      Sum(accepted, fates[..n], f) + if fates[n] == f then |accepted[n].alerts| else 0
  }

  /** The queue is a suffix of what was accepted, so whole batches leave it, oldest first; and
      every alert ever enqueued was handed over, was counted as dropped, or is still queued. */
  ghost predicate Ledger(items: seq<Item>, queued: int, dropped: int, accepted: seq<Item>, fates: seq<Fate>, rejected: nat) {
    && |fates| <= |accepted|
    && items == accepted[|fates|..]
    && queued == Total(items)
    && Total(accepted) == Sum(accepted, fates, Handed) + Sum(accepted, fates, Dropped) + queued
    && dropped == rejected + Sum(accepted, fates, Dropped)
  }

  /** A waiting batch is never forgotten: the worker is busy, or something will wake it. */
  ghost predicate NoLostWakeup(s: System) {
    s.items != [] && (s.worker.NotStarted? || s.worker.Selecting?) ==> s.work || s.stop || s.signalling > 0
  }

  /** Who has got how far. */
  ghost predicate Staged(s: System) {
    && (s.closed <==> !s.drainer.NotCalled?)
    && (s.stop <==> !s.drainer.NotCalled? && !s.drainer.Stopping?)
    && (s.worker.Exited? || (s.worker.Delivering? && s.worker.final) ==> s.stop)
    && (s.cancelled ==> s.drainer.Cancelled? || s.drainer.Returned?)
    && (s.drainer.Awaiting? || s.drainer.Cancelled? || (s.drainer.Stopping? && s.drainer.started) ==> !s.worker.NotStarted?)
    && (s.worker.Exited? || s.drainer.Returned? ==> s.items == [])
  }

  ghost predicate Inv(s: System) {
    && Sound(s.items, s.queued, s.capacity)
    && Ledger(s.items, s.queued, s.dropped, s.accepted, s.fates, s.rejected)
    && NoLostWakeup(s) && Staged(s)
  }

  lemma {:induction false} SumRepeat(accepted: seq<Item>, fates: seq<Fate>, f: Fate, n: nat, g: Fate)
    requires |fates| + n <= |accepted|
    ensures Sum(accepted, fates + Repeat(f, n), g) ==
            Sum(accepted, fates, g) + if f == g then Total(accepted[|fates|..|fates| + n]) else 0
  {
    var all := fates + Repeat(f, n);
    if n == 0 {
      assert all == fates;
    } else {
      SumRepeat(accepted, fates, f, n - 1, g);
      assert all[..|all| - 1] == fates + Repeat(f, n - 1);
      var k := |fates| + n - 1;
      assert accepted[|fates|..k + 1] == accepted[|fates|..k] + [accepted[k]];
      TotalConcat(accepted[|fates|..k], [accepted[k]]);
    }
  }

  lemma {:induction false} SumExtend(accepted: seq<Item>, more: seq<Item>, fates: seq<Fate>, f: Fate)
    requires |fates| <= |accepted|
    ensures Sum(accepted + more, fates, f) == Sum(accepted, fates, f)
  {
    if fates != [] {
      SumExtend(accepted, more, fates[..|fates| - 1], f);
    }
  }

  lemma LedgerDrop(items: seq<Item>, queued: int, dropped: int, accepted: seq<Item>, fates: seq<Fate>, rejected: nat, n: nat)
    requires Ledger(items, queued, dropped, accepted, fates, rejected) && n <= |items|
    ensures Ledger(items[n..], queued - Total(items[..n]), dropped + Total(items[..n]), accepted, fates + Repeat(Dropped, n), rejected)
  {
    TotalSplit(items, n);
    SumRepeat(accepted, fates, Dropped, n, Handed);
    SumRepeat(accepted, fates, Dropped, n, Dropped);
    assert accepted[|fates|..|fates| + n] == items[..n];
  }

  lemma LedgerAppend(items: seq<Item>, queued: int, dropped: int, accepted: seq<Item>, fates: seq<Fate>, rejected: nat, item: Item)
    requires Ledger(items, queued, dropped, accepted, fates, rejected)
    ensures Ledger(items + [item], queued + |item.alerts|, dropped, accepted + [item], fates, rejected)
  {
    TotalConcat(items, [item]);
    TotalConcat(accepted, [item]);
    SumExtend(accepted, [item], fates, Handed);
    SumExtend(accepted, [item], fates, Dropped);
  }

  lemma LedgerTake(items: seq<Item>, queued: int, dropped: int, accepted: seq<Item>, fates: seq<Fate>, rejected: nat)
    requires Ledger(items, queued, dropped, accepted, fates, rejected) && items != []
    ensures Ledger(items[1..], queued - |items[0].alerts|, dropped, accepted, fates + [Handed], rejected)
  {
    var more := fates + [Handed];
    assert more[..|more| - 1] == fates;
    assert accepted[|fates|] == items[0];
  }

  lemma LedgerEnqueue(items: seq<Item>, queued: int, dropped: int, accepted: seq<Item>, fates: seq<Fate>, rejected: nat, n: nat, item: Item)
    requires Ledger(items, queued, dropped, accepted, fates, rejected) && n <= |items|
    ensures Ledger(items[n..] + [item], queued - Total(items[..n]) + |item.alerts|, dropped + Total(items[..n]),
                   accepted + [item], fates + Repeat(Dropped, n), rejected)
    ensures Ledger(items, queued, dropped + |item.alerts|, accepted, fates, rejected + |item.alerts|)
  {
    LedgerDrop(items, queued, dropped, accepted, fates, rejected, n);
    LedgerAppend(items[n..], queued - Total(items[..n]), dropped + Total(items[..n]), accepted, fates + Repeat(Dropped, n), rejected, item);
    hide Total, Repeat, Sum;
  }

  lemma EnqueuedLedger(s: System, item: Item)
    requires Ledger(s.items, s.queued, s.dropped, s.accepted, s.fates, s.rejected)
    ensures var t := Enqueued(s, item); Ledger(t.items, t.queued, t.dropped, t.accepted, t.fates, t.rejected)
  {
    hide Ledger, Total, Repeat;
    var n := DropCount(s.items, |item.alerts|, s.capacity);
    LedgerEnqueue(s.items, s.queued, s.dropped, s.accepted, s.fates, s.rejected, n, item);
    hide DropCount;
  }

  lemma EnqueuedSound(items: seq<Item>, queued: int, capacity: nat, item: Item)
    requires Sound(items, queued, capacity) && item.alerts != []
    ensures var n := DropCount(items, |item.alerts|, capacity);
            Sound(items[n..] + [item], queued - Total(items[..n]) + |item.alerts|, capacity)
  {
    var n := DropCount(items, |item.alerts|, capacity);
    DropsTheLeast(items, |item.alerts|, capacity);
    TotalSplit(items, n);
    TotalConcat(items[n..], [item]);
  }

  lemma EnqueuedKeepsInv(s: System, item: Item)
    requires Inv(s)
    ensures Inv(Enqueued(s, item))
  {
    hide Ledger, Sound;
    EnqueuedLedger(s, item);
    if item.alerts != [] {
      EnqueuedSound(s.items, s.queued, s.capacity, item);
    }
  }

  lemma AbandonedAccounts(s: System)
    requires Ledger(s.items, s.queued, s.dropped, s.accepted, s.fates, s.rejected)
    ensures var t := Abandoned(s); Sound(t.items, t.queued, t.capacity) && Ledger(t.items, t.queued, t.dropped, t.accepted, t.fates, t.rejected)
  {
    LedgerDrop(s.items, s.queued, s.dropped, s.accepted, s.fates, s.rejected, |s.items|);
    assert s.items[..|s.items|] == s.items && s.items[|s.items|..] == [];
  }

  lemma TakenAccounts(s: System)
    requires s.items != [] && Sound(s.items, s.queued, s.capacity)
    requires Ledger(s.items, s.queued, s.dropped, s.accepted, s.fates, s.rejected)
    ensures var t := Taken(s); Sound(t.items, t.queued, t.capacity) && Ledger(t.items, t.queued, t.dropped, t.accepted, t.fates, t.rejected)
  {
    LedgerTake(s.items, s.queued, s.dropped, s.accepted, s.fates, s.rejected);
  }

  lemma ApplyKeepsInv(s: System, a: Action)
    requires Inv(s) && Enabled(s, a)
    ensures Inv(Apply(s, a))
  {
    hide Sound, Ledger;
    match a {
      case Enqueue(item) => EnqueuedKeepsInv(s, item);
      case WorkerCheck => AbandonedAccounts(s);
      case SelfCheck => AbandonedAccounts(s);
      case WorkerFetch => if s.items != [] { TakenAccounts(s); }
      case SelfFetch => if s.items != [] { TakenAccounts(s); }
      case _ =>
    }
  }

  /** The protocol's promises, in every state any interleaving can reach. */
  lemma {:induction false} EveryInterleavingKeepsInv(s: System, actions: seq<Action>, t: System)
    requires Inv(s) && Runs(s, actions, t)
    ensures Inv(t)
    decreases |actions|
  {
    if actions != [] {
      ApplyKeepsInv(s, actions[0]);
      EveryInterleavingKeepsInv(Apply(s, actions[0]), actions[1..], t);
    }
  }

  /** From a new queue, over any interleaving of any producers with the worker and a Drain. */
  lemma EveryReachableState(capacity: nat, actions: seq<Action>, t: System)
    requires Runs(Init(capacity), actions, t)
    ensures Inv(t)
    ensures t.drainer.Returned? ==> t.closed && t.items == []
  {
    InitInv(capacity);
    hide Runs, Ledger, Sound, NoLostWakeup;
    EveryInterleavingKeepsInv(Init(capacity), actions, t);
  }

  lemma InitInv(capacity: nat)
    ensures Inv(Init(capacity))
  {
    NewInv(Init(capacity));
    hide Inv;
  }

  lemma NewInv(s: System)
    requires s.items == [] && s.accepted == [] && s.fates == [] && s.queued == s.dropped == s.rejected == 0
    requires s.worker.NotStarted? && s.drainer.NotCalled? && !s.closed && !s.stop && !s.cancelled
    ensures Inv(s)
  {
  }

  /** After a Drain has returned the queue stays empty, whatever is still enqueued. */
  lemma {:induction false} StaysEmptyAfterDrain(s: System, actions: seq<Action>, t: System)
    requires Inv(s) && s.drainer.Returned? && Runs(s, actions, t)
    ensures t.drainer.Returned? && t.items == [] && t.accepted == s.accepted
    decreases |actions|
  {
    if actions != [] {
      ApplyKeepsInv(s, actions[0]);
      var next := Apply(s, actions[0]);
      assert next.drainer.Returned? && next.accepted == s.accepted;
      StaysEmptyAfterDrain(next, actions[1..], t);
    }
  }

  function PlaceRank(p: Place): nat {
    match p
    case Check => 3
    case Fetch => 2
    case Sending(_) => 4
  }

  function WorkerRank(w: Worker): nat {
    match w
    case NotStarted => 7
    case Selecting => 6
    case Delivering(p, final) => PlaceRank(p) + if final then 0 else 5
    case Exited => 0
  }

  function DrainerRank(d: Drainer): nat {
    match d
    case NotCalled => 7
    case Stopping(_) => 6
    case Self(p) => PlaceRank(p)
    case Awaiting => 2
    case Cancelled => 1
    case Returned => 0
  }

  /** How much work is left once nothing new is accepted. */
  function Remaining(s: System): nat {
    4 * |s.items| + 6 * s.signalling + (if s.work then 5 else 0) + WorkerRank(s.worker) + DrainerRank(s.drainer)
  }

  /** Once closed, every step but a refused enqueue uses up some of what is left. */
  lemma ClosedMakesProgress(s: System, a: Action)
    requires Inv(s) && s.closed && Enabled(s, a) && !a.Enqueue?
    ensures Apply(s, a).closed && Remaining(Apply(s, a)) < Remaining(s)
  {
    hide Sound, Ledger;
  }

  /** While a Drain is under way some step other than an enqueue can be taken. */
  lemma DrainIsNeverStuck(s: System) returns (a: Action)
    requires Inv(s) && s.closed && !s.drainer.Returned?
    ensures Enabled(s, a) && !a.Enqueue?
  {
    match s.drainer {
      case Stopping(_) => a := CloseStop;
      case Self(Check) => a := SelfCheck;
      case Self(Fetch) => a := SelfFetch;
      case Self(Sending(_)) => a := SelfSent;
      case Awaiting => a := Timeout;
      case Cancelled =>
        match s.worker {
          case Selecting => a := Stop;
          case Delivering(Check, _) => a := WorkerCheck;
          case Delivering(Fetch, _) => a := WorkerFetch;
          case Delivering(Sending(_), _) => a := WorkerSent;
          case Exited => a := Joined;
        }
    }
  }

  /** So a Drain returns: there is a run that ends it, and none can put it off for more steps
      than were left when the queue was closed. */
  lemma {:induction false} DrainReturns(s: System) returns (actions: seq<Action>, t: System)
    requires Inv(s) && s.closed
    ensures Runs(s, actions, t) && t.drainer.Returned? && t.items == []
    ensures |actions| <= Remaining(s)
    decreases Remaining(s)
  {
    if s.drainer.Returned? {
      return [], s;
    }
    var a := DrainIsNeverStuck(s);
    ClosedMakesProgress(s, a);
    ApplyKeepsInv(s, a);
    var rest;
    rest, t := DrainReturns(Apply(s, a));
    actions := [a] + rest;
    assert actions[1..] == rest;
  }

  /** The steps of a run that are not refused enqueues. */
  function Work(actions: seq<Action>): nat {
    if actions == [] then 0 else (if actions[0].Enqueue? then 0 else 1) + Work(actions[1..])
  }

  lemma ClosedRefuses(s: System, a: Action)
    requires s.closed && a.Enqueue?
    ensures Apply(s, a).closed && Remaining(Apply(s, a)) == Remaining(s)
  {
  }

  lemma {:induction false} NoEndlessDrain(s: System, actions: seq<Action>, t: System)
    requires Inv(s) && s.closed && Runs(s, actions, t)
    ensures Work(actions) + Remaining(t) <= Remaining(s)
    decreases |actions|
  {
    if actions != [] {
      var a := actions[0];
      ApplyKeepsInv(s, a);
      if a.Enqueue? {
        ClosedRefuses(s, a);
      } else {
        ClosedMakesProgress(s, a);
      }
      hide Inv, Enabled, Apply, Remaining;
      NoEndlessDrain(Apply(s, a), actions[1..], t);
    }
  }
}
