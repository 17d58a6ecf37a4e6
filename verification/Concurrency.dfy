/** The ruler-wide and the per-source cap on running queries, over every interleaving of any
    number of them.

    A step is one channel send or receive, one gauge update, or one look at a cancelled context. */
module Concurrency {
  import opened Options

  /** Where a query is between asking for its slots and having given them back. */
  datatype Place =
    | Idle           // not asked yet
    | AtGlobal       // counted in flight, waiting for the ruler-wide slot
    | AtSource       // holding the ruler-wide slot, waiting for the source's
    | Running        // holding both
    | SourceFreed    // the source's slot given back
    | BackingOut     // abandoned while waiting for the source's slot
    | Leaving        // no slot held, still counted in flight
    | Gone

  datatype Action = Enter | TakeGlobal | TakeSource | Finish | FreeGlobal | Leave | Abandon

  /** A missing limit is a nil semaphore, which bounds nothing. */
  datatype Limits = Limits(global: Option<nat>, bySource: map<string, nat>)

  datatype System = System(
    limits: Limits, sources: seq<string>, places: seq<Place>,
    globalUsed: int, sourceUsed: map<string, int>, inFlight: int, cancelled: bool)

  datatype Cap = Cap(name: string, limit: int)

  /** The limit of a source is the first positive one listed under its name. */
  function FirstCap(caps: seq<Cap>, name: string): Option<nat> {
    if caps == [] then None
    else if caps[0].name == name && caps[0].limit > 0 then Some(caps[0].limit)
    else FirstCap(caps[1..], name)
  }

  predicate Caps(caps: seq<Cap>, i: int, name: string) {
    0 <= i < |caps| && caps[i].name == name && caps[i].limit > 0
  }

  ghost predicate CapsFirst(caps: seq<Cap>, i: int, name: string) {
    Caps(caps, i, name) && forall j :: 0 <= j < i ==> !Caps(caps, j, name)
  }

  lemma {:induction false} FirstCapExactly(caps: seq<Cap>, name: string, limit: nat)
    ensures FirstCap(caps, name) == Some(limit) <==> exists i :: CapsFirst(caps, i, name) && caps[i].limit == limit
  {
    if caps != [] {
      FirstCapExactly(caps[1..], name, limit);
      if Caps(caps, 0, name) {
        assert CapsFirst(caps, 0, name);
      } else {
        forall i | 0 <= i < |caps| - 1 ensures CapsFirst(caps[1..], i, name) <==> CapsFirst(caps, i + 1, name) {
          LaterCap(caps, i, name);
        }
        if i :| CapsFirst(caps, i, name) && caps[i].limit == limit {
          assert CapsFirst(caps[1..], i - 1, name) <==> CapsFirst(caps, i - 1 + 1, name);
        }
      }
    }
  }

  lemma LaterCap(caps: seq<Cap>, i: nat, name: string)
    requires i < |caps| - 1 && !Caps(caps, 0, name)
    ensures CapsFirst(caps[1..], i, name) <==> CapsFirst(caps, i + 1, name)
  {
    forall j | 0 <= j < |caps| - 1 ensures Caps(caps[1..], j, name) <==> Caps(caps, j + 1, name) {
    }
    if CapsFirst(caps, i + 1, name) {
      forall j | 0 <= j < i ensures !Caps(caps[1..], j, name) {
        assert !Caps(caps, j + 1, name);
      }
    }
    if CapsFirst(caps[1..], i, name) {
      forall j | 0 <= j < i + 1 ensures !Caps(caps, j, name) {
        assert j > 0 ==> !Caps(caps[1..], j - 1, name);
      }
    }
  }

  ghost predicate Positive(l: Limits) {
    && (l.global.Some? ==> l.global.value > 0)
    && (forall n :: n in l.bySource ==> l.bySource[n] > 0)
  }

  method NewLimits(global: int, caps: seq<Cap>) returns (l: Limits)
    ensures l.global == if global <= 0 then None else Some(global)
    ensures forall n :: Get(l.bySource, n) == FirstCap(caps, n)
    ensures Positive(l)
  {
    var bySource: map<string, nat> := map[];
    for i := 0 to |caps|
      invariant forall n :: FirstCap(caps, n) == if n in bySource then Some(bySource[n]) else FirstCap(caps[i..], n)
      invariant forall n :: n in bySource ==> bySource[n] > 0
    {
      assert caps[i..][1..] == caps[i + 1..];
      if caps[i].limit > 0 && caps[i].name !in bySource {
        bySource := bySource[caps[i].name := caps[i].limit];
      }
    }
    l := Limits(if global <= 0 then None else Some(global), bySource);
  }

  predicate HoldsGlobal(p: Place) {
    p.AtSource? || p.Running? || p.SourceFreed? || p.BackingOut?
  }

  predicate HoldsSource(p: Place) {
    p.Running?
  }

  predicate InFlight(p: Place) {
    !p.Idle? && !p.Gone?
  }

  // Counting queries.

  /** What a sum over the queries counts. */
  datatype Weight = Flying | HoldingGlobal | RunningOn(name: string) | HeldFor(name: string) | ToGo

  function Of(w: Weight, p: Place, source: string): nat {
    match w
    case Flying => One(InFlight(p))
    case HoldingGlobal => One(HoldsGlobal(p))
    case RunningOn(name) => One(source == name && HoldsSource(p))
    case HeldFor(name) => One(source == name && HoldsGlobal(p))
    case ToGo => Distance(p)
  }

  function Sum(places: seq<Place>, sources: seq<string>, weight: Weight): nat
    requires |places| == |sources|
  {
    if places == [] then 0
    else Sum(places[1..], sources[1..], weight) + Of(weight, places[0], sources[0])
  }

  lemma {:induction false} SumUpdate(places: seq<Place>, sources: seq<string>, weight: Weight, i: nat, p: Place)
    requires |places| == |sources| && i < |places|
    ensures Sum(places[i := p], sources, weight) == Sum(places, sources, weight) - Of(weight, places[i], sources[i]) + Of(weight, p, sources[i])
    ensures Sum(places, sources, weight) >= Of(weight, places[i], sources[i])
  {
    if i == 0 {
      assert places[i := p][1..] == places[1..];
    } else {
      assert places[i := p][1..] == places[1..][i - 1 := p];
      SumUpdate(places[1..], sources[1..], weight, i - 1, p);
    }
  }

  lemma {:induction false} SumZero(places: seq<Place>, sources: seq<string>, weight: Weight)
    requires |places| == |sources|
    requires forall i :: 0 <= i < |places| ==> Of(weight, places[i], sources[i]) == 0
    ensures Sum(places, sources, weight) == 0
  {
    if places != [] {
      SumZero(places[1..], sources[1..], weight);
    }
  }

  /** Something counted can be pointed at. */
  lemma {:induction false} SumWitness(places: seq<Place>, sources: seq<string>, weight: Weight) returns (i: nat)
    requires |places| == |sources| && Sum(places, sources, weight) > 0
    ensures i < |places| && Of(weight, places[i], sources[i]) > 0
  {
    if Of(weight, places[0], sources[0]) > 0 {
      i := 0;
    } else {
      i := SumWitness(places[1..], sources[1..], weight);
      i := i + 1;
    }
  }

  lemma {:induction false} SumBelow(places: seq<Place>, sources: seq<string>, low: Weight, high: Weight)
    requires |places| == |sources|
    requires forall p, s :: Of(low, p, s) <= Of(high, p, s)
    ensures Sum(places, sources, low) <= Sum(places, sources, high)
  {
    if places != [] {
      SumBelow(places[1..], sources[1..], low, high);
    }
  }

  function One(b: bool): nat {
    if b then 1 else 0
  }

  // Steps.

  predicate Free(limit: Option<nat>, used: int) {
    limit.None? || used < limit.value
  }

  predicate Enabled(s: System, i: nat, a: Action) {
    && i < |s.places| == |s.sources|
    && var at := s.places[i];
       var cap := Get(s.limits.bySource, s.sources[i]);
       match a
       case Enter => at.Idle?
       case TakeGlobal => at.AtGlobal? && Free(s.limits.global, s.globalUsed)
       case TakeSource => at.AtSource? && (s.sources[i] in s.limits.bySource ==> s.sources[i] in s.sourceUsed && s.sourceUsed[s.sources[i]] < s.limits.bySource[s.sources[i]])
       case Finish => at.Running?
       case FreeGlobal => at.SourceFreed? || at.BackingOut?
       case Leave => at.Leaving?
       case Abandon => s.cancelled && (at.AtGlobal? || at.AtSource?)
  }

  function AddGlobal(s: System, d: int): System {
    if s.limits.global.None? then s else s.(globalUsed := s.globalUsed + d)
  }

  function AddSource(s: System, name: string, d: int): System {
    if name in s.limits.bySource && name in s.sourceUsed then s.(sourceUsed := s.sourceUsed[name := s.sourceUsed[name] + d]) else s
  }

  function Target(a: Action, from: Place): Place {
    match a
    case Enter => AtGlobal
    case TakeGlobal => AtSource
    case TakeSource => Running
    case Finish => SourceFreed
    case FreeGlobal => Leaving
    case Leave => Gone
    case Abandon => if from.AtSource? then BackingOut else Leaving
  }

  function Step(s: System, i: nat, a: Action): System
    requires Enabled(s, i, a)
  {
    var moved := s.(places := s.places[i := Target(a, s.places[i])]);
    match a
    case Enter => moved.(inFlight := s.inFlight + 1)
    case TakeGlobal => AddGlobal(moved, 1)
    case TakeSource => AddSource(moved, s.sources[i], 1)
    case Finish => AddSource(moved, s.sources[i], -1)
    case FreeGlobal => AddGlobal(moved, -1)
    case Leave => moved.(inFlight := s.inFlight - 1)
    case Abandon => moved
  }

  function Start(limits: Limits, sources: seq<string>): System {
    System(limits, sources, seq(|sources|, _ => Idle), 0, map n | n in limits.bySource :: 0, 0, false)
  }

  datatype Event = Acts(i: nat, action: Action) | Cancel

  ghost predicate Runs(s: System, events: seq<Event>, t: System)
    decreases |events|
  {
    if events == [] then s == t
    else match events[0]
      case Cancel => Runs(s.(cancelled := true), events[1..], t)
      case Acts(i, a) => Enabled(s, i, a) && Runs(Step(s, i, a), events[1..], t)
  }

  /** The channels hold exactly the slots of the queries holding them, never more than their
      capacity, and the gauge counts exactly the queries between entering and leaving. */
  ghost predicate Inv(s: System) {
    && |s.places| == |s.sources|
    && Positive(s.limits)
    && s.sourceUsed.Keys == s.limits.bySource.Keys
    && s.inFlight == Sum(s.places, s.sources, Flying)
    && (s.limits.global.Some? ==> s.globalUsed == Sum(s.places, s.sources, HoldingGlobal) <= s.limits.global.value)
    && (forall n :: n in s.limits.bySource ==> SourceCounted(s, n))
  }

  ghost predicate SourceCounted(s: System, n: string)
    requires |s.places| == |s.sources|
  {
    && n in s.sourceUsed && n in s.limits.bySource
    && s.sourceUsed[n] == Sum(s.places, s.sources, RunningOn(n)) <= s.limits.bySource[n]
  }

  lemma StartInv(limits: Limits, sources: seq<string>)
    requires Positive(limits)
    ensures Inv(Start(limits, sources))
  {
    var s := Start(limits, sources);
    SumZero(s.places, s.sources, Flying);
    SumZero(s.places, s.sources, HoldingGlobal);
    forall n | n in limits.bySource ensures SourceCounted(s, n) {
      SumZero(s.places, s.sources, RunningOn(n));
    }
  }

  lemma StepCountsFlight(s: System, i: nat, a: Action)
    requires |s.places| == |s.sources| && Enabled(s, i, a)
    requires s.inFlight == Sum(s.places, s.sources, Flying)
    ensures var t := Step(s, i, a); t.inFlight == Sum(t.places, t.sources, Flying)
  {
    SumUpdate(s.places, s.sources, Flying, i, Target(a, s.places[i]));
  }

  lemma StepCountsGlobal(s: System, i: nat, a: Action)
    requires |s.places| == |s.sources| && Enabled(s, i, a) && s.limits.global.Some?
    requires s.globalUsed == Sum(s.places, s.sources, HoldingGlobal) <= s.limits.global.value
    ensures var t := Step(s, i, a); t.globalUsed == Sum(t.places, t.sources, HoldingGlobal) <= t.limits.global.value
  {
    SumUpdate(s.places, s.sources, HoldingGlobal, i, Target(a, s.places[i]));
  }

  lemma StepCountsSource(s: System, i: nat, a: Action, n: string)
    requires |s.places| == |s.sources| && Enabled(s, i, a) && SourceCounted(s, n)
    ensures SourceCounted(Step(s, i, a), n)
  {
    SumUpdate(s.places, s.sources, RunningOn(n), i, Target(a, s.places[i]));
  }

  lemma StepKeepsInv(s: System, i: nat, a: Action)
    requires Inv(s) && Enabled(s, i, a)
    ensures Inv(Step(s, i, a))
  {
    hide Sum, SourceCounted;
    StepCountsFlight(s, i, a);
    if s.limits.global.Some? {
      StepCountsGlobal(s, i, a);
    }
    forall n | n in s.limits.bySource ensures SourceCounted(Step(s, i, a), n) {
      StepCountsSource(s, i, a, n);
    }
  }

  lemma {:induction false} EveryInterleavingKeepsInv(s: System, events: seq<Event>, t: System)
    requires Inv(s) && Runs(s, events, t)
    ensures Inv(t) && t.limits == s.limits && t.sources == s.sources
    decreases |events|
  {
    if events != [] {
      match events[0] {
        case Cancel =>
          var c := s.(cancelled := true);
          assert forall n :: n in c.limits.bySource ==> SourceCounted(s, n);
          EveryInterleavingKeepsInv(c, events[1..], t);
        case Acts(i, a) =>
          StepKeepsInv(s, i, a);
          EveryInterleavingKeepsInv(Step(s, i, a), events[1..], t);
      }
    }
  }

  /** Once nobody is between entering and leaving, every slot is back and the gauge reads zero. */
  lemma EverySlotReturns(s: System)
    requires Inv(s) && forall i :: 0 <= i < |s.places| ==> !InFlight(s.places[i])
    ensures s.inFlight == 0
    ensures s.limits.global.Some? ==> s.globalUsed == 0
    ensures forall n :: n in s.limits.bySource ==> n in s.sourceUsed && s.sourceUsed[n] == 0
  {
    SumZero(s.places, s.sources, Flying);
    SumZero(s.places, s.sources, HoldingGlobal);
    forall n | n in s.limits.bySource ensures n in s.sourceUsed && s.sourceUsed[n] == 0 {
      assert SourceCounted(s, n);
      SumZero(s.places, s.sources, RunningOn(n));
    }
  }

  /** No deadlock: while a query is in flight some query can move without being cancelled. */
  lemma NeverDeadlocked(s: System, i: nat) returns (j: nat, a: Action)
    requires Inv(s) && i < |s.places| && InFlight(s.places[i])
    ensures Enabled(s, j, a) && !a.Enter? && !a.Abandon?
  {
    match s.places[i] {
      case Running => j, a := i, Finish;
      case SourceFreed => j, a := i, FreeGlobal;
      case BackingOut => j, a := i, FreeGlobal;
      case Leaving => j, a := i, Leave;
      case AtSource => j, a := SourceWaiterMoves(s, i);
      case AtGlobal =>
        if Free(s.limits.global, s.globalUsed) {
          j, a := i, TakeGlobal;
        } else {
          var k := SumWitness(s.places, s.sources, HoldingGlobal);
          if s.places[k].AtSource? {
            j, a := SourceWaiterMoves(s, k);
          } else {
            j, a := k, if s.places[k].Running? then Finish else FreeGlobal;
          }
        }
    }
  }

  /** A query waiting for its source's slot finds one, or a query running there can finish. */
  lemma SourceWaiterMoves(s: System, i: nat) returns (j: nat, a: Action)
    requires Inv(s) && i < |s.places| && s.places[i].AtSource?
    ensures Enabled(s, j, a) && !a.Enter? && !a.Abandon?
  {
    var n := s.sources[i];
    if n in s.limits.bySource {
      assert SourceCounted(s, n);
      if s.sourceUsed[n] >= s.limits.bySource[n] {
        var k := SumWitness(s.places, s.sources, RunningOn(n));
        return k, Finish;
      }
    }
    return i, TakeSource;
  }

  function Distance(p: Place): nat {
    match p
    case Idle => 6
    case AtGlobal => 5
    case AtSource => 4
    case Running => 3
    case SourceFreed => 2
    case BackingOut => 2
    case Leaving => 1
    case Gone => 0
  }

  /** Every step brings some query nearer to having left, so with `NeverDeadlocked` every run of
      n queries empties the semaphores within 6n steps. */
  lemma EveryStepIsProgress(s: System, i: nat, a: Action)
    requires Inv(s) && Enabled(s, i, a)
    ensures Sum(Step(s, i, a).places, s.sources, ToGo) < Sum(s.places, s.sources, ToGo)
  {
    SumUpdate(s.places, s.sources, ToGo, i, Target(a, s.places[i]));
  }

  /** From any reachable state the queries in flight can all leave, with nobody cancelled. */
  lemma {:induction false} EveryoneLeaves(s: System) returns (events: seq<Event>, t: System)
    requires Inv(s)
    ensures Runs(s, events, t) && Inv(t)
    ensures forall i :: 0 <= i < |t.places| ==> !InFlight(t.places[i])
    ensures |events| <= Sum(s.places, s.sources, ToGo)
    decreases Sum(s.places, s.sources, ToGo)
  {
    if i :| 0 <= i < |s.places| && InFlight(s.places[i]) {
      var j, a := NeverDeadlocked(s, i);
      EveryStepIsProgress(s, j, a);
      StepKeepsInv(s, j, a);
      var rest;
      rest, t := EveryoneLeaves(Step(s, j, a));
      events := [Acts(j, a)] + rest;
      assert events[1..] == rest;
    } else {
      events, t := [], s;
    }
  }

  // How many ruler-wide slots one source's queries can hold.

  /** The ruler-wide slots held by queries of one source. */
  function Held(s: System, name: string): nat
    requires |s.places| == |s.sources|
  {
    Sum(s.places, s.sources, HeldFor(name))
  }

  function Queries(sources: seq<string>, name: string): nat {
    if sources == [] then 0 else Queries(sources[1..], name) + One(sources[0] == name)
  }

  lemma {:induction false} HeldByQueries(places: seq<Place>, sources: seq<string>, name: string)
    requires |places| == |sources|
    ensures Sum(places, sources, HeldFor(name)) <= Queries(sources, name)
  {
    if places != [] {
      HeldByQueries(places[1..], sources[1..], name);
    }
  }

  lemma HeldBound(s: System, name: string)
    requires Inv(s)
    ensures Held(s, name) <= Queries(s.sources, name)
    ensures s.limits.global.Some? ==> Held(s, name) <= s.limits.global.value
  {
    HeldByQueries(s.places, s.sources, name);
    SumBelow(s.places, s.sources, HeldFor(name), HoldingGlobal);
  }

  /** The i first queries of one source have taken what ruler-wide slots they could. */
  ghost predicate Hogged(s: System, name: string, i: nat, held: nat)
    requires |s.places| == |s.sources|
  {
    && Held(s, name) == held
    && (s.limits.global.Some? ==> s.globalUsed == held)
    && forall k :: i <= k < |s.places| ==> s.places[k].Idle?
  }

  function Least(a: nat, b: nat): nat {
    if a < b then a else b
  }

  function Ceiling(l: Limits, n: nat): nat {
    if l.global.None? then n else Least(l.global.value, n)
  }

  /** One more query of the source enters, takes a ruler-wide slot and then waits for its own. */
  lemma HogOne(before: System, name: string, k: nat, held: nat) returns (events: seq<Event>, t: System)
    requires Inv(before) && k < |before.places| == |before.sources| && before.sources[k] == name
    requires Hogged(before, name, k, held) && Free(before.limits.global, before.globalUsed)
    ensures Runs(before, events, t) && Inv(t) && t.limits == before.limits && t.sources == before.sources
    ensures Hogged(t, name, k + 1, held + 1)
  {
    var mid := Step(before, k, Enter);
    t := Step(mid, k, TakeGlobal);
    StepKeepsInv(before, k, Enter);
    StepKeepsInv(mid, k, TakeGlobal);
    SumUpdate(before.places, before.sources, HeldFor(name), k, AtGlobal);
    SumUpdate(mid.places, before.sources, HeldFor(name), k, AtSource);
    events := [Acts(k, Enter), Acts(k, TakeGlobal)];
    assert events[1..] == [Acts(k, TakeGlobal)] && events[1..][1..] == [];
    assert Runs(mid, events[1..], t);
  }

  /** However small a source's own cap, its waiting queries can take every ruler-wide slot. */
  lemma {:induction false} OneSourceHogs(limits: Limits, sources: seq<string>, name: string, i: nat) returns (events: seq<Event>, t: System)
    requires Positive(limits) && i <= |sources|
    ensures Runs(Start(limits, sources), events, t) && Inv(t)
    ensures t.limits == limits && t.sources == sources
    ensures Hogged(t, name, i, Ceiling(limits, Queries(sources[..i], name)))
  {
    if i == 0 {
      events, t := [], Start(limits, sources);
      StartInv(limits, sources);
      SumZero(t.places, t.sources, HeldFor(name));
    } else {
      var before;
      events, before := OneSourceHogs(limits, sources, name, i - 1);
      QueriesSnoc(sources, name, i - 1);
      t := before;
      if sources[i - 1] == name && Free(limits.global, before.globalUsed) {
        var more;
        more, t := HogOne(before, name, i - 1, Ceiling(limits, Queries(sources[..i - 1], name)));
        RunsConcat(Start(limits, sources), events, before, more, t);
        events := events + more;
      }
    }
  }

  lemma QueriesSnoc(sources: seq<string>, name: string, i: nat)
    requires i < |sources|
    ensures Queries(sources[..i + 1], name) == Queries(sources[..i], name) + One(sources[i] == name)
  {
    if i == 0 {
      assert sources[..1][1..] == [] && sources[..0] == [];
    } else {
      assert sources[..i + 1][1..] == sources[1..][..i];
      assert sources[..i][1..] == sources[1..][..i - 1];
      QueriesSnoc(sources[1..], name, i - 1);
    }
  }

  lemma {:induction false} RunsConcat(s: System, a: seq<Event>, t: System, b: seq<Event>, u: System)
    requires Runs(s, a, t) && Runs(t, b, u)
    ensures Runs(s, a + b, u)
    decreases |a|
  {
    if a == [] {
      assert a + b == b;
    } else {
      assert (a + b)[1..] == a[1..] + b;
      match a[0] {
        case Cancel => RunsConcat(s.(cancelled := true), a[1..], t, b, u);
        case Acts(i, x) => RunsConcat(Step(s, i, x), a[1..], t, b, u);
      }
    }
  }

  /** Every interleaving keeps the ruler-wide slots a source's queries hold within its own cap. */
  ghost predicate Confined(limits: Limits, sources: seq<string>, name: string, cap: nat) {
    forall events, t :: Runs(Start(limits, sources), events, t) && |t.places| == |t.sources| ==> Held(t, name) <= cap
  }

  /** A source's cap confines what it holds of the ruler-wide cap exactly when it could not have
      held more anyway: it has no more queries than the cap, or the ruler-wide cap is no larger. */
  lemma ConfinedExactly(limits: Limits, sources: seq<string>, name: string, cap: nat)
    requires Positive(limits)
    ensures Confined(limits, sources, name, cap) <==> Ceiling(limits, Queries(sources, name)) <= cap
  {
    if Ceiling(limits, Queries(sources, name)) <= cap {
      forall events, t | Runs(Start(limits, sources), events, t) && |t.places| == |t.sources| ensures Held(t, name) <= cap {
        StartInv(limits, sources);
        EveryInterleavingKeepsInv(Start(limits, sources), events, t);
        HeldBound(t, name);
      }
    } else {
      var events, t := OneSourceHogs(limits, sources, name, |sources|);
      assert sources[..|sources|] == sources;
      assert Held(t, name) > cap;
    }
  }
}
