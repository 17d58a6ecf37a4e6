/** Whole runs of clock, state machine, queue and throttle together.

    A run is what happens to one group's alerts between its evaluations and Alertmanager: the
    boundaries of the group's clock with the rows each returned, and every call of the throttle
    in the order the queue's worker made it, from this group and from all the others. It is
    proved that what such a run posts for one label set is exactly what the flow of that label
    set posts, and so the bounds proved of flows are bounds on runs. */
module Composition {
  import opened Options
  import opened AlertModel
  import opened Cadences
  import opened Pipeline
  import Lifecycle

  /** What one boundary came to: nothing was evaluated, or these rows were and their batch was
      accepted or not. */
  datatype Boundary = Lost | Evaluated(samples: seq<Sample>, accepted: bool)

  /** One call of the throttle, for a boundary of the group or from anywhere else. */
  datatype Handed = Own(boundary: nat, call: Call) | Other(call: Call)

  datatype Run = Run(
    setup: Setup, hash: Labels -> Fingerprint,
    model: Model, bs: seq<Boundary>,
    throttle: Throttle, hs: seq<Handed>)

  /** The state machine after the first `n` boundaries. */
  ghost function ModelAt(r: Run, n: nat): Model
    requires n <= |r.bs|
  {
    if n == 0 then r.model
    else
      match r.bs[n - 1]
      case Lost => ModelAt(r, n - 1)
      case Evaluated(samples, _) => Next(ModelAt(r, n - 1), Rows(r.setup.cfg, samples), r.hash, TickAt(r.setup, n - 1), r.setup.cfg)
  }

  /** The boundary as the label set followed saw it. */
  ghost function OutcomeOf(s: Setup, b: Boundary): Outcome {
    match b
    case Lost => NotEvaluated
    case Evaluated(samples, accepted) =>
      var row := Get(Rows(s.cfg, samples), s.labels);
      if row.Some? then Row(row.value, accepted) else NoRow(accepted)
  }

  ghost function Outcomes(r: Run): seq<Outcome> {
    seq(|r.bs|, i requires 0 <= i < |r.bs| => OutcomeOf(r.setup, r.bs[i]))
  }

  ghost function Initially(r: Run): Flow {
    Flow(Get(r.model, r.setup.labels), Get(r.throttle.sent, r.setup.fp))
  }

  /** The flow of the label set after the first `n` boundaries. */
  ghost function FlowAt(r: Run, n: nat): Flow
    requires n <= |r.bs|
  {
    RunFlow(r.setup, Initially(r), 0, Outcomes(r), n)
  }

  function Calls(r: Run): seq<Call> {
    seq(|r.hs|, i requires 0 <= i < |r.hs| => r.hs[i].call)
  }

  /** The throttle after the first `n` calls; `pruning` says whether it sweeps. */
  ghost function ThrottleAt(r: Run, n: nat, pruning: bool): Throttle
    requires n <= |r.hs|
  {
    AfterCalls(r.throttle, r.setup.interval, r.setup.tolerance, Calls(r), n, pruning)
  }

  /** What the n-th call posts. */
  ghost function PostsOf(r: Run, n: nat, pruning: bool): seq<Alert>
    requires n < |r.hs|
  {
    PostsAt(r.throttle, r.setup.interval, r.setup.tolerance, Calls(r), n, pruning);
    Posts(r.throttle, r.setup.interval, r.setup.tolerance, Calls(r), pruning)[n]
  }

  /** The clock of the calls goes back so little that no sweep can be missed. */
  ghost predicate Steady(r: Run) {
    NotFarBehind(r.setup.interval, r.setup.tolerance, Calls(r))
  }

  // What makes it a run of the code.

  /** A batch lists the state of one source, among the alerts of the rule's other sources. */
  ghost predicate Batch(s: Setup, alerts: seq<Alert>, m: Model) {
    exists lo, hi :: ListedAt(s, alerts, m, lo, hi)
  }

  ghost predicate ListedAt(s: Setup, alerts: seq<Alert>, m: Model, lo: int, hi: int) {
    && 0 <= lo <= hi <= |alerts|
    && Lists(alerts[lo..hi], m)
    && (forall i :: 0 <= i < lo ==> alerts[i].fingerprint != s.fp)
    && (forall i :: hi <= i < |alerts| ==> alerts[i].fingerprint != s.fp)
  }

  ghost predicate WellHanded(r: Run, n: nat)
    requires n < |r.hs|
  {
    var c := r.hs[n].call;
    match r.hs[n]
    case Other(_) => forall i :: 0 <= i < |c.alerts| ==> c.alerts[i].fingerprint != r.setup.fp
    case Own(b, _) =>
      && b < |r.bs| && r.bs[b].Evaluated?
      && c.now == TickAt(r.setup, b) && c.evalInterval == r.setup.every && c.delivered == r.bs[b].accepted
      && Batch(r.setup, c.alerts, ModelAt(r, b + 1))
  }

  ghost predicate HandedAt(r: Run, n: int, b: nat) {
    0 <= n < |r.hs| && r.hs[n].Own? && r.hs[n].boundary == b
  }

  /** The queue hands over what it does not drop, in order, and no batch twice. */
  ghost predicate InOrder(r: Run) {
    && (forall n, m :: 0 <= n < m < |r.hs| && r.hs[n].Own? && r.hs[m].Own? ==> r.hs[n].boundary < r.hs[m].boundary)
    && (forall b :: 0 <= b < |r.bs| && r.bs[b].Evaluated? && r.bs[b].accepted && r.setup.labels in ModelAt(r, b + 1) ==>
          exists n :: HandedAt(r, n, b))
  }

  /** No other tracked label set shares the fingerprint the throttle knows this one by. */
  ghost predicate Unshared(r: Run) {
    forall n, l :: 0 <= n <= |r.bs| && l in ModelAt(r, n) && r.hash(l) == r.setup.fp ==> l == r.setup.labels
  }

  ghost predicate WellFormed(r: Run) {
    && r.setup.fp == r.hash(r.setup.labels) && Sane(r.setup)
    && (forall l :: l in r.model ==> Genuine(r.model[l], l, r.hash))
    && Unshared(r) && InOrder(r)
    && (forall n :: 0 <= n < |r.hs| ==> WellHanded(r, n))
    && Before(Initially(r), TickAt(r.setup, 0))
  }

  // The state machine's half.

  /** The label set's own instance is that of its flow. */
  lemma {:induction false} InstFollows(r: Run, n: nat)
    requires n <= |r.bs| && r.setup.fp == r.hash(r.setup.labels)
    ensures Get(ModelAt(r, n), r.setup.labels) == FlowAt(r, n).inst
  {
    hide RunFlow, Rows, Step, ModelAt;
    if n == 0 {
      ModelStarts(r);
      RunFlowStarts(r.setup, Initially(r), 0, Outcomes(r));
    } else {
      InstFollows(r, n - 1);
      RunFlowStep(r.setup, Initially(r), 0, Outcomes(r), n - 1);
      ModelStep(r, n - 1, r.setup.labels);
    }
  }

  lemma ModelStarts(r: Run)
    ensures ModelAt(r, 0) == r.model
  {
  }

  lemma ModelStep(r: Run, n: nat, l: Labels)
    requires n < |r.bs|
    ensures var before, after := Get(ModelAt(r, n), l), Get(ModelAt(r, n + 1), l);
            match r.bs[n]
            case Lost => after == before
            case Evaluated(samples, _) =>
              after == Step(before, Get(Rows(r.setup.cfg, samples), l), r.hash(l), l, TickAt(r.setup, n), r.setup.cfg)
  {
    hide Rows, Step;
    if r.bs[n].Evaluated? {
      Lifecycle.NextAt(ModelAt(r, n), Rows(r.setup.cfg, r.bs[n].samples), r.hash, l, TickAt(r.setup, n), r.setup.cfg);
    }
  }

  lemma {:induction false} AllGenuine(r: Run, n: nat, l: Labels)
    requires n <= |r.bs| && l in ModelAt(r, n)
    requires forall k :: k in r.model ==> Genuine(r.model[k], k, r.hash)
    ensures Genuine(ModelAt(r, n)[l], l, r.hash)
  {
    hide Rows, Step, ModelAt;
    if n == 0 {
      ModelStarts(r);
    } else {
      ModelStep(r, n - 1, l);
      if r.bs[n - 1].Evaluated? {
        StepIsGenuine(Get(ModelAt(r, n - 1), l), Get(Rows(r.setup.cfg, r.bs[n - 1].samples), l), l, r.hash, TickAt(r.setup, n - 1), r.setup.cfg);
      }
      if l in ModelAt(r, n - 1) {
        AllGenuine(r, n - 1, l);
      }
      hide Genuine;
    }
  }

  // The throttle's half.

  lemma ListedOnce(r: Run, b: nat, alerts: seq<Alert>, lo: int, hi: int)
    requires WellFormed(r) && b < |r.bs|
    requires ListedAt(r.setup, alerts, ModelAt(r, b + 1), lo, hi)
    ensures Carries(alerts, r.setup.fp, Get(ModelAt(r, b + 1), r.setup.labels))
  {
    hide ModelAt, FlowAt, Lists;
    var s, m := r.setup, ModelAt(r, b + 1);
    forall i | lo <= i < hi
      ensures alerts[i].labels in m && m[alerts[i].labels].alert == alerts[i]
      ensures alerts[i].fingerprint == s.fp <==> alerts[i].labels == s.labels {
      ListedOwn(r, b, alerts, lo, hi, i);
    }
    if s.labels in m {
      var k := ListedWhere(alerts, m, lo, hi, s.labels);
      AllGenuine(r, b + 1, s.labels);
      forall i | lo <= i < hi && i != k ensures alerts[i].labels != alerts[k].labels {
        ListedApart(alerts, m, lo, hi, i, k);
      }
      assert OnlyAt(alerts, s.fp, m[s.labels].alert, k);
    }
  }

  lemma ListedWhere(alerts: seq<Alert>, m: Model, lo: int, hi: int, l: Labels) returns (k: int)
    requires 0 <= lo <= hi <= |alerts| && Lists(alerts[lo..hi], m) && l in m
    ensures lo <= k < hi && alerts[k] == m[l].alert
  {
    var j :| 0 <= j < hi - lo && alerts[lo..hi][j] == m[l].alert;
    k := lo + j;
  }

  lemma ListedApart(alerts: seq<Alert>, m: Model, lo: int, hi: int, i: int, j: int)
    requires 0 <= lo <= hi <= |alerts| && Lists(alerts[lo..hi], m) && lo <= i < hi && lo <= j < hi && i != j
    ensures alerts[i].labels != alerts[j].labels
  {
    var mine := alerts[lo..hi];
    assert mine[i - lo] == alerts[i] && mine[j - lo] == alerts[j];
  }

  lemma ListedOwn(r: Run, b: nat, alerts: seq<Alert>, lo: int, hi: int, i: int)
    requires WellFormed(r) && b < |r.bs|
    requires ListedAt(r.setup, alerts, ModelAt(r, b + 1), lo, hi) && lo <= i < hi
    ensures var m := ModelAt(r, b + 1);
            alerts[i].labels in m && m[alerts[i].labels].alert == alerts[i]
    ensures alerts[i].fingerprint == r.setup.fp <==> alerts[i].labels == r.setup.labels
  {
    hide ModelAt;
    assert alerts[lo..hi][i - lo] == alerts[i];
    AllGenuine(r, b + 1, alerts[i].labels);
  }

  /** How many boundaries the first `n` calls account for. */
  ghost function Reached(r: Run, n: nat): nat
    requires n <= |r.hs|
  {
    if n == 0 then 0 else if r.hs[n - 1].Own? then r.hs[n - 1].boundary + 1 else Reached(r, n - 1)
  }

  lemma {:induction false} ReachedIsPast(r: Run, n: nat, m: nat)
    requires InOrder(r) && m < n <= |r.hs| && r.hs[m].Own?
    ensures r.hs[m].boundary < Reached(r, n)
  {
    if m < n - 1 && r.hs[n - 1].Other? {
      ReachedIsPast(r, n - 1, m);
    }
  }

  /** None of some boundaries was handed over. */
  ghost predicate Quiet(r: Run, lo: nat, hi: nat) {
    forall n, b :: lo <= b < hi ==> !HandedAt(r, n, b)
  }

  /** Between two calls of the group's own, and after the last one, the boundaries were lost. */
  lemma QuietUntil(r: Run, n: nat, hi: nat)
    requires InOrder(r) && n <= |r.hs|
    requires forall m :: n <= m < |r.hs| && r.hs[m].Own? ==> hi <= r.hs[m].boundary
    ensures Quiet(r, Reached(r, n), hi)
  {
    forall m, b: nat | HandedAt(r, m, b) ensures b < Reached(r, n) || hi <= b {
      if m < n {
        ReachedIsPast(r, n, m);
      }
    }
  }

  /** A post is a call: what is accepted was handed over. */
  lemma PostedIsHanded(r: Run, b: nat)
    requires WellFormed(r) && b < |r.bs|
    ensures Posted(r.setup, FlowAt(r, b), b, Outcomes(r)[b]) ==> exists n :: HandedAt(r, n, b)
  {
    InstFollows(r, b + 1);
    RunFlowStep(r.setup, Initially(r), 0, Outcomes(r), b);
    hide RunFlow, ModelAt, Evaluate, WellHanded, Unshared;
  }

  /** Boundaries whose batches were dropped, or that made none, leave no trace in the throttle. */
  lemma {:induction false} QuietKeepsSent(r: Run, lo: nat, hi: nat)
    requires WellFormed(r) && lo <= hi <= |r.bs| && Quiet(r, lo, hi)
    ensures FlowAt(r, hi).sent == FlowAt(r, lo).sent
    decreases hi
  {
    if lo < hi {
      QuietKeepsSent(r, lo, hi - 1);
      PostedIsHanded(r, hi - 1);
      RunFlowStep(r.setup, Initially(r), 0, Outcomes(r), hi - 1);
      hide RunFlow, WellFormed, Evaluate, Posted, Outcomes;
    }
  }

  /** One call of the group's own carries the label set's instance as its boundary left it. */
  lemma OwnCarries(r: Run, n: nat)
    requires WellFormed(r) && n < |r.hs| && r.hs[n].Own?
    ensures var b := r.hs[n].boundary;
            b < |r.bs| && Carries(r.hs[n].call.alerts, r.setup.fp, FlowAt(r, b + 1).inst)
  {
    hide Carries, ModelAt, FlowAt, ListedAt;
    var b, alerts := r.hs[n].boundary, r.hs[n].call.alerts;
    assert WellHanded(r, n);
    InstFollows(r, b + 1);
    var lo, hi :| ListedAt(r.setup, alerts, ModelAt(r, b + 1), lo, hi);
    ListedOnce(r, b, alerts, lo, hi);
  }

  lemma ReachedStep(r: Run, n: nat)
    requires n < |r.hs|
    ensures Reached(r, 0) == 0 && Reached(r, n + 1) == if r.hs[n].Own? then r.hs[n].boundary + 1 else Reached(r, n)
  {
  }

  /** Where the throttle and the flow stand before a call of the group's own. */
  lemma OwnStands(r: Run, n: nat)
    requires WellFormed(r) && n < |r.hs| && r.hs[n].Own? && Reached(r, n) <= |r.bs|
    ensures var b := r.hs[n].boundary;
            b < |r.bs| && Reached(r, n) <= b && FlowAt(r, b).sent == FlowAt(r, Reached(r, n)).sent
  {
    var b := r.hs[n].boundary;
    assert WellHanded(r, n);
    ReachedAtMost(r, n, n);
    QuietUntil(r, n, b);
    QuietKeepsSent(r, Reached(r, n), b);
  }

  lemma {:induction false} ReachedAtMost(r: Run, n: nat, m: nat)
    requires InOrder(r) && n <= m < |r.hs| && r.hs[m].Own?
    ensures Reached(r, n) <= r.hs[m].boundary
  {
    if n > 0 && r.hs[n - 1].Other? {
      ReachedAtMost(r, n - 1, m);
    }
  }

  /** The throttle and the flow agree after every call. */
  lemma {:induction false} SentFollows(r: Run, n: nat)
    requires WellFormed(r) && n <= |r.hs|
    ensures Reached(r, n) <= |r.bs|
    ensures Get(ThrottleAt(r, n, false).sent, r.setup.fp) == FlowAt(r, Reached(r, n)).sent
  {
    if n > 0 {
      SentFollows(r, n - 1);
      ReachedStep(r, n - 1);
      var h := r.hs[n - 1];
      var t := ThrottleAt(r, n - 1, false);
      assert WellHanded(r, n - 1);
      if h.Own? {
        OwnStands(r, n - 1);
        OwnCarries(r, n - 1);
        OwnStep(r, n - 1, t);
      } else {
        ThrottleProjects(t, r.setup.interval, r.setup.tolerance, h.call, r.setup.fp, None);
      }
      hide FlowAt, WellFormed, After, WellHanded, Reached;
    }
  }

  /** The call does to the throttle what the boundary does to the flow. */
  lemma OwnStep(r: Run, n: nat, t: Throttle)
    requires WellFormed(r) && n < |r.hs| && r.hs[n].Own? && r.hs[n].boundary < |r.bs|
    requires var b := r.hs[n].boundary;
             && Get(t.sent, r.setup.fp) == FlowAt(r, b).sent
             && Carries(r.hs[n].call.alerts, r.setup.fp, FlowAt(r, b + 1).inst)
    ensures var b := r.hs[n].boundary; var c := r.hs[n].call;
            && Get(After(t, r.setup.interval, r.setup.tolerance, c, false).sent, r.setup.fp) == FlowAt(r, b + 1).sent
            && (Picked(t, r.setup.interval, c, FlowAt(r, b + 1).inst) <==> OfferedAt(r.setup, Initially(r), 0, Outcomes(r), b))
  {
    var b, c := r.hs[n].boundary, r.hs[n].call;
    assert WellHanded(r, n);
    ThrottleProjects(t, r.setup.interval, r.setup.tolerance, c, r.setup.fp, FlowAt(r, b + 1).inst);
    RunFlowStep(r.setup, Initially(r), 0, Outcomes(r), b);
    assert FlowAt(r, b + 1).inst.Some? ==> FlowAt(r, b + 1).inst.value.alert.fingerprint == r.setup.fp;
    hide After, RunFlow, Carries, WellFormed, WellHanded;
  }

  // A run posts what its flow posts.

  /** After a whole run the throttle remembers of the label set what its flow does. */
  lemma RunRefinesFlow(r: Run)
    requires WellFormed(r)
    ensures Get(ThrottleAt(r, |r.hs|, false).sent, r.setup.fp) == FlowAt(r, |r.bs|).sent
  {
    SentFollows(r, |r.hs|);
    QuietUntil(r, |r.hs|, |r.bs|);
    QuietKeepsSent(r, Reached(r, |r.hs|), |r.bs|);
  }

  /** A call posts the label set's alert exactly if it is the call of a boundary the flow offers it
      at; and it posts the instance as that boundary left it, stamped with that boundary's expiry.
      Sweeping changes nothing. */
  lemma PostsFollow(r: Run, n: nat, pruning: bool, a: Alert)
    requires WellFormed(r) && n < |r.hs| && (pruning ==> Steady(r))
    ensures a in PostsOf(r, n, pruning) && a.fingerprint == r.setup.fp
       <==> r.hs[n].Own? && PostsFor(r, r.hs[n].boundary, a)
  {
    SweepingIsInvisible(r, n, pruning);
    SentFollows(r, n);
    var h, s := r.hs[n], r.setup;
    var t := ThrottleAt(r, n, false);
    PostsAt(r.throttle, s.interval, s.tolerance, Calls(r), n, false);
    assert PostsOf(r, n, pruning) == Chosen(t, s.interval, s.tolerance, h.call);
    assert WellHanded(r, n);
    hide PostsOf, ThrottleAt, Chosen, FlowAt, WellFormed, Reached;
    if h.Own? {
      OwnStands(r, n);
      OwnCarries(r, n);
      OwnStep(r, n, t);
      ChosenExactly(t, s.interval, s.tolerance, h.call, s.fp, FlowAt(r, h.boundary + 1).inst, a);
    } else {
      ChosenExactly(t, s.interval, s.tolerance, h.call, s.fp, None, a);
    }
  }

  /** The alert as boundary `b` posts it. */
  ghost predicate PostsFor(r: Run, b: nat, a: Alert) {
    && b < |r.bs| && OfferedAt(r.setup, Initially(r), 0, Outcomes(r), b)
    && FlowAt(r, b + 1).inst.Some?
    && a == Stamp(FlowAt(r, b + 1).inst.value.alert, TickAt(r.setup, b) + Expiry(r.setup))
  }

  lemma SweepingIsInvisible(r: Run, n: nat, pruning: bool)
    requires n < |r.hs| && (pruning ==> Steady(r))
    ensures PostsOf(r, n, pruning) == PostsOf(r, n, false)
  {
    if pruning {
      PruningIsInvisible(r.throttle, r.throttle, r.setup.interval, r.setup.tolerance, Calls(r));
    }
    hide Posts;
  }

  /** A delivered call of boundary `b` that posts the alert. */
  ghost predicate Delivers(r: Run, n: int, b: nat, pruning: bool, a: Alert) {
    HandedAt(r, n, b) && r.hs[n].call.delivered && a in PostsOf(r, n, pruning) && a.fingerprint == r.setup.fp
  }

  /** The flow posts at a boundary exactly if some call of that boundary delivers the alert. */
  lemma DeliversExactly(r: Run, b: nat, pruning: bool)
    requires WellFormed(r) && b < |r.bs| && (pruning ==> Steady(r))
    ensures PostedAt(r.setup, Initially(r), 0, Outcomes(r), b) <==> exists n, a :: Delivers(r, n, b, pruning, a)
  {
    if PostedAt(r.setup, Initially(r), 0, Outcomes(r), b) {
      var n, a := DeliveredBy(r, b, pruning);
    }
    forall n, a | Delivers(r, n, b, pruning, a) ensures PostedAt(r.setup, Initially(r), 0, Outcomes(r), b) {
      PostsFollow(r, n, pruning, a);
      assert WellHanded(r, n);
      hide PostsOf, FlowAt, WellFormed, RunFlow;
    }
  }

  lemma DeliveredBy(r: Run, b: nat, pruning: bool) returns (n: nat, a: Alert)
    requires WellFormed(r) && b < |r.bs| && (pruning ==> Steady(r))
    requires PostedAt(r.setup, Initially(r), 0, Outcomes(r), b)
    ensures Delivers(r, n, b, pruning, a) && PostsFor(r, b, a)
    ensures r.hs[n].call.now == TickAt(r.setup, b)
  {
    PostedIsHanded(r, b);
    n :| HandedAt(r, n, b);
    assert WellHanded(r, n);
    RunFlowStep(r.setup, Initially(r), 0, Outcomes(r), b);
    a := Stamp(FlowAt(r, b + 1).inst.value.alert, TickAt(r.setup, b) + Expiry(r.setup));
    PostsFollow(r, n, pruning, a);
    hide PostsOf, WellFormed, RunFlow;
  }

  // The bounds, on runs.

  /** No false expiry, on whole runs: a call delivers a firing alert, the alert keeps firing, and
      of the due boundaries that follow at most T - 2 are lost, each anywhere between the clock and
      Alertmanager. Then a later call delivers it again, before the expiry the first one stamped. */
  lemma NoFalseExpiryInRuns(r: Run, pruning: bool, p: nat, firedAt: Time) returns (n0: nat, a0: Alert, n1: nat, a1: Alert)
    requires WellFormed(r) && (pruning ==> Steady(r)) && r.setup.tolerance >= 2
    requires p < |r.bs| && PostedAt(r.setup, Initially(r), 0, Outcomes(r), p)
    requires p + 1 <= p + 1 + Span(r.setup) <= |r.bs|
    requires KeptFiring(r.setup, FlowAt(r, p + 1), p + 1, Outcomes(r)[p + 1..p + 1 + Span(r.setup)], firedAt)
    requires SomeAccepted(Outcomes(r), p + FirstDue(r.setup.interval, r.setup.every), p + 1 + Span(r.setup))
    ensures n0 < n1 && HandedAt(r, n0, p) && Delivers(r, n0, p, pruning, a0)
    ensures n1 < |r.hs| && r.hs[n1].Own? && Delivers(r, n1, r.hs[n1].boundary, pruning, a1)
    ensures a0.phase == a1.phase == Firing && a0.firedAt == a1.firedAt == firedAt
    ensures a0.validUntil == r.hs[n0].call.now + Expiry(r.setup)
    ensures r.hs[n1].call.now < a0.validUntil && a1.validUntil == r.hs[n1].call.now + Expiry(r.setup)
  {
    var b := PostedAgain(r.setup, Initially(r), Outcomes(r), p, firedAt);
    assert IsFiring(FlowAt(r, p + 1), firedAt) && IsFiring(FlowAt(r, b + 1), firedAt);
    hide *;
    n0, a0 := DeliveredBy(r, p, pruning);
    n1, a1 := DeliveredBy(r, b, pruning);
    StampedAt(r, p, a0, firedAt);
    StampedAt(r, b, a1, firedAt);
    LaterHanded(r, n0, p, n1, b, pruning, a0, a1);
  }

  lemma StampedAt(r: Run, b: nat, a: Alert, firedAt: Time)
    requires PostsFor(r, b, a) && IsFiring(FlowAt(r, b + 1), firedAt)
    ensures a.phase == Firing && a.firedAt == firedAt && a.validUntil == TickAt(r.setup, b) + Expiry(r.setup)
  {
  }

  /** Calls are made in the order of their boundaries. */
  lemma LaterHanded(r: Run, n: nat, b: nat, m: nat, c: nat, pruning: bool, x: Alert, y: Alert)
    requires WellFormed(r) && b < c && Delivers(r, n, b, pruning, x) && Delivers(r, m, c, pruning, y)
    ensures n < m < |r.hs| && HandedAt(r, n, b) && r.hs[m].Own? && r.hs[m].boundary == c
  {
    hide PostsOf;
  }

  /** A resolve is not lost, on whole runs: of the boundaries of its retention one batch that is
      evaluated, not dropped and accepted is enough, and its call delivers the resolve. */
  lemma ResolveIsDeliveredInRuns(r: Run, pruning: bool, q: nat) returns (n: nat, a: Alert)
    requires WellFormed(r) && (pruning ==> Steady(r)) && r.setup.tolerance >= 0
    requires r.setup.cfg.retention == Retention(r.setup.interval, r.setup.tolerance, r.setup.every)
    requires q + r.setup.tolerance + 1 <= |r.bs| && Outcomes(r)[q].NoRow?
    requires StaysAway(Outcomes(r)[q..q + r.setup.tolerance + 1])
    requires IsResolved(FlowAt(r, q + 1), TickAt(r.setup, q))
    requires SomeAccepted(Outcomes(r), q, q + r.setup.tolerance + 1)
    ensures n < |r.hs| && r.hs[n].Own? && q <= r.hs[n].boundary <= q + r.setup.tolerance
    ensures Delivers(r, n, r.hs[n].boundary, pruning, a)
    ensures a.phase == Resolved && a.resolvedAt == TickAt(r.setup, q)
  {
    var b := ResolvePosted(r.setup, Initially(r), Outcomes(r), q);
    assert IsResolved(FlowAt(r, b + 1), TickAt(r.setup, q));
    hide *;
    n, a := DeliveredBy(r, b, pruning);
    ResolvedAt(r, n, b, pruning, a, TickAt(r.setup, q));
  }

  lemma ResolvedAt(r: Run, n: nat, b: nat, pruning: bool, a: Alert, at: Time)
    requires Delivers(r, n, b, pruning, a) && PostsFor(r, b, a) && IsResolved(FlowAt(r, b + 1), at)
    ensures n < |r.hs| && r.hs[n].Own? && r.hs[n].boundary == b && a.phase == Resolved && a.resolvedAt == at
  {
    hide PostsOf;
  }
}
