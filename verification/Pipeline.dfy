/** From evaluation to Alertmanager: one label set of one rule, followed over the boundaries of
    its group's clock through the state machine and the resend throttle.

    A boundary can be lost anywhere on the way: skipped by the tick loop, a failed query, a batch
    dropped by the queue, a refused POST. How many can be lost in a row before Alertmanager
    expires a firing alert, or before a resolve is forgotten, is what is proved here. */
module Pipeline {
  import opened Options
  import opened AlertModel
  import Machine
  import opened Cadences

  datatype Setup = Setup(
    cfg: Config, fp: Fingerprint, labels: Labels,
    start: Time, every: Time, interval: Time, tolerance: int)

  /** What one boundary came to. `accepted` says the batch was neither dropped nor refused. */
  datatype Outcome = NotEvaluated | Row(value: real, accepted: bool) | NoRow(accepted: bool)

  predicate Accepted(o: Outcome) {
    !o.NotEvaluated? && o.accepted
  }

  /** The tracked instance, and when the throttle last recorded a post for it. */
  datatype Flow = Flow(inst: Option<Inst>, sent: Option<Time>)

  ghost predicate Sane(s: Setup) {
    s.every > 0 && s.interval > 0
  }

  function TickAt(s: Setup, k: int): Time {
    s.start + k * s.every
  }

  function Evaluate(s: Setup, inst: Option<Inst>, k: int, o: Outcome): Option<Inst> {
    match o
    case NotEvaluated => inst
    case Row(v, _) => Step(inst, Some(v), s.fp, s.labels, TickAt(s, k), s.cfg)
    case NoRow(_) => Step(inst, None, s.fp, s.labels, TickAt(s, k), s.cfg)
  }

  /** The boundary was evaluated and its alert is due. */
  predicate Offered(s: Setup, w: Flow, k: int, o: Outcome) {
    var inst := Evaluate(s, w.inst, k, o);
    && !o.NotEvaluated?
    && inst.Some? && inst.value.alert.phase != Pending
    && DueAfter(w.sent, s.interval, TickAt(s, k), Since(inst.value.alert))
  }

  predicate Posted(s: Setup, w: Flow, k: int, o: Outcome) {
    Offered(s, w, k, o) && Accepted(o)
  }

  function StepFlow(s: Setup, w: Flow, k: int, o: Outcome): Flow {
    Flow(Evaluate(s, w.inst, k, o), if Posted(s, w, k, o) then Some(TickAt(s, k)) else w.sent)
  }

  /** The flow after the first `n` of the boundaries k, k+1, ... */
  function RunFlow(s: Setup, w: Flow, k: int, os: seq<Outcome>, n: nat): Flow
    requires n <= |os|
  {
    if n == 0 then w else StepFlow(s, RunFlow(s, w, k, os, n - 1), k + n - 1, os[n - 1])
  }

  predicate PostedAt(s: Setup, w: Flow, k: int, os: seq<Outcome>, i: nat)
    requires i < |os|
  {
    Posted(s, RunFlow(s, w, k, os, i), k + i, os[i])
  }

  predicate OfferedAt(s: Setup, w: Flow, k: int, os: seq<Outcome>, i: nat)
    requires i < |os|
  {
    Offered(s, RunFlow(s, w, k, os, i), k + i, os[i])
  }

  ghost predicate NonePosted(s: Setup, w: Flow, k: int, os: seq<Outcome>, n: nat)
    requires n <= |os|
  {
    forall i :: 0 <= i < n ==> !PostedAt(s, w, k, os, i)
  }

  lemma RunFlowStep(s: Setup, w: Flow, k: int, os: seq<Outcome>, i: nat)
    requires i < |os|
    ensures RunFlow(s, w, k, os, i + 1) == StepFlow(s, RunFlow(s, w, k, os, i), k + i, os[i])
  {
  }

  lemma RunFlowStarts(s: Setup, w: Flow, k: int, os: seq<Outcome>)
    ensures RunFlow(s, w, k, os, 0) == w
  {
  }

  /** A batch carries an alert once, or carries nothing under its fingerprint. */
  ghost predicate Carries(alerts: seq<Alert>, fp: Fingerprint, x: Option<Inst>) {
    if x.None? then forall i :: 0 <= i < |alerts| ==> alerts[i].fingerprint != fp
    else exists i :: OnlyAt(alerts, fp, x.value.alert, i)
  }

  ghost predicate OnlyAt(alerts: seq<Alert>, fp: Fingerprint, a: Alert, i: int) {
    && 0 <= i < |alerts| && alerts[i] == a && a.fingerprint == fp
    && forall j :: 0 <= j < |alerts| && j != i ==> alerts[j].fingerprint != fp
  }

  /** The instance is one the throttle selects. */
  predicate Picked(t: Throttle, interval: Time, c: Call, x: Option<Inst>) {
    x.Some? && Selected(t.sent, interval, c.now, x.value.alert)
  }

  /** What a call posts under one fingerprint: the alert the batch carries, if it is due, and
      nothing of any other batch. */
  lemma ChosenExactly(t: Throttle, interval: Time, tolerance: int, c: Call, fp: Fingerprint, x: Option<Inst>, a: Alert)
    requires Carries(c.alerts, fp, x)
    ensures a in Chosen(t, interval, tolerance, c) && a.fingerprint == fp
       <==> Picked(t, interval, c, x) && a == Stamp(x.value.alert, c.now + Validity(interval, tolerance, c.evalInterval))
  {
    SelectionExactly(t.sent, interval, c.now, c.now + Validity(interval, tolerance, c.evalInterval), c.alerts, a);
    hide Selection, Validity, DueAfter;
  }

  /** What the throttle remembers of one fingerprint after any call: the time of the call, if it
      posted the alert and was accepted, and otherwise what it remembered before. */
  lemma ThrottleProjects(t: Throttle, interval: Time, tolerance: int, c: Call, fp: Fingerprint, x: Option<Inst>)
    requires Carries(c.alerts, fp, x)
    ensures Get(After(t, interval, tolerance, c, false).sent, fp)
         == if Picked(t, interval, c, x) && c.delivered then Some(c.now) else Get(t.sent, fp)
  {
    var chosen := Chosen(t, interval, tolerance, c);
    RecordedAt(t.sent, c.now, chosen, fp);
    forall a ensures a in chosen && a.fingerprint == fp
                <==> Picked(t, interval, c, x) && a == Stamp(x.value.alert, c.now + Validity(interval, tolerance, c.evalInterval)) {
      ChosenExactly(t, interval, tolerance, c, fp, x, a);
    }
    if Picked(t, interval, c, x) {
      var a := Stamp(x.value.alert, c.now + Validity(interval, tolerance, c.evalInterval));
      assert a in chosen;
    }
    hide Selection, Validity, DueAfter, Chosen, Carries;
  }

  // Firing alerts.

  /** The same firing instance throughout, whatever happens to delivery. */
  ghost predicate StaysFiring(s: Setup, w: Flow, k: int, os: seq<Outcome>, firedAt: Time, n: nat)
    requires n <= |os|
  {
    forall i :: 0 <= i <= n ==> IsFiring(RunFlow(s, w, k, os, i), firedAt)
  }

  ghost predicate IsFiring(w: Flow, firedAt: Time) {
    w.inst.Some? && w.inst.value.alert.phase == Firing && w.inst.value.alert.firedAt == firedAt
  }

  /** When the alert was last returned, before the boundaries or during the first `n`. */
  function SeenAt(s: Setup, seen: Time, k: int, os: seq<Outcome>, n: nat): Time
    requires n <= |os|
  {
    if n == 0 then seen
    else if os[n - 1].Row? then TickAt(s, k + n - 1)
    else SeenAt(s, seen, k, os, n - 1)
  }

  /** Every absence was shorter than `keep_firing_for`; where no row is ever missing, none was. */
  ghost predicate NeverLapses(s: Setup, seen: Time, k: int, os: seq<Outcome>, n: nat)
    requires n <= |os|
  {
    forall i :: 0 <= i < n && os[i].NoRow? ==> TickAt(s, k + i) - SeenAt(s, seen, k, os, i) < s.cfg.rule.keepFiringFor
  }

  /** A firing alert, and rows that keep it so. */
  ghost predicate KeptFiring(s: Setup, w: Flow, k: int, os: seq<Outcome>, firedAt: Time) {
    IsFiring(w, firedAt) && NeverLapses(s, w.inst.value.lastSeen, k, os, |os|)
  }

  /** While the rows keep coming nothing lapses. */
  lemma RowsKeepFiring(s: Setup, w: Flow, k: int, os: seq<Outcome>, firedAt: Time)
    requires IsFiring(w, firedAt) && forall i :: 0 <= i < |os| ==> !os[i].NoRow?
    ensures KeptFiring(s, w, k, os, firedAt)
  {
  }

  /** An alert stays the same firing one exactly if it never lapses, whatever happens to delivery. */
  lemma {:induction false} StaysFiringExactly(s: Setup, w: Flow, k: int, os: seq<Outcome>, firedAt: Time, n: nat)
    requires IsFiring(w, firedAt) && n <= |os|
    ensures StaysFiring(s, w, k, os, firedAt, n) <==> NeverLapses(s, w.inst.value.lastSeen, k, os, n)
    ensures StaysFiring(s, w, k, os, firedAt, n) ==>
              IsFiring(RunFlow(s, w, k, os, n), firedAt)
              && RunFlow(s, w, k, os, n).inst.value.lastSeen == SeenAt(s, w.inst.value.lastSeen, k, os, n)
  {
    if n > 0 {
      StaysFiringExactly(s, w, k, os, firedAt, n - 1);
      RunFlowStep(s, w, k, os, n - 1);
      StaysStep(s, w, k, os, firedAt, n - 1);
      hide StaysFiring, RunFlow;
    }
  }

  lemma StaysStep(s: Setup, w: Flow, k: int, os: seq<Outcome>, firedAt: Time, n: nat)
    requires n < |os|
    ensures StaysFiring(s, w, k, os, firedAt, n + 1)
       <==> StaysFiring(s, w, k, os, firedAt, n) && IsFiring(RunFlow(s, w, k, os, n + 1), firedAt)
  {
    hide RunFlow, IsFiring;
  }

  /** How many boundaries after a post the alert is due again. */
  function FirstDue(interval: Time, every: Time): int
    requires every > 0
  {
    if every >= interval then 1 else (interval + every - 1) / every
  }

  lemma FirstDueBounds(interval: Time, every: Time)
    requires every > 0 && interval > 0
    ensures FirstDue(interval, every) >= 1
    ensures FirstDue(interval, every) * every >= interval
    ensures FirstDue(interval, every) > 1 ==> (FirstDue(interval, every) - 1) * every < interval
  {
    if every < interval {
      var q := FirstDue(interval, every);
      assert interval + every - 1 == q * every + (interval + every - 1) % every;
      assert q * every <= interval + every - 1 < q * every + every;
    }
  }

  lemma DueExactly(s: Setup, d: int)
    requires Sane(s) && d >= 1
    ensures d * s.every >= s.interval <==> d >= FirstDue(s.interval, s.every)
  {
    var q := FirstDue(s.interval, s.every);
    FirstDueBounds(s.interval, s.every);
    if d >= q {
      assert d * s.every >= q * s.every by { Machine.KeepsOrder(q, d, s.every); }
    } else {
      assert d * s.every <= (q - 1) * s.every by { Machine.KeepsOrder(d, q - 1, s.every); }
    }
  }

  /** Every due boundary before the i-th was lost. */
  ghost predicate LostUntil(s: Setup, os: seq<Outcome>, i: nat)
    requires Sane(s) && i <= |os|
  {
    forall j :: 0 <= j < i && j + 1 >= FirstDue(s.interval, s.every) ==> !Accepted(os[j])
  }

  /** After a post at boundary p, the next one is at the first due boundary that is not lost. */
  lemma {:induction false} NextPostExactly(s: Setup, w: Flow, p: int, os: seq<Outcome>, firedAt: Time, i: nat)
    requires Sane(s) && i <= |os| && LostUntil(s, os, i)
    requires w.sent == Some(TickAt(s, p)) && firedAt <= TickAt(s, p)
    requires StaysFiring(s, w, p + 1, os, firedAt, |os|)
    ensures RunFlow(s, w, p + 1, os, i).sent == w.sent
    ensures i < |os| ==> (PostedAt(s, w, p + 1, os, i) <==> i + 1 >= FirstDue(s.interval, s.every) && Accepted(os[i]))
    decreases i
  {
    if i > 0 {
      NextPostExactly(s, w, p, os, firedAt, i - 1);
      RunFlowStep(s, w, p + 1, os, i - 1);
    }
    if i < |os| {
      RunFlowStep(s, w, p + 1, os, i);
      assert IsFiring(RunFlow(s, w, p + 1, os, i + 1), firedAt);
      assert TickAt(s, p + 1 + i) - TickAt(s, p) == (i + 1) * s.every by { Distance(s, p, i + 1); }
      DueExactly(s, i + 1);
    }
  }

  lemma Distance(s: Setup, p: int, d: int)
    ensures TickAt(s, p + d) - TickAt(s, p) == d * s.every
  {
    assert (p + d) * s.every == p * s.every + d * s.every;
  }

  /** How far ahead of its post a firing alert is stamped to expire. */
  function Expiry(s: Setup): Time {
    Validity(s.interval, s.tolerance, s.every)
  }

  /** The span for which a resolved alert stays in the state. */
  function Retention(interval: Time, tolerance: int, groupInterval: Time): Time {
    var period := if groupInterval > interval then groupInterval else interval;
    tolerance * period
  }

  /** A resolve is kept for as long as a firing alert posted with it would have stayed valid. */
  lemma RetentionIsExpiry(s: Setup)
    ensures Retention(s.interval, s.tolerance, s.every) == Expiry(s)
  {
  }

  /** The tolerance covers T - 2 lost due boundaries on every pair of intervals. */
  lemma InTime(interval: Time, every: Time, tolerance: int, d: int)
    requires every > 0 && interval > 0 && tolerance >= 2
    requires d <= FirstDue(interval, every) + tolerance - 2
    ensures d * every < Validity(interval, tolerance, every)
  {
    hide FirstDue;
    var q, lost := FirstDue(interval, every), tolerance - 2;
    var period := if every > interval then every else interval;
    FirstDueBounds(interval, every);
    Machine.KeepsOrder(d, q + lost, every);
    Machine.Distribute(q, lost, every);
    Machine.Distribute(q - 1, 1, every);
    Machine.Distribute(2, lost, period);
    Machine.KeepsOrder(every, period, lost);
    assert q * every < 2 * period && lost * every <= lost * period;
    assert Validity(interval, tolerance, every) == (2 + lost) * period;
  }

  /** No false expiry: with at most T - 2 of the due boundaries lost, the alert is posted again
      strictly before the expiry its last post was stamped with. */
  lemma NoFalseExpiry(s: Setup, w: Flow, p: int, os: seq<Outcome>, firedAt: Time) returns (i: nat)
    requires Sane(s) && s.tolerance >= 2
    requires w.sent == Some(TickAt(s, p)) && firedAt <= TickAt(s, p)
    requires |os| == FirstDue(s.interval, s.every) + s.tolerance - 2
    requires KeptFiring(s, w, p + 1, os, firedAt)
    requires exists j :: FirstDue(s.interval, s.every) - 1 <= j < |os| && Accepted(os[j])
    ensures i < |os| && PostedAt(s, w, p + 1, os, i)
    ensures TickAt(s, p + 1 + i) < TickAt(s, p) + Expiry(s)
    ensures NonePosted(s, w, p + 1, os, i)
  {
    StaysFiringExactly(s, w, p + 1, os, firedAt, |os|);
    hide KeptFiring, StaysFiring;
    FirstDueBounds(s.interval, s.every);
    i := FirstDue(s.interval, s.every) - 1;
    while !Accepted(os[i])
      invariant FirstDue(s.interval, s.every) - 1 <= i < |os|
      invariant LostUntil(s, os, i)
      invariant exists j :: i <= j < |os| && Accepted(os[j])
      decreases |os| - i
    {
      i := i + 1;
    }
    NextPostExactly(s, w, p, os, firedAt, i);
    var k := p + 1;
    forall j | 0 <= j < i ensures !PostedAt(s, w, k, os, j) {
      NextPostExactly(s, w, p, os, firedAt, j);
    }
    InTime(s.interval, s.every, s.tolerance, i + 1);
    Distance(s, p, i + 1);
  }

  /** By how much the first due boundary comes after the resend interval. */
  function Overshoot(interval: Time, every: Time): Time
    requires every > 0
  {
    FirstDue(interval, every) * every - interval
  }

  /** When T - 1 lost boundaries are survived: nothing is lost to rounding, or the boundaries
      after the first due one make up for it. */
  predicate SurvivesOneMore(interval: Time, every: Time, tolerance: int)
    requires every > 0
  {
    every >= interval || Overshoot(interval, every) <= (tolerance - 1) * (interval - every)
  }

  /** T - 1 consecutive failures: the promise of the default tolerance holds exactly under
      `SurvivesOneMore`, and then the alert is posted again no later than its expiry. */
  lemma OneMoreFailureExactly(s: Setup, w: Flow, p: int, os: seq<Outcome>, firedAt: Time)
    requires Sane(s) && s.tolerance >= 1
    requires w.sent == Some(TickAt(s, p)) && firedAt <= TickAt(s, p)
    requires |os| == FirstDue(s.interval, s.every) + s.tolerance - 1
    requires KeptFiring(s, w, p + 1, os, firedAt)
    requires LostUntil(s, os, |os| - 1) && Accepted(os[|os| - 1])
    ensures PostedAt(s, w, p + 1, os, |os| - 1)
    ensures TickAt(s, p + |os|) <= TickAt(s, p) + Expiry(s) <==> SurvivesOneMore(s.interval, s.every, s.tolerance)
  {
    FirstDueBounds(s.interval, s.every);
    StaysFiringExactly(s, w, p + 1, os, firedAt, |os|);
    NextPostExactly(s, w, p, os, firedAt, |os| - 1);
    Distance(s, p, |os|);
    hide KeptFiring, StaysFiring, LostUntil, PostedAt, Accepted, TickAt;
    LongestDistance(s.interval, s.every, s.tolerance);
  }

  /** The distance T - 1 lost due boundaries put between two posts, against the expiry. */
  lemma LongestDistance(interval: Time, every: Time, tolerance: int)
    requires every > 0 && interval > 0 && tolerance >= 1
    ensures (FirstDue(interval, every) + tolerance - 1) * every <= Validity(interval, tolerance, every)
       <==> SurvivesOneMore(interval, every, tolerance)
  {
    FirstDueBounds(interval, every);
    var q := FirstDue(interval, every);
    assert (q + tolerance - 1) * every == q * every + (tolerance - 1) * every;
    assert (tolerance - 1) * (interval - every) == (tolerance - 1) * interval - (tolerance - 1) * every;
    assert tolerance * interval == interval + (tolerance - 1) * interval;
    if every >= interval {
      assert q == 1;
    }
  }

  /** A group interval that divides the resend interval loses nothing to rounding. */
  lemma DividingSurvives(interval: Time, every: Time, tolerance: int)
    requires every > 0 && interval > 0 && interval % every == 0 && tolerance >= 1
    ensures SurvivesOneMore(interval, every, tolerance)
  {
    if every < interval {
      var n := interval / every;
      var q := FirstDue(interval, every);
      FirstDueBounds(interval, every);
      assert interval == n * every;
      if q > n {
        Machine.KeepsOrder(n, q - 1, every);
      } else if q < n {
        Machine.KeepsOrder(q, n - 1, every);
      }
    }
  }

  /** Where every due boundary but the last is lost, the last is the one that posts. */
  lemma PostsOnlyLast(s: Setup, w: Flow, p: int, os: seq<Outcome>, firedAt: Time)
    requires Sane(s) && FirstDue(s.interval, s.every) <= |os|
    requires w.sent == Some(TickAt(s, p)) && firedAt <= TickAt(s, p)
    requires KeptFiring(s, w, p + 1, os, firedAt)
    requires os != [] && LostUntil(s, os, |os| - 1) && Accepted(os[|os| - 1])
    ensures NonePosted(s, w, p + 1, os, |os| - 1) && PostedAt(s, w, p + 1, os, |os| - 1)
  {
    StaysFiringExactly(s, w, p + 1, os, firedAt, |os|);
    hide KeptFiring, StaysFiring, RunFlow, PostedAt;
    var k := p + 1;
    NextPostExactly(s, w, p, os, firedAt, |os| - 1);
    forall i | 0 <= i < |os| - 1 ensures !PostedAt(s, w, k, os, i) {
      NextPostExactly(s, w, p, os, firedAt, i);
    }
  }

  /** The default interval and tolerance on a group ticking every 99 seconds: whenever the three
      boundaries an alert is first due again at are lost, the post that gets through comes after
      the alert has expired. */
  lemma ThreeFailuresExpire(s: Setup, w: Flow, p: int, os: seq<Outcome>, firedAt: Time)
    requires s.interval == 100 && s.every == 99 && s.tolerance == 4
    requires w.sent == Some(TickAt(s, p)) && firedAt <= TickAt(s, p)
    requires |os| == 5 && KeptFiring(s, w, p + 1, os, firedAt)
    requires !Accepted(os[1]) && !Accepted(os[2]) && !Accepted(os[3]) && Accepted(os[4])
    ensures NonePosted(s, w, p + 1, os, 4) && PostedAt(s, w, p + 1, os, 4)
    ensures TickAt(s, p + 5) > TickAt(s, p) + Expiry(s)
  {
    assert FirstDue(100, 99) == 2;
    Distance(s, p, 5);
    hide TickAt, KeptFiring, Accepted, RunFlow, PostedAt, NonePosted;
    PostsOnlyLast(s, w, p, os, firedAt);
  }

  /** And every rule has such runs: a row at each boundary, and the one before the alert is due accepted. */
  lemma ThreeFailuresCanExpire(s: Setup, firing: Alert) returns (w: Flow, os: seq<Outcome>)
    requires s.interval == 100 && s.every == 99 && s.tolerance == 4
    requires firing.phase == Firing && firing.firedAt == TickAt(s, 0)
    ensures w.sent == Some(TickAt(s, 0)) && w.inst.Some? && w.inst.value.alert == firing
    ensures |os| == 5 && forall i :: 0 <= i < 5 ==> os[i].Row? && (Accepted(os[i]) <==> i == 0 || i == 4)
    ensures NonePosted(s, w, 1, os, 4) && PostedAt(s, w, 1, os, 4) && TickAt(s, 5) > TickAt(s, 0) + Expiry(s)
  {
    hide PostedAt, NonePosted, Expiry, RunFlow, TickAt;
    w := Flow(Some(Inst(firing, TickAt(s, 0))), Some(TickAt(s, 0)));
    os := [Row(0.0, true), Row(0.0, false), Row(0.0, false), Row(0.0, false), Row(0.0, true)];
    RowsKeepFiring(s, w, 1, os, TickAt(s, 0));
    ThreeFailuresExpire(s, w, 0, os, TickAt(s, 0));
  }

  // First pages.

  /** A page is not lost to any number of failures: an alert that fired at boundary f is offered
      at every evaluated boundary it is still firing at, until one post of it is accepted. */
  lemma {:induction false} FirstPageIsOffered(s: Setup, w: Flow, f: int, os: seq<Outcome>, i: nat)
    requires Sane(s) && i < |os| && !os[0].NotEvaluated?
    requires w.sent.Some? ==> w.sent.value < TickAt(s, f)
    requires KeptFiring(s, Flow(Evaluate(s, w.inst, f, os[0]), None), f + 1, os[1..], TickAt(s, f))
    requires forall j :: 0 <= j < i ==> !Accepted(os[j])
    ensures IsFiring(RunFlow(s, w, f, os, i + 1), TickAt(s, f))
    ensures RunFlow(s, w, f, os, i).sent == w.sent
    ensures OfferedAt(s, w, f, os, i) <==> !os[i].NotEvaluated?
    decreases i
  {
    RunFlowStep(s, w, f, os, i);
    FiringAfterFirst(s, w, f, os, i);
    if i > 0 {
      FirstPageIsOffered(s, w, f, os, i - 1);
      RunFlowStep(s, w, f, os, i - 1);
    }
    hide KeptFiring, RunFlow, Step;
  }

  /** Whatever is posted, the instance is that of its rows alone. */
  lemma {:induction false} InstIgnoresSent(s: Setup, v: Flow, w: Flow, k: int, os: seq<Outcome>, n: nat)
    requires v.inst == w.inst && n <= |os|
    ensures RunFlow(s, v, k, os, n).inst == RunFlow(s, w, k, os, n).inst
  {
    if n > 0 {
      InstIgnoresSent(s, v, w, k, os, n - 1);
    }
  }

  /** Some boundaries, and then those of a window after them. */
  lemma {:induction false} RunFlowWindow(s: Setup, w: Flow, k: int, os: seq<Outcome>, n: nat, m: nat, i: nat)
    requires n + i <= m <= |os|
    ensures RunFlow(s, w, k, os, n + i) == RunFlow(s, RunFlow(s, w, k, os, n), k + n, os[n..m], i)
    decreases i
  {
    hide StepFlow;
    if i > 0 {
      RunFlowWindow(s, w, k, os, n, m, i - 1);
    }
  }

  lemma FiringAfterFirst(s: Setup, w: Flow, f: int, os: seq<Outcome>, i: nat)
    requires i < |os|
    requires KeptFiring(s, Flow(Evaluate(s, w.inst, f, os[0]), None), f + 1, os[1..], TickAt(s, f))
    ensures IsFiring(RunFlow(s, w, f, os, i + 1), TickAt(s, f))
  {
    var first := Flow(Evaluate(s, w.inst, f, os[0]), None);
    var rest := os[1..];
    StaysFiringExactly(s, first, f + 1, rest, TickAt(s, f), |rest|);
    RunFlowStep(s, w, f, os, 0);
    RunFlowStarts(s, w, f, os);
    assert IsFiring(RunFlow(s, first, f + 1, rest, i), TickAt(s, f));
    hide StaysFiring, KeptFiring, RunFlow, Evaluate, TickAt;
    RunFlowWindow(s, w, f, os, 1, |os|, i);
    assert os[1..|os|] == rest;
    InstIgnoresSent(s, first, RunFlow(s, w, f, os, 1), f + 1, rest, i);
  }

  // Resolves.

  /** The labels do not come back. */
  ghost predicate StaysAway(os: seq<Outcome>) {
    forall i :: 0 <= i < |os| ==> !os[i].Row?
  }

  ghost predicate IsResolved(w: Flow, at: Time) {
    w.inst.Some? && w.inst.value.alert.phase == Resolved && w.inst.value.alert.resolvedAt == at
  }

  /** A resolve is offered on every evaluated boundary of its retention until it is recorded. */
  lemma {:induction false} ResolveIsOffered(s: Setup, w: Flow, r: int, os: seq<Outcome>, i: nat)
    requires Sane(s) && s.tolerance >= 0 && s.cfg.retention == Retention(s.interval, s.tolerance, s.every)
    requires os != [] && os[0].NoRow? && StaysAway(os) && i < |os| <= s.tolerance + 1
    requires w.sent.Some? ==> w.sent.value < TickAt(s, r)
    requires IsResolved(Flow(Evaluate(s, w.inst, r, os[0]), None), TickAt(s, r))
    requires forall j :: 0 <= j < i ==> !Accepted(os[j])
    ensures IsResolved(RunFlow(s, w, r, os, i + 1), TickAt(s, r))
    ensures i == 0 || RunFlow(s, w, r, os, i).sent == w.sent
    ensures OfferedAt(s, w, r, os, i) <==> !os[i].NotEvaluated?
    decreases i
  {
    RunFlowStep(s, w, r, os, i);
    if i > 0 {
      ResolveIsOffered(s, w, r, os, i - 1);
      RunFlowStep(s, w, r, os, i - 1);
      Distance(s, r, i);
      WithinRetention(s, i);
    }
  }

  lemma WithinRetention(s: Setup, d: nat)
    requires Sane(s) && s.tolerance >= d
    ensures d * s.every <= Expiry(s)
  {
    var period := if s.every > s.interval then s.every else s.interval;
    Machine.KeepsOrder(s.every, period, d);
    Machine.KeepsOrder(d, s.tolerance, period);
  }

  /** A resolve is not lost to T failures: one accepted boundary among the T + 1 of its
      retention posts it. */
  lemma ResolveIsDelivered(s: Setup, w: Flow, r: int, os: seq<Outcome>) returns (i: nat)
    requires Sane(s) && s.tolerance >= 0 && s.cfg.retention == Retention(s.interval, s.tolerance, s.every)
    requires |os| == s.tolerance + 1 && os[0].NoRow? && StaysAway(os)
    requires w.sent.Some? ==> w.sent.value < TickAt(s, r)
    requires IsResolved(Flow(Evaluate(s, w.inst, r, os[0]), None), TickAt(s, r))
    requires exists j :: 0 <= j < |os| && Accepted(os[j])
    ensures i < |os| && PostedAt(s, w, r, os, i)
    ensures IsResolved(RunFlow(s, w, r, os, i + 1), TickAt(s, r))
  {
    i := 0;
    while !Accepted(os[i])
      invariant i < |os|
      invariant forall j :: 0 <= j < i ==> !Accepted(os[j])
      invariant exists j :: i <= j < |os| && Accepted(os[j])
      decreases |os| - i
    {
      i := i + 1;
    }
    ResolveIsOffered(s, w, r, os, i);
  }

  /** The phase the alert is in began before `t`. */
  ghost predicate Began(inst: Option<Inst>, t: Time) {
    inst.Some? && inst.value.alert.phase != Pending ==> Since(inst.value.alert) < t
  }

  /** Everything known of an alert happened before `t`; of a new one, nothing is. */
  ghost predicate Before(w: Flow, t: Time) {
    (w.sent.Some? ==> w.sent.value < t) && Began(w.inst, t)
  }

  lemma EvaluateBegan(s: Setup, inst: Option<Inst>, k: int, o: Outcome, t: Time)
    requires Began(inst, TickAt(s, k)) && TickAt(s, k) < t
    ensures Began(Evaluate(s, inst, k, o), t)
  {
    hide TickAt;
  }

  /** Once recorded, a post is never in the future of the boundary being evaluated, and neither
      is the edge it is for. */
  lemma {:induction false} SentIsPast(s: Setup, w: Flow, k: int, os: seq<Outcome>, n: nat)
    requires Sane(s) && Before(w, TickAt(s, k)) && n <= |os|
    ensures Before(RunFlow(s, w, k, os, n), TickAt(s, k + n))
  {
    if n > 0 {
      SentIsPast(s, w, k, os, n - 1);
      Distance(s, k + n - 1, 1);
      RunFlowStep(s, w, k, os, n - 1);
      EvaluateBegan(s, RunFlow(s, w, k, os, n - 1).inst, k + n - 1, os[n - 1], TickAt(s, k + n));
      hide RunFlow, Evaluate, TickAt, Began;
    }
  }

  /** Over any run, an alert that has just fired or just resolved is due at once: nothing sent
      for the phase before it, or for an earlier instance of it, holds it back. */
  lemma EveryEdgeIsDue(s: Setup, w: Flow, k: int, os: seq<Outcome>, n: nat)
    requires Sane(s) && Before(w, TickAt(s, k)) && n < |os| && !os[n].NotEvaluated?
    requires var inst := RunFlow(s, w, k, os, n + 1).inst;
             inst.Some? && inst.value.alert.phase != Pending && Since(inst.value.alert) == TickAt(s, k + n)
    ensures OfferedAt(s, w, k, os, n)
  {
    SentIsPast(s, w, k, os, n);
    RunFlowStep(s, w, k, os, n);
    hide RunFlow, Evaluate, TickAt;
  }

  // The same bounds anywhere inside a longer flow.

  /** The boundaries after `p` within which a posted alert must be posted again. */
  function Span(s: Setup): int
    requires s.every > 0
  {
    FirstDue(s.interval, s.every) + s.tolerance - 2
  }

  /** What happens inside a window is what happens to the flow. */
  lemma WindowPost(s: Setup, w: Flow, os: seq<Outcome>, lo: nat, hi: nat, i: nat)
    requires lo + i < hi <= |os|
    ensures PostedAt(s, w, 0, os, lo + i) <==> PostedAt(s, RunFlow(s, w, 0, os, lo), lo, os[lo..hi], i)
    ensures RunFlow(s, w, 0, os, lo + i + 1) == RunFlow(s, RunFlow(s, w, 0, os, lo), lo, os[lo..hi], i + 1)
  {
    RunFlowWindow(s, w, 0, os, lo, hi, i);
    RunFlowWindow(s, w, 0, os, lo, hi, i + 1);
    hide RunFlow, Posted;
  }

  /** Where a boundary has just posted a firing alert. */
  lemma AfterPost(s: Setup, w: Flow, os: seq<Outcome>, p: nat, firedAt: Time)
    requires Sane(s) && Before(w, TickAt(s, 0)) && p < |os| && PostedAt(s, w, 0, os, p)
    requires IsFiring(RunFlow(s, w, 0, os, p + 1), firedAt)
    ensures RunFlow(s, w, 0, os, p + 1).sent == Some(TickAt(s, p)) && firedAt <= TickAt(s, p)
  {
    SentIsPast(s, w, 0, os, p);
    RunFlowStep(s, w, 0, os, p);
    EvaluateBegan(s, RunFlow(s, w, 0, os, p).inst, p, os[p], TickAt(s, p) + 1);
    hide RunFlow, Evaluate, TickAt;
  }

  /** Some boundary of a window is accepted and not too early. */
  ghost predicate SomeAccepted(os: seq<Outcome>, lo: int, hi: int) {
    exists j :: lo <= j < hi && 0 <= j < |os| && Accepted(os[j])
  }

  /** Wherever a firing alert is posted in a flow, it is posted again before that post expires. */
  lemma PostedAgain(s: Setup, w: Flow, os: seq<Outcome>, p: nat, firedAt: Time) returns (b: nat)
    requires Sane(s) && Before(w, TickAt(s, 0)) && s.tolerance >= 2
    requires p + 1 <= p + 1 + Span(s) <= |os| && PostedAt(s, w, 0, os, p)
    requires KeptFiring(s, RunFlow(s, w, 0, os, p + 1), p + 1, os[p + 1..p + 1 + Span(s)], firedAt)
    requires SomeAccepted(os, p + FirstDue(s.interval, s.every), p + 1 + Span(s))
    ensures p < b < |os| && PostedAt(s, w, 0, os, b) && TickAt(s, b) < TickAt(s, p) + Expiry(s)
    ensures IsFiring(RunFlow(s, w, 0, os, p + 1), firedAt) && IsFiring(RunFlow(s, w, 0, os, b + 1), firedAt)
  {
    hide RunFlow, PostedAt, NonePosted, FirstDue, NeverLapses, Before, TickAt;
    var hi := p + 1 + Span(s);
    var after, window := RunFlow(s, w, 0, os, p + 1), os[p + 1..hi];
    var j :| p + FirstDue(s.interval, s.every) <= j < hi && 0 <= j < |os| && Accepted(os[j]);
    AfterPost(s, w, os, p, firedAt);
    FirstDueBounds(s.interval, s.every);
    assert window[j - p - 1] == os[j];
    var i := NoFalseExpiry(s, after, p, window, firedAt);
    WindowPost(s, w, os, p + 1, hi, i);
    b := p + 1 + i;
    StaysFiringExactly(s, after, p + 1, window, firedAt, |window|);
    assert IsFiring(RunFlow(s, after, p + 1, window, i + 1), firedAt);
  }

  /** Wherever a flow resolves, the resolve is posted within its retention. */
  lemma ResolvePosted(s: Setup, w: Flow, os: seq<Outcome>, q: nat) returns (b: nat)
    requires Sane(s) && Before(w, TickAt(s, 0)) && s.tolerance >= 0
    requires s.cfg.retention == Retention(s.interval, s.tolerance, s.every)
    requires q + s.tolerance + 1 <= |os| && os[q].NoRow? && StaysAway(os[q..q + s.tolerance + 1])
    requires IsResolved(RunFlow(s, w, 0, os, q + 1), TickAt(s, q))
    requires SomeAccepted(os, q, q + s.tolerance + 1)
    ensures q <= b <= q + s.tolerance && PostedAt(s, w, 0, os, b)
    ensures IsResolved(RunFlow(s, w, 0, os, b + 1), TickAt(s, q))
  {
    hide RunFlow, PostedAt, TickAt, Retention, StaysAway;
    var hi := q + s.tolerance + 1;
    var before, window := RunFlow(s, w, 0, os, q), os[q..hi];
    var j :| q <= j < hi && 0 <= j < |os| && Accepted(os[j]);
    assert window[j - q] == os[j] && window[0] == os[q];
    SentIsPast(s, w, 0, os, q);
    RunFlowStep(s, w, 0, os, q);
    var i := ResolveIsDelivered(s, before, q, window);
    WindowPost(s, w, os, q, hi, i);
    b := q + i;
  }
}
